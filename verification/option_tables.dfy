/**
  The three option tables of the dashboard (states, seasons and crops), each
  row giving the Tamil ("ta") and Hindi ("hi") display text of a canonical
  name in declaration order, and what they imply for the select boxes.
 */
module OptionTables {
  import opened Common
  import opened Localization

  /** A row as written in the source: canonical name, Tamil text, Hindi text. */
  type RowText = (string, string, string)

  /** The option row of a source row; each carries a Tamil and a Hindi text. */
  function Row(r: RowText): (row: OptionRow)
    ensures row.name == r.0 && "ta" in row.texts && "hi" in row.texts
  {
    OptionRow(r.0, map["ta" := r.1, "hi" := r.2])
  }

  /** The "states" option table (30 rows). */
  function StateRow(i: nat): (row: RowText)
    requires i < 30
  {
    match i
    case 0 => ("Andhra Pradesh", "ஆந்திரப் பிரதேசம்", "आंध्र प्रदेश")
    case 1 => ("Arunachal Pradesh", "அருணாச்சல பிரதேசம்", "अरुणाचल प्रदेश")
    case 2 => ("Assam", "அசாம்", "असम")
    case 3 => ("Bihar", "பீகார்", "बिहार")
    case 4 => ("Chhattisgarh", "சத்தீஸ்கர்", "छत्तीसगढ़")
    case 5 => ("Delhi", "டெல்லி", "दिल्ली")
    case 6 => ("Goa", "கோவா", "गोवा")
    case 7 => ("Gujarat", "குஜராத்", "गुजरात")
    case 8 => ("Haryana", "ஹரியானா", "हरियाणा")
    case 9 => ("Himachal Pradesh", "இமாச்சல பிரதேசம்", "हिमाचल प्रदेश")
    case 10 => ("Jammu and Kashmir", "ஜம்மு காஷ்மீர்", "जम्मू और कश्मीर")
    case 11 => ("Jharkhand", "ஜார்க்கண்ட்", "झारखंड")
    case 12 => ("Karnataka", "கர்நாடகா", "कर्नाटक")
    case 13 => ("Kerala", "கேரளா", "केरल")
    case 14 => ("Madhya Pradesh", "மத்திய பிரதேசம்", "मध्य प्रदेश")
    case 15 => ("Maharashtra", "மகாராஷ்டிரா", "महाराष्ट्र")
    case 16 => ("Manipur", "மணிப்பூர்", "मणिपुर")
    case 17 => ("Meghalaya", "மேகாலயா", "मेघालय")
    case 18 => ("Mizoram", "மிசோரம்", "मिजोरम")
    case 19 => ("Nagaland", "நாகாலாந்து", "नागालैंड")
    case 20 => ("Odisha", "ஒடிசா", "ओडिशा")
    case 21 => ("Puducherry", "புதுச்சேரி", "पुदुच्चेरी")
    case 22 => ("Punjab", "பஞ்சாப்", "पंजाब")
    case 23 => ("Sikkim", "சிக்கிம்", "सिक्किम")
    case 24 => ("Tamil Nadu", "தமிழ்நாடு", "तमिलनाडु")
    case 25 => ("Telangana", "தெலுங்கானா", "तेलंगाना")
    case 26 => ("Tripura", "திரிபுரா", "त्रिपुरा")
    case 27 => ("Uttar Pradesh", "உத்தரப் பிரதேசம்", "उत्तर प्रदेश")
    case 28 => ("Uttarakhand", "உத்தரகண்ட்", "उत्तराखंड")
    case _ => ("West Bengal", "மேற்கு வங்காளம்", "पश्चिम बंगाल")
  }

  /** The "seasons" option table (6 rows). */
  function SeasonRow(i: nat): (row: RowText)
    requires i < 6
  {
    match i
    case 0 => ("Autumn", "குளிர்காலம்", "पतझड़")
    case 1 => ("Kharif", "கறிஃப்", "खरीफ")
    case 2 => ("Rabi", "ரபி", "रबी")
    case 3 => ("Summer", "கோடை", "गर्मी")
    case 4 => ("Whole Year", "முழு ஆண்டு", "पूरा साल")
    case _ => ("Winter", "குளிர்காலம்", "सर्दी")
  }

  /** The "crops" option table (47 rows). */
  function CropRow(i: nat): (row: RowText)
    requires i < 47
  {
    match i
    case 0 => ("Arecanut", "அரிகுட்டு", "पान")
    case 1 => ("Arhar/Tur", "துவரை", "अरहर")
    case 2 => ("Bajra", "கம்பு", "बाजरा")
    case 3 => ("Banana", "வாழை", "केला")
    case 4 => ("Barley", "பார்லி", "जौ")
    case 5 => ("Black pepper", "மிளகு", "काली मिर्च")
    case 6 => ("Cardamom", "ஏலக்காய்", "इलायची")
    case 7 => ("Cashewnut", "முந்திரி", "काजू")
    case 8 => ("Castor seed", "ரேகை", "अरंडी")
    case 9 => ("Coconut", "தோசை", "नारियल")
    case 10 => ("Coriander", "கொத்தமல்லி", "धनिया")
    case 11 => ("Cotton(lint)", "பஞ்சு", "कपास")
    case 12 => ("Cowpea(Lobia)", "கொம்பு", "लोबिया")
    case 13 => ("Dry chillies", "உலர்ந்த மிளகாய்", "सूखी मिर्च")
    case 14 => ("Garlic", "பூண்டு", "लहसुन")
    case 15 => ("Ginger", "இஞ்சி", "अदरक")
    case 16 => ("Groundnut", "பருத்தி", "मूंगफली")
    case 17 => ("Guar seed", "கொல்லு", "ग्वार")
    case 18 => ("Horse-gram", "குதிரை பருப்பு", "घास")
    case 19 => ("Jowar", "சோளம்", "ज्वार")
    case 20 => ("Jute", "ஜூட்", "जूट")
    case 21 => ("Khesari", "கேசரி", "केसरी")
    case 22 => ("Linseed", "அள்ளு", "अलसी")
    case 23 => ("Maize", "மக்காச்சோளம்", "मक्का")
    case 24 => ("Masoor", "மசூரி", "मसूर")
    case 25 => ("Mesta", "மெஸ்டா", "मेसता")
    case 26 => ("Moong(Green Gram)", "பச்சை பருப்பு", "मूंग")
    case 27 => ("Moth", "மொத்", "मोत")
    case 28 => ("Niger seed", "நிகர்", "निगर")
    case 29 => ("Onion", "வெங்காயம்", "प्याज")
    case 30 => ("Peas & beans (Pulses)", "பீன்ஸ்", "मटर")
    case 31 => ("Potato", "உருளைக்கிழங்கு", "आलू")
    case 32 => ("Ragi", "ரகி", "रागी")
    case 33 => ("Rapeseed &Mustard", "கொத்தமல்லி", "सरसों")
    case 34 => ("Rice", "அரிசி", "चावल")
    case 35 => ("Safflower", "சேம்பரத்தூள்", "सफ्लॉवर")
    case 36 => ("Sannhamp", "சன்னம்", "सन्नम")
    case 37 => ("Sesamum", "எள்ளு", "तिल")
    case 38 => ("Soyabean", "சோயா", "सोयाबीन")
    case 39 => ("Sugarcane", "சர்க்கரை cane", "गन्ना")
    case 40 => ("Sunflower", "சூரியக்கதிர்", "सूरजमुखी")
    case 41 => ("Sweet potato", "இனிப்பு உருளைக்கிழங்கு", "शकरकंद")
    case 42 => ("Tapioca", "கசவா", "साबूदाना")
    case 43 => ("Tobacco", "தம்பாக்கு", "तंबाकू")
    case 44 => ("Turmeric", "மஞ்சள்", "हल्दी")
    case 45 => ("Urad", "உருது", "उरद")
    case _ => ("Wheat", "கோதுமை", "गेहूं")
  }

  const States: OptionTable := seq(30, i requires 0 <= i < 30 => Row(StateRow(i)))
  const Seasons: OptionTable := seq(6, i requires 0 <= i < 6 => Row(SeasonRow(i)))
  const Crops: OptionTable := seq(47, i requires 0 <= i < 47 => Row(CropRow(i)))

  /** Every row of every option table has a Tamil and a Hindi text, so
      translating an option list into either language never raises. */
  lemma TablesCoverTamilAndHindi()
    ensures Covers(States, "ta") && Covers(States, "hi")
    ensures Covers(Seasons, "ta") && Covers(Seasons, "hi")
    ensures Covers(Crops, "ta") && Covers(Crops, "hi")
  {
  }

  // ---------------------------------------------------------------------
  // Case-insensitive uniqueness of the colliding rows, checked row by row
  // against the table data (split in chunks to keep each proof small)
  // ---------------------------------------------------------------------

  /** Season rows 0 to 5 other than row 0 differ from "Autumn" ignoring case. */
  lemma AutumnDiffersInRows0To5()
    ensures forall k :: 0 <= k < 6 && k != 0 ==> !CaselessEqual(SeasonRow(k).0, "Autumn")
  {
    forall k | 0 <= k < 6 && k != 0
      ensures !CaselessEqual(SeasonRow(k).0, "Autumn")
    {
      match k
      case 1 => CaselessDiffers(SeasonRow(1).0, "Autumn", 0);
      case 2 => CaselessDiffers(SeasonRow(2).0, "Autumn", 0);
      case 3 => CaselessDiffers(SeasonRow(3).0, "Autumn", 0);
      case 4 => CaselessDiffers(SeasonRow(4).0, "Autumn", 0);
      case _ => CaselessDiffers(SeasonRow(5).0, "Autumn", 0);
    }
  }

  /** No season row other than "Autumn" equals it ignoring case. */
  lemma AutumnCaselessUnique()
    ensures CaselessUniqueAt(Seasons, 0)
  {
    AutumnDiffersInRows0To5();
    forall k | 0 <= k < |Seasons| && k != 0
      ensures !CaselessEqual(Seasons[k].name, Seasons[0].name)
    {
      assert Seasons[k] == Row(SeasonRow(k)) && Seasons[0] == Row(SeasonRow(0));
    }
  }

  /** Season rows 0 to 5 other than row 5 differ from "Winter" ignoring case. */
  lemma WinterDiffersInRows0To5()
    ensures forall k :: 0 <= k < 6 && k != 5 ==> !CaselessEqual(SeasonRow(k).0, "Winter")
  {
    forall k | 0 <= k < 6 && k != 5
      ensures !CaselessEqual(SeasonRow(k).0, "Winter")
    {
      match k
      case 0 => CaselessDiffers(SeasonRow(0).0, "Winter", 0);
      case 1 => CaselessDiffers(SeasonRow(1).0, "Winter", 0);
      case 2 => CaselessDiffers(SeasonRow(2).0, "Winter", 0);
      case 3 => CaselessDiffers(SeasonRow(3).0, "Winter", 0);
      case _ => CaselessDiffers(SeasonRow(4).0, "Winter", 0);
    }
  }

  /** No season row other than "Winter" equals it ignoring case. */
  lemma WinterCaselessUnique()
    ensures CaselessUniqueAt(Seasons, 5)
  {
    WinterDiffersInRows0To5();
    forall k | 0 <= k < |Seasons| && k != 5
      ensures !CaselessEqual(Seasons[k].name, Seasons[5].name)
    {
      assert Seasons[k] == Row(SeasonRow(k)) && Seasons[5] == Row(SeasonRow(5));
    }
  }

  /** Crop rows 0 to 7 differ from "Coriander" ignoring case. */
  lemma CorianderDiffersInRows0To7()
    ensures forall k :: 0 <= k < 8 ==> !CaselessEqual(CropRow(k).0, "Coriander")
  {
    forall k | 0 <= k < 8
      ensures !CaselessEqual(CropRow(k).0, "Coriander")
    {
      match k
      case 0 => CaselessDiffers(CropRow(0).0, "Coriander", 0);
      case 1 => CaselessDiffers(CropRow(1).0, "Coriander", 0);
      case 2 => CaselessDiffers(CropRow(2).0, "Coriander", 0);
      case 3 => CaselessDiffers(CropRow(3).0, "Coriander", 0);
      case 4 => CaselessDiffers(CropRow(4).0, "Coriander", 0);
      case 5 => CaselessDiffers(CropRow(5).0, "Coriander", 0);
      case 6 => CaselessDiffers(CropRow(6).0, "Coriander", 0);
      case _ => CaselessDiffers(CropRow(7).0, "Coriander", 1);
    }
  }

  /** Crop rows 8 to 15 other than row 10 differ from "Coriander" ignoring case. */
  lemma CorianderDiffersInRows8To15()
    ensures forall k :: 8 <= k < 16 && k != 10 ==> !CaselessEqual(CropRow(k).0, "Coriander")
  {
    forall k | 8 <= k < 16 && k != 10
      ensures !CaselessEqual(CropRow(k).0, "Coriander")
    {
      match k
      case 8 => CaselessDiffers(CropRow(8).0, "Coriander", 0);
      case 9 => CaselessDiffers(CropRow(9).0, "Coriander", 0);
      case 11 => CaselessDiffers(CropRow(11).0, "Coriander", 0);
      case 12 => CaselessDiffers(CropRow(12).0, "Coriander", 0);
      case 13 => CaselessDiffers(CropRow(13).0, "Coriander", 0);
      case 14 => CaselessDiffers(CropRow(14).0, "Coriander", 0);
      case _ => CaselessDiffers(CropRow(15).0, "Coriander", 0);
    }
  }

  /** Crop rows 16 to 23 differ from "Coriander" ignoring case. */
  lemma CorianderDiffersInRows16To23()
    ensures forall k :: 16 <= k < 24 ==> !CaselessEqual(CropRow(k).0, "Coriander")
  {
    forall k | 16 <= k < 24
      ensures !CaselessEqual(CropRow(k).0, "Coriander")
    {
      match k
      case 16 => CaselessDiffers(CropRow(16).0, "Coriander", 0);
      case 17 => CaselessDiffers(CropRow(17).0, "Coriander", 0);
      case 18 => CaselessDiffers(CropRow(18).0, "Coriander", 0);
      case 19 => CaselessDiffers(CropRow(19).0, "Coriander", 0);
      case 20 => CaselessDiffers(CropRow(20).0, "Coriander", 0);
      case 21 => CaselessDiffers(CropRow(21).0, "Coriander", 0);
      case 22 => CaselessDiffers(CropRow(22).0, "Coriander", 0);
      case _ => CaselessDiffers(CropRow(23).0, "Coriander", 0);
    }
  }

  /** Crop rows 24 to 31 differ from "Coriander" ignoring case. */
  lemma CorianderDiffersInRows24To31()
    ensures forall k :: 24 <= k < 32 ==> !CaselessEqual(CropRow(k).0, "Coriander")
  {
    forall k | 24 <= k < 32
      ensures !CaselessEqual(CropRow(k).0, "Coriander")
    {
      match k
      case 24 => CaselessDiffers(CropRow(24).0, "Coriander", 0);
      case 25 => CaselessDiffers(CropRow(25).0, "Coriander", 0);
      case 26 => CaselessDiffers(CropRow(26).0, "Coriander", 0);
      case 27 => CaselessDiffers(CropRow(27).0, "Coriander", 0);
      case 28 => CaselessDiffers(CropRow(28).0, "Coriander", 0);
      case 29 => CaselessDiffers(CropRow(29).0, "Coriander", 0);
      case 30 => CaselessDiffers(CropRow(30).0, "Coriander", 0);
      case _ => CaselessDiffers(CropRow(31).0, "Coriander", 0);
    }
  }

  /** Crop rows 32 to 39 differ from "Coriander" ignoring case. */
  lemma CorianderDiffersInRows32To39()
    ensures forall k :: 32 <= k < 40 ==> !CaselessEqual(CropRow(k).0, "Coriander")
  {
    forall k | 32 <= k < 40
      ensures !CaselessEqual(CropRow(k).0, "Coriander")
    {
      match k
      case 32 => CaselessDiffers(CropRow(32).0, "Coriander", 0);
      case 33 => CaselessDiffers(CropRow(33).0, "Coriander", 0);
      case 34 => CaselessDiffers(CropRow(34).0, "Coriander", 0);
      case 35 => CaselessDiffers(CropRow(35).0, "Coriander", 0);
      case 36 => CaselessDiffers(CropRow(36).0, "Coriander", 0);
      case 37 => CaselessDiffers(CropRow(37).0, "Coriander", 0);
      case 38 => CaselessDiffers(CropRow(38).0, "Coriander", 0);
      case _ => CaselessDiffers(CropRow(39).0, "Coriander", 0);
    }
  }

  /** Crop rows 40 to 46 differ from "Coriander" ignoring case. */
  lemma CorianderDiffersInRows40To46()
    ensures forall k :: 40 <= k < 47 ==> !CaselessEqual(CropRow(k).0, "Coriander")
  {
    forall k | 40 <= k < 47
      ensures !CaselessEqual(CropRow(k).0, "Coriander")
    {
      match k
      case 40 => CaselessDiffers(CropRow(40).0, "Coriander", 0);
      case 41 => CaselessDiffers(CropRow(41).0, "Coriander", 0);
      case 42 => CaselessDiffers(CropRow(42).0, "Coriander", 0);
      case 43 => CaselessDiffers(CropRow(43).0, "Coriander", 0);
      case 44 => CaselessDiffers(CropRow(44).0, "Coriander", 0);
      case 45 => CaselessDiffers(CropRow(45).0, "Coriander", 0);
      case _ => CaselessDiffers(CropRow(46).0, "Coriander", 0);
    }
  }

  /** No crop row other than "Coriander" equals it ignoring case. */
  lemma CorianderCaselessUnique()
    ensures CaselessUniqueAt(Crops, 10)
  {
    CorianderDiffersInRows0To7();
    CorianderDiffersInRows8To15();
    CorianderDiffersInRows16To23();
    CorianderDiffersInRows24To31();
    CorianderDiffersInRows32To39();
    CorianderDiffersInRows40To46();
    forall k | 0 <= k < |Crops| && k != 10
      ensures !CaselessEqual(Crops[k].name, Crops[10].name)
    {
      assert Crops[k] == Row(CropRow(k)) && Crops[10] == Row(CropRow(10));
    }
  }

  /** Crop rows 0 to 7 differ from "Rapeseed &Mustard" ignoring case. */
  lemma RapeseedDiffersInRows0To7()
    ensures forall k :: 0 <= k < 8 ==> !CaselessEqual(CropRow(k).0, "Rapeseed &Mustard")
  {
    forall k | 0 <= k < 8
      ensures !CaselessEqual(CropRow(k).0, "Rapeseed &Mustard")
    {
      match k
      case 0 => CaselessDiffers(CropRow(0).0, "Rapeseed &Mustard", 0);
      case 1 => CaselessDiffers(CropRow(1).0, "Rapeseed &Mustard", 0);
      case 2 => CaselessDiffers(CropRow(2).0, "Rapeseed &Mustard", 0);
      case 3 => CaselessDiffers(CropRow(3).0, "Rapeseed &Mustard", 0);
      case 4 => CaselessDiffers(CropRow(4).0, "Rapeseed &Mustard", 0);
      case 5 => CaselessDiffers(CropRow(5).0, "Rapeseed &Mustard", 0);
      case 6 => CaselessDiffers(CropRow(6).0, "Rapeseed &Mustard", 0);
      case _ => CaselessDiffers(CropRow(7).0, "Rapeseed &Mustard", 0);
    }
  }

  /** Crop rows 8 to 15 differ from "Rapeseed &Mustard" ignoring case. */
  lemma RapeseedDiffersInRows8To15()
    ensures forall k :: 8 <= k < 16 ==> !CaselessEqual(CropRow(k).0, "Rapeseed &Mustard")
  {
    forall k | 8 <= k < 16
      ensures !CaselessEqual(CropRow(k).0, "Rapeseed &Mustard")
    {
      match k
      case 8 => CaselessDiffers(CropRow(8).0, "Rapeseed &Mustard", 0);
      case 9 => CaselessDiffers(CropRow(9).0, "Rapeseed &Mustard", 0);
      case 10 => CaselessDiffers(CropRow(10).0, "Rapeseed &Mustard", 0);
      case 11 => CaselessDiffers(CropRow(11).0, "Rapeseed &Mustard", 0);
      case 12 => CaselessDiffers(CropRow(12).0, "Rapeseed &Mustard", 0);
      case 13 => CaselessDiffers(CropRow(13).0, "Rapeseed &Mustard", 0);
      case 14 => CaselessDiffers(CropRow(14).0, "Rapeseed &Mustard", 0);
      case _ => CaselessDiffers(CropRow(15).0, "Rapeseed &Mustard", 0);
    }
  }

  /** Crop rows 16 to 23 differ from "Rapeseed &Mustard" ignoring case. */
  lemma RapeseedDiffersInRows16To23()
    ensures forall k :: 16 <= k < 24 ==> !CaselessEqual(CropRow(k).0, "Rapeseed &Mustard")
  {
    forall k | 16 <= k < 24
      ensures !CaselessEqual(CropRow(k).0, "Rapeseed &Mustard")
    {
      match k
      case 16 => CaselessDiffers(CropRow(16).0, "Rapeseed &Mustard", 0);
      case 17 => CaselessDiffers(CropRow(17).0, "Rapeseed &Mustard", 0);
      case 18 => CaselessDiffers(CropRow(18).0, "Rapeseed &Mustard", 0);
      case 19 => CaselessDiffers(CropRow(19).0, "Rapeseed &Mustard", 0);
      case 20 => CaselessDiffers(CropRow(20).0, "Rapeseed &Mustard", 0);
      case 21 => CaselessDiffers(CropRow(21).0, "Rapeseed &Mustard", 0);
      case 22 => CaselessDiffers(CropRow(22).0, "Rapeseed &Mustard", 0);
      case _ => CaselessDiffers(CropRow(23).0, "Rapeseed &Mustard", 0);
    }
  }

  /** Crop rows 24 to 31 differ from "Rapeseed &Mustard" ignoring case. */
  lemma RapeseedDiffersInRows24To31()
    ensures forall k :: 24 <= k < 32 ==> !CaselessEqual(CropRow(k).0, "Rapeseed &Mustard")
  {
    forall k | 24 <= k < 32
      ensures !CaselessEqual(CropRow(k).0, "Rapeseed &Mustard")
    {
      match k
      case 24 => CaselessDiffers(CropRow(24).0, "Rapeseed &Mustard", 0);
      case 25 => CaselessDiffers(CropRow(25).0, "Rapeseed &Mustard", 0);
      case 26 => CaselessDiffers(CropRow(26).0, "Rapeseed &Mustard", 0);
      case 27 => CaselessDiffers(CropRow(27).0, "Rapeseed &Mustard", 0);
      case 28 => CaselessDiffers(CropRow(28).0, "Rapeseed &Mustard", 0);
      case 29 => CaselessDiffers(CropRow(29).0, "Rapeseed &Mustard", 0);
      case 30 => CaselessDiffers(CropRow(30).0, "Rapeseed &Mustard", 0);
      case _ => CaselessDiffers(CropRow(31).0, "Rapeseed &Mustard", 0);
    }
  }

  /** Crop rows 32 to 39 other than row 33 differ from "Rapeseed &Mustard" ignoring case. */
  lemma RapeseedDiffersInRows32To39()
    ensures forall k :: 32 <= k < 40 && k != 33 ==> !CaselessEqual(CropRow(k).0, "Rapeseed &Mustard")
  {
    forall k | 32 <= k < 40 && k != 33
      ensures !CaselessEqual(CropRow(k).0, "Rapeseed &Mustard")
    {
      match k
      case 32 => CaselessDiffers(CropRow(32).0, "Rapeseed &Mustard", 0);
      case 34 => CaselessDiffers(CropRow(34).0, "Rapeseed &Mustard", 0);
      case 35 => CaselessDiffers(CropRow(35).0, "Rapeseed &Mustard", 0);
      case 36 => CaselessDiffers(CropRow(36).0, "Rapeseed &Mustard", 0);
      case 37 => CaselessDiffers(CropRow(37).0, "Rapeseed &Mustard", 0);
      case 38 => CaselessDiffers(CropRow(38).0, "Rapeseed &Mustard", 0);
      case _ => CaselessDiffers(CropRow(39).0, "Rapeseed &Mustard", 0);
    }
  }

  /** Crop rows 40 to 46 differ from "Rapeseed &Mustard" ignoring case. */
  lemma RapeseedDiffersInRows40To46()
    ensures forall k :: 40 <= k < 47 ==> !CaselessEqual(CropRow(k).0, "Rapeseed &Mustard")
  {
    forall k | 40 <= k < 47
      ensures !CaselessEqual(CropRow(k).0, "Rapeseed &Mustard")
    {
      match k
      case 40 => CaselessDiffers(CropRow(40).0, "Rapeseed &Mustard", 0);
      case 41 => CaselessDiffers(CropRow(41).0, "Rapeseed &Mustard", 0);
      case 42 => CaselessDiffers(CropRow(42).0, "Rapeseed &Mustard", 0);
      case 43 => CaselessDiffers(CropRow(43).0, "Rapeseed &Mustard", 0);
      case 44 => CaselessDiffers(CropRow(44).0, "Rapeseed &Mustard", 0);
      case 45 => CaselessDiffers(CropRow(45).0, "Rapeseed &Mustard", 0);
      case _ => CaselessDiffers(CropRow(46).0, "Rapeseed &Mustard", 0);
    }
  }

  /** No crop row other than "Rapeseed &Mustard" equals it ignoring case. */
  lemma RapeseedCaselessUnique()
    ensures CaselessUniqueAt(Crops, 33)
  {
    RapeseedDiffersInRows0To7();
    RapeseedDiffersInRows8To15();
    RapeseedDiffersInRows16To23();
    RapeseedDiffersInRows24To31();
    RapeseedDiffersInRows32To39();
    RapeseedDiffersInRows40To46();
    forall k | 0 <= k < |Crops| && k != 33
      ensures !CaselessEqual(Crops[k].name, Crops[33].name)
    {
      assert Crops[k] == Row(CropRow(k)) && Crops[33] == Row(CropRow(33));
    }
  }

  /** Row 0 of the season table is "Autumn" (main.py:280). */
  lemma AutumnRowFacts()
    ensures 0 < |Seasons| && Seasons[0].name == "Autumn"
    ensures "ta" in Seasons[0].texts && Seasons[0].texts["ta"] == "குளிர்காலம்"
  {
    assert Seasons[0] == Row(SeasonRow(0));
  }

  /** Row 5 of the season table is "Winter" with the same Tamil text (main.py:285). */
  lemma WinterRowFacts()
    ensures 5 < |Seasons| && Seasons[5].name == "Winter"
    ensures "ta" in Seasons[5].texts && Seasons[5].texts["ta"] == "குளிர்காலம்"
  {
    assert Seasons[5] == Row(SeasonRow(5));
  }

  /** Row 10 of the crop table is "Coriander" (main.py:298). */
  lemma CorianderRowFacts()
    ensures 10 < |Crops| && Crops[10].name == "Coriander"
    ensures "ta" in Crops[10].texts && Crops[10].texts["ta"] == "கொத்தமல்லி"
  {
    assert Crops[10] == Row(CropRow(10));
  }

  /** Row 33 of the crop table is "Rapeseed &Mustard" with the same Tamil text (main.py:321). */
  lemma RapeseedRowFacts()
    ensures 33 < |Crops| && Crops[33].name == "Rapeseed &Mustard"
    ensures "ta" in Crops[33].texts && Crops[33].texts["ta"] == "கொத்தமல்லி"
  {
    assert Crops[33] == Row(CropRow(33));
  }

  /** Every spelling that strips and folds to "Autumn" is shown in Tamil as
      the text of the Autumn row. */
  lemma AutumnLabel(opt: string)
    requires CaselessEqual(Strip(opt), "Autumn")
    ensures TranslateOption(Seasons, "ta", opt) == Ok("குளிர்காலம்")
  {
    AutumnRowFacts();
    AutumnCaselessUnique();
    ResolveUniqueCaseless(Seasons, "ta", opt, 0);
  }

  /** Every spelling that strips and folds to "Winter" is shown in Tamil as
      the text of the Winter row, which is the Autumn row's text. */
  lemma WinterLabel(opt: string)
    requires CaselessEqual(Strip(opt), "Winter")
    ensures TranslateOption(Seasons, "ta", opt) == Ok("குளிர்காலம்")
  {
    WinterRowFacts();
    WinterCaselessUnique();
    ResolveUniqueCaseless(Seasons, "ta", opt, 5);
  }

  /** Any spelling of "Autumn" and any spelling of "Winter" have the same
      Tamil text. */
  lemma AutumnWinterCollide(autumn: string, winter: string)
    requires CaselessEqual(Strip(autumn), "Autumn") && CaselessEqual(Strip(winter), "Winter")
    ensures TranslateOption(Seasons, "ta", autumn) == TranslateOption(Seasons, "ta", winter)
  {
    AutumnLabel(autumn);
    WinterLabel(winter);
  }

  /** Every spelling that strips and folds to "Coriander" is shown in Tamil
      as the text of the Coriander row. */
  lemma CorianderLabel(opt: string)
    requires CaselessEqual(Strip(opt), "Coriander")
    ensures TranslateOption(Crops, "ta", opt) == Ok("கொத்தமல்லி")
  {
    CorianderRowFacts();
    CorianderCaselessUnique();
    ResolveUniqueCaseless(Crops, "ta", opt, 10);
  }

  /** Every spelling that strips and folds to "Rapeseed &Mustard" is shown in
      Tamil as the text of its row, which is the Coriander row's text. */
  lemma RapeseedLabel(opt: string)
    requires CaselessEqual(Strip(opt), "Rapeseed &Mustard")
    ensures TranslateOption(Crops, "ta", opt) == Ok("கொத்தமல்லி")
  {
    RapeseedRowFacts();
    RapeseedCaselessUnique();
    ResolveUniqueCaseless(Crops, "ta", opt, 33);
  }

  /** Any spelling of "Coriander" and any spelling of "Rapeseed &Mustard"
      have the same Tamil text. */
  lemma CorianderRapeseedCollide(coriander: string, rapeseed: string)
    requires CaselessEqual(Strip(coriander), "Coriander")
    requires CaselessEqual(Strip(rapeseed), "Rapeseed &Mustard")
    ensures TranslateOption(Crops, "ta", coriander) == TranslateOption(Crops, "ta", rapeseed)
  {
    CorianderLabel(coriander);
    RapeseedLabel(rapeseed);
  }

  /** In Tamil, every spelling of "Autumn" and of "Winter" that strips and
      folds to them is shown as the same word. So in any season list where
      such an "Autumn" class occurs once and a "Winter" class comes after it
      (the label encoder lists classes in sorted order), the season select
      box can never yield that "Autumn" class. */
  lemma TamilAutumnUnreachable(names: seq<string>, i: nat, j: nat)
    requires i < j < |names|
    requires CaselessEqual(Strip(names[i]), "Autumn") && CaselessEqual(Strip(names[j]), "Winter")
    requires forall k :: 0 <= k < |names| && k != i ==> names[k] != names[i]
    ensures TranslatedOptions(Seasons, Tamil, names).Ok?
    ensures names[i] !in ReverseMap(TranslatedOptions(Seasons, Tamil, names).value, names).Values
  {
    TablesCoverTamilAndHindi();
    TranslatedOptionsTotal(Seasons, Tamil, names);
    AutumnLabel(names[i]);
    WinterLabel(names[j]);
    ShadowedUnreachable(TranslatedOptions(Seasons, Tamil, names).value, names, i, j);
  }

  /** In Tamil, every spelling of "Coriander" and of "Rapeseed &Mustard" that
      strips and folds to them is shown as the same word, so such a
      "Coriander" class is unreachable from the crop select box whenever it
      occurs once and a "Rapeseed &Mustard" class follows it. */
  lemma TamilCorianderUnreachable(names: seq<string>, i: nat, j: nat)
    requires i < j < |names|
    requires CaselessEqual(Strip(names[i]), "Coriander") && CaselessEqual(Strip(names[j]), "Rapeseed &Mustard")
    requires forall k :: 0 <= k < |names| && k != i ==> names[k] != names[i]
    ensures TranslatedOptions(Crops, Tamil, names).Ok?
    ensures names[i] !in ReverseMap(TranslatedOptions(Crops, Tamil, names).value, names).Values
  {
    TablesCoverTamilAndHindi();
    TranslatedOptionsTotal(Crops, Tamil, names);
    CorianderLabel(names[i]);
    RapeseedLabel(names[j]);
    ShadowedUnreachable(TranslatedOptions(Crops, Tamil, names).value, names, i, j);
  }
}

/**
  The per-session cache of the dashboard: a map from key names to values
  that survives across button presses, the start-of-run initialisation, and
  the reset performed when the selected language changes.
 */
module Session {
  import opened Localization

  /** Raw bytes, such as an encoded PNG image. */
  type Bytes = seq<bv8>

  /** The values the program keeps in the session. `Nothing` is Python's
      None; a one-row data frame of inputs is kept as its `Numbers`;
      `Images` is a dictionary from crop name to an encoded image. */
  datatype Value =
    | Nothing
    | Text(s: string)
    | Number(x: real)
    | Texts(items: seq<string>)
    | Numbers(values: seq<real>)
    | Images(byCrop: map<string, Bytes>)

  type Store = map<string, Value>

  const PrevLanguage: string := "prev_language"
  const TopCrops: string := "top_crops"
  const TopConfidences: string := "top_confidences"
  const PredictedYield: string := "predicted_yield"
  const InputFeatures: string := "input_features"
  const LimeExplanations: string := "lime_explanations"
  const WastePred: string := "waste_pred"
  const CompostYield: string := "compost_yield"

  /** The widget keys of the three option select boxes, whose remembered
      choice is a display label of the previous language. */
  const SelectionKeys: set<string> :=
    {"selected_state_translated", "selected_season_translated", "selected_crop_translated"}

  /** `session.get(key)`: the stored value, or None when the key is absent. */
  function Get(s: Store, key: string): (v: Value)
  {
    if key in s then s[key] else Nothing
  }

  /** `session.get(key) is not None`: the key is present and not None. */
  predicate IsSet(s: Store, key: string)
  {
    key in s && s[key] != Nothing
  }

  /** The shapes the program itself stores: a non-empty list of crop names
      or None for the top crops, a number or None for the yield, and numbers
      for the waste and compost estimates. */
  predicate WellTyped(s: Store)
  {
    && (TopCrops in s ==> s[TopCrops] == Nothing || (s[TopCrops].Texts? && |s[TopCrops].items| > 0))
    && (PredictedYield in s ==> s[PredictedYield] == Nothing || s[PredictedYield].Number?)
    && (WastePred in s ==> s[WastePred].Number?)
    && (CompostYield in s ==> s[CompostYield].Number?)
  }

  /** Every key other than those in `changed` is present in both stores or in
      neither, with the same value. */
  predicate SameOutside(s: Store, t: Store, changed: set<string>)
  {
    && (forall k :: k in s && k !in changed ==> k in t && t[k] == s[k])
    && (forall k :: k in t && k !in changed ==> k in s)
  }

  /** The first thing every run does: remember English as the previous
      language unless some language is already remembered. */
  function StartRun(s: Store): (r: Store)
    ensures PrevLanguage in r
    ensures PrevLanguage in s ==> r == s
    ensures PrevLanguage !in s ==> r[PrevLanguage] == Text(English.Name())
    ensures SameOutside(s, r, {PrevLanguage})
  {
    if PrevLanguage in s then s else s[PrevLanguage := Text(English.Name())]
  }

  /** The module caches start out as None (and the explanation images as an
      empty collection) the first time a session runs; present entries are
      kept as they are. */
  function InitModules(s: Store): (r: Store)
    ensures forall k :: k in {TopCrops, PredictedYield, InputFeatures, LimeExplanations} ==> k in r
    ensures forall k :: k in {TopCrops, PredictedYield, InputFeatures} && k !in s ==> r[k] == Nothing
    ensures LimeExplanations !in s ==> r[LimeExplanations] == Images(map[])
    ensures forall k :: k in s ==> k in r && r[k] == s[k]
    ensures SameOutside(s, r, {TopCrops, PredictedYield, InputFeatures, LimeExplanations})
  {
    var s1 := if TopCrops in s then s else s[TopCrops := Nothing];
    var s2 := if PredictedYield in s1 then s1 else s1[PredictedYield := Nothing];
    var s3 := if InputFeatures in s2 then s2 else s2[InputFeatures := Nothing];
    if LimeExplanations in s3 then s3 else s3[LimeExplanations := Images(map[])]
  }

  /** Every later run finds the entries in place, so initialising again
      changes nothing. */
  lemma InitModulesIdempotent(s: Store)
    ensures InitModules(InitModules(s)) == InitModules(s)
  {
  }

  /** The sidebar step: when the selected language differs from the one
      remembered, the new one is remembered and the three select-box choices
      are forgotten; every other entry is left as it was. When the language
      is the remembered one nothing changes. */
  function LanguageReset(s: Store, lang: Language): (r: Store)
    requires PrevLanguage in s
    ensures PrevLanguage in r && r[PrevLanguage] == Text(lang.Name())
    ensures s[PrevLanguage] == Text(lang.Name()) ==> r == s
    ensures s[PrevLanguage] != Text(lang.Name()) ==>
              && (forall k :: k in SelectionKeys ==> k !in r)
              && SameOutside(s, r, SelectionKeys + {PrevLanguage})
  {
    if s[PrevLanguage] != Text(lang.Name()) then
      s[PrevLanguage := Text(lang.Name())] - SelectionKeys
    else
      s
  }

  /** Applying the reset a second time for the same language changes nothing. */
  lemma LanguageResetIdempotent(s: Store, lang: Language)
    requires PrevLanguage in s
    ensures LanguageReset(LanguageReset(s, lang), lang) == LanguageReset(s, lang)
  {
  }

  /** A run that starts a fresh session in English keeps whatever choices the
      select boxes hold; a fresh session in another language drops them. */
  lemma FreshSessionReset(s: Store, lang: Language)
    requires PrevLanguage !in s
    ensures var r := LanguageReset(StartRun(s), lang);
            (lang == English ==> r == StartRun(s))
            && (lang != English ==> forall k :: k in SelectionKeys ==> k !in r)
  {
    CodesDistinct(lang, English);
  }

  /** Changing the language never touches the cached module results, so what
      the waste and compost modules may read survives a language switch. */
  lemma LanguageResetKeepsModuleCache(s: Store, lang: Language, key: string)
    requires PrevLanguage in s
    requires key !in SelectionKeys && key != PrevLanguage
    ensures key in LanguageReset(s, lang) <==> key in s
    ensures key in s ==> LanguageReset(s, lang)[key] == s[key]
    ensures IsSet(LanguageReset(s, lang), key) <==> IsSet(s, key)
  {
  }
}

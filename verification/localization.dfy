/**
  The localization layer of the dashboard: the static label lookup with its
  fall-back-to-key rule, the translation of category option lists (states,
  seasons, crops) with an exact and then a case-insensitive match, and the
  reverse maps from a displayed option label back to the canonical name.
 */
module Localization {
  import opened Common

  /** The three languages the sidebar radio button offers. */
  datatype Language = English | Tamil | Hindi {
    /** The language code used as the innermost key of every table: "en",
        "ta" or "hi", one per language. */
    function Code(): (c: string)
      ensures (c == "en" <==> this == English) && (c == "ta" <==> this == Tamil)
      ensures c == "hi" <==> this == Hindi
    {
      match this
      case English => "en"
      case Tamil => "ta"
      case Hindi => "hi"
    }

    /** The label the radio button returns, which is also what the session
        remembers as the previous language. */
    function Name(): (n: string)
      ensures n in ["English", "Tamil", "Hindi"]
      ensures (n == "English" <==> this == English) && (n == "Tamil" <==> this == Tamil)
      ensures n == "Hindi" <==> this == Hindi
    {
      match this
      case English => "English"
      case Tamil => "Tamil"
      case Hindi => "Hindi"
    }
  }

  lemma CodesDistinct(a: Language, b: Language)
    ensures a.Code() == b.Code() <==> a == b
    ensures a.Name() == b.Name() <==> a == b
  {
  }

  // ---------------------------------------------------------------------
  // Label lookup
  // ---------------------------------------------------------------------

  /** section -> key -> language code -> display text. */
  type LabelTable = map<string, map<string, map<string, string>>>

  /** The same table seen as one flat mapping keyed by
      (section, key, language code). */
  function Flatten(t: LabelTable): (flat: map<(string, string, string), string>)
    ensures forall e :: e in flat <==> e.0 in t && e.1 in t[e.0] && e.2 in t[e.0][e.1]
    ensures forall e :: e in flat ==> flat[e] == t[e.0][e.1][e.2]
  {
    map e | e in FlatKeys(t) :: t[e.0][e.1][e.2]
  }

  function FlatKeys(t: LabelTable): (keys: set<(string, string, string)>)
    ensures forall e :: e in keys <==> e.0 in t && e.1 in t[e.0] && e.2 in t[e.0][e.1]
  {
    set s, k, c | s in t && k in t[s] && c in t[s][k] :: (s, k, c)
  }

  /** Looks up a label: when the section, the key and the language all exist
      the stored text is returned; a missing level at any depth falls back to
      the key itself, and no input makes the lookup fail. The dedicated branch
      for "other_sections" reads the same table entry as the general one. */
  function Translation(t: LabelTable, key: string, section: string, lang: Language): (r: string)
    ensures (section in t && key in t[section] && lang.Code() in t[section][key])
              ==> r == t[section][key][lang.Code()]
    ensures !(section in t && key in t[section] && lang.Code() in t[section][key]) ==> r == key
  {
    if section == "other_sections" then
      if "other_sections" in t && key in t["other_sections"] && lang.Code() in t["other_sections"][key]
      then t["other_sections"][key][lang.Code()]
      else key
    else
      if section in t && key in t[section] && lang.Code() in t[section][key]
      then t[section][key][lang.Code()]
      else key
  }

  /** The nested lookup agrees with the flat (section, key, language) view:
      an entry of the flat table is returned when there is one, and the key
      otherwise. */
  lemma TranslationIsFlatLookup(t: LabelTable, key: string, section: string, lang: Language)
    ensures var flat := Flatten(t);
            var e := (section, key, lang.Code());
            Translation(t, key, section, lang) == (if e in flat then flat[e] else key)
  {
    var e := (section, key, lang.Code());
    assert e in FlatKeys(t) <==> section in t && key in t[section] && lang.Code() in t[section][key];
  }

  // ---------------------------------------------------------------------
  // Python's str.strip() and ASCII str.lower()
  // ---------------------------------------------------------------------

  /** The characters Python's str.strip() removes when given no argument:
      those for which str.isspace() holds. */
  predicate IsSpace(c: char)
  {
    var n := c as int;
    (9 <= n <= 13) || (28 <= n <= 32) || n == 0x85 || n == 0xA0 || n == 0x1680
    || (0x2000 <= n <= 0x200A) || n == 0x2028 || n == 0x2029 || n == 0x202F
    || n == 0x205F || n == 0x3000
  }

  /** Removes leading whitespace: the result is a suffix of the input, what
      was removed is all whitespace, and the result does not start with it. */
  function TrimStart(s: string): (r: string)
    ensures |r| <= |s| && r == s[|s| - |r|..]
    ensures forall k :: 0 <= k < |s| - |r| ==> IsSpace(s[k])
    ensures r != [] ==> !IsSpace(r[0])
  {
    if s != [] && IsSpace(s[0]) then TrimStart(s[1..]) else s
  }

  /** Removes trailing whitespace: the result is a prefix of the input, what
      was removed is all whitespace, and the result does not end with it. */
  function TrimEnd(s: string): (r: string)
    ensures |r| <= |s| && r == s[..|r|]
    ensures forall k :: |r| <= k < |s| ==> IsSpace(s[k])
    ensures r != [] ==> !IsSpace(r[|r| - 1])
  {
    if s != [] && IsSpace(s[|s| - 1]) then TrimEnd(s[..|s| - 1]) else s
  }

  /** str.strip(): a contiguous slice of the input, all of whose removed
      characters are whitespace, and which neither starts nor ends with
      whitespace. */
  function Strip(s: string): (r: string)
    ensures |r| <= |s|
    ensures exists i :: StrippedAt(s, r, i)
    ensures r != [] ==> !IsSpace(r[0]) && !IsSpace(r[|r| - 1])
  {
    var left := TrimStart(s);
    var r := TrimEnd(left);
    var i := |s| - |left|;
    assert r == s[i..i + |r|];
    assert StrippedAt(s, r, i);
    r
  }

  /** `r` sits at position `i` of `s` with only whitespace around it. */
  predicate StrippedAt(s: string, r: string, i: nat)
  {
    i + |r| <= |s| && r == s[i..i + |r|]
    && (forall k :: 0 <= k < i ==> IsSpace(s[k]))
    && (forall k :: i + |r| <= k < |s| ==> IsSpace(s[k]))
  }

  /** A string with no surrounding whitespace is its own strip. */
  lemma StripIdentity(s: string)
    requires s == [] || (!IsSpace(s[0]) && !IsSpace(s[|s| - 1]))
    ensures Strip(s) == s
  {
  }

  /** Stripping twice is stripping once. */
  lemma StripIdempotent(s: string)
    ensures Strip(Strip(s)) == Strip(s)
  {
    StripIdentity(Strip(s));
  }

  /** One character of str.lower() on ASCII: upper-case letters move to
      lower case and every other character is kept. */
  function LowerChar(c: char): (d: char)
    ensures 'A' <= c <= 'Z' ==> 'a' <= d <= 'z' && d as int - c as int == 32
    ensures !('A' <= c <= 'Z') ==> d == c
  {
    if 'A' <= c <= 'Z' then (c as int + 32) as char else c
  }

  /** str.lower() restricted to ASCII letters: every upper-case ASCII letter
      becomes its lower-case form and every other character is kept. */
  function Lower(s: string): (r: string)
    ensures |r| == |s|
    ensures forall k :: 0 <= k < |s| ==>
              (if 'A' <= s[k] <= 'Z' then r[k] as int == s[k] as int + 32 else r[k] == s[k])
  {
    seq(|s|, k requires 0 <= k < |s| => LowerChar(s[k]))
  }

  predicate CaselessEqual(a: string, b: string)
  {
    Lower(a) == Lower(b)
  }

  /** Strings of different lengths, or with different letters at one
      position, differ ignoring case. */
  lemma CaselessDiffers(a: string, b: string, i: nat)
    requires |a| != |b| || (i < |a| && i < |b| && LowerChar(a[i]) != LowerChar(b[i]))
    ensures !CaselessEqual(a, b)
  {
    if |a| == |b| {
      assert Lower(a)[i] != Lower(b)[i];
    }
  }

  // ---------------------------------------------------------------------
  // Option tables
  // ---------------------------------------------------------------------

  /** One entry of an option table: the canonical (English) name and its
      texts by language code. The tables carry no "en" texts. */
  datatype OptionRow = OptionRow(name: string, texts: map<string, string>)

  /** An option table in its declaration order (Python dicts keep insertion
      order, which decides the case-insensitive match). */
  type OptionTable = seq<OptionRow>

  /** Dictionary keys are unique. */
  predicate UniqueNames(t: OptionTable)
  {
    forall i, j :: 0 <= i < j < |t| ==> t[i].name != t[j].name
  }

  /** No row other than row `r` has a name equal to row `r`'s ignoring case. */
  predicate CaselessUniqueAt(t: OptionTable, r: nat)
    requires r < |t|
  {
    forall k :: 0 <= k < |t| && k != r ==> !CaselessEqual(t[k].name, t[r].name)
  }

  /** Every row has a text for the given language code. */
  predicate Covers(t: OptionTable, code: string)
  {
    forall i :: 0 <= i < |t| ==> code in t[i].texts
  }

  /** The position of the row whose name is exactly `key`, searching from
      `from` on. */
  function FindExact(t: OptionTable, key: string, from: nat): (r: Option<nat>)
    decreases |t| - from
    ensures r.Some? ==> from <= r.value < |t| && t[r.value].name == key
                        && forall k :: from <= k < r.value ==> t[k].name != key
    ensures r.None? ==> forall k :: from <= k < |t| ==> t[k].name != key
  {
    if from >= |t| then None
    else if t[from].name == key then Some(from)
    else FindExact(t, key, from + 1)
  }

  /** The position of the first row, in table order from `from` on, whose
      name equals `key` ignoring case. */
  function FindCaseless(t: OptionTable, key: string, from: nat): (r: Option<nat>)
    decreases |t| - from
    ensures r.Some? ==> from <= r.value < |t| && CaselessEqual(t[r.value].name, key)
                        && forall k :: from <= k < r.value ==> !CaselessEqual(t[k].name, key)
    ensures r.None? ==> forall k :: from <= k < |t| ==> !CaselessEqual(t[k].name, key)
  {
    if from >= |t| then None
    else if CaselessEqual(t[from].name, key) then Some(from)
    else FindCaseless(t, key, from + 1)
  }

  /** Translates one option for a language other than English. The option is
      stripped and looked up exactly; if that row is missing, or has no text
      for the language, the first row equal to the stripped option ignoring
      case is used; if no row matches, the original, unstripped option is
      returned. When the case-insensitive row has no text for the language the
      lookup raises again outside any handler, which is an error here. */
  function TranslateOption(t: OptionTable, code: string, opt: string): (r: Result<string>)
    ensures r.Ok? ==> r.value == opt
                      || exists i :: 0 <= i < |t| && code in t[i].texts && r.value == t[i].texts[code]
    ensures r.Err? ==> exists i :: 0 <= i < |t| && code !in t[i].texts
                                  && CaselessEqual(t[i].name, Strip(opt))
  {
    var cleaned := Strip(opt);
    var exact := FindExact(t, cleaned, 0);
    if exact.Some? && code in t[exact.value].texts then
      Ok(t[exact.value].texts[code])
    else
      var caseless := FindCaseless(t, cleaned, 0);
      if caseless.None? then Ok(opt)
      else if code in t[caseless.value].texts then Ok(t[caseless.value].texts[code])
      else Err("missing translation for " + t[caseless.value].name)
  }

  /** An exact row with a text for the language decides the translation. */
  lemma ResolveExact(t: OptionTable, code: string, opt: string, i: nat)
    requires UniqueNames(t)
    requires i < |t| && t[i].name == Strip(opt) && code in t[i].texts
    ensures TranslateOption(t, code, opt) == Ok(t[i].texts[code])
  {
    assert FindExact(t, Strip(opt), 0) == Some(i);
  }

  /** Without an exact row that has a text, the earliest row equal ignoring
      case decides, and raises when it has no text for the language. */
  lemma ResolveCaseless(t: OptionTable, code: string, opt: string, i: nat)
    requires i < |t| && CaselessEqual(t[i].name, Strip(opt))
    requires forall k :: 0 <= k < i ==> !CaselessEqual(t[k].name, Strip(opt))
    requires forall j :: 0 <= j < |t| && t[j].name == Strip(opt) ==> code !in t[j].texts
    ensures TranslateOption(t, code, opt)
            == (if code in t[i].texts then Ok(t[i].texts[code])
                else Err("missing translation for " + t[i].name))
  {
    assert FindCaseless(t, Strip(opt), 0) == Some(i);
  }

  /** When one row alone equals the stripped option ignoring case, that row
      decides the translation, whether the option names it exactly or only
      up to case. */
  lemma ResolveUniqueCaseless(t: OptionTable, code: string, opt: string, r: nat)
    requires r < |t| && code in t[r].texts
    requires CaselessEqual(t[r].name, Strip(opt)) && CaselessUniqueAt(t, r)
    ensures TranslateOption(t, code, opt) == Ok(t[r].texts[code])
  {
    var exact := FindExact(t, Strip(opt), 0);
    if exact.Some? {
      assert CaselessEqual(t[exact.value].name, t[r].name);
    }
    assert FindCaseless(t, Strip(opt), 0) == Some(r);
  }

  /** With no row equal ignoring case, the option comes back untouched. */
  lemma ResolveUntouched(t: OptionTable, code: string, opt: string)
    requires forall i :: 0 <= i < |t| ==> !CaselessEqual(t[i].name, Strip(opt))
    ensures TranslateOption(t, code, opt) == Ok(opt)
  {
    var exact := FindExact(t, Strip(opt), 0);
    if exact.Some? {
      assert CaselessEqual(t[exact.value].name, Strip(opt));
    }
  }

  /** A table that has the language in every row never makes the translation
      fail, and what comes back is either the option itself or a text of the
      table. */
  lemma TranslateOptionTotal(t: OptionTable, code: string, opt: string)
    requires Covers(t, code)
    ensures TranslateOption(t, code, opt).Ok?
    ensures var v := TranslateOption(t, code, opt).value;
            v == opt || exists i :: 0 <= i < |t| && code in t[i].texts && v == t[i].texts[code]
  {
  }

  /** Translates each option of the list in order; the first option whose
      translation raises makes the whole call raise. */
  function TranslateAll(t: OptionTable, code: string, opts: seq<string>): (r: Result<seq<string>>)
    ensures r.Ok? <==> forall i :: 0 <= i < |opts| ==> TranslateOption(t, code, opts[i]).Ok?
    ensures r.Ok? ==> |r.value| == |opts|
                      && forall i :: 0 <= i < |opts| ==> r.value[i] == TranslateOption(t, code, opts[i]).value
  {
    if opts == [] then Ok([])
    else
      var head := TranslateOption(t, code, opts[0]);
      if head.Err? then Err(head.reason)
      else
        var tail := TranslateAll(t, code, opts[1..]);
        if tail.Err? then tail else Ok([head.value] + tail.value)
  }

  /** The option list shown for the selected language: English shows the
      canonical options as they are; other languages translate each one. */
  function TranslatedOptions(t: OptionTable, lang: Language, opts: seq<string>): (r: Result<seq<string>>)
    ensures lang == English ==> r == Ok(opts)
    ensures lang != English ==>
              (r.Ok? <==> forall i :: 0 <= i < |opts| ==> TranslateOption(t, lang.Code(), opts[i]).Ok?)
    ensures lang != English && r.Ok? ==>
              |r.value| == |opts|
              && forall i :: 0 <= i < |opts| ==> r.value[i] == TranslateOption(t, lang.Code(), opts[i]).value
  {
    if lang == English then Ok(opts) else TranslateAll(t, lang.Code(), opts)
  }

  /** With a table that covers the language the translated list always exists
      and has one label per option. */
  lemma TranslatedOptionsTotal(t: OptionTable, lang: Language, opts: seq<string>)
    requires Covers(t, lang.Code())
    ensures TranslatedOptions(t, lang, opts).Ok?
    ensures |TranslatedOptions(t, lang, opts).value| == |opts|
  {
    forall i | 0 <= i < |opts|
      ensures TranslateOption(t, lang.Code(), opts[i]).Ok?
    {
      TranslateOptionTotal(t, lang.Code(), opts[i]);
    }
  }

  /** Each translated label depends only on its own option: changing the other
      options of the list leaves it as it was. */
  lemma TranslatedOptionsPointwise(t: OptionTable, lang: Language, a: seq<string>, b: seq<string>, i: nat, j: nat)
    requires i < |a| && j < |b| && a[i] == b[j]
    requires TranslatedOptions(t, lang, a).Ok? && TranslatedOptions(t, lang, b).Ok?
    ensures TranslatedOptions(t, lang, a).value[i] == TranslatedOptions(t, lang, b).value[j]
  {
  }

  // ---------------------------------------------------------------------
  // Reverse maps: dict(zip(displayed, canonical))
  // ---------------------------------------------------------------------

  /** The last position before `n` at which `d` holds `shown`. */
  predicate IsLastAt(d: seq<string>, n: nat, shown: string, m: nat)
    requires n <= |d|
  {
    m < n && d[m] == shown && forall j :: m < j < n ==> d[j] != shown
  }

  /** dict(zip(displayed, canonical)): pairs are taken up to the shorter of
      the two lists and inserted in order, so a label shown twice keeps the
      canonical name paired with its last occurrence. */
  function ReverseMap(displayed: seq<string>, canonical: seq<string>): (m: map<string, string>)
    ensures var n := Min(|displayed|, |canonical|);
            m.Keys == set i | 0 <= i < n :: displayed[i]
    ensures var n := Min(|displayed|, |canonical|);
            forall i :: 0 <= i < n && IsLastAt(displayed, n, displayed[i], i) ==> m[displayed[i]] == canonical[i]
    ensures var n := Min(|displayed|, |canonical|);
            forall shown :: shown in m ==> exists i: nat :: IsLastAt(displayed, n, shown, i) && m[shown] == canonical[i]
  {
    var n := Min(|displayed|, |canonical|);
    ZipInsertFacts(displayed, canonical, n);
    ZipInsert(displayed, canonical, n)
  }

  /** The dictionary after inserting the first `n` pairs. */
  function ZipInsert(d: seq<string>, c: seq<string>, n: nat): (m: map<string, string>)
    requires n <= |d| && n <= |c|
  {
    if n == 0 then map[] else ZipInsert(d, c, n - 1)[d[n - 1] := c[n - 1]]
  }

  /** The keys after `n` insertions are the first `n` labels. */
  lemma {:induction false} ZipInsertKeys(d: seq<string>, c: seq<string>, n: nat)
    requires n <= |d| && n <= |c|
    ensures ZipInsert(d, c, n).Keys == set i | 0 <= i < n :: d[i]
  {
    if n > 0 {
      ZipInsertKeys(d, c, n - 1);
      assert (set i | 0 <= i < n :: d[i]) == (set i | 0 <= i < n - 1 :: d[i]) + {d[n - 1]};
    }
  }

  /** A label maps to the name paired with its last occurrence. */
  lemma {:induction false} ZipInsertLast(d: seq<string>, c: seq<string>, n: nat, i: nat)
    requires n <= |d| && n <= |c| && i < n && IsLastAt(d, n, d[i], i)
    ensures d[i] in ZipInsert(d, c, n) && ZipInsert(d, c, n)[d[i]] == c[i]
  {
    if i < n - 1 {
      assert d[i] != d[n - 1];
      assert IsLastAt(d, n - 1, d[i], i);
      ZipInsertLast(d, c, n - 1, i);
    }
  }

  /** Every value of the dictionary comes from the last occurrence of its
      label. */
  lemma {:induction false} ZipInsertFrom(d: seq<string>, c: seq<string>, n: nat, shown: string)
    requires n <= |d| && n <= |c| && shown in ZipInsert(d, c, n)
    ensures exists i: nat :: IsLastAt(d, n, shown, i) && ZipInsert(d, c, n)[shown] == c[i]
  {
    assert n > 0;
    if shown == d[n - 1] {
      assert IsLastAt(d, n, shown, n - 1);
    } else {
      ZipInsertFrom(d, c, n - 1, shown);
      var i: nat :| IsLastAt(d, n - 1, shown, i) && ZipInsert(d, c, n - 1)[shown] == c[i];
      assert IsLastAt(d, n, shown, i);
    }
  }

  lemma ZipInsertFacts(d: seq<string>, c: seq<string>, n: nat)
    requires n <= |d| && n <= |c|
    ensures ZipInsert(d, c, n).Keys == set i | 0 <= i < n :: d[i]
    ensures forall i :: 0 <= i < n && IsLastAt(d, n, d[i], i) ==> ZipInsert(d, c, n)[d[i]] == c[i]
    ensures forall shown :: shown in ZipInsert(d, c, n) ==>
              exists i: nat :: IsLastAt(d, n, shown, i) && ZipInsert(d, c, n)[shown] == c[i]
  {
    ZipInsertKeys(d, c, n);
    forall i | 0 <= i < n && IsLastAt(d, n, d[i], i)
      ensures ZipInsert(d, c, n)[d[i]] == c[i]
    {
      ZipInsertLast(d, c, n, i);
    }
    forall shown | shown in ZipInsert(d, c, n)
      ensures exists i: nat :: IsLastAt(d, n, shown, i) && ZipInsert(d, c, n)[shown] == c[i]
    {
      ZipInsertFrom(d, c, n, shown);
    }
  }

  /** Every label the select box can show resolves through the reverse map. */
  lemma ReverseMapResolvesShown(displayed: seq<string>, canonical: seq<string>, i: nat)
    requires i < |displayed| == |canonical|
    ensures displayed[i] in ReverseMap(displayed, canonical)
  {
  }

  /** A canonical name that occurs once, at a position whose label is shown
      again later, cannot be reached from any label: the later pairing wins. */
  lemma {:induction false} ShadowedUnreachable(displayed: seq<string>, canonical: seq<string>, i: nat, j: nat)
    requires i < j < |displayed| == |canonical|
    requires displayed[i] == displayed[j]
    requires forall k :: 0 <= k < |canonical| && k != i ==> canonical[k] != canonical[i]
    ensures canonical[i] !in ReverseMap(displayed, canonical).Values
  {
  }
}

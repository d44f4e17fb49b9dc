/**
 * The configuration manager (`ConfigManager`): loading with the empty-file
 * check, default filling that never overwrites a present value, the
 * semantic rules (ordered ranges, unique language codes, known template
 * placeholders) and the guarded lookups.  Reading the file, `json.loads`
 * and the JSON-schema check are outside the model: their outcomes are
 * parameters.
 */
module Config {
  import opened Wrappers
  import opened Text
  import opened JsonValue

  // ------------------------------------------------------------ defaults

  /** `generation` defaults, in the order `setdefault` applies them. */
  const GenerationDefaults: seq<Member> := [Member("request_delay", JNum(0.5)), Member("max_errors", JNum(10.0))]

  /** `output` defaults, in the order `setdefault` applies them. */
  const OutputDefaults: seq<Member> :=
    [Member("filename", JStr("dialogues.jsonl")), Member("max_file_size_mb", JNum(100.0)), Member("backup_count", JNum(5.0))]

  const DefaultBaseUrl := "https://api.openai.com/v1"

  /** Every value of `a` is still in `b` under the same key. */
  ghost predicate Extends(a: seq<Member>, b: seq<Member>) {
    forall k :: HasKey(a, k) ==> Lookup(b, k) == Lookup(a, k)
  }

  /** `setdefault` for each default in turn. */
  function FillDefaults(ms: seq<Member>, ds: seq<Member>): (r: seq<Member>)
    ensures Extends(ms, r)
    ensures forall k :: HasKey(r, k) <==> HasKey(ms, k) || k in Keys(ds)
    ensures DistinctKeys(ms) ==> DistinctKeys(r)
    decreases |ds|
  {
    if ds == [] then ms
    else
      var r := FillDefaults(SetDefault(ms, ds[0].key, ds[0].value), ds[1..]);
      assert forall k :: k in Keys(ds) <==> k == ds[0].key || k in Keys(ds[1..]) by {
        forall k ensures k in Keys(ds) <==> k == ds[0].key || k in Keys(ds[1..]) {
          if k in Keys(ds) {
            var i :| 0 <= i < |ds| && Keys(ds)[i] == k;
            if i > 0 {
              assert Keys(ds[1..])[i - 1] == k;
            }
          }
          if k in Keys(ds[1..]) {
            var i :| 0 <= i < |ds| - 1 && Keys(ds[1..])[i] == k;
            assert Keys(ds)[i + 1] == k;
          }
        }
      }
      r
  }

  /** A default whose key was missing is what the key now holds (defaults with distinct keys). */
  lemma {:induction false} FillDefaultsAddsMissing(ms: seq<Member>, ds: seq<Member>, i: nat)
    requires DistinctKeys(ds) && i < |ds| && !HasKey(ms, ds[i].key)
    ensures Lookup(FillDefaults(ms, ds), ds[i].key) == Some(ds[i].value)
    decreases |ds|
  {
    var ms' := SetDefault(ms, ds[0].key, ds[0].value);
    var k := ds[i].key;
    if i == 0 {
      assert Lookup(ms', k) == Some(ds[0].value);
      assert Lookup(FillDefaults(ms', ds[1..]), k) == Lookup(ms', k);
    } else {
      assert ds[1..][i - 1] == ds[i];
      assert ds[0].key != k;
      assert !HasKey(ms', k);
      assert DistinctKeys(ds[1..]) by {
        forall a, b | 0 <= a < b < |ds| - 1 ensures ds[1..][a].key != ds[1..][b].key {
          assert ds[1..][a] == ds[a + 1] && ds[1..][b] == ds[b + 1];
        }
      }
      FillDefaultsAddsMissing(ms', ds[1..], i - 1);
    }
  }

  /**
   * `section = config.setdefault(name, {})` followed by the section's
   * defaults.  The flag is False when the section holds something other
   * than a dict, where `setdefault` on it raises; the list returned is then
   * the configuration as far as it got.
   */
  function FillSection(top: seq<Member>, name: string, ds: seq<Member>): (r: (seq<Member>, bool))
  {
    var t := SetDefault(top, name, JObj([]));
    match Lookup(t, name).value
    case JObj(sec) => (Put(t, name, JObj(FillDefaults(sec, ds))), true)
    case _ => (t, false)
  }

  /**
   * The `api` step: `config["api"]` must exist; a dict without `base_url`
   * gets the default.  On a string `in` is a substring test and on a list an
   * element test, so those pass when they mention `base_url` and otherwise
   * fail at the item assignment; any other value fails at `in`.
   */
  function NormalizeApi(top: seq<Member>): (r: (seq<Member>, bool))
  {
    match Lookup(top, "api")
    case None => (top, false)
    case Some(api) =>
      match api
      case JObj(ms) =>
        if HasKey(ms, "base_url") then (top, true)
        else (Put(top, "api", JObj(Put(ms, "base_url", JStr(DefaultBaseUrl)))), true)
      case JStr(s) => (top, Contains(s, "base_url"))
      case JArr(items) => (top, JStr("base_url") in items)
      case _ => (top, false)
  }

  /**
   * `_normalize_config` on the parsed file: the configuration it leaves
   * behind and whether it finished without raising.  Each step passes on
   * what it was given once an earlier step has raised.
   */
  function Normalized(original: Json): (Json, bool) {
    ApiStep(SectionStep(SectionStep((original, original.JObj?), "generation", GenerationDefaults), "output", OutputDefaults))
  }

  /** One `setdefault` section step on the configuration as far as it got. */
  function SectionStep(st: (Json, bool), name: string, ds: seq<Member>): (Json, bool) {
    if !st.1 || !st.0.JObj? then st
    else var r := FillSection(st.0.members, name, ds); (JObj(r.0), r.1)
  }

  /** The `api` step on the configuration as far as it got. */
  function ApiStep(st: (Json, bool)): (Json, bool) {
    if !st.1 || !st.0.JObj? then st
    else var r := NormalizeApi(st.0.members); (JObj(r.0), r.1)
  }

  /** A value is kept when it is the same, or, for a dict, when the new dict still holds all of it. */
  ghost predicate ValueKept(a: Json, b: Json) {
    if a.JObj? then b.JObj? && Extends(a.members, b.members) else b == a
  }

  /** Every key of `a` is still in `b`, with its value kept. */
  ghost predicate KeepsPresent(a: seq<Member>, b: seq<Member>) {
    forall k :: HasKey(a, k) ==> HasKey(b, k) && ValueKept(Lookup(a, k).value, Lookup(b, k).value)
  }

  lemma KeepsPresentTransitive(a: seq<Member>, b: seq<Member>, c: seq<Member>)
    requires KeepsPresent(a, b) && KeepsPresent(b, c)
    ensures KeepsPresent(a, c)
  {
    forall k | HasKey(a, k) ensures HasKey(c, k) && ValueKept(Lookup(a, k).value, Lookup(c, k).value) {
      var x, y, z := Lookup(a, k).value, Lookup(b, k).value, Lookup(c, k).value;
      assert ValueKept(x, y) && ValueKept(y, z);
      if x.JObj? {
        forall k' | HasKey(x.members, k') ensures Lookup(z.members, k') == Lookup(x.members, k') {
          assert HasKey(y.members, k');
        }
      }
    }
  }

  lemma FillSectionKeeps(top: seq<Member>, name: string, ds: seq<Member>)
    ensures KeepsPresent(top, FillSection(top, name, ds).0)
  {
    var t := SetDefault(top, name, JObj([]));
    var r := FillSection(top, name, ds).0;
    forall k | HasKey(top, k) ensures HasKey(r, k) && ValueKept(Lookup(top, k).value, Lookup(r, k).value) {
      if k == name && Lookup(t, name).value.JObj? {
        assert Lookup(t, name) == Lookup(top, name);
      }
    }
  }

  lemma NormalizeApiKeeps(top: seq<Member>)
    ensures KeepsPresent(top, NormalizeApi(top).0)
  {
    var api := Lookup(top, "api");
    if api.Some? && api.value.JObj? && !HasKey(api.value.members, "base_url") {
      var ms := api.value.members;
      var api' := JObj(Put(ms, "base_url", JStr(DefaultBaseUrl)));
      var r := Put(top, "api", api');
      assert NormalizeApi(top).0 == r;
      forall k | HasKey(top, k) ensures HasKey(r, k) && ValueKept(Lookup(top, k).value, Lookup(r, k).value) {
        if k == "api" {
          assert Extends(ms, api'.members);
        } else {
          assert Lookup(r, k) == Lookup(top, k);
        }
      }
    } else {
      assert NormalizeApi(top).0 == top;
    }
  }

  /** `_normalize_config` never overwrites a value that is present, at the top level or inside a dict section. */
  lemma NormalizeKeepsPresent(original: Json)
    requires original.JObj?
    ensures Normalized(original).0.JObj?
    ensures KeepsPresent(original.members, Normalized(original).0.members)
  {
    var t1 := FillSection(original.members, "generation", GenerationDefaults).0;
    FillSectionKeeps(original.members, "generation", GenerationDefaults);
    var t2 := FillSection(t1, "output", OutputDefaults).0;
    FillSectionKeeps(t1, "output", OutputDefaults);
    KeepsPresentTransitive(original.members, t1, t2);
    NormalizeApiKeeps(t2);
    KeepsPresentTransitive(original.members, t2, NormalizeApi(t2).0);
  }

  /** The dict held by `name` in an object, or nothing. */
  function Section(c: Json, name: string): (r: Option<seq<Member>>)
    ensures r.Some? ==> c.JObj? && HasKey(c.members, name)
  {
    match Field(c, name)
    case Some(JObj(ms)) => Some(ms)
    case _ => None
  }

  // ------------------------------------------------------------ semantics

  /** What `_semantic_validation` reads, once every lookup on the way has succeeded. */
  datatype Semantics = Semantics(tempMin: real, tempMax: real, linesMin: real, linesMax: real,
                                 codes: seq<string>, templates: seq<string>, banks: seq<Member>)

  /** The ConfigValidationError raised by the semantic rules. */
  datatype ConfigIssue =
    | TemperatureRange(min: real, max: real)
    | LinesRange(min: real, max: real)
    | DuplicateCodes(duplicates: seq<string>)
    | UnknownPlaceholder(placeholder: string, templateIndex: nat)

  /** How a check ends: passing, a ConfigValidationError, or some other exception (a missing key, a wrong type). */
  datatype Verdict = Passes | Invalid(issue: ConfigIssue) | Crashes

  function Num(v: Option<Json>): Option<real> {
    if v.Some? && v.value.JNum? then Some(v.value.n) else None
  }

  /** `[lang["code"] for lang in languages]`, when every entry is a dict with a string code. */
  function Codes(langs: seq<Json>): (r: Option<seq<string>>)
    ensures r.Some? ==> |r.value| == |langs|
  {
    if langs == [] then Some([])
    else
      match (Field(langs[0], "code"), Codes(langs[1..]))
      case (Some(JStr(c)), Some(rest)) => Some([c] + rest)
      case _ => None
  }

  /** The list of strings a JSON array holds, when it holds only strings. */
  function Strings(items: seq<Json>): (r: Option<seq<string>>)
    ensures r.Some? ==> |r.value| == |items|
    ensures r.Some? ==> forall i :: 0 <= i < |items| ==> items[i] == JStr(r.value[i])
  {
    if items == [] then Some([])
    else
      match (items[0], Strings(items[1..]))
      case (JStr(s), Some(rest)) => Some([s] + rest)
      case _ => None
  }

  /**
   * The lookups `_semantic_validation` makes, all made before the first
   * rule; nothing for a configuration the JSON schema would reject (a
   * missing section, a bound that is not a number, a code that is not a
   * string), which never reaches the rules.
   */
  function Extract(c: Json): Option<Semantics> {
    var gen := Section(c, "generation");
    var temp := if gen.Some? then Section(JObj(gen.value), "temperature") else None;
    var lines := if gen.Some? then Section(JObj(gen.value), "dialog_lines") else None;
    var langs := if gen.Some? then Field(JObj(gen.value), "languages") else None;
    var pt := Section(c, "prompt_templates");
    var tpls := if pt.Some? then Field(JObj(pt.value), "templates") else None;
    var banks := if pt.Some? then Section(JObj(pt.value), "words") else None;
    if temp.None? || lines.None? || langs.None? || !langs.value.JArr? || tpls.None? || !tpls.value.JArr? || banks.None?
    then None
    else
      var tmin, tmax := Num(Field(JObj(temp.value), "min")), Num(Field(JObj(temp.value), "max"));
      var lmin, lmax := Num(Field(JObj(lines.value), "min")), Num(Field(JObj(lines.value), "max"));
      var codes := Codes(langs.value.items);
      var templates := Strings(tpls.value.items);
      if tmin.None? || tmax.None? || lmin.None? || lmax.None? || codes.None? || templates.None? then None
      else Some(Semantics(tmin.value, tmax.value, lmin.value, lmax.value, codes.value, templates.value, banks.value))
  }

  /** `set(codes)`. */
  function CodeSet(codes: seq<string>): set<string> {
    set c | c in codes
  }

  predicate NoDuplicates(codes: seq<string>) {
    forall i, j :: 0 <= i < j < |codes| ==> codes[i] != codes[j]
  }

  /** `len(codes) != len(set(codes))` is exactly "some code occurs twice". */
  lemma {:induction false} SetSizeDetectsDuplicates(codes: seq<string>)
    ensures |CodeSet(codes)| <= |codes|
    ensures |CodeSet(codes)| == |codes| <==> NoDuplicates(codes)
  {
    if codes != [] {
      var n := |codes| - 1;
      var init := codes[..n];
      SetSizeDetectsDuplicates(init);
      assert CodeSet(codes) == CodeSet(init) + {codes[n]};
      if codes[n] in init {
        assert CodeSet(codes) == CodeSet(init);
        var i :| 0 <= i < n && init[i] == codes[n];
        assert codes[i] == codes[n];
      } else {
        assert |CodeSet(codes)| == |CodeSet(init)| + 1;
        if NoDuplicates(init) {
          forall i, j | 0 <= i < j < |codes| ensures codes[i] != codes[j] {
            if j < n {
              assert codes[i] == init[i] && codes[j] == init[j];
            } else {
              assert codes[i] == init[i];
            }
          }
        } else {
          var i, j :| 0 <= i < j < n && init[i] == init[j];
          assert codes[i] == codes[j];
        }
      }
    }
  }

  /** `[code for code in codes if codes.count(code) > 1]`, with `all` the whole list. */
  function Duplicates(all: seq<string>, codes: seq<string>): (d: seq<string>)
    ensures forall c :: c in d <==> c in codes && multiset(all)[c] > 1
    ensures |d| <= |codes|
  {
    if codes == [] then []
    else (if multiset(all)[codes[0]] > 1 then [codes[0]] else []) + Duplicates(all, codes[1..])
  }

  /** Some code repeats exactly when there are duplicates to report. */
  lemma DuplicatesReported(codes: seq<string>)
    ensures NoDuplicates(codes) <==> Duplicates(codes, codes) == []
  {
    if !NoDuplicates(codes) {
      var i, j :| 0 <= i < j < |codes| && codes[i] == codes[j];
      assert codes == codes[..j] + [codes[j]] + codes[j + 1..];
      assert codes[..j][i] == codes[i];
      assert multiset(codes)[codes[i]] == multiset(codes[..j])[codes[i]] + 1 + multiset(codes[j + 1..])[codes[i]];
      assert codes[i] in Duplicates(codes, codes);
    } else {
      forall c | c in codes ensures multiset(codes)[c] == 1 {
        OccursOnce(codes, c);
      }
      NothingRepeatedNothingReported(codes, codes);
    }
  }

  lemma {:induction false} NothingRepeatedNothingReported(all: seq<string>, codes: seq<string>)
    requires forall c :: c in codes ==> multiset(all)[c] == 1
    ensures Duplicates(all, codes) == []
  {
    if codes != [] {
      assert codes[0] in codes;
      NothingRepeatedNothingReported(all, codes[1..]);
    }
  }

  /** Without duplicates, every code occurs exactly once. */
  lemma {:induction false} OccursOnce(codes: seq<string>, c: string)
    requires NoDuplicates(codes) && c in codes
    ensures multiset(codes)[c] == 1
  {
    assert codes == [codes[0]] + codes[1..];
    var rest := codes[1..];
    assert NoDuplicates(rest) by {
      forall a, b | 0 <= a < b < |rest| ensures rest[a] != rest[b] {
        assert rest[a] == codes[a + 1] && rest[b] == codes[b + 1];
      }
    }
    if codes[0] == c {
      assert c !in rest by {
        forall j | 0 <= j < |rest| ensures rest[j] != c {
          assert rest[j] == codes[j + 1];
        }
      }
    } else {
      OccursOnce(rest, c);
    }
  }

  /** First placeholder of a template, scanning in order, that names no word bank. */
  function UnknownIn(tpl: string, banks: seq<Member>): (r: Option<string>)
    ensures r.Some? ==> r.value in Placeholders(tpl) && !HasKey(banks, r.value)
    ensures r.None? <==> KnownPlaceholders(tpl, banks)
  {
    FirstUnknown(Placeholders(tpl), banks)
  }

  /** Every placeholder of the template names a word bank. */
  predicate KnownPlaceholders(tpl: string, banks: seq<Member>) {
    forall p :: p in Placeholders(tpl) ==> HasKey(banks, p)
  }

  function FirstUnknown(ps: seq<string>, banks: seq<Member>): (r: Option<string>)
    ensures r.Some? ==> r.value in ps && !HasKey(banks, r.value)
    ensures r.None? <==> forall p :: p in ps ==> HasKey(banks, p)
  {
    if ps == [] then None
    else if !HasKey(banks, ps[0]) then Some(ps[0])
    else FirstUnknown(ps[1..], banks)
  }

  /** The template loop: the first template, in order, with an unknown placeholder. */
  function TemplateIssue(templates: seq<string>, banks: seq<Member>, from: nat): (r: Option<ConfigIssue>)
    requires from <= |templates|
    ensures r.Some? ==> (r.value.UnknownPlaceholder? && from <= r.value.templateIndex < |templates|
      && r.value.placeholder in Placeholders(templates[r.value.templateIndex])
      && !HasKey(banks, r.value.placeholder))
    ensures r.None? <==> forall i :: from <= i < |templates| ==> KnownPlaceholders(templates[i], banks)
    decreases |templates| - from
  {
    if from == |templates| then None
    else match UnknownIn(templates[from], banks)
      case Some(p) => Some(UnknownPlaceholder(p, from))
      case None => TemplateIssue(templates, banks, from + 1)
  }

  /** The semantic rules in the order the source applies them. */
  function Check(s: Semantics): Verdict {
    if s.tempMin > s.tempMax then Invalid(TemperatureRange(s.tempMin, s.tempMax))
    else if s.linesMin > s.linesMax then Invalid(LinesRange(s.linesMin, s.linesMax))
    else if |s.codes| != |CodeSet(s.codes)| then Invalid(DuplicateCodes(Duplicates(s.codes, s.codes)))
    else match TemplateIssue(s.templates, s.banks, 0)
      case Some(issue) => Invalid(issue)
      case None => Passes
  }

  /** `_semantic_validation` on the normalised configuration. */
  function SemanticValidation(c: Json): Verdict {
    match Extract(c)
    case None => Crashes
    case Some(s) => Check(s)
  }

  /**
   * The rules pass exactly when both ranges are ordered, the language codes
   * are distinct and every placeholder of every template names a word bank.
   */
  lemma CheckPassesIff(s: Semantics)
    ensures Check(s) == Passes <==>
      s.tempMin <= s.tempMax && s.linesMin <= s.linesMax && NoDuplicates(s.codes)
      && forall i, p :: 0 <= i < |s.templates| && p in Placeholders(s.templates[i]) ==> HasKey(s.banks, p)
  {
    SetSizeDetectsDuplicates(s.codes);
    assert (forall i :: 0 <= i < |s.templates| ==> KnownPlaceholders(s.templates[i], s.banks)) <==>
      forall i, p :: 0 <= i < |s.templates| && p in Placeholders(s.templates[i]) ==> HasKey(s.banks, p);
  }

  /** A duplicate-code failure names every code that occurs more than once, and at least one. */
  lemma DuplicateIssueNamesRepeats(s: Semantics)
    requires Check(s).Invalid? && Check(s).issue.DuplicateCodes?
    ensures var d := Check(s).issue.duplicates;
      d != [] && forall c :: c in d <==> c in s.codes && multiset(s.codes)[c] > 1
  {
    SetSizeDetectsDuplicates(s.codes);
    DuplicatesReported(s.codes);
  }

  // ------------------------------------------------------------ manager

  /** Why `load_config` raised. */
  datatype LoadError = FileNotFound | EmptyFile | JsonError | SchemaInvalid | NormalizeFailed | Semantic(issue: ConfigIssue)
                     | SemanticCrash

  /** A language entry of `generation.languages`. */
  datatype LanguageEntry = LanguageEntry(code: string, name: string)

  /** `get_language_name`: the name of the first entry with this code. */
  function LanguageName(langs: seq<LanguageEntry>, code: string): (r: Option<string>)
    ensures r.None? <==> forall i :: 0 <= i < |langs| ==> langs[i].code != code
  {
    if langs == [] then None
    else if langs[0].code == code then Some(langs[0].name)
    else
      var r := LanguageName(langs[1..], code);
      assert r.None? <==> forall i :: 1 <= i < |langs| ==> langs[i].code != code by {
        if r.None? {
          forall i | 1 <= i < |langs| ensures langs[i].code != code {
            assert langs[i] == langs[1..][i - 1];
          }
        }
      }
      r
  }

  /** The name found is that of the first entry carrying the code. */
  lemma {:induction false} LanguageNameIsFirst(langs: seq<LanguageEntry>, code: string)
    requires LanguageName(langs, code).Some?
    ensures exists i :: 0 <= i < |langs| && langs[i].code == code && langs[i].name == LanguageName(langs, code).value
                        && forall j :: 0 <= j < i ==> langs[j].code != code
  {
    if langs[0].code == code {
      assert langs[0].name == LanguageName(langs, code).value;
    } else {
      LanguageNameIsFirst(langs[1..], code);
      var i :| 0 <= i < |langs[1..]| && langs[1..][i].code == code && langs[1..][i].name == LanguageName(langs[1..], code).value
               && forall j :: 0 <= j < i ==> langs[1..][j].code != code;
      forall j | 0 <= j < i + 1 ensures langs[j].code != code {
        if j > 0 { assert langs[j] == langs[1..][j - 1]; }
      }
      assert langs[i + 1] == langs[1..][i];
    }
  }

  /** `get_language_codes`: the codes, in configuration order. */
  function LanguageCodes(langs: seq<LanguageEntry>): (r: seq<string>)
    ensures |r| == |langs| && forall i :: 0 <= i < |langs| ==> r[i] == langs[i].code
  {
    seq(|langs|, i requires 0 <= i < |langs| => langs[i].code)
  }

  /** With distinct codes, the name found for an entry's code is that entry's name. */
  lemma LanguageNameOfDistinct(langs: seq<LanguageEntry>, i: nat)
    requires i < |langs| && NoDuplicates(LanguageCodes(langs))
    ensures LanguageName(langs, langs[i].code) == Some(langs[i].name)
  {
    var r := LanguageName(langs, langs[i].code);
    LanguageNameIsFirst(langs, langs[i].code);
    var j :| 0 <= j < |langs| && langs[j].code == langs[i].code && langs[j].name == r.value
             && forall m :: 0 <= m < j ==> langs[m].code != langs[i].code;
    assert LanguageCodes(langs)[i] == langs[i].code && LanguageCodes(langs)[j] == langs[j].code;
  }

  /** Why `config[key]` raised. */
  datatype GetError = NotLoaded | MissingKey

  /** The file exists, is not blank, and decodes. */
  predicate Parses(content: Option<string>, parsed: Option<Json>) {
    content.Some? && !IsBlank(content.value) && parsed.Some?
  }

  /** The outcome of `load_config`, step by step in the order the source takes them. */
  function LoadOutcome(content: Option<string>, parsed: Option<Json>, schemaOk: bool): Result<(), LoadError> {
    if content.None? then Err(FileNotFound)
    else if IsBlank(content.value) then Err(EmptyFile)
    else if parsed.None? then Err(JsonError)
    else if !schemaOk then Err(SchemaInvalid)
    else AfterSchema(parsed.value)
  }

  /** The outcome of the steps after the schema check: normalisation, then the semantic rules. */
  function AfterSchema(original: Json): Result<(), LoadError> {
    if !Normalized(original).1 then Err(NormalizeFailed)
    else VerdictOutcome(SemanticValidation(Normalized(original).0))
  }

  /** `AfterSchema` in terms of the normalised configuration and the normalisation flag. */
  lemma AfterSchemaOf(original: Json, c: Json, ok: bool)
    requires (c, ok) == Normalized(original)
    ensures AfterSchema(original) == if ok then VerdictOutcome(SemanticValidation(c)) else Err(NormalizeFailed)
  {
  }

  function VerdictOutcome(v: Verdict): Result<(), LoadError> {
    match v
    case Passes => Ok(())
    case Invalid(issue) => Err(Semantic(issue))
    case Crashes => Err(SemanticCrash)
  }

  /**
   * A load succeeds exactly when the file exists, is not blank, decodes,
   * satisfies the schema, normalises without raising and passes the
   * semantic rules; an empty or blank file is always refused.
   */
  lemma LoadSucceedsIff(content: Option<string>, parsed: Option<Json>, schemaOk: bool)
    ensures LoadOutcome(content, parsed, schemaOk).Ok? <==>
      (Parses(content, parsed) && schemaOk && Normalized(parsed.value).1
       && SemanticValidation(Normalized(parsed.value).0) == Passes)
    ensures content.Some? && IsBlank(content.value) ==> LoadOutcome(content, parsed, schemaOk) == Err(EmptyFile)
  {
  }

  class ConfigManager {
    var config: Json
    var original: Json
    var isLoaded: bool

    /** A manager that has not loaded anything: empty dicts, not loaded.
      * In the source, construction is this constructor followed by LoadConfig. */
    constructor()
      ensures config == JObj([]) && original == JObj([]) && !isLoaded
    {
      config := JObj([]);
      original := JObj([]);
      isLoaded := false;
    }

    /**
     * `_normalize_config`: a copy of the parsed file with the defaults
     * filled in; False when a step raised, leaving the copy as far as it got.
     */
    method NormalizeConfig() returns (ok: bool)
      modifies this
      ensures (config, ok) == Normalized(original)
      ensures original == old(original) && isLoaded == old(isLoaded)
    {
      var st := (original, original.JObj?);
      st := SectionStep(st, "generation", GenerationDefaults);
      st := SectionStep(st, "output", OutputDefaults);
      st := ApiStep(st);
      config, ok := st.0, st.1;
    }

    /**
     * `load_config`.  `content` is the file's text (None when it does not
     * exist), `parsed` what `json.loads` makes of the stripped text (None
     * on a decoding error), `schemaOk` the JSON-schema verdict.  The parsed
     * file is kept as the original from the moment it parses, the
     * normalised copy from the moment the schema accepts it, and only a
     * load that gets through every step marks the manager loaded.
     */
    method LoadConfig(content: Option<string>, parsed: Option<Json>, schemaOk: bool) returns (r: Result<(), LoadError>)
      modifies this
      ensures r == LoadOutcome(content, parsed, schemaOk)
      ensures original == (if Parses(content, parsed) then parsed.value else old(original))
      ensures config == (if Parses(content, parsed) && schemaOk then Normalized(parsed.value).0 else old(config))
      ensures isLoaded == (old(isLoaded) || r.Ok?)
    {
      if content.None? {
        return Err(FileNotFound);
      }
      if IsBlank(content.value) {
        return Err(EmptyFile);
      }
      if parsed.None? {
        return Err(JsonError);
      }
      original := parsed.value;
      if !schemaOk {
        return Err(SchemaInvalid);
      }
      r := NormalizeAndCheck();
    }

    /** The steps of `load_config` after the schema check. */
    method NormalizeAndCheck() returns (r: Result<(), LoadError>)
      modifies this
      ensures r == AfterSchema(original)
      ensures config == Normalized(original).0 && original == old(original)
      ensures isLoaded == (old(isLoaded) || r.Ok?)
    {
      var ok := NormalizeConfig();
      AfterSchemaOf(original, config, ok);
      if !ok {
        return Err(NormalizeFailed);
      }
      r := VerdictOutcome(SemanticValidation(config));
      if r.Ok? {
        isLoaded := true;
      }
    }

    /** `reload_config`: True exactly when the load succeeds. */
    method ReloadConfig(content: Option<string>, parsed: Option<Json>, schemaOk: bool) returns (ok: bool)
      modifies this
      ensures ok == LoadOutcome(content, parsed, schemaOk).Ok?
      ensures original == (if Parses(content, parsed) then parsed.value else old(original))
      ensures config == (if Parses(content, parsed) && schemaOk then Normalized(parsed.value).0 else old(config))
      ensures isLoaded == (old(isLoaded) || ok)
    {
      var r := LoadConfig(content, parsed, schemaOk);
      ok := r.Ok?;
    }

    /**
     * `validate_config`: False when not loaded; otherwise the semantic
     * rules decide, and None stands for an exception other than a
     * ConfigValidationError, which escapes.
     */
    function ValidateConfig(): (r: Option<bool>)
      reads this
      ensures !isLoaded ==> r == Some(false)
      ensures isLoaded ==> (r == Some(true) <==> SemanticValidation(config) == Passes)
      ensures isLoaded ==> (r.None? <==> SemanticValidation(config) == Crashes)
    {
      if !isLoaded then Some(false)
      else match SemanticValidation(config)
        case Passes => Some(true)
        case Invalid(_) => Some(false)
        case Crashes => None
    }

    /** `config[key]`: raises when not loaded or when the key is missing. */
    function GetItem(key: string): (r: Result<Json, GetError>)
      reads this
      ensures !isLoaded ==> r == Err(NotLoaded)
      ensures isLoaded && !(config.JObj? && HasKey(config.members, key)) ==> r == Err(MissingKey)
      ensures r.Ok? ==> isLoaded && Field(config, key) == Some(r.value)
    {
      if !isLoaded then Err(NotLoaded)
      else match Field(config, key)
        case None => Err(MissingKey)
        case Some(v) => Ok(v)
    }

    /** `get(key, default)`: the default when not loaded or when the key is missing. */
    function Get(key: string, default: Json): (r: Json)
      reads this
      ensures !isLoaded ==> r == default
      ensures isLoaded && config.JObj? && HasKey(config.members, key) ==> Some(r) == Lookup(config.members, key)
      ensures isLoaded && !(config.JObj? && HasKey(config.members, key)) ==> r == default
    {
      if !isLoaded then default
      else match Field(config, key)
        case None => default
        case Some(v) => v
    }
  }

  /** The dict a section held before normalisation: none counts as empty. */
  function SectionBefore(top: seq<Member>, name: string): seq<Member> {
    match Lookup(top, name)
    case Some(JObj(ms)) => ms
    case _ => []
  }

  /**
   * A section after its step: a dict in which a key the section lacked
   * holds the default value and a key it had keeps its value.
   */
  predicate DefaultApplied(section: Option<Json>, before: seq<Member>, d: Member) {
    && section.Some? && section.value.JObj?
    && (HasKey(before, d.key) ==> Lookup(section.value.members, d.key) == Lookup(before, d.key))
    && (!HasKey(before, d.key) ==> Lookup(section.value.members, d.key) == Some(d.value))
  }

  /** After a section step that finished, every default of the section is applied. */
  lemma SectionGetsDefault(top: seq<Member>, name: string, ds: seq<Member>, i: nat)
    requires FillSection(top, name, ds).1 && DistinctKeys(ds) && i < |ds|
    ensures DefaultApplied(Lookup(FillSection(top, name, ds).0, name), SectionBefore(top, name), ds[i])
  {
    var sec := SectionBefore(top, name);
    var t := SetDefault(top, name, JObj([]));
    if HasKey(top, name) {
      assert t == top;
      assert Lookup(t, name).value.JObj?;
      assert Lookup(t, name) == Some(JObj(sec));
    } else {
      assert Lookup(top, name).None?;
      assert Lookup(t, name) == Some(JObj([]));
    }
    var filled := FillDefaults(sec, ds);
    assert FillSection(top, name, ds).0 == Put(t, name, JObj(filled));
    assert Lookup(FillSection(top, name, ds).0, name) == Some(JObj(filled));
    if !HasKey(sec, ds[i].key) {
      FillDefaultsAddsMissing(sec, ds, i);
    }
  }

  /** The `generation` section of a finished normalisation is the one its own step produced. */
  lemma GenerationSectionFinal(original: Json)
    requires Normalized(original).1
    ensures original.JObj? && FillSection(original.members, "generation", GenerationDefaults).1
    ensures Field(Normalized(original).0, "generation")
         == Lookup(FillSection(original.members, "generation", GenerationDefaults).0, "generation")
  {
    NormalizedSteps(original);
    var t1 := FillSection(original.members, "generation", GenerationDefaults).0;
    FillSectionOthers(t1, "output", OutputDefaults, "generation");
    NormalizeApiOthers(FillSection(t1, "output", OutputDefaults).0, "generation");
  }

  /** The `output` section of a finished normalisation is the one its own step produced. */
  lemma OutputSectionFinal(original: Json)
    requires Normalized(original).1
    ensures original.JObj?
    ensures var t1 := FillSection(original.members, "generation", GenerationDefaults).0;
      FillSection(t1, "output", OutputDefaults).1 &&
      Field(Normalized(original).0, "output") == Lookup(FillSection(t1, "output", OutputDefaults).0, "output")
      && SectionBefore(t1, "output") == SectionBefore(original.members, "output")
  {
    NormalizedSteps(original);
    var t1 := FillSection(original.members, "generation", GenerationDefaults).0;
    NormalizeApiOthers(FillSection(t1, "output", OutputDefaults).0, "output");
    FillSectionOthers(original.members, "generation", GenerationDefaults, "output");
  }

  /**
   * After a load, `generation` holds `request_delay` and `max_errors`:
   * 0.5 and 10 where the file had none, the file's own values otherwise.
   */
  lemma GenerationDefaultsFilled(original: Json, i: nat)
    requires Normalized(original).1 && i < |GenerationDefaults|
    ensures original.JObj?
    ensures DefaultApplied(Field(Normalized(original).0, "generation"), SectionBefore(original.members, "generation"),
                           GenerationDefaults[i])
  {
    GenerationSectionFinal(original);
    DefaultKeysDistinct();
    SectionGetsDefault(original.members, "generation", GenerationDefaults, i);
  }

  /**
   * After a load, `output` holds `filename`, `max_file_size_mb` and
   * `backup_count`: the defaults where the file had none, the file's own
   * values otherwise.
   */
  lemma OutputDefaultsFilled(original: Json, i: nat)
    requires Normalized(original).1 && i < |OutputDefaults|
    ensures original.JObj?
    ensures DefaultApplied(Field(Normalized(original).0, "output"), SectionBefore(original.members, "output"),
                           OutputDefaults[i])
  {
    OutputSectionFinal(original);
    DefaultKeysDistinct();
    SectionGetsDefault(FillSection(original.members, "generation", GenerationDefaults).0, "output", OutputDefaults, i);
  }

  /** The `api` entry after its step: a dict that had no `base_url` now has the default one; anything else is as it was. */
  predicate BaseUrlApplied(after: Option<Json>, before: Json) {
    match before
    case JObj(ms) =>
      && after.Some? && after.value.JObj?
      && Lookup(after.value.members, "base_url")
         == (if HasKey(ms, "base_url") then Lookup(ms, "base_url") else Some(JStr(DefaultBaseUrl)))
    case _ => after == Some(before)
  }

  lemma ApiStepApplies(top: seq<Member>)
    requires NormalizeApi(top).1
    ensures HasKey(top, "api") && BaseUrlApplied(Lookup(NormalizeApi(top).0, "api"), Lookup(top, "api").value)
  {
  }

  /** After a load, the `api` section has a `base_url`: its own, or the default when it had none. */
  lemma ApiBaseUrlFilled(original: Json)
    requires Normalized(original).1
    ensures original.JObj? && HasKey(original.members, "api")
    ensures BaseUrlApplied(Field(Normalized(original).0, "api"), Lookup(original.members, "api").value)
  {
    NormalizedSteps(original);
    var t1 := FillSection(original.members, "generation", GenerationDefaults).0;
    FillSectionOthers(original.members, "generation", GenerationDefaults, "api");
    FillSectionOthers(t1, "output", OutputDefaults, "api");
    ApiStepApplies(FillSection(t1, "output", OutputDefaults).0);
  }

  lemma DefaultKeysDistinct()
    ensures DistinctKeys(GenerationDefaults) && DistinctKeys(OutputDefaults)
  {
  }

  /** A normalisation that finished went through both sections and the `api` step. */
  lemma NormalizedSteps(original: Json)
    requires Normalized(original).1
    ensures original.JObj?
    ensures FillSection(original.members, "generation", GenerationDefaults).1
    ensures FillSection(FillSection(original.members, "generation", GenerationDefaults).0, "output", OutputDefaults).1
    ensures Normalized(original).0
      == JObj(NormalizeApi(FillSection(FillSection(original.members, "generation", GenerationDefaults).0, "output", OutputDefaults).0).0)
  {
  }

  lemma FillSectionOthers(top: seq<Member>, name: string, ds: seq<Member>, k: string)
    requires k != name
    ensures Lookup(FillSection(top, name, ds).0, k) == Lookup(top, k)
  {
  }

  lemma FillSectionFills(top: seq<Member>, name: string, ds: seq<Member>)
    requires FillSection(top, name, ds).1
    ensures var v := Lookup(FillSection(top, name, ds).0, name);
      v.Some? && v.value.JObj? && forall d :: d in Keys(ds) ==> HasKey(v.value.members, d)
  {
  }

  lemma NormalizeApiOthers(top: seq<Member>, k: string)
    requires k != "api"
    ensures Lookup(NormalizeApi(top).0, k) == Lookup(top, k)
  {
  }
}

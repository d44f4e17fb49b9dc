/**
 * The dialog cleaner script (`DialogCleaner`): detection of generation
 * artifacts (CJK ideographs, kana and the replacement character), the
 * cleaning prompt, the per-replica and per-record cleanup with the API as
 * an oracle, the artifact report over a JSONL file, and the per-record
 * output rule of the file cleanup.  Files are sequences of lines; the API
 * reply, `json.loads`, `json.dumps` and `str()` of a non-string value are
 * parameters.
 */
module Cleaner {
  import opened Wrappers
  import opened Text
  import opened JsonValue

  // ---------------------------------------------------------------------
  // Artifact detection
  // ---------------------------------------------------------------------

  /** The four character classes searched for, in the order they are tried. */
  datatype Kind = Chinese | Hiragana | Katakana | Replacement

  const Patterns: seq<Kind> := [Chinese, Hiragana, Katakana, Replacement]

  /** The character class of each pattern. */
  predicate InPattern(k: Kind, c: char) {
    match k
    case Chinese => '\U{4E00}' <= c <= '\U{9FFF}'
    case Hiragana => '\U{3040}' <= c <= '\U{309F}'
    case Katakana => '\U{30A0}' <= c <= '\U{30FF}'
    case Replacement => c == '\U{FFFD}'
  }

  /** An artifact character, stated on its own terms. */
  predicate IsArtifactChar(c: char) {
    ('\U{3040}' <= c <= '\U{30FF}') || ('\U{4E00}' <= c <= '\U{9FFF}') || c == '\U{FFFD}'
  }

  /** `re.findall(pattern, text)`: the characters of the class, in text order. */
  function Matches(k: Kind, text: string): (m: string)
    ensures |m| <= |text|
    ensures forall i :: 0 <= i < |m| ==> InPattern(k, m[i])
    ensures m == [] <==> forall i :: 0 <= i < |text| ==> !InPattern(k, text[i])
  {
    if |text| == 0 then []
    else
      var last := text[|text| - 1];
      Matches(k, text[..|text| - 1]) + (if InPattern(k, last) then [last] else [])
  }

  /** The first pattern, from position `p` of the list on, that finds something. */
  function FirstMatch(text: string, p: nat): (r: Option<Kind>)
    requires p <= |Patterns|
    ensures r.Some? ==> Matches(r.value, text) != []
    ensures r.None? ==> forall q :: p <= q < |Patterns| ==> Matches(Patterns[q], text) == []
    decreases |Patterns| - p
  {
    if p == |Patterns| then None
    else if Matches(Patterns[p], text) != [] then Some(Patterns[p])
    else FirstMatch(text, p + 1)
  }

  /** Some character of the text is an artifact character. */
  predicate HasArtifacts(text: string) {
    |text| > 0 && (IsArtifactChar(text[|text| - 1]) || HasArtifacts(text[..|text| - 1]))
  }

  lemma {:induction false} HasArtifactsChar(text: string)
    ensures HasArtifacts(text) <==> exists i :: 0 <= i < |text| && IsArtifactChar(text[i])
  {
    if |text| > 0 {
      var init := text[..|text| - 1];
      HasArtifactsChar(init);
      assert forall i :: 0 <= i < |init| ==> init[i] == text[i];
    }
  }

  /**
   * `has_artifacts`, the loop over the patterns with its early return:
   * some pattern finds something exactly when the text holds an artifact
   * character.
   */
  lemma HasArtifactsIff(text: string)
    ensures HasArtifacts(text) <==> FirstMatch(text, 0).Some?
  {
    HasArtifactsChar(text);
    if FirstMatch(text, 0).Some? {
      var k := FirstMatch(text, 0).value;
      var i :| 0 <= i < |text| && InPattern(k, text[i]);
      assert IsArtifactChar(text[i]);
    } else {
      forall i | 0 <= i < |text|
        ensures !IsArtifactChar(text[i])
      {
        assert Matches(Patterns[0], text) == [] && Matches(Patterns[1], text) == [];
        assert Matches(Patterns[2], text) == [] && Matches(Patterns[3], text) == [];
        assert !InPattern(Chinese, text[i]) && !InPattern(Hiragana, text[i]);
        assert !InPattern(Katakana, text[i]) && !InPattern(Replacement, text[i]);
      }
    }
  }

  /** The type name chosen for the first match: by range, the replacement character last. */
  function ArtifactType(c: char): Kind {
    if '\U{4E00}' <= c <= '\U{9FFF}' then Chinese
    else if '\U{3040}' <= c <= '\U{309F}' then Hiragana
    else if '\U{30A0}' <= c <= '\U{30FF}' then Katakana
    else Replacement
  }

  // ---------------------------------------------------------------------
  // The cleaning prompt
  // ---------------------------------------------------------------------

  /** The fixed table of language names (the prepositional form used in the prompt). */
  const LanguageNames: seq<(string, string)> := [
    ("ru", "русском"), ("en", "английском"), ("de", "немецком"), ("fr", "французском"),
    ("es", "испанском"), ("it", "итальянском"), ("zh", "китайском"), ("ja", "японском")]

  /** `table.get(code, default)` on a table given as an ordered list of pairs. */
  function TableGet(table: seq<(string, string)>, code: string, default: string): (r: string)
    ensures (forall i :: 0 <= i < |table| ==> table[i].0 != code) ==> r == default
    ensures forall i :: (0 <= i < |table| && table[i].0 == code
                         && forall j :: 0 <= j < i ==> table[j].0 != code) ==> r == table[i].1
  {
    if |table| == 0 then default
    else if table[0].0 == code then table[0].1
    else
      var r := TableGet(table[1..], code, default);
      assert forall i :: 1 <= i < |table| ==> table[i] == table[1..][i - 1];
      r
  }

  /** `language_names.get(language, language)`. */
  function LanguageLabel(code: string): string {
    TableGet(LanguageNames, code, code)
  }

  /** A code in the table gets its name; any other code stands for itself. */
  lemma LanguageLabelFallsBack(code: string)
    ensures (forall i :: 0 <= i < |LanguageNames| ==> LanguageNames[i].0 != code) ==> LanguageLabel(code) == code
    ensures code == "ru" ==> LanguageLabel(code) == "русском"
    ensures code == "ja" ==> LanguageLabel(code) == "японском"
  {
    if code == "ja" {
      assert forall j :: 0 <= j < 7 ==> LanguageNames[j].0 != code;
      assert LanguageNames[7].0 == code;
    }
  }

  /** The replica as the prompt quotes it. */
  function QuotedText(text: string): string {
    "Исходный текст: \"" + text + "\""
  }

  /** The phrase naming the language of the replica. */
  function LanguagePhrase(lang: string): string {
    "на " + lang + " языке"
  }

  function PromptHead(theme: string): string {
    "Тема диалога: \"" + theme + "\"\n\nПолучена строка текста "
  }

  const PromptMiddle := ", которая может содержать китайские/японские символы, опечатки или грамматические ошибки.\n\n"

  const PromptClosing := " языке\n"
    + "2. Исправить грамматические ошибки и опечатки\n"
    + "3. Сохранить исходный стиль и смысл высказывания\n"
    + "4. Не добавлять дополнительный текст\n\n"
    + "Формат ответа (JSON):\n{\n    \"cleaned_text\": \"исправленная строка текста\"\n}\n\n"
    + "ВАЖНО: Верни только JSON объект без дополнительного текста."

  function PromptTail(lang: string): string {
    "\n\nЗадача:\n1. Заменить все китайские/японские символы на эквиваленты на " + lang + PromptClosing
  }

  /** The prompt text between the leading and trailing line breaks of the literal. */
  function PromptBody(theme: string, text: string, lang: string): string {
    PromptHead(theme) + LanguagePhrase(lang) + PromptMiddle + QuotedText(text) + PromptTail(lang)
  }

  /** The body starts with a letter and ends with a full stop. */
  lemma PromptBodyEnds(theme: string, text: string, lang: string)
    ensures var body := PromptBody(theme, text, lang);
      |body| > 0 && !IsSpace(body[0]) && !IsSpace(body[|body| - 1])
  {
    var head := PromptHead(theme);
    var tail := PromptTail(lang);
    var body := PromptBody(theme, text, lang);
    assert head[0] == 'Т';
    assert body[0] == head[0];
    assert PromptClosing[|PromptClosing| - 1] == '.';
    assert tail[|tail| - 1] == PromptClosing[|PromptClosing| - 1];
    assert body[|body| - 1] == tail[|tail| - 1];
  }

  /**
   * `build_cleaning_prompt` for a language name already looked up: the
   * f-string with `.strip()`.
   */
  function CleaningPrompt(theme: string, text: string, lang: string): (r: string)
    ensures r == PromptBody(theme, text, lang)
  {
    var body := PromptBody(theme, text, lang);
    PromptBodyEnds(theme, text, lang);
    StripsToBody(body);
    Strip("\n" + body + "\n")
  }

  /** Stripping a line break from both ends of text that starts and ends with a letter or stop. */
  lemma StripsToBody(body: string)
    requires |body| > 0 && !IsSpace(body[0]) && !IsSpace(body[|body| - 1])
    ensures Strip("\n" + body + "\n") == body
  {
    var s := "\n" + body + "\n";
    assert s[1..] == body + "\n";
    assert StripStart(s) == body + "\n";
    assert (body + "\n")[..|body|] == body;
    assert StripEnd(body + "\n") == body;
  }

  /** The two quoted pieces of a five-part text are found in it. */
  lemma FoundInFiveParts(head: string, phrase: string, mid: string, quoted: string, tail: string)
    ensures Contains(head + phrase + mid + quoted + tail, phrase)
    ensures Contains(head + phrase + mid + quoted + tail, quoted)
  {
    assert OccursAt(phrase, phrase, 0) && OccursAt(quoted, quoted, 0);
    ContainsInConcat(head, phrase, phrase);
    ContainsInConcat(head + phrase, mid, phrase);
    ContainsInConcat(head + phrase + mid, quoted, phrase);
    ContainsInConcat(head + phrase + mid, quoted, quoted);
    ContainsInConcat(head + phrase + mid + quoted, tail, phrase);
    ContainsInConcat(head + phrase + mid + quoted, tail, quoted);
  }

  /** The prompt quotes the replica and names its language. */
  lemma PromptQuotes(theme: string, text: string, lang: string)
    ensures Contains(CleaningPrompt(theme, text, lang), QuotedText(text))
    ensures Contains(CleaningPrompt(theme, text, lang), LanguagePhrase(lang))
  {
    FoundInFiveParts(PromptHead(theme), LanguagePhrase(lang), PromptMiddle, QuotedText(text), PromptTail(lang));
  }

  /**
   * The request behind the cleaning prompt of a replica: the theme and
   * the language name as the f-string shows them.
   */
  datatype Request = Request(theme: string, text: string, lang: string)

  /** The prompt that `build_cleaning_prompt` sends for a request. */
  function PromptOf(q: Request): string {
    CleaningPrompt(q.theme, q.text, q.lang)
  }

  // ---------------------------------------------------------------------
  // Cleaning one replica and one record
  // ---------------------------------------------------------------------

  /**
   * What the script reaches outside itself for: `respond(q)` is the parsed
   * reply of `APIClient.generate_dialog` to `PromptOf(q)` (None when the
   * client gives up or raises), `render` is `str()` of a non-string value.
   */
  datatype Services = Services(respond: Request -> Option<Json>, render: Json -> string)

  /** The theme as the f-string shows it. */
  function ThemeText(theme: Json, sv: Services): string {
    if theme.JStr? then theme.s else sv.render(theme)
  }

  /**
   * The language name in the prompt: a list or a dict is not hashable, so
   * the table lookup raises (None); any other value is looked up and
   * shown as itself when missing.
   */
  function LanguageText(language: Json, sv: Services): Option<string> {
    match language
    case JStr(code) => Some(LanguageLabel(code))
    case JArr(_) => None
    case JObj(_) => None
    case _ => Some(sv.render(language))
  }

  /**
   * The request for a replica of a record: the theme and a language name
   * that is not a string are shown by `str()`; a language that is a list
   * or a dict cannot be looked up, and building the prompt raises (None).
   */
  function RequestFor(theme: Json, text: string, language: Json, sv: Services): (r: Option<Request>)
    ensures r.Some? <==> !(language.JArr? || language.JObj?)
    ensures r.Some? ==> r.value.text == text
    ensures language.JStr? ==> r.Some? && r.value.lang == LanguageLabel(language.s)
  {
    match LanguageText(language, sv)
    case None => None
    case Some(lang) => Some(Request(ThemeText(theme, sv), text, lang))
  }

  /**
   * `cleaned_text[:30]` in the debug message succeeds only on a str or a
   * list; on anything else it raises, and the handler returns the replica.
   */
  predicate Sliceable(v: Json) {
    v.JStr? || v.JArr?
  }

  /**
   * `clean_single_line`: a replica without artifacts is returned as it is;
   * otherwise the reply's `cleaned_text` when the reply is a dict holding
   * that key and the value can be sliced for the debug message, and the
   * replica itself in every other case (no reply, another shape, or an
   * exception while building the prompt or reading the reply).
   */
  function CleanLine(theme: Json, text: string, language: Json, sv: Services): (r: Json)
    ensures Sliceable(r)
    ensures !HasArtifacts(text) ==> r == JStr(text)
    ensures r == JStr(text) || (HasArtifacts(text) && RequestFor(theme, text, language, sv).Some?
      && exists ms :: sv.respond(RequestFor(theme, text, language, sv).value) == Some(JObj(ms))
                      && Lookup(ms, "cleaned_text") == Some(r))
  {
    if !HasArtifacts(text) then JStr(text)
    else match RequestFor(theme, text, language, sv)
      case None => JStr(text)
      case Some(q) =>
      match sv.respond(q)
      case Some(JObj(ms)) =>
        (match Lookup(ms, "cleaned_text")
         case Some(v) => if Sliceable(v) then v else JStr(text)
         case None => JStr(text))
      case _ => JStr(text)
  }

  /** A reply whose `cleaned_text` cannot be sliced leaves the replica as it was. */
  lemma UnsliceableReplyKeepsText(theme: Json, text: string, language: Json, sv: Services, ms: seq<Member>, v: Json)
    requires RequestFor(theme, text, language, sv).Some?
    requires sv.respond(RequestFor(theme, text, language, sv).value) == Some(JObj(ms))
    requires Lookup(ms, "cleaned_text") == Some(v) && !Sliceable(v)
    ensures CleanLine(theme, text, language, sv) == JStr(text)
  {
  }

  /** Every replica is a string (a non-string makes `has_artifacts` raise). */
  predicate AllStrings(texts: seq<Json>) {
    forall i :: 0 <= i < |texts| ==> texts[i].JStr?
  }

  /** Some string replica has artifacts. */
  predicate SomeArtifacts(texts: seq<Json>) {
    exists i :: 0 <= i < |texts| && texts[i].JStr? && HasArtifacts(texts[i].s)
  }

  /** A list has a replica with artifacts when its front does or its last replica does. */
  lemma SomeArtifactsSnoc(texts: seq<Json>)
    requires |texts| > 0
    ensures var n := |texts| - 1;
      SomeArtifacts(texts) <==> SomeArtifacts(texts[..n]) || (texts[n].JStr? && HasArtifacts(texts[n].s))
  {
    var n := |texts| - 1;
    if SomeArtifacts(texts[..n]) {
      var i :| 0 <= i < n && texts[..n][i].JStr? && HasArtifacts(texts[..n][i].s);
      assert texts[i] == texts[..n][i];
    }
    if SomeArtifacts(texts) {
      var i :| 0 <= i < |texts| && texts[i].JStr? && HasArtifacts(texts[i].s);
      if i < n {
        assert texts[..n][i] == texts[i];
      }
    }
  }

  /**
   * The replica loop of `clean_single_dialog`: the new list and whether any
   * replica needed cleaning, or None when a replica is not a string.
   */
  function CleanAll(theme: Json, language: Json, texts: seq<Json>, sv: Services): Option<(seq<Json>, bool)> {
    if |texts| == 0 then Some(([], false))
    else
      var t := texts[|texts| - 1];
      match CleanAll(theme, language, texts[..|texts| - 1], sv)
      case None => None
      case Some((c, needs)) =>
        if !t.JStr? then None
        else if HasArtifacts(t.s) then Some((c + [CleanLine(theme, t.s, language, sv)], true))
        else Some((c + [t], needs))
  }

  /** The replica loop fails exactly when a replica is not a string. */
  lemma {:induction false} CleanAllFails(theme: Json, language: Json, texts: seq<Json>, sv: Services)
    ensures CleanAll(theme, language, texts, sv).None? <==> !AllStrings(texts)
  {
    if |texts| > 0 {
      var init := texts[..|texts| - 1];
      CleanAllFails(theme, language, init, sv);
      assert forall i :: 0 <= i < |init| ==> init[i] == texts[i];
    }
  }

  /**
   * On string replicas the loop keeps the count and every artifact-free
   * replica, cleans the others, and reports whether there was any.
   */
  lemma {:induction false} CleanAllMeaning(theme: Json, language: Json, texts: seq<Json>, sv: Services)
    requires AllStrings(texts)
    ensures var r := CleanAll(theme, language, texts, sv);
      && r.Some? && |r.value.0| == |texts|
      && (r.value.1 <==> SomeArtifacts(texts))
      && (forall i :: 0 <= i < |texts| && !HasArtifacts(texts[i].s) ==> r.value.0[i] == texts[i])
      && (forall i :: 0 <= i < |texts| && HasArtifacts(texts[i].s)
                      ==> r.value.0[i] == CleanLine(theme, texts[i].s, language, sv))
  {
    if |texts| > 0 {
      var n := |texts| - 1;
      var init, last := texts[..n], texts[n];
      assert forall i :: 0 <= i < |init| ==> init[i] == texts[i];
      CleanAllMeaning(theme, language, init, sv);
      var (c, needs) := CleanAll(theme, language, init, sv).value;
      var x := if HasArtifacts(last.s) then CleanLine(theme, last.s, language, sv) else last;
      CleanAllSnoc(theme, language, texts, sv, c, needs, x);
      var r := CleanAll(theme, language, texts, sv);
      assert r.value.0 == c + [x] && (r.value.1 <==> needs || HasArtifacts(last.s));
      SomeArtifactsSnoc(texts);
      KeptSnoc(init, texts, c, x);
      CleanedSnoc(theme, language, init, texts, c, x, sv);
    }
  }

  /** One string replica more: its cleaned form is appended and its artifacts join the flag. */
  lemma CleanAllSnoc(theme: Json, language: Json, texts: seq<Json>, sv: Services, c: seq<Json>, needs: bool, x: Json)
    requires |texts| > 0 && texts[|texts| - 1].JStr?
    requires CleanAll(theme, language, texts[..|texts| - 1], sv) == Some((c, needs))
    requires x == if HasArtifacts(texts[|texts| - 1].s) then CleanLine(theme, texts[|texts| - 1].s, language, sv)
                  else texts[|texts| - 1]
    ensures CleanAll(theme, language, texts, sv) == Some((c + [x], needs || HasArtifacts(texts[|texts| - 1].s)))
  {
  }

  /** Replicas without artifacts stay as they were, one replica more. */
  lemma KeptSnoc(init: seq<Json>, texts: seq<Json>, c: seq<Json>, x: Json)
    requires AllStrings(texts) && |texts| > 0 && init == texts[..|texts| - 1] && |c| == |init|
    requires forall i :: 0 <= i < |init| && !HasArtifacts(init[i].s) ==> c[i] == init[i]
    requires !HasArtifacts(texts[|texts| - 1].s) ==> x == texts[|texts| - 1]
    ensures forall i :: 0 <= i < |texts| && !HasArtifacts(texts[i].s) ==> (c + [x])[i] == texts[i]
  {
    forall i | 0 <= i < |texts| && !HasArtifacts(texts[i].s)
      ensures (c + [x])[i] == texts[i]
    {
      if i < |init| {
        assert init[i] == texts[i];
      }
    }
  }

  /** Replicas with artifacts are the cleaned text, one replica more. */
  lemma CleanedSnoc(theme: Json, language: Json, init: seq<Json>, texts: seq<Json>, c: seq<Json>, x: Json, sv: Services)
    requires AllStrings(texts) && |texts| > 0 && init == texts[..|texts| - 1] && |c| == |init|
    requires forall i :: 0 <= i < |init| && HasArtifacts(init[i].s) ==> c[i] == CleanLine(theme, init[i].s, language, sv)
    requires HasArtifacts(texts[|texts| - 1].s) ==> x == CleanLine(theme, texts[|texts| - 1].s, language, sv)
    ensures forall i :: 0 <= i < |texts| && HasArtifacts(texts[i].s)
                        ==> (c + [x])[i] == CleanLine(theme, texts[i].s, language, sv)
  {
    forall i | 0 <= i < |texts| && HasArtifacts(texts[i].s)
      ensures (c + [x])[i] == CleanLine(theme, texts[i].s, language, sv)
    {
      if i < |init| {
        assert init[i] == texts[i];
      }
    }
  }

  /** `dict.get(key, default)` on a record. */
  function LookupOr(ms: seq<Member>, key: string, default: Json): Json {
    match Lookup(ms, key)
    case Some(v) => v
    case None => default
  }

  /**
   * `clean_single_dialog` on the record's value: a dict whose `dialog` is a
   * list of strings gets the cleaned list and `cleaned: True` when some
   * replica had artifacts; every other record comes back as it was.
   */
  function CleanedRecord(data: Json, sv: Services): Json {
    match data
    case JObj(ms) =>
      (match Lookup(ms, "dialog")
       case Some(JArr(texts)) =>
         (match CleanAll(LookupOr(ms, "theme", JStr("")), LookupOr(ms, "language", JStr("ru")), texts, sv)
          case Some((c, true)) => JObj(Put(Put(ms, "dialog", JArr(c)), "cleaned", JBool(true)))
          case _ => data)
       case _ => data)
    case _ => data
  }

  /** A record changes only when it is a dict whose `dialog` list has a replica with artifacts. */
  lemma CleanedOnlyWithArtifacts(data: Json, sv: Services)
    requires CleanedRecord(data, sv) != data
    ensures data.JObj? && Lookup(data.members, "dialog").Some? && Lookup(data.members, "dialog").value.JArr?
    ensures var texts := Lookup(data.members, "dialog").value.items; AllStrings(texts) && SomeArtifacts(texts)
  {
    var ms := data.members;
    var texts := Lookup(ms, "dialog").value.items;
    var theme := LookupOr(ms, "theme", JStr(""));
    var language := LookupOr(ms, "language", JStr("ru"));
    CleanAllFails(theme, language, texts, sv);
    CleanAllMeaning(theme, language, texts, sv);
  }

  /**
   * A dict whose `dialog` is a list of strings with some artifact gets the
   * flag, a list of the same length with artifact-free replicas untouched,
   * and every other key as before.
   */
  lemma CleanedRecordMarks(data: Json, sv: Services)
    requires data.JObj? && Lookup(data.members, "dialog").Some? && Lookup(data.members, "dialog").value.JArr?
    requires var texts := Lookup(data.members, "dialog").value.items; AllStrings(texts) && SomeArtifacts(texts)
    ensures CleanedRecord(data, sv).JObj?
    ensures var ms' := CleanedRecord(data, sv).members;
      Lookup(ms', "cleaned") == Some(JBool(true))
      && Lookup(ms', "dialog").Some? && Lookup(ms', "dialog").value.JArr?
      && forall k :: k != "dialog" && k != "cleaned" ==> Lookup(ms', k) == Lookup(data.members, k)
    ensures var texts := Lookup(data.members, "dialog").value.items;
      var c := Lookup(CleanedRecord(data, sv).members, "dialog").value.items;
      |c| == |texts| && forall i :: 0 <= i < |texts| && !HasArtifacts(texts[i].s) ==> c[i] == texts[i]
  {
    var ms := data.members;
    var texts := Lookup(ms, "dialog").value.items;
    var theme := LookupOr(ms, "theme", JStr(""));
    var language := LookupOr(ms, "language", JStr("ru"));
    CleanAllMeaning(theme, language, texts, sv);
    var c := CleanAll(theme, language, texts, sv).value.0;
    assert CleanAll(theme, language, texts, sv) == Some((c, true));
    assert CleanedRecord(data, sv) == JObj(Put(Put(ms, "dialog", JArr(c)), "cleaned", JBool(true)));
    MarkedLookups(ms, JArr(c));
  }

  /** Setting `dialog` and then `cleaned` leaves every other key alone. */
  lemma MarkedLookups(ms: seq<Member>, v: Json)
    ensures var r := Put(Put(ms, "dialog", v), "cleaned", JBool(true));
      Lookup(r, "cleaned") == Some(JBool(true)) && Lookup(r, "dialog") == Some(v)
      && forall k :: k != "dialog" && k != "cleaned" ==> Lookup(r, k) == Lookup(ms, k)
  {
    var m1 := Put(ms, "dialog", v);
    assert Lookup(Put(m1, "cleaned", JBool(true)), "dialog") == Lookup(m1, "dialog");
  }

  /** When the API never answers, cleaning keeps every replica and only adds the flag. */
  lemma SilentApiKeepsReplicas(data: Json, sv: Services)
    requires forall p :: sv.respond(p).None?
    requires data.JObj? && Lookup(data.members, "dialog").Some? && Lookup(data.members, "dialog").value.JArr?
    ensures CleanedRecord(data, sv).JObj?
    ensures Lookup(CleanedRecord(data, sv).members, "dialog") == Lookup(data.members, "dialog")
  {
    var ms := data.members;
    var texts := Lookup(ms, "dialog").value.items;
    var theme := LookupOr(ms, "theme", JStr(""));
    var language := LookupOr(ms, "language", JStr("ru"));
    CleanAllFails(theme, language, texts, sv);
    if AllStrings(texts) {
      CleanAllMeaning(theme, language, texts, sv);
    }
    if AllStrings(texts) && SomeArtifacts(texts) {
      SilentCleanAllKeeps(theme, language, texts, sv);
      assert CleanedRecord(data, sv) == JObj(Put(Put(ms, "dialog", JArr(texts)), "cleaned", JBool(true)));
      MarkedLookups(ms, JArr(texts));
    }
  }

  /** With an API that never answers, the replica loop gives back the replicas unchanged. */
  lemma SilentCleanAllKeeps(theme: Json, language: Json, texts: seq<Json>, sv: Services)
    requires forall p :: sv.respond(p).None?
    requires AllStrings(texts) && SomeArtifacts(texts)
    ensures CleanAll(theme, language, texts, sv) == Some((texts, true))
  {
    CleanAllMeaning(theme, language, texts, sv);
    var c := CleanAll(theme, language, texts, sv).value.0;
    forall i | 0 <= i < |texts|
      ensures c[i] == texts[i]
    {
      if HasArtifacts(texts[i].s) {
        SilentLineKeepsText(theme, texts[i].s, language, sv);
      }
    }
    assert c == texts;
  }

  /** With an API that never answers, a replica is kept as it is. */
  lemma SilentLineKeepsText(theme: Json, text: string, language: Json, sv: Services)
    requires forall p :: sv.respond(p).None?
    ensures CleanLine(theme, text, language, sv) == JStr(text)
  {
  }

  /** A record value that `clean_single_dialog` updates in place. */
  class Record {
    var data: Json

    constructor (d: Json)
      ensures data == d
    {
      data := d;
    }
  }

  /**
   * `clean_single_dialog`: the replica loop builds the new list; the
   * record is changed only after the loop, so a non-string replica (the
   * exception path) leaves it as it was.
   */
  method CleanSingleDialog(rec: Record, sv: Services)
    modifies rec
    ensures rec.data == CleanedRecord(old(rec.data), sv)
  {
    var data := rec.data;
    if !data.JObj? {
      return;
    }
    var ms := data.members;
    var d := Lookup(ms, "dialog");
    if d.None? || !d.value.JArr? {
      return;
    }
    var r := CleanReplicas(LookupOr(ms, "theme", JStr("")), d.value.items, LookupOr(ms, "language", JStr("ru")), sv);
    match r
    case Some((cleaned, true)) =>
      rec.data := JObj(Put(Put(ms, "dialog", JArr(cleaned)), "cleaned", JBool(true)));
    case _ =>
      assert CleanedRecord(data, sv) == data;
  }

  /** The replica loop of `clean_single_dialog`; `None` when a replica is not a string. */
  method CleanReplicas(theme: Json, texts: seq<Json>, language: Json, sv: Services)
    returns (r: Option<(seq<Json>, bool)>)
    ensures r == CleanAll(theme, language, texts, sv)
  {
    var cleaned: seq<Json> := [];
    var needs := false;
    var j := 0;
    while j < |texts|
      invariant 0 <= j <= |texts|
      invariant CleanAll(theme, language, texts[..j], sv) == Some((cleaned, needs))
    {
      assert texts[..j + 1][..j] == texts[..j];
      var t := texts[j];
      if !t.JStr? {
        assert !AllStrings(texts);
        CleanAllFails(theme, language, texts, sv);
        return None;
      }
      if HasArtifacts(t.s) {
        needs := true;
        cleaned := cleaned + [CleanLine(theme, t.s, language, sv)];
      } else {
        cleaned := cleaned + [t];
      }
      j := j + 1;
    }
    assert texts[..j] == texts;
    r := Some((cleaned, needs));
  }

  // ---------------------------------------------------------------------
  // Reading a JSONL file
  // ---------------------------------------------------------------------

  /** A line that both readers skip: blank after stripping, or not valid JSON. */
  predicate Skipped(line: string, decode: string -> Option<Json>) {
    LineRecord(line, decode).None?
  }

  /** The record on a line: the stripped line decoded, unless it is blank. */
  function LineRecord(line: string, decode: string -> Option<Json>): Option<Json> {
    var t := Strip(line);
    if t == [] then None else decode(t)
  }

  /** The records of a file: its non-blank lines that decode, in order. */
  function DecodedDialogs(lines: seq<string>, decode: string -> Option<Json>): seq<Json>
  {
    if |lines| == 0 then []
    else
      var last := lines[|lines| - 1];
      DecodedDialogs(lines[..|lines| - 1], decode)
      + (if Skipped(last, decode) then [] else [LineRecord(last, decode).value])
  }

  /** The lines written for a list of records, one per record with `emit`. */
  function EmitAll(ds: seq<Json>, emit: Json -> string): seq<string> {
    if |ds| == 0 then []
    else EmitAll(ds[..|ds| - 1], emit) + [emit(ds[|ds| - 1])]
  }

  /** One line per record, in order. */
  lemma {:induction false} EmitAllInOrder(ds: seq<Json>, emit: Json -> string)
    ensures |EmitAll(ds, emit)| == |ds|
    ensures forall k :: 0 <= k < |ds| ==> EmitAll(ds, emit)[k] == emit(ds[k])
  {
    if |ds| > 0 {
      var init := ds[..|ds| - 1];
      EmitAllInOrder(init, emit);
      assert forall k :: 0 <= k < |init| ==> init[k] == ds[k];
    }
  }

  /** The line written for a record: the record after cleaning, encoded by `json.dumps`. */
  function Output(encode: Json -> string, sv: Services): Json -> string {
    d => encode(CleanedRecord(d, sv))
  }

  /** The output lines for a list of records: each record cleaned and encoded, in order. */
  function CleanedOutputs(ds: seq<Json>, encode: Json -> string, sv: Services): seq<string> {
    EmitAll(ds, Output(encode, sv))
  }

  /** One output line per record, in order, each the record after cleaning. */
  lemma CleanedOutputsInOrder(ds: seq<Json>, encode: Json -> string, sv: Services)
    ensures |CleanedOutputs(ds, encode, sv)| == |ds|
    ensures forall k :: 0 <= k < |ds| ==> CleanedOutputs(ds, encode, sv)[k] == encode(CleanedRecord(ds[k], sv))
  {
    EmitAllInOrder(ds, Output(encode, sv));
  }

  function Min(a: int, b: int): int {
    if a <= b then a else b
  }

  /** The reading loop of `clean_dialog_file`: the records of the file, in order. */
  method ReadDialogs(lines: seq<string>, decode: string -> Option<Json>) returns (dialogs: seq<Json>)
    ensures dialogs == DecodedDialogs(lines, decode)
  {
    dialogs := [];
    var i := 0;
    while i < |lines|
      invariant 0 <= i <= |lines|
      invariant dialogs == DecodedDialogs(lines[..i], decode)
    {
      var data := LineRecord(lines[i], decode);
      DecodedDialogsSnoc(lines, i, decode);
      if data.Some? {
        dialogs := dialogs + [data.value];
      }
      i := i + 1;
    }
    assert lines[..i] == lines;
  }

  /** The records of the first `i + 1` lines: those of the first `i`, then the record on line `i`, if any. */
  lemma DecodedDialogsSnoc(lines: seq<string>, i: nat, decode: string -> Option<Json>)
    requires i < |lines|
    ensures DecodedDialogs(lines[..i + 1], decode)
      == DecodedDialogs(lines[..i], decode) + (if Skipped(lines[i], decode) then [] else [LineRecord(lines[i], decode).value])
  {
    var pre := lines[..i + 1];
    assert pre[..|pre| - 1] == lines[..i];
    assert pre[|pre| - 1] == lines[i];
  }

  /**
   * `clean_dialog_file`: `file` is the input (None when it does not exist);
   * `written` are the lines appended to the output file.  A zero batch
   * size makes `range` raise after the input was read; a negative one
   * makes it empty.
   */
  method CleanDialogFile(file: Option<seq<string>>, batchSize: int, decode: string -> Option<Json>,
                         encode: Json -> string, sv: Services)
    returns (ok: bool, written: seq<string>)
    ensures ok <==> file.Some? && batchSize != 0
    ensures written == (if file.Some? && batchSize > 0
                        then CleanedOutputs(DecodedDialogs(file.value, decode), encode, sv) else [])
  {
    if file.None? {
      return false, [];
    }
    var dialogs := ReadDialogs(file.value, decode);
    if batchSize == 0 {
      return false, [];
    }
    if batchSize < 0 {
      return true, [];
    }
    written := CleanInBatches(dialogs, batchSize, encode, sv);
    ok := true;
  }

  /** The batch loop of `clean_dialog_file`: `range(0, len(dialogs), batch_size)`. */
  method CleanInBatches(dialogs: seq<Json>, batchSize: nat, encode: Json -> string, sv: Services)
    returns (written: seq<string>)
    requires batchSize > 0
    ensures written == CleanedOutputs(dialogs, encode, sv)
  {
    written := [];
    var start := 0;
    while start < |dialogs|
      invariant 0 <= start
      invariant written == EmitAll(dialogs[..Min(start, |dialogs|)], Output(encode, sv))
      decreases |dialogs| - start
    {
      var end := Min(start + batchSize, |dialogs|);
      written := CleanBatch(dialogs, start, end, encode, sv, written);
      start := start + batchSize;
    }
    assert dialogs[..Min(start, |dialogs|)] == dialogs;
  }

  /**
   * One batch `dialogs[start:end]` of `clean_dialog_file`: each record is
   * cleaned in place and its line appended to what was written before.
   */
  method CleanBatch(dialogs: seq<Json>, start: nat, end: nat, encode: Json -> string, sv: Services,
                    written: seq<string>)
    returns (out: seq<string>)
    requires start <= end <= |dialogs|
    requires written == EmitAll(dialogs[..start], Output(encode, sv))
    ensures out == EmitAll(dialogs[..end], Output(encode, sv))
  {
    out := written;
    var j := start;
    while j < end
      invariant start <= j <= end
      invariant out == EmitAll(dialogs[..j], Output(encode, sv))
    {
      var line := CleanRecordLine(dialogs[j], encode, sv);
      EmitAllSnoc(dialogs, j, Output(encode, sv));
      out := out + [line];
      j := j + 1;
    }
  }

  /** The body of the batch loop: one record cleaned in place, then encoded. */
  method CleanRecordLine(d: Json, encode: Json -> string, sv: Services) returns (line: string)
    ensures line == Output(encode, sv)(d)
  {
    var rec := new Record(d);
    CleanSingleDialog(rec, sv);
    line := encode(rec.data);
  }

  /** The lines of the first `j + 1` records: those of the first `j`, then the line of record `j`. */
  lemma EmitAllSnoc(ds: seq<Json>, j: nat, emit: Json -> string)
    requires j < |ds|
    ensures EmitAll(ds[..j + 1], emit) == EmitAll(ds[..j], emit) + [emit(ds[j])]
  {
    var pre := ds[..j + 1];
    assert pre[..|pre| - 1] == ds[..j];
    assert pre[|pre| - 1] == ds[j];
  }

  /** Skipped lines add no record: appending them leaves the records as they were. */
  lemma {:induction false} SkippedLinesAddNothing(lines: seq<string>, extra: seq<string>, decode: string -> Option<Json>)
    requires forall i :: 0 <= i < |extra| ==> Skipped(extra[i], decode)
    ensures DecodedDialogs(lines + extra, decode) == DecodedDialogs(lines, decode)
  {
    if |extra| > 0 {
      var init := extra[..|extra| - 1];
      assert (lines + extra)[..|lines + extra| - 1] == lines + init;
      SkippedLinesAddNothing(lines, init, decode);
    } else {
      assert lines + extra == lines;
    }
  }

  // ---------------------------------------------------------------------
  // The artifact report
  // ---------------------------------------------------------------------

  /** One entry of `sample_artifacts`. */
  datatype Sample = Sample(text: string, artifacts: string)

  /** The report of `analyze_file_artifacts`. */
  datatype Stats = Stats(totalDialogs: nat, dialogsWithArtifacts: nat, totalLines: nat,
                         linesWithArtifacts: nat, artifactTypes: map<Kind, nat>, samples: seq<Sample>)

  datatype AnalysisError = FileNotFound | Raised

  const EmptyStats := Stats(0, 0, 0, 0, map[], [])

  const MaxSamples := 5
  const SampleTextLength := 100
  const SampleMatches := 3

  /** `counts.get(k, 0)`. */
  function CountOf(types: map<Kind, nat>, k: Kind): nat {
    if k in types then types[k] else 0
  }

  /** The sum of the per-type counters. */
  function TypesTotal(types: map<Kind, nat>): nat {
    CountOf(types, Chinese) + CountOf(types, Hiragana) + CountOf(types, Katakana) + CountOf(types, Replacement)
  }

  /** A replica whose pattern `k` found `m`: counted once, its type bumped, and sampled while there is room. */
  function AddHit(st: Stats, text: string, m: string): Stats
    requires m != []
  {
    var kind := ArtifactType(m[0]);
    st.(linesWithArtifacts := st.linesWithArtifacts + 1,
        artifactTypes := st.artifactTypes[kind := CountOf(st.artifactTypes, kind) + 1],
        samples := if |st.samples| < MaxSamples
                   then st.samples + [Sample(text[..Min(|text|, SampleTextLength)], m[..Min(|m|, SampleMatches)])]
                   else st.samples)
  }

  /** One replica: counted, then the first pattern that finds something (and only that one) is recorded. */
  function ReplicaStep(st: Stats, text: string): (Stats, bool) {
    var st1 := st.(totalLines := st.totalLines + 1);
    match FirstMatch(text, 0)
    case None => (st1, false)
    case Some(k) => (AddHit(st1, text, Matches(k, text)), true)
  }

  /** The replica loop of one record: the stats and whether any replica had artifacts; None when one raises. */
  function ScanReplicas(st: Stats, texts: seq<Json>): Option<(Stats, bool)> {
    if |texts| == 0 then Some((st, false))
    else
      var t := texts[|texts| - 1];
      match ScanReplicas(st, texts[..|texts| - 1])
      case None => None
      case Some((s, has)) =>
        if !t.JStr? then None
        else
          var (s2, hit) := ReplicaStep(s, t.s);
          Some((s2, has || hit))
  }

  /** The replica loop over the first `j + 1` replicas: the loop over the first `j`, then replica `j`. */
  lemma ScanReplicasStep(st: Stats, texts: seq<Json>, j: nat)
    requires j < |texts|
    ensures ScanReplicas(st, texts[..j + 1]) ==
      match ScanReplicas(st, texts[..j])
      case None => None
      case Some((s, has)) =>
        if !texts[j].JStr? then None
        else var (s2, hit) := ReplicaStep(s, texts[j].s); Some((s2, has || hit))
  {
    var pre := texts[..j + 1];
    assert pre[..|pre| - 1] == texts[..j];
    assert pre[|pre| - 1] == texts[j];
  }

  /** The replica loop of the report raises exactly when a replica is not a string. */
  lemma {:induction false} ScanReplicasRaises(st: Stats, texts: seq<Json>)
    ensures ScanReplicas(st, texts).None? <==> !AllStrings(texts)
  {
    if |texts| > 0 {
      var init, last := texts[..|texts| - 1], texts[|texts| - 1];
      ScanReplicasRaises(st, init);
      ScanReplicasSnocRaises(st, texts);
      AllStringsSnoc(texts);
    }
  }

  /** One more replica raises exactly when the earlier ones did or it is not a string. */
  lemma ScanReplicasSnocRaises(st: Stats, texts: seq<Json>)
    requires |texts| > 0
    ensures ScanReplicas(st, texts).None?
      <==> ScanReplicas(st, texts[..|texts| - 1]).None? || !texts[|texts| - 1].JStr?
  {
  }

  lemma AllStringsSnoc(texts: seq<Json>)
    requires |texts| > 0
    ensures AllStrings(texts) <==> AllStrings(texts[..|texts| - 1]) && texts[|texts| - 1].JStr?
  {
    var init := texts[..|texts| - 1];
    assert forall i :: 0 <= i < |init| ==> init[i] == texts[i];
  }

  /**
   * The test `'dialog' in data and isinstance(data['dialog'], list)` on
   * any JSON value: on a list or a string `in` tests membership or a
   * substring and indexing by a string then raises; on a number, a bool
   * or null `in` itself raises.
   */
  datatype Replicas = NoReplicas | ReplicaList(items: seq<Json>) | RaisesOnAccess

  function ReplicasOf(data: Json): Replicas {
    match data
    case JObj(ms) =>
      (match Lookup(ms, "dialog")
       case Some(JArr(items)) => ReplicaList(items)
       case _ => NoReplicas)
    case JArr(items) => if JStr("dialog") in items then RaisesOnAccess else NoReplicas
    case JStr(s) => if Contains(s, "dialog") then RaisesOnAccess else NoReplicas
    case _ => RaisesOnAccess
  }

  /** One decoded record: counted, then its replicas scanned; None when the access raises. */
  function RecordStep(st: Stats, data: Json): Option<Stats> {
    ReplicasStep(st, ReplicasOf(data))
  }

  /** `RecordStep` once the record's replicas are known. */
  function ReplicasStep(st: Stats, replicas: Replicas): Option<Stats> {
    var st1 := st.(totalDialogs := st.totalDialogs + 1);
    match replicas
    case NoReplicas => Some(st1)
    case RaisesOnAccess => None
    case ReplicaList(texts) => MarkDialog(ScanReplicas(st1, texts))
  }

  /** After the replica loop: a dialog with some artifact is counted once more; a raise passes through. */
  function MarkDialog(scanned: Option<(Stats, bool)>): Option<Stats> {
    match scanned
    case None => None
    case Some((s2, has)) => Some(if has then s2.(dialogsWithArtifacts := s2.dialogsWithArtifacts + 1) else s2)
  }

  /** One line of the file; None when it raises something other than a decode error. */
  function LineStep(st: Stats, line: string, decode: string -> Option<Json>): Option<Stats> {
    match LineRecord(line, decode)
    case None => Some(st)
    case Some(data) => RecordStep(st, data)
  }

  /** The line loop over a whole file. */
  function Scan(lines: seq<string>, decode: string -> Option<Json>): Option<Stats> {
    if |lines| == 0 then Some(EmptyStats)
    else
      match Scan(lines[..|lines| - 1], decode)
      case None => None
      case Some(st) => LineStep(st, lines[|lines| - 1], decode)
  }

  /** `analyze_file_artifacts`: the report, or the error it returns instead. */
  function Analysis(file: Option<seq<string>>, decode: string -> Option<Json>): Result<Stats, AnalysisError> {
    if file.None? then Err(FileNotFound)
    else match Scan(file.value, decode)
      case None => Err(Raised)
      case Some(st) => Ok(st)
  }

  /** The scan of the first `i + 1` lines: the scan of the first `i`, then line `i`. */
  lemma ScanSnoc(lines: seq<string>, i: nat, decode: string -> Option<Json>)
    requires i < |lines|
    ensures Scan(lines[..i + 1], decode)
      == if Scan(lines[..i], decode).None? then None else LineStep(Scan(lines[..i], decode).value, lines[i], decode)
  {
    var pre := lines[..i + 1];
    assert pre[..|pre| - 1] == lines[..i];
    assert pre[|pre| - 1] == lines[i];
  }

  /** Once a prefix of the file raises, the whole analysis does. */
  lemma {:induction false} ScanRaisesOnward(lines: seq<string>, k: nat, decode: string -> Option<Json>)
    requires k <= |lines| && Scan(lines[..k], decode).None?
    ensures Scan(lines, decode).None?
    decreases |lines| - k
  {
    if k < |lines| {
      assert lines[..k + 1][..k] == lines[..k];
      assert Scan(lines[..k + 1], decode).None?;
      ScanRaisesOnward(lines, k + 1, decode);
    } else {
      assert lines[..k] == lines;
    }
  }

  /** The pattern loop of one replica, with its `break` after the first pattern that finds something. */
  method ScanReplica(st: Stats, text: string) returns (st': Stats, hit: bool)
    ensures (st', hit) == ReplicaStep(st, text)
  {
    var counted := st.(totalLines := st.totalLines + 1);
    st' := counted;
    hit := false;
    var p := 0;
    while p < |Patterns| && !hit
      invariant 0 <= p <= |Patterns|
      invariant !hit ==> st' == counted && FirstMatch(text, 0) == FirstMatch(text, p)
      invariant hit ==> (st', hit) == ReplicaStep(st, text)
    {
      var m := Matches(Patterns[p], text);
      FirstMatchUnfold(text, p);
      if m != [] {
        ReplicaStepOf(st, text);
        st' := AddHit(counted, text, m);
        hit := true;
      }
      p := p + 1;
    }
    if !hit {
      ReplicaStepOf(st, text);
    }
  }

  /** One step of `FirstMatch`. */
  lemma FirstMatchUnfold(text: string, p: nat)
    requires p < |Patterns|
    ensures FirstMatch(text, p) == if Matches(Patterns[p], text) != [] then Some(Patterns[p]) else FirstMatch(text, p + 1)
  {
  }

  /** `ReplicaStep` by the outcome of `FirstMatch`. */
  lemma ReplicaStepOf(st: Stats, text: string)
    ensures FirstMatch(text, 0).None? ==> ReplicaStep(st, text) == (st.(totalLines := st.totalLines + 1), false)
    ensures FirstMatch(text, 0).Some? ==>
      ReplicaStep(st, text) == (AddHit(st.(totalLines := st.totalLines + 1), text, Matches(FirstMatch(text, 0).value, text)), true)
  {
    var st1 := st.(totalLines := st.totalLines + 1);
    match FirstMatch(text, 0)
    case None =>
      assert ReplicaStep(st, text) == (st1, false);
    case Some(k) =>
      assert Matches(k, text) != [];
      assert ReplicaStep(st, text) == (AddHit(st1, text, Matches(k, text)), true);
  }

  /** The replica loop of one record in `analyze_file_artifacts`; None when a replica raises. */
  method ScanDialogReplicas(st: Stats, texts: seq<Json>) returns (r: Option<(Stats, bool)>)
    ensures r == ScanReplicas(st, texts)
  {
    var stats := st;
    var has := false;
    var j := 0;
    while j < |texts|
      invariant 0 <= j <= |texts|
      invariant ScanReplicas(st, texts[..j]) == Some((stats, has))
    {
      ScanReplicasStep(st, texts, j);
      if !texts[j].JStr? {
        assert !AllStrings(texts);
        ScanReplicasRaises(st, texts);
        return None;
      }
      var hit;
      stats, hit := ScanReplica(stats, texts[j].s);
      has := has || hit;
      j := j + 1;
    }
    assert texts[..j] == texts;
    return Some((stats, has));
  }

  /** One decoded record of `analyze_file_artifacts`: counted, then its replicas scanned. */
  method ScanRecord(st: Stats, data: Json) returns (r: Option<Stats>)
    ensures r == RecordStep(st, data)
  {
    var stats := st.(totalDialogs := st.totalDialogs + 1);
    var replicas := ReplicasOf(data);
    match replicas
    case RaisesOnAccess =>
      return None;
    case NoReplicas =>
      return Some(stats);
    case ReplicaList(texts) =>
      var scanned := ScanDialogReplicas(stats, texts);
      return MarkDialog(scanned);
  }

  /** The body of the line loop: a blank or undecodable line is skipped, a record is scanned. */
  method ScanLine(st: Stats, line: string, decode: string -> Option<Json>) returns (r: Option<Stats>)
    ensures r == LineStep(st, line, decode)
  {
    var data := LineRecord(line, decode);
    if data.None? {
      return Some(st);
    }
    r := ScanRecord(st, data.value);
  }

  /** `analyze_file_artifacts`: the loop over the lines of the file. */
  method AnalyzeFileArtifacts(file: Option<seq<string>>, decode: string -> Option<Json>)
    returns (r: Result<Stats, AnalysisError>)
    ensures r == Analysis(file, decode)
  {
    if file.None? {
      return Err(FileNotFound);
    }
    var lines := file.value;
    var stats := EmptyStats;
    var i := 0;
    while i < |lines|
      invariant 0 <= i <= |lines|
      invariant Scan(lines[..i], decode) == Some(stats)
    {
      ScanSnoc(lines, i, decode);
      var next := ScanLine(stats, lines[i], decode);
      if next.None? {
        ScanRaisesOnward(lines, i + 1, decode);
        return Err(Raised);
      }
      stats := next.value;
      i := i + 1;
    }
    assert lines[..i] == lines;
    return Ok(stats);
  }

  // ---------------------------------------------------------------------
  // Properties of the report
  // ---------------------------------------------------------------------

  /** A sample: at most 100 characters of the replica and one to three of its artifacts. */
  predicate SampleOk(s: Sample) {
    |s.text| <= SampleTextLength && 1 <= |s.artifacts| <= SampleMatches
    && forall i :: 0 <= i < |s.artifacts| ==> IsArtifactChar(s.artifacts[i])
  }

  /** The bounds every report keeps. */
  predicate Sane(st: Stats) {
    st.linesWithArtifacts <= st.totalLines
    && st.dialogsWithArtifacts <= st.totalDialogs
    && TypesTotal(st.artifactTypes) == st.linesWithArtifacts
    && |st.samples| <= MaxSamples && |st.samples| <= st.linesWithArtifacts
    && forall i :: 0 <= i < |st.samples| ==> SampleOk(st.samples[i])
  }

  /** Bumping one type counter adds one to their sum. */
  lemma TypesTotalBump(types: map<Kind, nat>, kind: Kind)
    ensures TypesTotal(types[kind := CountOf(types, kind) + 1]) == TypesTotal(types) + 1
  {
    var t := types[kind := CountOf(types, kind) + 1];
    assert CountOf(t, kind) == CountOf(types, kind) + 1;
    assert forall k :: k != kind ==> CountOf(t, k) == CountOf(types, k);
  }

  /** A new sample holds at most 100 characters and one to three artifact characters. */
  lemma NewSampleOk(k: Kind, text: string)
    requires Matches(k, text) != []
    ensures var m := Matches(k, text);
      SampleOk(Sample(text[..Min(|text|, SampleTextLength)], m[..Min(|m|, SampleMatches)]))
  {
    var m := Matches(k, text);
    var a := m[..Min(|m|, SampleMatches)];
    forall i | 0 <= i < |a|
      ensures IsArtifactChar(a[i])
    {
      assert a[i] == m[i];
      assert InPattern(k, m[i]);
    }
  }

  lemma AddHitSane(st: Stats, text: string, k: Kind)
    requires Sane(st) && st.linesWithArtifacts < st.totalLines && Matches(k, text) != []
    ensures Sane(AddHit(st, text, Matches(k, text)))
  {
    var m := Matches(k, text);
    var r := AddHit(st, text, m);
    TypesTotalBump(st.artifactTypes, ArtifactType(m[0]));
    if |st.samples| < MaxSamples {
      NewSampleOk(k, text);
      var s := Sample(text[..Min(|text|, SampleTextLength)], m[..Min(|m|, SampleMatches)]);
      assert r.samples == st.samples + [s];
      assert forall i :: 0 <= i < |st.samples| ==> r.samples[i] == st.samples[i];
    }
  }

  lemma ReplicaStepSane(st: Stats, text: string)
    requires Sane(st)
    ensures Sane(ReplicaStep(st, text).0)
    ensures ReplicaStep(st, text).0.totalDialogs == st.totalDialogs
    ensures ReplicaStep(st, text).0.dialogsWithArtifacts == st.dialogsWithArtifacts
  {
    var st1 := st.(totalLines := st.totalLines + 1);
    if FirstMatch(text, 0).Some? {
      AddHitSane(st1, text, FirstMatch(text, 0).value);
    }
  }

  lemma {:induction false} ScanReplicasSane(st: Stats, texts: seq<Json>)
    requires Sane(st) && ScanReplicas(st, texts).Some?
    ensures Sane(ScanReplicas(st, texts).value.0)
    ensures ScanReplicas(st, texts).value.0.totalDialogs == st.totalDialogs
    ensures ScanReplicas(st, texts).value.0.dialogsWithArtifacts == st.dialogsWithArtifacts
  {
    if |texts| > 0 {
      var init := texts[..|texts| - 1];
      ScanReplicasSane(st, init);
      ReplicaStepSane(ScanReplicas(st, init).value.0, texts[|texts| - 1].s);
    }
  }

  lemma RecordStepSane(st: Stats, data: Json)
    requires Sane(st) && RecordStep(st, data).Some?
    ensures Sane(RecordStep(st, data).value)
    ensures RecordStep(st, data).value.totalDialogs == st.totalDialogs + 1
  {
    ReplicasStepSane(st, ReplicasOf(data));
  }

  /** `RecordStepSane` whatever the replicas turned out to be. */
  lemma ReplicasStepSane(st: Stats, replicas: Replicas)
    requires Sane(st) && ReplicasStep(st, replicas).Some?
    ensures Sane(ReplicasStep(st, replicas).value)
    ensures ReplicasStep(st, replicas).value.totalDialogs == st.totalDialogs + 1
  {
    var st1 := st.(totalDialogs := st.totalDialogs + 1);
    if replicas.ReplicaList? {
      var scanned := ScanReplicas(st1, replicas.items);
      assert ReplicasStep(st, replicas) == MarkDialog(scanned);
      ScanReplicasSane(st1, replicas.items);
      var (s2, has) := scanned.value;
      assert Sane(s2) && s2.totalDialogs == st1.totalDialogs;
      assert s2.dialogsWithArtifacts == st.dialogsWithArtifacts;
      MarkDialogSane(s2, has);
    } else {
      assert ReplicasStep(st, replicas) == Some(st1);
    }
  }

  /** Marking a dialog keeps a report sane when it had room for one more dialog with artifacts. */
  lemma MarkDialogSane(s2: Stats, has: bool)
    requires Sane(s2) && s2.dialogsWithArtifacts < s2.totalDialogs
    ensures MarkDialog(Some((s2, has))).Some?
    ensures Sane(MarkDialog(Some((s2, has))).value)
    ensures MarkDialog(Some((s2, has))).value.totalDialogs == s2.totalDialogs
  {
  }

  lemma {:induction false} ScanSane(lines: seq<string>, decode: string -> Option<Json>)
    requires Scan(lines, decode).Some?
    ensures Sane(Scan(lines, decode).value)
    ensures Scan(lines, decode).value.totalDialogs == |DecodedDialogs(lines, decode)|
  {
    if |lines| > 0 {
      var init := lines[..|lines| - 1];
      ScanSane(init, decode);
      var line := lines[|lines| - 1];
      if !Skipped(line, decode) {
        RecordStepSane(Scan(init, decode).value, LineRecord(line, decode).value);
      }
    }
  }

  /**
   * Every report of the analysis is bounded: replicas with artifacts are
   * at most the replicas, dialogs with artifacts at most the dialogs, the
   * type counters add up to the replicas with artifacts, and there are at
   * most five samples, each a truncated replica with one to three
   * artifact characters.
   */
  lemma AnalysisBounds(file: Option<seq<string>>, decode: string -> Option<Json>)
    requires Analysis(file, decode).Ok?
    ensures Sane(Analysis(file, decode).value)
  {
    ScanSane(file.value, decode);
  }

  /** The cleanup writes one line per record the analysis counts. */
  lemma OneOutputPerCountedRecord(lines: seq<string>, decode: string -> Option<Json>,
                                  encode: Json -> string, sv: Services)
    requires Analysis(Some(lines), decode).Ok?
    ensures |CleanedOutputs(DecodedDialogs(lines, decode), encode, sv)| == Analysis(Some(lines), decode).value.totalDialogs
  {
    ScanSane(lines, decode);
    CleanedOutputsInOrder(DecodedDialogs(lines, decode), encode, sv);
  }
}

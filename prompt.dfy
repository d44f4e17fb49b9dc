/**
 * The prompt engine (`PromptEngine`): the construction check, the format
 * section appended to every prompt, prompt assembly, the splice of custom
 * instructions before the format marker, and the length heuristic.
 * `string.Template.safe_substitute` and `json.dumps` are outside the
 * model: their results are parameters.
 */
module Prompt {
  import opened Wrappers
  import opened Text
  import opened JsonValue

  /** The heading that opens the format section. */
  const Marker := "ФОРМАТ ОТВЕТА:"

  /** The heading placed before custom instructions. */
  const InstructionsHeading := "ДОПОЛНИТЕЛЬНЫЕ ИНСТРУКЦИИ:"

  /** Prompts estimated above this many tokens are too long. */
  const MaxTokens := 3500

  /** An engine that passed construction: the encoded example, the schema's fields and the reply-count range. */
  datatype Engine = Engine(baseTemplate: string, outputExample: string, fields: seq<string>, minLines: nat, maxLines: nat)

  /** Why construction raised ValueError. */
  datatype EngineIssue = BlankTemplate | NoExample | NoLineBounds | MinAboveMax | MinBelowTwo

  /**
   * `__init__`: the checks of `_validate_components` in order, then the
   * example encoded by `encode` (`json.dumps` with indentation).
   */
  function Create(baseTemplate: string, example: Option<Json>, fields: seq<string>,
                  minLines: Option<int>, maxLines: Option<int>, encode: Json -> string): (r: Result<Engine, EngineIssue>)
    ensures r.Ok? <==> (!IsBlank(baseTemplate) && example.Some? && minLines.Some? && maxLines.Some?
                        && 2 <= minLines.value <= maxLines.value)
    ensures r.Ok? ==> r.value.minLines == minLines.value && r.value.maxLines == maxLines.value
                      && r.value.outputExample == encode(example.value) && r.value.fields == fields
    ensures IsBlank(baseTemplate) ==> r == Err(BlankTemplate)
    ensures !IsBlank(baseTemplate) && example.None? ==> r == Err(NoExample)
  {
    if IsBlank(baseTemplate) then Err(BlankTemplate)
    else if example.None? then Err(NoExample)
    else if minLines.None? || maxLines.None? then Err(NoLineBounds)
    else if minLines.value > maxLines.value then Err(MinAboveMax)
    else if minLines.value < 2 then Err(MinBelowTwo)
    else Ok(Engine(baseTemplate, encode(example.value), fields, minLines.value, maxLines.value))
  }

  /** The reply-count line, `- Количество реплик: min-max`. */
  function CountLine(e: Engine): string {
    "- Количество реплик: " + NatToString(e.minLines) + "-" + NatToString(e.maxLines)
  }

  /** The required-fields line, present only when the schema declares fields. */
  function FieldsLines(e: Engine): seq<string> {
    if e.fields != [] then ["Обязательные поля: " + Join(e.fields, ", ")] else []
  }

  /** The lines of `_build_format_section`, in order. */
  function FormatLines(e: Engine): (ls: seq<string>)
    ensures |ls| == 8 + |FieldsLines(e)|
    ensures ls[0] == Marker && ls[2] == e.outputExample
    ensures ls[3 + |FieldsLines(e)|] == "Убедись что:" && ls[4 + |FieldsLines(e)|] == CountLine(e)
  {
    [Marker, "Ты должен вернуть JSON объект со следующей структурой:", e.outputExample]
    + FieldsLines(e)
    + ["Убедись что:", CountLine(e), "- Все реплики в массиве 'dialog'",
       "- Не используешь префиксы (User:, Assistant: и т.д.)", "- JSON валиден и правильно экранирован"]
  }

  /** `_build_format_section`: the lines joined by newlines. */
  function FormatSection(e: Engine): string {
    Join(FormatLines(e), "\n")
  }

  /**
   * The format section opens with the marker and a newline, and holds the
   * example, the reply-count line and, when fields are declared, their
   * comma-separated list.
   */
  lemma FormatSectionShape(e: Engine)
    ensures FormatSection(e)[..|Marker| + 1] == Marker + "\n"
    ensures Contains(FormatSection(e), e.outputExample)
    ensures Contains(FormatSection(e), CountLine(e))
    ensures e.fields != [] ==> Contains(FormatSection(e), Join(e.fields, ", "))
  {
    var ls := FormatLines(e);
    JoinStartsWith(ls, "\n");
    assert FormatSection(e) == Marker + "\n" + Join(ls[1..], "\n");
    JoinContainsPart(ls, "\n", 2);
    JoinContainsPart(ls, "\n", 4 + |FieldsLines(e)|);
    if e.fields != [] {
      var line := ls[3];
      assert line == "Обязательные поля: " + Join(e.fields, ", ");
      JoinContainsPart(ls, "\n", 3);
      ContainsMiddle("Обязательные поля: ", Join(e.fields, ", "), "");
      assert "Обязательные поля: " + Join(e.fields, ", ") + "" == line;
      ContainsTransitive(FormatSection(e), line, Join(e.fields, ", "));
    }
  }

  /** `_build_fallback_prompt`. */
  function FallbackPrompt(e: Engine, languageName: string, theme: string): string {
    "\nСоздай естественный диалог на " + languageName + " языке на тему: \"" + theme + "\"\n\n"
    + "Требования:\n- Диалог между двумя персонажами\n- "
    + NatToString(e.minLines) + "-" + NatToString(e.maxLines) + " реплик\n"
    + "- Естественный и engaging разговор\n- Без префиксов перед репликами\n- Конкретные примеры и объяснения\n\n"
    + "Формат ответа (JSON):\n{\n    \"language\": \"" + languageName + "\",\n"
    + "    \"theme\": \"название темы на нужном языке\",\n    \"dialog\": [\"реплика 1\", \"реплика 2\", ...]\n}\n\n"
    + "Верни только JSON без дополнительного текста.\n"
  }

  /**
   * `build_prompt`: the substituted template (None when the substitution
   * raised), a blank line, then the format section; the fallback prompt on
   * an exception.
   */
  function BuildPrompt(e: Engine, languageName: string, theme: string, substituted: Option<string>): string {
    match substituted
    case Some(s) => s + "\n\n" + FormatSection(e)
    case None => FallbackPrompt(e, languageName, theme)
  }

  /** A prompt built without an exception ends with the format section and so carries the marker and the example. */
  lemma BuiltPromptEndsWithFormat(e: Engine, languageName: string, theme: string, s: string)
    ensures var p := BuildPrompt(e, languageName, theme, Some(s));
      && p[|s| + 2..] == FormatSection(e)
      && Contains(p, Marker)
      && Contains(p, e.outputExample)
  {
    var p := BuildPrompt(e, languageName, theme, Some(s));
    var fs := FormatSection(e);
    FormatSectionShape(e);
    ContainsMiddle(s + "\n\n", fs, "");
    assert s + "\n\n" + fs + "" == p;
    ContainsMiddle("", Marker, fs[|Marker|..]);
    assert "" + Marker + fs[|Marker|..] == fs by {
      assert fs[..|Marker|] == (Marker + "\n")[..|Marker|];
    }
    ContainsTransitive(p, fs, Marker);
    ContainsTransitive(p, fs, e.outputExample);
  }

  // ------------------------------------------------------------ custom instructions

  /** The block `add_custom_instructions` places before the marker. */
  function InstructionsBlock(instructions: string): string {
    "\n\n" + InstructionsHeading + "\n" + instructions + "\n\n"
  }

  /** `prompt.split(marker)[1]`: the text after the first marker, up to a second marker if there is one. */
  function SecondSection(rest: string): string {
    match Find(rest, Marker)
    case None => rest
    case Some(j) => rest[..j]
  }

  /**
   * `add_custom_instructions` as written: with the marker present it
   * rebuilds the prompt from the first two pieces of `split`, so the text
   * from a second marker on is lost.
   */
  function AddCustomInstructionsAsWritten(prompt: string, instructions: string): (r: string)
    ensures IsBlank(instructions) ==> r == prompt
    ensures |r| <= |AddCustomInstructions(prompt, instructions)|
  {
    if IsBlank(instructions) then prompt
    else match Find(prompt, Marker)
      case Some(i) =>
        prompt[..i] + InstructionsBlock(instructions) + Marker + SecondSection(prompt[i + |Marker|..])
      case None => prompt + "\n\n" + InstructionsHeading + "\n" + instructions
  }

  /**
   * `add_custom_instructions` as intended: the block goes before the first
   * marker and the whole prompt is kept (a split at the first marker only).
   */
  function AddCustomInstructions(prompt: string, instructions: string): (r: string)
    ensures IsBlank(instructions) ==> r == prompt
    ensures !IsBlank(instructions) && Contains(prompt, Marker) ==>
      var i := Find(prompt, Marker).value;
      r == prompt[..i] + InstructionsBlock(instructions) + prompt[i..] && !Contains(prompt[..i], Marker)
    ensures !IsBlank(instructions) && !Contains(prompt, Marker) ==>
      r == prompt + "\n\n" + InstructionsHeading + "\n" + instructions
  {
    if IsBlank(instructions) then prompt
    else match Find(prompt, Marker)
      case Some(i) =>
        assert prompt[i..] == Marker + prompt[i + |Marker|..];
        NoMarkerBefore(prompt, i);
        prompt[..i] + InstructionsBlock(instructions) + Marker + prompt[i + |Marker|..]
      case None => prompt + "\n\n" + InstructionsHeading + "\n" + instructions
  }

  /** Nothing before the first occurrence is an occurrence. */
  lemma NoMarkerBefore(prompt: string, i: nat)
    requires Find(prompt, Marker) == Some(i)
    ensures !Contains(prompt[..i], Marker)
  {
    if Contains(prompt[..i], Marker) {
      var k := Find(prompt[..i], Marker).value;
      assert prompt[..i][k..k + |Marker|] == prompt[k..k + |Marker|];
      assert OccursAt(prompt, Marker, k);
    }
  }

  /** Taking the inserted block out again gives back the prompt. */
  lemma InstructionsRoundTrip(prompt: string, instructions: string)
    requires !IsBlank(instructions) && Contains(prompt, Marker)
    ensures var i := Find(prompt, Marker).value;
      var r := AddCustomInstructions(prompt, instructions);
      r[..i] + r[i + |InstructionsBlock(instructions)|..] == prompt
  {
    var i := Find(prompt, Marker).value;
    var b := InstructionsBlock(instructions);
    var r := AddCustomInstructions(prompt, instructions);
    assert r[..i] == prompt[..i];
    assert r[i + |b|..] == prompt[i..];
    assert prompt[..i] + prompt[i..] == prompt;
  }

  /** The version as written agrees with the intended one exactly when the marker occurs at most once. */
  lemma AsWrittenAgreesIffSingleMarker(prompt: string, instructions: string)
    requires !IsBlank(instructions) && Contains(prompt, Marker)
    ensures var i := Find(prompt, Marker).value;
      AddCustomInstructionsAsWritten(prompt, instructions) == AddCustomInstructions(prompt, instructions)
      <==> !Contains(prompt[i + |Marker|..], Marker)
  {
    var i := Find(prompt, Marker).value;
    var rest := prompt[i + |Marker|..];
    var head := prompt[..i] + InstructionsBlock(instructions) + Marker;
    assert AddCustomInstructions(prompt, instructions) == head + rest;
    assert AddCustomInstructionsAsWritten(prompt, instructions) == head + SecondSection(rest);
    if Contains(rest, Marker) {
      var j := Find(rest, Marker).value;
      assert |SecondSection(rest)| == j < |rest|;
      assert |head + SecondSection(rest)| < |head + rest|;
    }
  }

  /** A prompt holding the marker twice: the as-written splice drops the second marker. */
  lemma SecondMarkerIsDropped()
    ensures |AddCustomInstructionsAsWritten(Marker + Marker, "x")| + |Marker| == |AddCustomInstructions(Marker + Marker, "x")|
  {
    var p := Marker + Marker;
    assert !IsBlank("x") by {
      assert !IsSpace("x"[0]);
    }
    assert OccursAt(p, Marker, 0) by {
      assert p[0..|Marker|] == Marker;
    }
    var i := Find(p, Marker).value;
    assert i == 0;
    var rest := p[|Marker|..];
    assert rest == Marker;
    assert OccursAt(rest, Marker, 0) by {
      assert rest[0..|Marker|] == Marker;
    }
    assert Find(rest, Marker) == Some(0);
    assert SecondSection(rest) == [];
  }

  // ------------------------------------------------------------ length and stats

  /** `validate_prompt_length`: the estimate `len // 4` is at most 3500. */
  function ValidatePromptLength(prompt: string): (ok: bool) {
    |prompt| / 4 <= MaxTokens
  }

  /** The estimate allows exactly the prompts of fewer than 14004 characters. */
  lemma PromptLengthBound(prompt: string)
    ensures ValidatePromptLength(prompt) <==> |prompt| < 14004
  {
  }

  /** What `get_prompt_stats` reports. */
  datatype PromptStats = PromptStats(characters: nat, lines: nat, words: nat, estimatedTokens: nat,
                                     hasFormatSection: bool, hasJsonExample: bool)

  /** `get_prompt_stats`: `split('\n')` has one more piece than there are newlines; `split()` is `Words`. */
  function GetPromptStats(e: Engine, prompt: string): (st: PromptStats)
    ensures st.estimatedTokens * 4 <= st.characters < st.estimatedTokens * 4 + 4
    ensures st.characters == |prompt| && 1 <= st.lines <= |prompt| + 1
    ensures st.hasFormatSection <==> Contains(prompt, Marker)
    ensures (st.estimatedTokens <= MaxTokens) == ValidatePromptLength(prompt)
  {
    var ex := if |e.outputExample| <= 50 then e.outputExample else e.outputExample[..50];
    PromptStats(|prompt|, CountChar(prompt, '\n') + 1, |Words(prompt)|, |prompt| / 4,
                Contains(prompt, Marker), Contains(prompt, ex))
  }

  /** The stats of a prompt built without an exception report the format section and the example. */
  lemma StatsOfBuiltPrompt(e: Engine, languageName: string, theme: string, s: string)
    ensures var st := GetPromptStats(e, BuildPrompt(e, languageName, theme, Some(s)));
      st.hasFormatSection && st.hasJsonExample
  {
    var p := BuildPrompt(e, languageName, theme, Some(s));
    BuiltPromptEndsWithFormat(e, languageName, theme, s);
    var ex := e.outputExample;
    var k := if |ex| <= 50 then |ex| else 50;
    ContainsMiddle("", ex[..k], ex[k..]);
    assert "" + ex[..k] + ex[k..] == ex;
    ContainsTransitive(p, ex, ex[..k]);
    assert ex[..k] == (if |ex| <= 50 then ex else ex[..50]);
  }
}

/**
 * The theme generator (`ThemeGenerator`): templates with `{name}`
 * placeholders, word banks, the component check made at construction, the
 * substitution that fills a chosen template, and the two mutators that
 * extend the templates and the banks.  `random.choice` is modelled by a
 * caller-supplied draw: draw 0 picks the template and draw k + 1 the word
 * for the k-th placeholder, each reduced modulo the length of the list it
 * picks from.
 */
module Theme {
  import opened Wrappers
  import opened Text

  /** The theme returned when generation raises. */
  const FallbackTheme := "Обсуждение важных вопросов"

  /** The word that replaces a placeholder still present after substitution. */
  const FallbackWord := "обсуждение"

  type Banks = map<string, seq<string>>

  // ------------------------------------------------------------ validity

  /** The first placeholder of `ps`, from index `k` on, that names no bank. */
  function FirstUnknown(ps: seq<string>, banks: Banks, k: nat): (r: Option<string>)
    requires k <= |ps|
    ensures r.Some? ==> r.value in ps[k..] && r.value !in banks
    ensures r.None? <==> forall j :: k <= j < |ps| ==> ps[j] in banks
    decreases |ps| - k
  {
    if k == |ps| then None
    else if ps[k] !in banks then Some(ps[k])
    else FirstUnknown(ps, banks, k + 1)
  }

  /** `validate_template`: every placeholder names a word bank. */
  function ValidTemplate(template: string, banks: Banks): (r: bool)
    ensures r <==> forall p :: p in Placeholders(template) ==> p in banks
  {
    var ps := Placeholders(template);
    var first := FirstUnknown(ps, banks, 0);
    assert first.None? <==> forall p :: p in ps ==> p in banks by {
      assert forall p :: p in ps <==> exists j :: 0 <= j < |ps| && ps[j] == p;
    }
    first.None?
  }

  /** Why construction raised ValueError. */
  datatype ThemeIssue =
    | NoTemplates
    | NoWordBanks
    | UnknownPlaceholder(placeholder: string, templateIndex: nat)
    | EmptyBank

  /** The placeholder check of `_validate_components`: the first template, in order, with an unknown placeholder. */
  function FirstInvalidTemplate(templates: seq<string>, banks: Banks, i: nat): (r: Option<ThemeIssue>)
    requires i <= |templates|
    ensures r.Some? ==> (r.value.UnknownPlaceholder? && i <= r.value.templateIndex < |templates|
                         && !ValidTemplate(templates[r.value.templateIndex], banks)
                         && r.value.placeholder in Placeholders(templates[r.value.templateIndex])
                         && r.value.placeholder !in banks)
    ensures r.None? <==> forall j :: i <= j < |templates| ==> ValidTemplate(templates[j], banks)
    decreases |templates| - i
  {
    if i == |templates| then None
    else
      var u := FirstUnknown(Placeholders(templates[i]), banks, 0);
      if u.Some? then Some(UnknownPlaceholder(u.value, i))
      else FirstInvalidTemplate(templates, banks, i + 1)
  }

  predicate HasEmptyBank(banks: Banks) {
    exists k :: k in banks && banks[k] == []
  }

  /** `_validate_components`: the checks in the order the source makes them. */
  function ComponentsIssue(templates: seq<string>, banks: Banks): Option<ThemeIssue> {
    if templates == [] then Some(NoTemplates)
    else if banks == map[] then Some(NoWordBanks)
    else match FirstInvalidTemplate(templates, banks, 0)
      case Some(issue) => Some(issue)
      case None => if HasEmptyBank(banks) then Some(EmptyBank) else None
  }

  /** Construction succeeds exactly when there are templates, every template is valid and every bank is non-empty. */
  lemma ComponentsOkIff(templates: seq<string>, banks: Banks)
    ensures ComponentsIssue(templates, banks).None? <==>
      (templates != [] && banks != map[]
       && (forall i :: 0 <= i < |templates| ==> ValidTemplate(templates[i], banks))
       && forall k :: k in banks ==> banks[k] != [])
  {
  }

  // ------------------------------------------------------------ generation

  /** `random.choice(xs)` with the draw `n`. */
  function Draw(xs: seq<string>, n: nat): (w: string)
    requires xs != []
    ensures w in xs
  {
    xs[n % |xs|]
  }

  /**
   * The substitution loop from placeholder `k` on: each placeholder that
   * names a bank has its first remaining `{name}` replaced by a drawn word;
   * None when the bank is empty, where `random.choice` raises.
   */
  function FillFrom(theme: string, ps: seq<string>, banks: Banks, draw: nat -> nat, k: nat): Option<string>
    requires k <= |ps|
    decreases |ps| - k
  {
    if k == |ps| then Some(theme)
    else if ps[k] !in banks then FillFrom(theme, ps, banks, draw, k + 1)
    else if banks[ps[k]] == [] then None
    else FillFrom(ReplaceFirst(theme, Braced(ps[k]), Draw(banks[ps[k]], draw(k + 1))), ps, banks, draw, k + 1)
  }

  /** Substitution raises exactly when some placeholder from `k` on names an empty bank. */
  lemma {:induction false} FillFailsIff(theme: string, ps: seq<string>, banks: Banks, draw: nat -> nat, k: nat)
    requires k <= |ps|
    ensures FillFrom(theme, ps, banks, draw, k).None? <==> exists j :: k <= j < |ps| && ps[j] in banks && banks[ps[j]] == []
    decreases |ps| - k
  {
    if k < |ps| {
      var next := if ps[k] in banks && banks[ps[k]] != []
                  then ReplaceFirst(theme, Braced(ps[k]), Draw(banks[ps[k]], draw(k + 1))) else theme;
      FillFailsIff(next, ps, banks, draw, k + 1);
    }
  }

  /** The leftover pass from index `k` on: each remaining `{name}` becomes the fallback word. */
  function PatchFrom(theme: string, rs: seq<string>, k: nat): string
    requires k <= |rs|
    decreases |rs| - k
  {
    if k == |rs| then theme else PatchFrom(ReplaceFirst(theme, Braced(rs[k]), FallbackWord), rs, k + 1)
  }

  /** `generate_theme` with the draws given. */
  function Theme(templates: seq<string>, banks: Banks, draw: nat -> nat): string {
    if templates == [] then FallbackTheme
    else
      var template := templates[draw(0) % |templates|];
      match FillFrom(template, Placeholders(template), banks, draw, 0)
      case None => FallbackTheme
      case Some(filled) => PatchFrom(filled, Placeholders(filled), 0)
  }

  /** The template `generate_theme` starts from with these draws. */
  function Chosen(templates: seq<string>, draw: nat -> nat): (t: string)
    requires templates != []
    ensures t in templates
  {
    templates[draw(0) % |templates|]
  }

  /** A template without placeholders is returned as it is. */
  lemma PlainTemplateIsTheme(templates: seq<string>, banks: Banks, draw: nat -> nat)
    requires templates != [] && Placeholders(Chosen(templates, draw)) == []
    ensures Theme(templates, banks, draw) == Chosen(templates, draw)
  {
  }

  /** With no templates, or when the chosen template uses an empty bank, the result is the fallback theme. */
  lemma FallbackWhenDrawFails(templates: seq<string>, banks: Banks, draw: nat -> nat)
    requires templates == [] || exists p :: p in Placeholders(Chosen(templates, draw)) && p in banks && banks[p] == []
    ensures Theme(templates, banks, draw) == FallbackTheme
  {
    if templates != [] {
      var t := Chosen(templates, draw);
      var p :| p in Placeholders(t) && p in banks && banks[p] == [];
      var j :| 0 <= j < |Placeholders(t)| && Placeholders(t)[j] == p;
      FillFailsIff(t, Placeholders(t), banks, draw, 0);
    }
  }

  /** Components that passed the construction check never make substitution raise. */
  lemma ValidComponentsNeverFail(templates: seq<string>, banks: Banks, draw: nat -> nat)
    requires ComponentsIssue(templates, banks).None?
    ensures templates != []
    ensures FillFrom(Chosen(templates, draw), Placeholders(Chosen(templates, draw)), banks, draw, 0).Some?
  {
    var t := Chosen(templates, draw);
    FillFailsIff(t, Placeholders(t), banks, draw, 0);
  }

  /**
   * One substitution step: the first `{name}` is replaced by a word of the
   * bank, and the text around it is kept.
   */
  lemma StepReplacesFirstOccurrence(theme: string, p: string, bank: seq<string>, n: nat)
    requires bank != [] && Contains(theme, Braced(p))
    ensures var i := Find(theme, Braced(p)).value;
      && ReplaceFirst(theme, Braced(p), Draw(bank, n)) == theme[..i] + Draw(bank, n) + theme[i + |Braced(p)|..]
      && Draw(bank, n) in bank
      && forall k :: 0 <= k < i ==> !OccursAt(theme, Braced(p), k)
  {
  }

  // ------------------------------------------------------------ combinations

  /** Product of the bank sizes over placeholder occurrences; unknown placeholders count 1. */
  function Combinations(ps: seq<string>, banks: Banks): nat {
    if ps == [] then 1
    else (if ps[0] in banks then |banks[ps[0]]| else 1) * Combinations(ps[1..], banks)
  }

  /** `_calculate_total_combinations`: the sum over templates. */
  function TotalCombinations(templates: seq<string>, banks: Banks): nat {
    if templates == [] then 0
    else Combinations(Placeholders(templates[0]), banks) + TotalCombinations(templates[1..], banks)
  }

  /** A template whose banks are all non-empty has at least one combination. */
  lemma {:induction false} CombinationsPositive(ps: seq<string>, banks: Banks)
    requires forall p :: p in ps && p in banks ==> banks[p] != []
    ensures Combinations(ps, banks) >= 1
  {
    if ps != [] {
      assert ps[0] in ps;
      CombinationsPositive(ps[1..], banks);
      var f := if ps[0] in banks then |banks[ps[0]]| else 1;
      assert f >= 1;
      MulAtLeastOne(f, Combinations(ps[1..], banks));
    }
  }

  lemma MulAtLeastOne(a: nat, b: nat)
    requires a >= 1 && b >= 1
    ensures a * b >= 1
  {
  }

  /** A placeholder with an empty bank makes the product zero. */
  lemma {:induction false} CombinationsZero(ps: seq<string>, banks: Banks, j: nat)
    requires j < |ps| && ps[j] in banks && banks[ps[j]] == []
    ensures Combinations(ps, banks) == 0
  {
    if j > 0 {
      CombinationsZero(ps[1..], banks, j - 1);
    }
  }

  /** Appending a template adds exactly its own combinations. */
  lemma {:induction false} TotalAppend(templates: seq<string>, t: string, banks: Banks)
    ensures TotalCombinations(templates + [t], banks) == TotalCombinations(templates, banks) + Combinations(Placeholders(t), banks)
  {
    if templates == [] {
      assert [t][1..] == [];
    } else {
      assert (templates + [t])[1..] == templates[1..] + [t];
      TotalAppend(templates[1..], t, banks);
    }
  }

  /** With every bank non-empty, each template contributes at least one combination. */
  lemma {:induction false} TotalAtLeastTemplates(templates: seq<string>, banks: Banks)
    requires forall k :: k in banks ==> banks[k] != []
    ensures TotalCombinations(templates, banks) >= |templates|
  {
    if templates != [] {
      CombinationsPositive(Placeholders(templates[0]), banks);
      TotalAtLeastTemplates(templates[1..], banks);
    }
  }

  // ------------------------------------------------------------ banks

  /** `[w for w in words if w not in existing]`: order and repeats kept. */
  function NewWords(words: seq<string>, existing: seq<string>): (r: seq<string>)
    ensures |r| <= |words|
    ensures forall w :: multiset(r)[w] == if w in existing then 0 else multiset(words)[w]
  {
    if words == [] then []
    else
      var rest := NewWords(words[1..], existing);
      assert words == [words[0]] + words[1..];
      (if words[0] in existing then [] else [words[0]]) + rest
  }

  /** `get_word_bank_stats`: each bank name with its word count. */
  function BankSizes(banks: Banks): (m: map<string, nat>)
    ensures m.Keys == banks.Keys
    ensures forall k :: k in banks ==> m[k] == |banks[k]|
  {
    map k | k in banks :: |banks[k]|
  }

  /** The bank `add_words_to_bank` extends: the existing one, or a new empty one. */
  function BankOrEmpty(banks: Banks, name: string): seq<string> {
    if name in banks then banks[name] else []
  }

  class ThemeGenerator {
    var templates: seq<string>
    var wordBanks: Banks

    /** The generator as constructed: the construction check passed. */
    constructor(templates: seq<string>, wordBanks: Banks)
      requires ComponentsIssue(templates, wordBanks).None?
      ensures this.templates == templates && this.wordBanks == wordBanks
    {
      this.templates := templates;
      this.wordBanks := wordBanks;
    }

    /**
     * `generate_theme`: draw a template, substitute each placeholder
     * occurrence in order, then replace what is left with the fallback word;
     * the fallback theme when a draw raises.
     */
    method GenerateTheme(draw: nat -> nat) returns (theme: string)
      ensures theme == Theme(templates, wordBanks, draw)
    {
      if templates == [] {
        return FallbackTheme;
      }
      var template := templates[draw(0) % |templates|];
      var ps := Placeholders(template);
      theme := template;
      var k := 0;
      while k < |ps|
        invariant 0 <= k <= |ps|
        invariant FillFrom(template, ps, wordBanks, draw, 0) == FillFrom(theme, ps, wordBanks, draw, k)
      {
        var p := ps[k];
        if p in wordBanks {
          if wordBanks[p] == [] {
            return FallbackTheme;
          }
          theme := ReplaceFirst(theme, Braced(p), Draw(wordBanks[p], draw(k + 1)));
        }
        k := k + 1;
      }
      var filled := theme;
      var rs := Placeholders(filled);
      var j := 0;
      while j < |rs|
        invariant 0 <= j <= |rs|
        invariant PatchFrom(filled, rs, 0) == PatchFrom(theme, rs, j)
      {
        theme := ReplaceFirst(theme, Braced(rs[j]), FallbackWord);
        j := j + 1;
      }
    }

    /** `validate_template` against the current banks. */
    function IsValidTemplate(template: string): (r: bool)
      reads this
      ensures r <==> forall p :: p in Placeholders(template) ==> p in wordBanks
    {
      ValidTemplate(template, wordBanks)
    }

    /** `add_template`: appends exactly when the template is valid, and says so. */
    method AddTemplate(template: string) returns (ok: bool)
      modifies this
      ensures ok == ValidTemplate(template, old(wordBanks))
      ensures templates == if ok then old(templates) + [template] else old(templates)
      ensures wordBanks == old(wordBanks)
    {
      ok := ValidTemplate(template, wordBanks);
      if ok {
        templates := templates + [template];
      }
    }

    /**
     * `add_words_to_bank`: creates the bank when missing, keeps its words
     * and their order, and appends the given words that were not in it
     * before the call.
     */
    method AddWordsToBank(name: string, words: seq<string>) returns (ok: bool)
      modifies this
      ensures ok
      ensures wordBanks == old(wordBanks)[name := BankOrEmpty(old(wordBanks), name) + NewWords(words, BankOrEmpty(old(wordBanks), name))]
      ensures templates == old(templates)
    {
      var existing := BankOrEmpty(wordBanks, name);
      wordBanks := wordBanks[name := existing + NewWords(words, existing)];
      ok := true;
    }

    /** `get_word_bank_stats`. */
    function WordBankStats(): (m: map<string, nat>)
      reads this
      ensures m.Keys == wordBanks.Keys && forall k :: k in wordBanks ==> m[k] == |wordBanks[k]|
    {
      BankSizes(wordBanks)
    }
  }

  /** Adding words keeps the old bank as a prefix and adds only words it lacked. */
  lemma AddedWordsAreNew(bank: seq<string>, words: seq<string>)
    ensures var after := bank + NewWords(words, bank);
      && after[..|bank|] == bank
      && (forall i :: |bank| <= i < |after| ==> after[i] in words && after[i] !in bank)
      && (forall w :: w in words && w !in bank ==> w in after)
  {
    var nw := NewWords(words, bank);
    var after := bank + nw;
    forall i | |bank| <= i < |after| ensures after[i] in words && after[i] !in bank {
      var w := after[i];
      assert w == nw[i - |bank|];
      assert multiset(nw)[w] > 0;
    }
    forall w | w in words && w !in bank ensures w in after {
      assert multiset(words)[w] > 0;
      assert multiset(nw)[w] > 0;
    }
  }

  /** A word added twice in a row is added only the first time. */
  lemma AddingTwiceAddsOnce(bank: seq<string>, words: seq<string>)
    ensures NewWords(words, bank + NewWords(words, bank)) == []
  {
    var after := bank + NewWords(words, bank);
    AddedWordsAreNew(bank, words);
    var again := NewWords(words, after);
    forall w ensures multiset(again)[w] == 0 {
      if w !in words {
        assert multiset(words)[w] == 0;
      } else if w in bank {
        assert w in after;
      }
    }
    assert multiset(again) == multiset{};
  }
}

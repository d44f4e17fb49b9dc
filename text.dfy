/**
 * The string operations of Python that the program relies on, written out:
 * `str.strip`, `str.isspace`, `str.lower`, `str.split()`, `in`,
 * `str.replace(old, new, 1)`, and the two small regular expressions that
 * several modules share (one surrounding quote pair, and `{word}`
 * placeholders).
 */
module Text {
  import opened Wrappers

  /** The characters for which Python's `str.isspace()` holds. */
  predicate IsSpace(c: char) {
    c == ' ' || ('\t' <= c <= '\r') || ('\U{1C}' <= c <= '\U{1F}')
    || c == '\U{85}' || c == '\U{A0}' || c == '\U{1680}'
    || ('\U{2000}' <= c <= '\U{200A}') || c == '\U{2028}' || c == '\U{2029}'
    || c == '\U{202F}' || c == '\U{205F}' || c == '\U{3000}'
  }

  /** `not s.strip()`: the text is empty or whitespace only. */
  predicate IsBlank(s: string) {
    forall i :: 0 <= i < |s| ==> IsSpace(s[i])
  }

  function StripStart(s: string): (r: string)
    ensures |r| <= |s| && r == s[|s| - |r|..]
    ensures r == [] || !IsSpace(r[0])
    ensures forall i :: 0 <= i < |s| - |r| ==> IsSpace(s[i])
  {
    if |s| > 0 && IsSpace(s[0]) then StripStart(s[1..]) else s
  }

  function StripEnd(s: string): (r: string)
    ensures |r| <= |s| && r == s[..|r|]
    ensures r == [] || !IsSpace(r[|r| - 1])
    ensures forall i :: |r| <= i < |s| ==> IsSpace(s[i])
  {
    if |s| > 0 && IsSpace(s[|s| - 1]) then StripEnd(s[..|s| - 1]) else s
  }

  /** `s.strip()`: a piece of `s` with no whitespace at either end, empty exactly for blank text. */
  function Strip(s: string): (r: string)
    ensures r == [] <==> IsBlank(s)
    ensures r != [] ==> !IsSpace(r[0]) && !IsSpace(r[|r| - 1])
    ensures exists i :: OccursAt(s, r, i)
  {
    var t := StripStart(s);
    var r := StripEnd(t);
    assert r == s[|s| - |t|..|s| - |t| + |r|];
    assert OccursAt(s, r, |s| - |t|);
    r
  }

  /**
   * `re.match(r'^["\'](.*)["\']$', s)` on text that has already been stripped:
   * a quote (either kind) at both ends, no line break between them (`.`
   * does not match one), and the inner text is kept; otherwise `s` is unchanged.
   */
  function StripQuotePair(s: string): (r: string)
    ensures r == s || (|s| >= 2 && r == s[1..|s| - 1])
  {
    if HasQuotePair(s) then s[1..|s| - 1] else s
  }

  predicate IsQuote(c: char) {
    c == '"' || c == '\''
  }

  predicate HasQuotePair(s: string) {
    |s| >= 2 && IsQuote(s[0]) && IsQuote(s[|s| - 1])
    && forall i :: 1 <= i < |s| - 1 ==> s[i] != '\n'
  }

  /** An occurrence inside an occurrence is an occurrence in the whole text. */
  lemma OccursWithin(s: string, t: string, i: int, r: string, j: int)
    requires OccursAt(s, t, i) && OccursAt(t, r, j)
    ensures OccursAt(s, r, i + j)
  {
    forall k | 0 <= k < |r| ensures s[i + j + k] == r[k] {
      assert s[i + j + k] == s[i..i + |t|][j + k];
      assert t[j..j + |r|][k] == t[j + k];
    }
  }

  /** Removing a quote pair leaves a piece of the text: at offset 1 when a pair was removed, else the whole. */
  lemma QuotePairIsPiece(t: string)
    ensures OccursAt(t, StripQuotePair(t), if HasQuotePair(t) then 1 else 0)
  {
    assert t[0..|t|] == t;
  }

  /** `c.lower()` for ASCII, Latin-1 and Cyrillic capitals. */
  function LowerChar(c: char): char {
    if 'A' <= c <= 'Z' then (c as int + 32) as char
    else if '\U{C0}' <= c <= '\U{DE}' && c != '\U{D7}' then (c as int + 32) as char
    else if '\U{410}' <= c <= '\U{42F}' then (c as int + 32) as char
    else if '\U{400}' <= c <= '\U{40F}' then (c as int + 80) as char
    else c
  }

  function Lower(s: string): (r: string)
    ensures |r| == |s|
    ensures forall i :: 0 <= i < |s| ==> r[i] == LowerChar(s[i])
  {
    seq(|s|, i requires 0 <= i < |s| => LowerChar(s[i]))
  }

  /** Length of the run of non-whitespace characters at the start of `s`. */
  function WordLength(s: string): (n: nat)
    ensures n <= |s|
    ensures forall i :: 0 <= i < n ==> !IsSpace(s[i])
    ensures n == |s| || IsSpace(s[n])
  {
    if |s| == 0 || IsSpace(s[0]) then 0 else 1 + WordLength(s[1..])
  }

  /** `s.split()`: the maximal runs of non-whitespace characters, in order. */
  function Words(s: string): (ws: seq<string>)
    decreases |s|
  {
    var t := StripStart(s);
    if t == [] then []
    else
      var n := WordLength(t);
      [t[..n]] + Words(t[n..])
  }

  /** Every piece `split()` returns is a non-empty run without whitespace. */
  lemma {:induction false} WordsAreWords(s: string)
    ensures forall w :: w in Words(s) ==> IsWord(w)
    decreases |s|
  {
    var t := StripStart(s);
    if t != [] {
      var n := WordLength(t);
      assert n >= 1 by {
        assert !IsSpace(t[0]);
      }
      var w := t[..n];
      assert IsWord(w);
      var rest := Words(t[n..]);
      WordsAreWords(t[n..]);
      assert Words(s) == [w] + rest;
    }
  }

  /** A non-empty text without whitespace. */
  predicate IsWord(w: string) {
    w != [] && forall j :: 0 <= j < |w| ==> !IsSpace(w[j])
  }

  /** `pat` occurs in `s` starting at index `i`. */
  predicate OccursAt(s: string, pat: string, i: int) {
    0 <= i && i + |pat| <= |s| && s[i..i + |pat|] == pat
  }

  /** First occurrence of `pat` in `s` at or after `from`. */
  function FindFrom(s: string, pat: string, from: nat): (r: Option<nat>)
    ensures r.Some? ==> from <= r.value && OccursAt(s, pat, r.value)
    ensures r.Some? ==> forall k :: from <= k < r.value ==> !OccursAt(s, pat, k)
    ensures r.None? ==> forall k :: from <= k ==> !OccursAt(s, pat, k)
    decreases |s| - from
  {
    if from + |pat| > |s| then None
    else if s[from..from + |pat|] == pat then Some(from)
    else FindFrom(s, pat, from + 1)
  }

  /** `s.find(pat)`, with nothing for -1. */
  function Find(s: string, pat: string): (r: Option<nat>)
    ensures r.Some? ==> OccursAt(s, pat, r.value)
    ensures r.Some? ==> forall k :: 0 <= k < r.value ==> !OccursAt(s, pat, k)
    ensures r.None? ==> forall k :: !OccursAt(s, pat, k)
  {
    FindFrom(s, pat, 0)
  }

  /** `pat in s`. */
  predicate Contains(s: string, pat: string) {
    Find(s, pat).Some?
  }

  /** Text placed between two others is found in the whole. */
  lemma ContainsMiddle(a: string, pat: string, b: string)
    ensures Contains(a + pat + b, pat)
  {
    var s := a + pat + b;
    assert s[|a|..|a| + |pat|] == pat;
    assert OccursAt(s, pat, |a|);
  }

  /** A piece of a piece of a text is found in the text. */
  lemma ContainsTransitive(s: string, t: string, pat: string)
    requires Contains(t, pat) && Contains(s, t)
    ensures Contains(s, pat)
  {
    var i := Find(s, t).value;
    var j := Find(t, pat).value;
    OccursWithin(s, t, i, pat, j);
  }

  /** Text found in either part of a concatenation is found in the whole. */
  lemma ContainsInConcat(a: string, b: string, pat: string)
    ensures Contains(a, pat) ==> Contains(a + b, pat)
    ensures Contains(b, pat) ==> Contains(a + b, pat)
  {
    if Contains(a, pat) {
      var i := Find(a, pat).value;
      assert (a + b)[i..i + |pat|] == a[i..i + |pat|];
      assert OccursAt(a + b, pat, i);
    }
    if Contains(b, pat) {
      var i := Find(b, pat).value;
      assert (a + b)[|a| + i..|a| + i + |pat|] == b[i..i + |pat|];
      assert OccursAt(a + b, pat, |a| + i);
    }
  }

  /** `s.replace(pat, w, 1)`: only the first occurrence is replaced. */
  function ReplaceFirst(s: string, pat: string, w: string): (r: string)
    ensures !Contains(s, pat) ==> r == s
    ensures Contains(s, pat) ==> var i := Find(s, pat).value;
      r == s[..i] + w + s[i + |pat|..]
  {
    match Find(s, pat)
    case None => s
    case Some(i) => s[..i] + w + s[i + |pat|..]
  }

  /** Number of occurrences of `c` in `s`. */
  function CountChar(s: string, c: char): (n: nat)
    ensures n <= |s|
    ensures n == multiset(s)[c]
  {
    if |s| == 0 then 0
    else
      assert s == s[..|s| - 1] + [s[|s| - 1]];
      (if s[|s| - 1] == c then 1 else 0) + CountChar(s[..|s| - 1], c)
  }

  /** `sep.join(parts)`. */
  function Join(parts: seq<string>, sep: string): string {
    if |parts| == 0 then ""
    else if |parts| == 1 then parts[0]
    else parts[0] + sep + Join(parts[1..], sep)
  }

  /** A joined list begins with its first part followed by the separator. */
  lemma JoinStartsWith(parts: seq<string>, sep: string)
    requires |parts| >= 2
    ensures Join(parts, sep) == parts[0] + sep + Join(parts[1..], sep)
  {
  }

  /** Every part of a joined list is found in the joined text. */
  lemma {:induction false} JoinContainsPart(parts: seq<string>, sep: string, k: nat)
    requires k < |parts|
    ensures Contains(Join(parts, sep), parts[k])
  {
    if |parts| == 1 {
      ContainsMiddle("", parts[0], "");
      assert "" + parts[0] + "" == parts[0];
    } else if k == 0 {
      ContainsMiddle("", parts[0], sep + Join(parts[1..], sep));
      assert "" + parts[0] + (sep + Join(parts[1..], sep)) == Join(parts, sep);
    } else {
      JoinContainsPart(parts[1..], sep, k - 1);
      var rest := Join(parts[1..], sep);
      ContainsMiddle(parts[0] + sep, rest, "");
      assert parts[0] + sep + rest + "" == Join(parts, sep);
      ContainsTransitive(Join(parts, sep), rest, parts[k]);
    }
  }

  function DigitChar(d: nat): char
    requires d < 10
  {
    ('0' as int + d) as char
  }

  predicate IsDigit(c: char) {
    '0' as int <= c as int <= '9' as int
  }

  /** The value a string of decimal digits spells, most significant digit first. */
  function DecimalValue(r: string): nat
    requires forall i :: 0 <= i < |r| ==> IsDigit(r[i])
  {
    if |r| == 0 then 0 else 10 * DecimalValue(r[..|r| - 1]) + DigitValue(r[|r| - 1])
  }

  function DigitValue(c: char): nat
    requires IsDigit(c)
  {
    c as int - '0' as int
  }

  /** `str(n)` for a non-negative integer. */
  function NatToString(n: nat): (r: string)
    ensures |r| >= 1
    ensures forall i :: 0 <= i < |r| ==> IsDigit(r[i])
  {
    if n < 10 then [DigitChar(n)] else NatToString(n / 10) + [DigitChar(n % 10)]
  }

  /** `str(n)` spells `n` in decimal, with no leading zero unless `n` is zero. */
  lemma {:induction false} NatToStringSpells(n: nat)
    ensures DecimalValue(NatToString(n)) == n
    ensures NatToString(n)[0] != '0' || n == 0
  {
    var r := NatToString(n);
    if n >= 10 {
      NatToStringSpells(n / 10);
      assert r[..|r| - 1] == NatToString(n / 10);
      assert r[0] == NatToString(n / 10)[0];
    }
  }

  /**
   * The characters matched by Python's `\w` that the model recognises: ASCII
   * letters, digits and `_`, Latin-1 and Latin Extended letters, and Cyrillic
   * letters (U+0400 to U+04FF without the sign and combining marks U+0482 to U+0489).
   */
  predicate IsWordChar(c: char) {
    ('a' <= c <= 'z') || ('A' <= c <= 'Z') || ('0' <= c <= '9') || c == '_'
    || ('\U{C0}' <= c <= '\U{24F}' && c != '\U{D7}' && c != '\U{F7}')
    || ('\U{400}' <= c <= '\U{481}') || ('\U{48A}' <= c <= '\U{4FF}')
  }

  /** Length of the run of word characters starting at `i`. */
  function WordRun(s: string, i: nat): (n: nat)
    requires i <= |s|
    ensures i + n <= |s|
    decreases |s| - i
  {
    if i == |s| || !IsWordChar(s[i]) then 0 else 1 + WordRun(s, i + 1)
  }

  /** The run is made of word characters and ends at the text's end or at a character that is not one. */
  lemma {:induction false} WordRunFacts(s: string, i: nat)
    requires i <= |s|
    ensures forall j :: i <= j < i + WordRun(s, i) ==> IsWordChar(s[j])
    ensures i + WordRun(s, i) == |s| || !IsWordChar(s[i + WordRun(s, i)])
    decreases |s| - i
  {
    if i < |s| && IsWordChar(s[i]) {
      WordRunFacts(s, i + 1);
    }
  }

  /** Braces around a name: the literal `{name}` that a placeholder stands for. */
  function Braced(name: string): string {
    "{" + name + "}"
  }

  /** Length of the name when the text starts with a placeholder `{name}`; 0 when it does not. */
  function MatchLen(s: string): (n: nat)
    ensures n > 0 ==> n + 2 <= |s|
  {
    if |s| > 0 && s[0] == '{' then
      var n := WordRun(s, 1);
      if n > 0 && 1 + n < |s| && s[1 + n] == '}' then n else 0
    else 0
  }

  /** What the scan takes at the front of a non-empty text: the placeholder's name, when one starts there. */
  function Head(s: string): seq<string>
    requires s != []
  {
    var n := MatchLen(s);
    if n > 0 then [s[1..1 + n]] else []
  }

  /** Where the scan goes on: past the placeholder, or one character on. */
  function Rest(s: string): (r: string)
    requires s != []
    ensures |r| < |s|
  {
    var n := MatchLen(s);
    if n > 0 then s[n + 2..] else s[1..]
  }

  /** `re.findall(r'\{(\w+)\}', s)`: the placeholder names, in order, with repeats. */
  function Placeholders(s: string): seq<string>
    decreases |s|
  {
    if s == [] then [] else Head(s) + Placeholders(Rest(s))
  }

  /** The run of word characters from `i` is exactly `n` long when `n` word characters are followed by a non-word one or the end. */
  lemma {:induction false} WordRunIs(s: string, i: nat, n: nat)
    requires i + n <= |s|
    requires forall j :: i <= j < i + n ==> IsWordChar(s[j])
    requires i + n == |s| || !IsWordChar(s[i + n])
    ensures WordRun(s, i) == n
    decreases n
  {
    if n > 0 {
      WordRunIs(s, i + 1, n - 1);
    }
  }

  /** A word run that stops at a non-word character where `a` ends is not changed by what follows. */
  lemma {:induction false} WordRunPrefix(a: string, b: string, j: nat)
    requires j <= |a| && (b == [] || !IsWordChar(b[0]))
    ensures WordRun(a + b, j) == WordRun(a, j)
    decreases |a| - j
  {
    if j < |a| {
      assert (a + b)[j] == a[j];
      WordRunPrefix(a, b, j + 1);
    }
  }

  /** The scan's rest is a suffix of the text. */
  lemma RestIsSuffix(s: string)
    requires s != []
    ensures s == s[..|s| - |Rest(s)|] + Rest(s)
  {
  }

  /** The name taken at the front is a run of word characters found braced at the start. */
  lemma HeadIsPlaceholder(s: string, n: nat, p: string)
    requires n == MatchLen(s) && n > 0 && p == s[1..1 + n]
    ensures OccursAt(s, Braced(p), 0) && forall j :: 0 <= j < |p| ==> IsWordChar(p[j])
  {
    WordRunFacts(s, 1);
    assert forall j :: 0 <= j < |p| ==> p[j] == s[1 + j];
    assert s[0..|Braced(p)|] == Braced(p);
  }

  /** A placeholder name: a non-empty run of word characters. */
  predicate IsName(p: string) {
    p != [] && forall j :: 0 <= j < |p| ==> IsWordChar(p[j])
  }

  /** Every entry of `ps` is a name that occurs braced in `s`. */
  predicate NamesIn(s: string, ps: seq<string>) {
    forall k :: 0 <= k < |ps| ==> IsName(ps[k]) && Contains(s, Braced(ps[k]))
  }

  /** Every name found is a non-empty run of word characters that occurs braced in the text. */
  lemma {:induction false} PlaceholdersSound(s: string)
    ensures var ps := Placeholders(s);
      forall k :: 0 <= k < |ps| ==> ps[k] != [] && Contains(s, Braced(ps[k]))
    ensures var ps := Placeholders(s);
      forall k :: 0 <= k < |ps| ==> forall j :: 0 <= j < |ps[k]| ==> IsWordChar(ps[k][j])
  {
    PlaceholdersNamed(s);
    var ps := Placeholders(s);
    forall k | 0 <= k < |ps|
      ensures ps[k] != [] && Contains(s, Braced(ps[k]))
      ensures forall j :: 0 <= j < |ps[k]| ==> IsWordChar(ps[k][j])
    {
      assert IsName(ps[k]);
    }
  }

  /** `PlaceholdersSound`, stated through `NamesIn`. */
  lemma {:induction false} PlaceholdersNamed(s: string)
    ensures NamesIn(s, Placeholders(s))
    decreases |s|
  {
    if s != [] {
      var h, r := Head(s), Rest(s);
      PlaceholdersNamed(r);
      RestIsSuffix(s);
      NamesInSuffix(s[..|s| - |r|], r, Placeholders(r));
      if MatchLen(s) > 0 {
        HeadIsPlaceholder(s, MatchLen(s), h[0]);
        assert Contains(s, Braced(h[0]));
      }
      assert NamesIn(s, h);
      NamesInConcat(s, h, Placeholders(r));
      assert Placeholders(s) == h + Placeholders(r);
    }
  }

  /** Names found in a suffix are found in the whole text. */
  lemma NamesInSuffix(a: string, r: string, ps: seq<string>)
    requires NamesIn(r, ps)
    ensures NamesIn(a + r, ps)
  {
    forall k | 0 <= k < |ps| ensures Contains(a + r, Braced(ps[k])) {
      ContainsInConcat(a, r, Braced(ps[k]));
    }
  }

  /** Two lists of names found in a text, joined. */
  lemma NamesInConcat(s: string, h: seq<string>, q: seq<string>)
    requires NamesIn(s, h) && NamesIn(s, q)
    ensures NamesIn(s, h + q)
  {
    forall k | 0 <= k < |h + q| ensures IsName((h + q)[k]) && Contains(s, Braced((h + q)[k])) {
      if k < |h| {
        assert (h + q)[k] == h[k];
      } else {
        assert (h + q)[k] == q[k - |h|];
      }
    }
  }

  /** A placeholder `{w}` at the front is taken whole. */
  lemma MatchAtFront(s: string, w: string)
    requires OccursAt(s, Braced(w), 0)
    requires w != [] && forall j :: 0 <= j < |w| ==> IsWordChar(w[j])
    ensures MatchLen(s) == |w| && Head(s) == [w]
  {
    assert s[..|Braced(w)|] == Braced(w);
    assert s[0] == '{' && s[1 + |w|] == '}';
    assert forall j :: 0 <= j < |w| ==> s[1 + j] == w[j];
    WordRunIs(s, 1, |w|);
    assert s[1..1 + |w|] == w;
  }

  /** An occurrence at or after `k` is an occurrence in the suffix from `k`. */
  lemma OccursInSuffix(s: string, pat: string, i: nat, k: nat)
    requires OccursAt(s, pat, i) && k <= i
    ensures OccursAt(s[k..], pat, i - k)
  {
    assert s[k..][i - k..i - k + |pat|] == s[i..i + |pat|];
  }

  /** A placeholder further on is not overlapped by the one at the front, so the scan's rest still holds it. */
  lemma PlaceholderInRest(s: string, w: string, i: nat)
    requires 0 < i && OccursAt(s, Braced(w), i)
    ensures OccursAt(Rest(s), Braced(w), i - (|s| - |Rest(s)|))
  {
    assert s[i..i + |Braced(w)|] == Braced(w);
    RestSkipsNoBrace(s, i);
    var k := |s| - |Rest(s)|;
    assert Rest(s) == s[k..];
    OccursInSuffix(s, Braced(w), i, k);
  }

  /** The scan does not step over an opening brace after the front. */
  lemma RestSkipsNoBrace(s: string, i: nat)
    requires 0 < i < |s| && s[i] == '{'
    ensures |s| - |Rest(s)| <= i
  {
    var n := MatchLen(s);
    if n > 0 {
      WordRunFacts(s, 1);
      assert i >= n + 2;
    }
  }

  /**
   * `re.findall` misses no placeholder: each `{w}` in the text, with `w` a
   * non-empty run of word characters, is among the names found.
   */
  lemma {:induction false} PlaceholdersComplete(s: string, i: nat, w: string)
    requires OccursAt(s, Braced(w), i)
    requires w != [] && forall j :: 0 <= j < |w| ==> IsWordChar(w[j])
    ensures w in Placeholders(s)
    decreases |s|
  {
    var r := Rest(s);
    assert Placeholders(s) == Head(s) + Placeholders(r);
    if i == 0 {
      MatchAtFront(s, w);
    } else {
      PlaceholderInRest(s, w, i);
      PlaceholdersComplete(r, i - (|s| - |r|), w);
    }
  }

  /** The front of `a + b` is scanned as the front of `a` when `b` begins with neither a word character nor `}`. */
  lemma HeadRestPrefix(a: string, b: string)
    requires a != []
    requires b == [] || (!IsWordChar(b[0]) && b[0] != '}')
    ensures Head(a + b) == Head(a) && Rest(a + b) == Rest(a) + b
  {
    var s := a + b;
    MatchLenPrefix(a, b);
    var n := MatchLen(a);
    if n > 0 {
      assert s[1..1 + n] == a[1..1 + n];
      assert s[n + 2..] == a[n + 2..] + b;
    } else {
      assert s[1..] == a[1..] + b;
    }
  }

  /** The placeholder at the front of `a` is the one at the front of `a + b`. */
  lemma MatchLenPrefix(a: string, b: string)
    requires a != []
    requires b == [] || (!IsWordChar(b[0]) && b[0] != '}')
    ensures MatchLen(a + b) == MatchLen(a)
  {
    var s := a + b;
    assert s[0] == a[0];
    if a[0] == '{' {
      WordRunPrefix(a, b, 1);
      var n := WordRun(a, 1);
      if 1 + n < |a| {
        assert s[1 + n] == a[1 + n];
      } else if b != [] {
        assert s[1 + n] == b[0];
      }
    }
  }

  /** One step of `PlaceholdersAppend`. */
  lemma AppendStep(a: string, b: string)
    requires a != []
    requires Head(a + b) == Head(a) && Rest(a + b) == Rest(a) + b
    requires Placeholders(Rest(a) + b) == Placeholders(Rest(a)) + Placeholders(b)
    ensures Placeholders(a + b) == Placeholders(a) + Placeholders(b)
  {
    var h, pr, pb := Head(a), Placeholders(Rest(a)), Placeholders(b);
    assert Placeholders(a + b) == Head(a + b) + Placeholders(Rest(a + b));
    assert Placeholders(a) == h + pr;
    AppendAssoc(h, pr, pb);
  }

  lemma AppendAssoc<T>(h: seq<T>, p: seq<T>, q: seq<T>)
    ensures h + (p + q) == (h + p) + q
  {
  }

  /**
   * Names come out in text order: when `b` begins with neither a word
   * character nor `}`, no placeholder straddles the join, and the names of
   * `a + b` are those of `a` followed by those of `b`.
   */
  lemma {:induction false} PlaceholdersAppend(a: string, b: string)
    requires b == [] || (!IsWordChar(b[0]) && b[0] != '}')
    ensures Placeholders(a + b) == Placeholders(a) + Placeholders(b)
    decreases |a|
  {
    if a == [] {
      assert a + b == b;
    } else {
      HeadRestPrefix(a, b);
      PlaceholdersAppend(Rest(a), b);
      AppendStep(a, b);
    }
  }

  /** A text with no opening brace has no placeholders. */
  lemma {:induction false} NoBraceNoPlaceholders(s: string)
    requires forall i :: 0 <= i < |s| ==> s[i] != '{'
    ensures Placeholders(s) == []
    decreases |s|
  {
    if s != [] {
      assert Rest(s) == s[1..];
      NoBraceNoPlaceholders(s[1..]);
    }
  }
}

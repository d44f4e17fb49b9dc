/**
 * The dialog validator (`DialogValidator`): the structural rules a generated
 * dialog record must meet, the cleaning of single replicas (speaker
 * prefixes, surrounding whitespace, one surrounding quote pair), the word
 * overlap measure between replicas and the alternation heuristic built on it.
 */
module DialogValidator {
  import opened Wrappers
  import opened Text
  import opened JsonValue
  import Validator

  const MinReplicas := 4
  const MaxReplicas := 100
  const MinReplicaLength := 10
  const MaxReplicaLength := 10000

  /**
   * The shapes of the speaker-prefix patterns.  `Labels(names)` is
   * `^(n1|n2|...):\s*`, matched ignoring case; `Enclosed(open, close)` is
   * `^<open>.*?<close>:\s*`, where `.` does not match a line break.
   */
  datatype PrefixPattern =
    | Labels(names: seq<string>)
    | Enclosed(open: char, close: char)

  /** The eleven patterns, in the order they are applied. */
  const PrefixPatterns: seq<PrefixPattern> := [
    Labels(["User", "Assistant", "Human", "AI", "Bot"]),
    Labels(["user", "assistant", "human", "ai", "bot"]),
    Labels(["USER", "ASSISTANT", "HUMAN", "AI", "BOT"]),
    Labels(["Пользователь", "Ассистент", "Человек", "ИИ", "Бот"]),
    Labels(["пользователь", "ассистент", "человек", "ии", "бот"]),
    Labels(["ПОЛЬЗОВАТЕЛЬ", "АССИСТЕНТ", "ЧЕЛОВЕК", "ИИ", "БОТ"]),
    Enclosed('[', ']'),
    Enclosed('<', '>'),
    Enclosed('\U{3010}', '\U{3011}'),
    Enclosed('"', '"'),
    Enclosed('\'', '\'')
  ]

  /**
   * What a validator holds after construction: the schema's declared fields
   * and the prefix patterns it cleans replicas with.
   */
  datatype Rules = Rules(fields: seq<string>, patterns: seq<PrefixPattern>)

  /** `DialogValidator(output_schema)`: the declared fields and the eleven patterns. */
  function NewRules(fields: seq<string>): (v: Rules)
    ensures v.fields == fields && |v.patterns| == 11
  {
    Rules(fields, PrefixPatterns)
  }

  /** Equal ignoring case. */
  predicate SameLetters(a: string, b: string) {
    |a| == |b| && forall i :: 0 <= i < |a| ==> LowerChar(a[i]) == LowerChar(b[i])
  }

  /** `name:` at the start of `s`, ignoring case. */
  predicate LabelAt(s: string, name: string) {
    |name| < |s| && SameLetters(s[..|name|], name) && s[|name|] == ':'
  }

  /** Length of `label:` for the first alternative that matches at the start of `s`. */
  function LabelMatch(names: seq<string>, s: string): (r: Option<nat>)
    ensures r.Some? ==> 0 < r.value <= |s| && s[r.value - 1] == ':'
    ensures r.None? <==> forall i :: 0 <= i < |names| ==> !LabelAt(s, names[i])
  {
    if names == [] then None
    else if LabelAt(s, names[0]) then Some(|names[0]| + 1)
    else
      var r := LabelMatch(names[1..], s);
      assert forall i :: 1 <= i < |names| ==> names[i] == names[1..][i - 1];
      r
  }

  /** The position of the first `close:` after the opening character, if no line break comes before it. */
  function EnclosedMatch(open: char, close: char, s: string): (r: Option<nat>)
    ensures r.Some? ==> 2 < r.value <= |s| && s[0] == open && s[r.value - 2] == close && s[r.value - 1] == ':'
    ensures r.Some? ==> forall i :: 1 <= i < r.value - 2 ==> s[i] != '\n'
  {
    if s == [] || s[0] != open then None
    else
      match FindFrom(s, [close, ':'], 1)
      case None => None
      case Some(j) =>
        if exists i :: 1 <= i < j && s[i] == '\n' then None
        else
          assert OccursAt(s, [close, ':'], j);
          assert s[j] == s[j..j + 2][0] && s[j + 1] == s[j..j + 2][1];
          Some(j + 2)
  }

  /** Length of the text a pattern matches at the start of `s`, before its trailing whitespace. */
  function MatchLength(p: PrefixPattern, s: string): (r: Option<nat>)
    ensures r.Some? ==> 0 < r.value <= |s|
  {
    match p
    case Labels(names) => LabelMatch(names, s)
    case Enclosed(open, close) => EnclosedMatch(open, close, s)
  }

  /** `r` is a tail of `s`. */
  predicate IsTail(r: string, s: string) {
    |r| <= |s| && r == s[|s| - |r|..]
  }

  /** `re.sub(pattern, '', s, flags=re.IGNORECASE)` for an anchored pattern: a matched prefix and the whitespace after it go. */
  function RemovePrefix(p: PrefixPattern, s: string): (r: string)
    ensures IsTail(r, s)
    ensures MatchLength(p, s).None? ==> r == s
  {
    match MatchLength(p, s)
    case None => s
    case Some(n) => StripStart(s[n..])
  }

  /** The patterns applied once each, in order. */
  function RemovePrefixes(ps: seq<PrefixPattern>, s: string): (r: string)
    ensures IsTail(r, s)
  {
    if ps == [] then s
    else
      var t := RemovePrefix(ps[0], s);
      var r := RemovePrefixes(ps[1..], t);
      TailOfTail(s, t, r);
      r
  }

  /** A tail of a tail of `s` is a tail of `s`. */
  lemma TailOfTail(s: string, t: string, r: string)
    requires IsTail(t, s) && IsTail(r, t)
    ensures IsTail(r, s)
  {
    forall k | 0 <= k < |r| ensures r[k] == s[|s| - |r| + k] {
      assert r[k] == t[|t| - |r| + k];
    }
  }

  /** No pattern matches at the start of `s`. */
  predicate NoPrefix(ps: seq<PrefixPattern>, s: string) {
    forall i :: 0 <= i < |ps| ==> MatchLength(ps[i], s).None?
  }

  /** A text that starts with no speaker prefix goes through every pattern unchanged. */
  lemma {:induction false} RemovePrefixesKeepsUnprefixed(ps: seq<PrefixPattern>, s: string)
    requires NoPrefix(ps, s)
    ensures RemovePrefixes(ps, s) == s
  {
    if ps != [] {
      assert MatchLength(ps[0], s).None?;
      assert NoPrefix(ps[1..], s) by {
        forall i | 0 <= i < |ps[1..]| ensures MatchLength(ps[1..][i], s).None? {
          assert ps[1..][i] == ps[i + 1];
        }
      }
      RemovePrefixesKeepsUnprefixed(ps[1..], s);
    }
  }

  /** `_clean_replica`: prefixes, then surrounding whitespace, then one surrounding quote pair. */
  function CleanReplica(v: Rules, s: string): string {
    Validator.CleanString(RemovePrefixes(v.patterns, s))
  }

  /** Cleaning only cuts text away at the ends: the cleaned replica is a contiguous piece of the original. */
  lemma CleanReplicaIsPiece(v: Rules, s: string)
    ensures Contains(s, CleanReplica(v, s))
  {
    CleanedSuffixIsPiece(s, RemovePrefixes(v.patterns, s));
  }

  /** Cleaning a tail of a text leaves a piece of the text. */
  lemma CleanedSuffixIsPiece(s: string, t: string)
    requires |t| <= |s| && t == s[|s| - |t|..]
    ensures Contains(s, Validator.CleanString(t))
  {
    var r := Validator.CleanString(t);
    assert OccursAt(s, t, |s| - |t|);
    Validator.CleanStringIsPiece(t);
    OccursWithin(s, t, |s| - |t|, r, Find(t, r).value);
  }

  /** A replica without prefix, edge whitespace or surrounding quote pair is not changed by cleaning. */
  lemma CleanReplicaKeepsPlainText(v: Rules, s: string)
    requires NoPrefix(v.patterns, s)
    requires s != [] && !IsSpace(s[0]) && !IsSpace(s[|s| - 1]) && !HasQuotePair(s)
    ensures CleanReplica(v, s) == s
  {
    RemovePrefixesKeepsUnprefixed(v.patterns, s);
    Validator.CleanStringKeepsPlainText(s);
  }

  /** `_validate_replicas_content` for one replica. */
  predicate ReplicaOk(v: Rules, r: Json) {
    r.JStr? && MinReplicaLength <= |Strip(r.s)| <= MaxReplicaLength && !IsBlank(CleanReplica(v, r.s))
  }

  /** `_validate_dialog_type_and_length` and `_validate_replicas_content`. */
  predicate DialogListOk(v: Rules, d: Json) {
    d.JArr? && MinReplicas <= |d.items| <= MaxReplicas
    && forall i :: 0 <= i < |d.items| ==> ReplicaOk(v, d.items[i])
  }

  /**
   * `validate_dialog`: a non-empty dict with every declared field (not just
   * one), a `dialog` entry, and a list of acceptable replicas under it.
   */
  predicate ValidateDialog(v: Rules, data: Json) {
    Validator.StructureOk(data)
    && Validator.MissingFields(v.fields, data.members) == []
    && HasKey(data.members, "dialog")
    && DialogListOk(v, Lookup(data.members, "dialog").value)
  }

  /** Every declared field present: the presence list is the schema itself. */
  lemma {:induction false} AllPresent(fields: seq<string>, ms: seq<Member>)
    requires forall f :: f in fields ==> HasKey(ms, f)
    ensures Validator.PresentFields(fields, ms) == fields
  {
    if fields != [] {
      var init := fields[..|fields| - 1];
      assert fields == init + [fields[|fields| - 1]];
      AllPresent(init, ms);
    }
  }

  /**
   * A valid dialog filtered to a schema that names each field once comes out
   * with exactly the schema's fields, in schema order.
   */
  lemma ValidDialogFilterKeepsSchema(v: Rules, data: Json)
    requires ValidateDialog(v, data) && Validator.Distinct(v.fields)
    ensures Keys(Validator.FilterOutputFields(v.fields, data.members)) == v.fields
  {
    var ms := data.members;
    var fields := v.fields;
    forall f | f in fields ensures HasKey(ms, f) {
      assert f !in Validator.MissingFields(fields, ms);
    }
    AllPresent(fields, ms);
    Validator.FilterInSchemaOrder(fields, ms);
  }

  /** Every replica cleaned, in order. */
  function CleanAll(v: Rules, rs: seq<string>): (cs: seq<string>)
    ensures |cs| == |rs|
    ensures forall i :: 0 <= i < |rs| ==> cs[i] == CleanReplica(v, rs[i])
  {
    seq(|rs|, i requires 0 <= i < |rs| => CleanReplica(v, rs[i]))
  }

  /** The texts that are not blank, in order. */
  function DropBlank(cs: seq<string>): (r: seq<string>)
    ensures |r| <= |cs|
    ensures forall w :: w in r ==> !IsBlank(w) && w in cs
    ensures forall i :: 0 <= i < |cs| && !IsBlank(cs[i]) ==> cs[i] in r
  {
    if cs == [] then []
    else
      assert forall i :: 1 <= i < |cs| ==> cs[i] == cs[1..][i - 1];
      if !IsBlank(cs[0]) then [cs[0]] + DropBlank(cs[1..])
      else DropBlank(cs[1..])
  }

  /** Dropping blanks works text by text, keeping order: two lists joined drop as each dropped and joined. */
  lemma {:induction false} DropBlankAppend(a: seq<string>, b: seq<string>)
    ensures DropBlank(a + b) == DropBlank(a) + DropBlank(b)
  {
    if a == [] {
      assert a + b == b;
    } else {
      assert (a + b)[0] == a[0] && (a + b)[1..] == a[1..] + b;
      DropBlankAppend(a[1..], b);
      if !IsBlank(a[0]) {
        assert [a[0]] + (DropBlank(a[1..]) + DropBlank(b)) == [a[0]] + DropBlank(a[1..]) + DropBlank(b);
      }
    }
  }

  /** A list with no blank text goes through unchanged. */
  lemma {:induction false} DropBlankKeepsNonBlank(cs: seq<string>)
    requires forall i :: 0 <= i < |cs| ==> !IsBlank(cs[i])
    ensures DropBlank(cs) == cs
  {
    if cs != [] {
      assert !IsBlank(cs[0]);
      DropBlankKeepsNonBlank(cs[1..]);
      assert [cs[0]] + cs[1..] == cs;
    }
  }

  /** `sanitize_replicas`: each replica cleaned, in order, the blank results dropped. */
  function SanitizeReplicas(v: Rules, rs: seq<string>): (r: seq<string>)
    ensures |r| <= |rs|
    ensures forall w :: w in r ==> !IsBlank(w)
    ensures forall i :: 0 <= i < |rs| && !IsBlank(CleanReplica(v, rs[i])) ==> CleanReplica(v, rs[i]) in r
  {
    DropBlank(CleanAll(v, rs))
  }

  /** One replica: its cleaned form when that is not blank, nothing otherwise. */
  lemma SanitizeOne(v: Rules, t: string)
    ensures SanitizeReplicas(v, [t]) == if IsBlank(CleanReplica(v, t)) then [] else [CleanReplica(v, t)]
  {
    var w := CleanReplica(v, t);
    assert CleanAll(v, [t]) == [w];
    DropBlankOne(w);
  }

  /** A single text is kept exactly when it is not blank. */
  lemma DropBlankOne(w: string)
    ensures DropBlank([w]) == if IsBlank(w) then [] else [w]
  {
    assert [w][1..] == [];
  }

  /**
   * The loop of `sanitize_replicas` appends in input order: two lists joined
   * sanitize as each sanitized and joined.  With `SanitizeOne` this fixes the
   * result replica by replica.
   */
  lemma SanitizeAppend(v: Rules, a: seq<string>, b: seq<string>)
    ensures SanitizeReplicas(v, a + b) == SanitizeReplicas(v, a) + SanitizeReplicas(v, b)
  {
    assert CleanAll(v, a + b) == CleanAll(v, a) + CleanAll(v, b);
    DropBlankAppend(CleanAll(v, a), CleanAll(v, b));
  }

  /** Each replica `sanitize_replicas` returns is the cleaned form of an input replica, and a contiguous piece of it. */
  lemma SanitizedComeFromInput(v: Rules, rs: seq<string>, w: string)
    requires w in SanitizeReplicas(v, rs)
    ensures exists i :: 0 <= i < |rs| && w == CleanReplica(v, rs[i]) && Contains(rs[i], w)
  {
    var cs := CleanAll(v, rs);
    assert w in cs;
    var i :| 0 <= i < |cs| && cs[i] == w;
    CleanReplicaIsPiece(v, rs[i]);
  }

  /** When no replica cleans to blank, sanitizing keeps them all: each cleaned, in the same order. */
  lemma SanitizeKeepsNonBlank(v: Rules, rs: seq<string>)
    requires forall i :: 0 <= i < |rs| ==> !IsBlank(CleanReplica(v, rs[i]))
    ensures SanitizeReplicas(v, rs) == CleanAll(v, rs)
  {
    DropBlankKeepsNonBlank(CleanAll(v, rs));
  }

  /** The texts of a list of replicas that are all strings. */
  function Texts(items: seq<Json>): (ts: seq<string>)
    requires forall i :: 0 <= i < |items| ==> items[i].JStr?
    ensures |ts| == |items|
    ensures forall i :: 0 <= i < |items| ==> ts[i] == items[i].s
  {
    seq(|items|, i requires 0 <= i < |items| => items[i].s)
  }

  /** A dialog that passes validation loses no replica to sanitizing: each is kept, cleaned, in order. */
  lemma ValidDialogSanitizesWhole(v: Rules, data: Json)
    requires ValidateDialog(v, data)
    ensures var d := Lookup(data.members, "dialog").value;
      SanitizeReplicas(v, Texts(d.items)) == CleanAll(v, Texts(d.items))
  {
    var d := Lookup(data.members, "dialog").value;
    var ts := Texts(d.items);
    forall i | 0 <= i < |ts| ensures !IsBlank(CleanReplica(v, ts[i])) {
      assert ReplicaOk(v, d.items[i]);
    }
    SanitizeKeepsNonBlank(v, ts);
  }

  /** `set(text.lower().split())`. */
  function WordSet(t: string): set<string> {
    set w | w in Words(Lower(t))
  }

  /** `_calculate_similarity`: Jaccard similarity of the two word sets, 0 when either is empty. */
  function Similarity(t1: string, t2: string): (r: real)
    ensures 0.0 <= r <= 1.0
    ensures r == 1.0 ==> WordSet(t1) == WordSet(t2)
  {
    Jaccard(WordSet(t1), WordSet(t2))
  }

  /** Shared words over all words; 0 when either set is empty.  Always in [0, 1], 1 only for equal sets. */
  function Jaccard(a: set<string>, b: set<string>): (r: real)
    ensures 0.0 <= r <= 1.0
    ensures r > 0.0 ==> a * b != {}
    ensures r == 1.0 ==> a == b
  {
    if a == {} || b == {} then 0.0
    else
      SharedWithinAll(a, b);
      if a != b then
        StrictlyShared(a, b);
        RatioBounds(|a * b|, |a + b|);
        (|a * b| as real) / (|a + b| as real)
      else
        RatioBounds(|a * b|, |a + b|);
        (|a * b| as real) / (|a + b| as real)
  }

  /** A count over a larger positive count is a ratio in [0, 1], below 1 when strictly smaller, positive when positive. */
  lemma RatioBounds(x: nat, y: nat)
    requires 0 < y && x <= y
    ensures 0.0 <= (x as real) / (y as real) <= 1.0
    ensures x < y ==> (x as real) / (y as real) < 1.0
    ensures x > 0 ==> (x as real) / (y as real) > 0.0
  {
    var q := (x as real) / (y as real);
    assert q * (y as real) == x as real;
  }

  /** Two different sets share fewer words than they have together. */
  lemma StrictlyShared(a: set<string>, b: set<string>)
    requires a != b
    ensures |a * b| < |a + b|
  {
    var x :| (x in a && x !in b) || (x in b && x !in a);
    CardinalityOfSubset(a * b, a + b - {x});
  }

  /** Shared words are never more than all words, and a non-empty union is counted. */
  lemma SharedWithinAll(a: set<string>, b: set<string>)
    requires a != {}
    ensures 0 <= |a * b| <= |a + b| && 0 < |a + b|
  {
    CardinalityOfSubset(a * b, a + b);
    var x :| x in a;
    assert x in a + b;
  }

  /** A subset has no more elements than its superset. */
  lemma {:induction false} CardinalityOfSubset(a: set<string>, b: set<string>)
    requires a <= b
    ensures |a| <= |b|
    decreases |b|
  {
    if a != {} {
      var x :| x in a;
      CardinalityOfSubset(a - {x}, b - {x});
    }
  }

  /** Jaccard similarity does not depend on the order of the two sets. */
  lemma JaccardSymmetric(a: set<string>, b: set<string>)
    ensures Jaccard(a, b) == Jaccard(b, a)
  {
    assert a * b == b * a;
    assert a + b == b + a;
  }

  /** Similarity does not depend on the order of the two texts. */
  lemma SimilaritySymmetric(t1: string, t2: string)
    ensures Similarity(t1, t2) == Similarity(t2, t1)
  {
    JaccardSymmetric(WordSet(t1), WordSet(t2));
  }

  /** A non-empty set is fully similar to itself. */
  lemma JaccardOfIdentical(a: set<string>)
    requires a != {}
    ensures Jaccard(a, a) == 1.0
  {
    assert a * a == a;
    assert a + a == a;
  }

  /** Number of adjacent pairs whose similarity exceeds 0.8. */
  function SimilarPairs(rs: seq<string>): (n: nat)
    ensures n <= |rs|
  {
    if |rs| < 2 then 0
    else (if Similarity(rs[0], rs[1]) > 0.8 then 1 else 0) + SimilarPairs(rs[1..])
  }

  /** Two replicas are more than 0.8 similar. */
  predicate Alike(a: string, b: string) {
    Similarity(a, b) > 0.8
  }

  /** One flag per neighbouring pair `(i, i + 1)`: whether the two are more than 0.8 similar. */
  function PairFlags(rs: seq<string>): (fs: seq<bool>)
    ensures |fs| == if |rs| < 2 then 0 else |rs| - 1
    ensures forall i :: 0 <= i < |fs| ==> fs[i] == AlikeAt(rs, i)
  {
    if |rs| < 2 then [] else seq(|rs| - 1, i => AlikeAt(rs, i))
  }

  /** Pair `(i, i + 1)` exists and its two replicas are more than 0.8 similar. */
  predicate AlikeAt(rs: seq<string>, i: int) {
    0 <= i < |rs| - 1 && Alike(rs[i], rs[i + 1])
  }

  /** Dropping the first replica drops the first pair's flag. */
  lemma PairFlagsTail(rs: seq<string>)
    requires |rs| >= 2
    ensures PairFlags(rs) == [Alike(rs[0], rs[1])] + PairFlags(rs[1..])
  {
    var fs, gs := PairFlags(rs), PairFlags(rs[1..]);
    forall i | 1 <= i < |fs|
      ensures fs[i] == gs[i - 1]
    {
      PairFlagShift(rs, i);
    }
    assert fs[0] == Alike(rs[0], rs[1]);
    ConsFromParts(fs, fs[0], gs);
  }

  /** A sequence whose first element is `x` and whose other elements are those of `gs` is `[x] + gs`. */
  lemma ConsFromParts(fs: seq<bool>, x: bool, gs: seq<bool>)
    requires |fs| == |gs| + 1 && fs[0] == x
    requires forall i :: 1 <= i < |fs| ==> fs[i] == gs[i - 1]
    ensures fs == [x] + gs
  {
  }

  /** The flag of pair `i` is the flag of pair `i - 1` once the first replica is dropped. */
  lemma PairFlagShift(rs: seq<string>, i: int)
    requires 1 <= i < |rs| - 1
    ensures PairFlags(rs)[i] == PairFlags(rs[1..])[i - 1]
  {
    assert rs[1..][i - 1] == rs[i] && rs[1..][i] == rs[i + 1];
  }

  /** The count is the number of neighbouring pairs more than 0.8 similar, as the loop counts them. */
  lemma {:induction false} SimilarPairsCounts(rs: seq<string>)
    ensures SimilarPairs(rs) == multiset(PairFlags(rs))[true]
  {
    if |rs| >= 2 {
      SimilarPairsCounts(rs[1..]);
      PairFlagsTail(rs);
      assert multiset(PairFlags(rs)) == multiset([Alike(rs[0], rs[1])]) + multiset(PairFlags(rs[1..]));
    }
  }

  /** `_validate_replica_alternation`: fewer than 4 replicas pass; otherwise at most 30% similar neighbours. */
  predicate ValidateReplicaAlternation(rs: seq<string>) {
    |rs| < 4 || (SimilarPairs(rs) as real) <= 0.3 * (|rs| as real)
  }

  /** With no pair of neighbours more than 0.8 similar, the alternation check passes. */
  lemma {:induction false} DissimilarNeighboursPass(rs: seq<string>)
    requires forall i :: 0 <= i < |rs| - 1 ==> Similarity(rs[i], rs[i + 1]) <= 0.8
    ensures SimilarPairs(rs) == 0
    ensures ValidateReplicaAlternation(rs)
  {
    if |rs| >= 2 {
      assert Similarity(rs[0], rs[1]) <= 0.8;
      DissimilarNeighboursPass(rs[1..]);
    }
  }

  /** `n` copies of one text. */
  function Repeat(t: string, n: nat): (rs: seq<string>)
    ensures |rs| == n
  {
    if n == 0 then [] else [t] + Repeat(t, n - 1)
  }

  /** Every pair of neighbours in a repeated replica is similar. */
  lemma {:induction false} RepeatedPairs(t: string, n: nat)
    requires WordSet(t) != {} && n >= 1
    ensures SimilarPairs(Repeat(t, n)) == n - 1
  {
    if n >= 2 {
      var rs := Repeat(t, n);
      assert rs[0] == t && rs[1] == Repeat(t, n - 1)[0] == t;
      assert rs[1..] == Repeat(t, n - 1);
      JaccardOfIdentical(WordSet(t));
      RepeatedPairs(t, n - 1);
    }
  }

  /** Four or more copies of one replica fail the alternation check. */
  lemma RepeatedReplicaFails(t: string, n: nat)
    requires WordSet(t) != {} && n >= 4
    ensures !ValidateReplicaAlternation(Repeat(t, n))
  {
    RepeatedPairs(t, n);
  }
}

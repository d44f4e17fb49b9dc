/**
 * JSON values as Python's json module produces them.  An object is an
 * ordered list of members, which is how a Python dict behaves: a new key is
 * appended at the end and updating an existing key keeps its position.
 * Python ints and floats are both numbers here.
 */
module JsonValue {
  import opened Wrappers

  datatype Json =
    | JNull
    | JBool(b: bool)
    | JNum(n: real)
    | JStr(s: string)
    | JArr(items: seq<Json>)
    | JObj(members: seq<Member>)

  datatype Member = Member(key: string, value: Json)

  /** Python truthiness: None, False, 0, "", [] and {} are false. */
  predicate Truthy(v: Json) {
    match v
    case JNull => false
    case JBool(b) => b
    case JNum(n) => n != 0.0
    case JStr(s) => s != []
    case JArr(a) => a != []
    case JObj(m) => m != []
  }

  function Keys(ms: seq<Member>): (ks: seq<string>)
    ensures |ks| == |ms|
    ensures forall i :: 0 <= i < |ms| ==> ks[i] == ms[i].key
  {
    seq(|ms|, i requires 0 <= i < |ms| => ms[i].key)
  }

  /** Position of the first member with key `k`. */
  function IndexOf(ms: seq<Member>, k: string): (r: Option<nat>)
    ensures r.Some? ==> r.value < |ms| && ms[r.value].key == k
    ensures r.Some? ==> forall j :: 0 <= j < r.value ==> ms[j].key != k
    ensures r.None? ==> forall j :: 0 <= j < |ms| ==> ms[j].key != k
  {
    if |ms| == 0 then None
    else if ms[0].key == k then Some(0)
    else match IndexOf(ms[1..], k)
      case None => None
      case Some(i) => Some(i + 1)
  }

  /** `k in d` for a dict `d`. */
  predicate HasKey(ms: seq<Member>, k: string) {
    IndexOf(ms, k).Some?
  }

  /** `d.get(k)`. */
  function Lookup(ms: seq<Member>, k: string): (r: Option<Json>)
    ensures r.Some? <==> HasKey(ms, k)
    ensures r.Some? ==> exists i :: 0 <= i < |ms| && ms[i] == Member(k, r.value)
  {
    match IndexOf(ms, k)
    case None => None
    case Some(i) => Some(ms[i].value)
  }

  /** No key occurs twice: every dict the program builds has this shape. */
  predicate DistinctKeys(ms: seq<Member>) {
    forall i, j :: 0 <= i < j < |ms| ==> ms[i].key != ms[j].key
  }

  /** `d[k] = v`: replaces the value in place, or appends a new member. */
  function Put(ms: seq<Member>, k: string, v: Json): (r: seq<Member>)
    ensures Lookup(r, k) == Some(v)
    ensures forall k' :: k' != k ==> Lookup(r, k') == Lookup(ms, k')
    ensures HasKey(ms, k) ==> Keys(r) == Keys(ms)
    ensures !HasKey(ms, k) ==> Keys(r) == Keys(ms) + [k]
    ensures DistinctKeys(ms) ==> DistinctKeys(r)
  {
    match IndexOf(ms, k)
    case Some(i) =>
      var r := ms[i := Member(k, v)];
      assert forall k' :: k' != k ==> IndexOf(r, k') == IndexOf(ms, k') by {
        forall k' | k' != k ensures IndexOf(r, k') == IndexOf(ms, k') {
          IndexOfAgrees(ms, r, k');
        }
      }
      assert Keys(r) == Keys(ms);
      r
    case None =>
      var r := ms + [Member(k, v)];
      assert forall k' :: k' != k ==> IndexOf(r, k') == IndexOf(ms, k') by {
        forall k' | k' != k ensures IndexOf(r, k') == IndexOf(ms, k') {
          IndexOfAgrees(ms, r, k');
        }
      }
      IndexOfIs(r, k, |ms|);
      assert Keys(r) == Keys(ms) + [k];
      r
  }

  /** `d.setdefault(k, v)`: only a missing key is added, at the end. */
  function SetDefault(ms: seq<Member>, k: string, v: Json): (r: seq<Member>)
    ensures HasKey(ms, k) ==> r == ms
    ensures !HasKey(ms, k) ==> Lookup(r, k) == Some(v)
    ensures forall k' :: HasKey(ms, k') ==> Lookup(r, k') == Lookup(ms, k')
    ensures forall k' :: HasKey(r, k') <==> HasKey(ms, k') || k' == k
    ensures DistinctKeys(ms) ==> DistinctKeys(r)
  {
    if HasKey(ms, k) then ms else Put(ms, k, v)
  }

  /** Two member lists whose keys outside `k` agree give the same IndexOf for a key other than `k`. */
  lemma IndexOfAgrees(ms: seq<Member>, r: seq<Member>, k': string)
    requires |ms| <= |r|
    requires forall j :: 0 <= j < |ms| ==> (ms[j].key == k') == (r[j].key == k')
    requires forall j :: |ms| <= j < |r| ==> r[j].key != k'
    ensures IndexOf(r, k') == IndexOf(ms, k')
  {
    match IndexOf(ms, k')
    case Some(i) =>
      IndexOfIs(r, k', i);
    case None =>
  }

  /** The first position holding `k` is what IndexOf reports. */
  lemma IndexOfIs(ms: seq<Member>, k: string, i: nat)
    requires i < |ms| && ms[i].key == k
    requires forall j :: 0 <= j < i ==> ms[j].key != k
    ensures IndexOf(ms, k) == Some(i)
  {
    var r := IndexOf(ms, k);
    assert r.Some?;
    assert !(r.value < i) && !(i < r.value);
  }

  /** Appending a member with a new key: lookups of older keys are unchanged, the new key finds the new value. */
  lemma LookupSnoc(ms: seq<Member>, m: Member, k: string)
    ensures HasKey(ms + [m], k) <==> HasKey(ms, k) || m.key == k
    ensures HasKey(ms, k) ==> Lookup(ms + [m], k) == Lookup(ms, k)
    ensures !HasKey(ms, k) && m.key == k ==> Lookup(ms + [m], k) == Some(m.value)
  {
    var r := ms + [m];
    if k != m.key {
      IndexOfAgrees(ms, r, k);
    } else {
      match IndexOf(ms, k)
      case Some(i) =>
        IndexOfIs(r, k, i);
      case None =>
        IndexOfIs(r, k, |ms|);
    }
  }

  /** In a list with distinct keys, the member at position `j` is what its key finds. */
  lemma LookupAt(ms: seq<Member>, j: nat)
    requires DistinctKeys(ms) && j < |ms|
    ensures Lookup(ms, ms[j].key) == Some(ms[j].value)
  {
    IndexOfIs(ms, ms[j].key, j);
  }

  /** Field `k` of an object value; nothing for any other kind of value. */
  function Field(v: Json, k: string): (r: Option<Json>)
    ensures r.Some? ==> v.JObj? && HasKey(v.members, k)
  {
    if v.JObj? then Lookup(v.members, k) else None
  }
}

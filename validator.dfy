/**
 * The schema-driven record validator (`UniversalJsonValidator`): filtering
 * a record down to the schema's fields, the three-stage validity check,
 * recursive cleaning of values and the validation report.  A schema is the
 * list of its declared field names; an empty list declares none, and then
 * every field is accepted.
 */
module Validator {
  import opened Wrappers
  import opened Text
  import opened JsonValue

  /** Bounds on the stripped length of a string field or string list element. */
  const MinFieldLength := 1
  const MaxFieldLength := 10000

  /** No name occurs twice. */
  predicate Distinct(xs: seq<string>) {
    forall i, j :: 0 <= i < j < |xs| ==> xs[i] != xs[j]
  }

  /** `[f for f in fields if f in data]`: the declared fields the record has, in schema order. */
  function PresentFields(fields: seq<string>, ms: seq<Member>): (ps: seq<string>)
    ensures |ps| <= |fields|
    ensures forall f :: f in ps <==> f in fields && HasKey(ms, f)
  {
    if fields == [] then []
    else
      var init := fields[..|fields| - 1];
      var f := fields[|fields| - 1];
      assert fields == init + [f];
      var rest := PresentFields(init, ms);
      if HasKey(ms, f) then rest + [f] else rest
  }

  /**
   * `filter_output_fields`: a fresh dict filled by walking the schema's
   * fields in order and copying each one the record has.
   */
  function FilterOutputFields(fields: seq<string>, ms: seq<Member>): (r: seq<Member>)
    ensures forall k :: HasKey(r, k) <==> k in fields && HasKey(ms, k)
    ensures forall k :: HasKey(r, k) ==> Lookup(r, k) == Lookup(ms, k)
    ensures DistinctKeys(r)
  {
    if fields == [] then []
    else
      var init := fields[..|fields| - 1];
      var f := fields[|fields| - 1];
      assert fields == init + [f];
      var r := FilterOutputFields(init, ms);
      if HasKey(ms, f) then Put(r, f, Lookup(ms, f).value) else r
  }

  /** With a schema that names each field once, the filtered record lists its keys in schema order. */
  lemma {:induction false} FilterInSchemaOrder(fields: seq<string>, ms: seq<Member>)
    requires Distinct(fields)
    ensures Keys(FilterOutputFields(fields, ms)) == PresentFields(fields, ms)
  {
    if fields != [] {
      var init := fields[..|fields| - 1];
      var f := fields[|fields| - 1];
      assert fields == init + [f];
      FilterInSchemaOrder(init, ms);
      if HasKey(ms, f) {
        assert f !in init;
        assert !HasKey(FilterOutputFields(init, ms), f);
      }
    }
  }

  /** `_validate_structure`: the record is a dict and is not empty. */
  predicate StructureOk(data: Json) {
    data.JObj? && data.members != []
  }

  /** `_validate_required_fields_presence`: no schema, or at least one declared field present. */
  predicate PresenceOk(fields: seq<string>, ms: seq<Member>) {
    fields == [] || PresentFields(fields, ms) != []
  }

  /** The stripped length lies within the bounds. */
  predicate LengthOk(s: string) {
    MinFieldLength <= |Strip(s)| <= MaxFieldLength
  }

  /** `_validate_field_length`: strings, and the string elements of lists, are length-checked. */
  predicate FieldLengthOk(v: Json) {
    match v
    case JStr(s) => LengthOk(s)
    case JArr(items) => forall i :: 0 <= i < |items| && items[i].JStr? ==> LengthOk(items[i].s)
    case _ => true
  }

  /** A field is content-checked when the schema declares nothing or declares it. */
  predicate Checked(fields: seq<string>, k: string) {
    fields == [] || k in fields
  }

  /** `_validate_fields_content`: every checked field passes the length rule. */
  predicate ContentOk(fields: seq<string>, ms: seq<Member>) {
    forall i :: 0 <= i < |ms| && Checked(fields, ms[i].key) ==> FieldLengthOk(ms[i].value)
  }

  /** `validate_data`: structure, then presence, then content. */
  predicate ValidateData(fields: seq<string>, data: Json) {
    StructureOk(data) && PresenceOk(fields, data.members) && ContentOk(fields, data.members)
  }

  /**
   * A record that passes validation keeps at least one field when filtered
   * to a non-empty schema, and every string field that survives the filter
   * has an acceptable stripped length.
   */
  lemma ValidDataSurvivesFilter(fields: seq<string>, data: Json)
    requires ValidateData(fields, data) && fields != []
    ensures FilterOutputFields(fields, data.members) != []
    ensures forall j :: 0 <= j < |FilterOutputFields(fields, data.members)| ==>
      FieldLengthOk(FilterOutputFields(fields, data.members)[j].value)
  {
    var ms := data.members;
    var r := FilterOutputFields(fields, ms);
    var f := PresentFields(fields, ms)[0];
    assert f in PresentFields(fields, ms);
    assert HasKey(r, f);
    forall j | 0 <= j < |r| ensures FieldLengthOk(r[j].value) {
      var k := r[j].key;
      LookupAt(r, j);
      assert HasKey(r, k);
      var i :| 0 <= i < |ms| && ms[i] == Member(k, Lookup(ms, k).value);
      assert Checked(fields, ms[i].key);
    }
  }

  /** `_clean_field_value` on a string: strip, then drop one surrounding quote pair. */
  function CleanString(s: string): string {
    StripQuotePair(Strip(s))
  }

  /** Cleaning a string only trims its ends: the result is a contiguous piece of the original. */
  lemma CleanStringIsPiece(s: string)
    ensures Contains(s, CleanString(s))
  {
    var t := Strip(s);
    var i :| OccursAt(s, t, i);
    QuotePairIsPiece(t);
    OccursWithin(s, t, i, CleanString(s), if HasQuotePair(t) then 1 else 0);
  }

  /** A string with no whitespace at its ends and no surrounding quote pair is left as it is. */
  lemma CleanStringKeepsPlainText(s: string)
    requires s != [] && !IsSpace(s[0]) && !IsSpace(s[|s| - 1])
    requires !HasQuotePair(s)
    ensures CleanString(s) == s
  {
    assert StripStart(s) == s;
    assert StripEnd(s) == s;
  }

  /** Same kind of value; lists keep their length, dicts their keys, scalars their value. */
  predicate SameShape(v: Json, r: Json) {
    (v.JStr? <==> r.JStr?)
    && (v.JArr? ==> r.JArr? && |r.items| == |v.items|)
    && (v.JObj? ==> r.JObj? && Keys(r.members) == Keys(v.members))
    && (!v.JStr? && !v.JArr? && !v.JObj? ==> r == v)
  }

  /**
   * `_clean_field_value`: strings are cleaned, lists and dicts are cleaned
   * element by element, anything else is returned unchanged.
   */
  function CleanFieldValue(v: Json): (r: Json)
    ensures SameShape(v, r)
    ensures v.JStr? ==> Contains(v.s, r.s)
    ensures v.JArr? ==> forall i :: 0 <= i < |v.items| ==> SameShape(v.items[i], r.items[i])
    ensures v.JObj? ==> forall i :: 0 <= i < |v.members| ==> SameShape(v.members[i].value, r.members[i].value)
    decreases v
  {
    match v
    case JStr(s) =>
      CleanStringIsPiece(s);
      JStr(CleanString(s))
    case JArr(items) =>
      JArr(seq(|items|, i requires 0 <= i < |items| => CleanFieldValue(items[i])))
    case JObj(ms) =>
      var r := seq(|ms|, i requires 0 <= i < |ms| => Member(ms[i].key, CleanFieldValue(ms[i].value)));
      assert Keys(r) == Keys(ms);
      JObj(r)
    case _ => v
  }

  /**
   * `sanitize_data`: the checked fields of the record, in record order, each
   * with its cleaned value.
   */
  function SanitizeData(fields: seq<string>, ms: seq<Member>): (r: seq<Member>)
    ensures forall k :: HasKey(r, k) <==> HasKey(ms, k) && Checked(fields, k)
    ensures DistinctKeys(r)
  {
    if ms == [] then []
    else
      var init := ms[..|ms| - 1];
      var m := ms[|ms| - 1];
      assert ms == init + [m];
      forall k ensures HasKey(ms, k) <==> HasKey(init, k) || m.key == k {
        LookupSnoc(init, m, k);
      }
      var r := SanitizeData(fields, init);
      if Checked(fields, m.key) then
        var r' := Put(r, m.key, CleanFieldValue(m.value));
        forall k ensures HasKey(r', k) <==> HasKey(r, k) || k == m.key {
          assert Lookup(r', k).Some? <==> HasKey(r', k);
          assert Lookup(r, k).Some? <==> HasKey(r, k);
        }
        r'
      else r
  }

  /** Every field `sanitize_data` keeps carries the cleaned value of that field in the record. */
  lemma {:induction false} SanitizeCleansValues(fields: seq<string>, ms: seq<Member>, k: string)
    requires DistinctKeys(ms)
    requires HasKey(SanitizeData(fields, ms), k)
    ensures Lookup(SanitizeData(fields, ms), k) == Some(CleanFieldValue(Lookup(ms, k).value))
  {
    assert HasKey(ms, k);
    var init := ms[..|ms| - 1];
    var m := ms[|ms| - 1];
    assert ms == init + [m];
    LookupSnoc(init, m, k);
    var r := SanitizeData(fields, init);
    assert SanitizeData(fields, ms) == if Checked(fields, m.key) then Put(r, m.key, CleanFieldValue(m.value)) else r;
    if k == m.key {
      LastKeyIsNew(ms);
      assert Lookup(ms, k) == Some(m.value);
    } else {
      assert Lookup(SanitizeData(fields, ms), k) == Lookup(r, k);
      assert DistinctKeys(init) by {
        forall i, j | 0 <= i < j < |init| ensures init[i].key != init[j].key {
          assert init[i] == ms[i] && init[j] == ms[j];
        }
      }
      SanitizeCleansValues(fields, init, k);
    }
  }

  /** In a dict the last key does not occur before it. */
  lemma LastKeyIsNew(ms: seq<Member>)
    requires DistinctKeys(ms) && ms != []
    ensures !HasKey(ms[..|ms| - 1], ms[|ms| - 1].key)
  {
    var init := ms[..|ms| - 1];
    forall i | 0 <= i < |init| ensures init[i].key != ms[|ms| - 1].key {
      assert init[i] == ms[i];
    }
    assert Lookup(init, ms[|ms| - 1].key).None?;
  }

  /** What the report records about one field's value. */
  datatype FieldStat =
    | StrStat(length: nat)
    | ListStat(length: nat)
    | NumberStat(value: Json)
    | BoolStat(flag: bool)
    | DictStat(keys: seq<string>)

  /**
   * The statistics entry for a value.  The tests run in the order str, list,
   * (int, float), bool, dict; a Python bool is an int, so it is recorded as
   * a number and the bool entry is never produced.  None gets no entry.
   */
  function StatOf(v: Json): Option<FieldStat> {
    match v
    case JStr(s) => Some(StrStat(|s|))
    case JArr(items) => Some(ListStat(|items|))
    case JNum(_) => Some(NumberStat(v))
    case JBool(_) => Some(NumberStat(v))
    case JObj(ms) => Some(DictStat(Keys(ms)))
    case JNull => None
  }

  /** A bool field is reported as a number, never as a bool. */
  lemma BoolCountsAsNumber(b: bool)
    ensures StatOf(JBool(b)) == Some(NumberStat(JBool(b)))
    ensures forall v :: StatOf(v) != Some(BoolStat(b))
  {
  }

  /**
   * The `field_stats` entries, in record order: one per member whose value
   * gets an entry, paired with that member's key.
   */
  function FieldStats(ms: seq<Member>): (st: seq<(string, FieldStat)>)
    ensures |st| <= |ms|
  {
    if ms == [] then []
    else
      match StatOf(ms[0].value)
      case Some(e) => [(ms[0].key, e)] + FieldStats(ms[1..])
      case None => FieldStats(ms[1..])
  }

  /** An entry `(k, e)` is there exactly when some member `k` has a value whose entry is `e`. */
  lemma {:induction false} FieldStatsEntries(ms: seq<Member>)
    ensures forall k, e :: (k, e) in FieldStats(ms) <==>
      exists i :: 0 <= i < |ms| && ms[i].key == k && StatOf(ms[i].value) == Some(e)
  {
    if ms != [] {
      FieldStatsEntries(ms[1..]);
      assert forall i :: 1 <= i < |ms| ==> ms[i] == ms[1..][i - 1];
    }
  }

  /** The entries of two runs of members, one after the other. */
  lemma {:induction false} FieldStatsAppend(a: seq<Member>, b: seq<Member>)
    ensures FieldStats(a + b) == FieldStats(a) + FieldStats(b)
  {
    if a != [] {
      assert (a + b)[0] == a[0];
      assert (a + b)[1..] == a[1..] + b;
      FieldStatsAppend(a[1..], b);
    } else {
      assert a + b == b;
    }
  }

  /**
   * The record's keys that the schema declares, in record order; none when
   * the schema declares nothing.
   */
  function DeclaredKeys(fields: seq<string>, ms: seq<Member>): (ks: seq<string>)
    ensures |ks| <= |ms|
    ensures forall k :: k in ks <==> fields != [] && k in fields && HasKey(ms, k)
  {
    if ms == [] then []
    else
      var rest := DeclaredKeys(fields, ms[1..]);
      assert forall k :: HasKey(ms, k) <==> ms[0].key == k || HasKey(ms[1..], k);
      if fields != [] && ms[0].key in fields then [ms[0].key] + rest
      else rest
  }

  /** The declared keys of two runs of members, one after the other. */
  lemma {:induction false} DeclaredKeysAppend(fields: seq<string>, a: seq<Member>, b: seq<Member>)
    ensures DeclaredKeys(fields, a + b) == DeclaredKeys(fields, a) + DeclaredKeys(fields, b)
  {
    if a != [] {
      assert (a + b)[0] == a[0];
      assert (a + b)[1..] == a[1..] + b;
      DeclaredKeysAppend(fields, a[1..], b);
    } else {
      assert a + b == b;
    }
  }

  /** Total length of the string values, unstripped. */
  function TotalChars(ms: seq<Member>): nat {
    if ms == [] then 0
    else (if ms[0].value.JStr? then |ms[0].value.s| else 0) + TotalChars(ms[1..])
  }

  /** The character total of two runs of members is the sum of their totals. */
  lemma {:induction false} TotalCharsAppend(a: seq<Member>, b: seq<Member>)
    ensures TotalChars(a + b) == TotalChars(a) + TotalChars(b)
  {
    if a != [] {
      assert (a + b)[0] == a[0];
      assert (a + b)[1..] == a[1..] + b;
      TotalCharsAppend(a[1..], b);
    } else {
      assert a + b == b;
    }
  }

  /** Only string values add to the total, each by its full length. */
  lemma TotalCharsOfOne(k: string, v: Json)
    ensures TotalChars([Member(k, v)]) == if v.JStr? then |v.s| else 0
  {
    assert [Member(k, v)][1..] == [];
  }

  /** The declared fields the record lacks, in schema order. */
  function MissingFields(fields: seq<string>, ms: seq<Member>): (mf: seq<string>)
    ensures forall f :: f in mf <==> f in fields && !HasKey(ms, f)
  {
    if fields == [] then []
    else if HasKey(ms, fields[0]) then MissingFields(fields[1..], ms)
    else [fields[0]] + MissingFields(fields[1..], ms)
  }

  datatype ReportError = InvalidStructure
  datatype ReportWarning = SomeFieldsMissing(missing: seq<string>)
  datatype ReportStats = ReportStats(
    totalFields: nat, requiredFieldsPresent: nat, totalCharacters: nat,
    fieldStats: seq<(string, FieldStat)>)
  datatype Report = Report(
    isValid: bool, errors: seq<ReportError>, warnings: seq<ReportWarning>,
    stats: Option<ReportStats>, presentFields: seq<string>)

  /**
   * `get_validation_report`.  A record that is not a non-empty dict gets one
   * error and nothing else; otherwise the statistics, a warning listing the
   * missing declared fields if there are any, and the verdict of
   * `validate_data`.
   */
  function GetValidationReport(fields: seq<string>, data: Json): (r: Report)
    ensures r.isValid == ValidateData(fields, data)
    ensures !StructureOk(data) ==> r.errors == [InvalidStructure] && r.stats.None? && r.presentFields == []
    ensures StructureOk(data) ==> r.errors == [] && r.stats.Some?
    ensures r.stats.Some? ==>
      (r.stats.value.requiredFieldsPresent == |r.presentFields| <= r.stats.value.totalFields == |data.members|)
    ensures forall f :: f in r.presentFields <==> StructureOk(data) && fields != [] && f in fields && HasKey(data.members, f)
    ensures r.stats.Some? ==> r.presentFields == DeclaredKeys(fields, data.members)
    ensures r.stats.Some? ==> r.stats.value.fieldStats == FieldStats(data.members)
    ensures r.stats.Some? ==> r.stats.value.totalCharacters == TotalChars(data.members)
    ensures r.warnings != [] ==> data.JObj? && exists f :: f in fields && !HasKey(data.members, f)
    ensures StructureOk(data) ==> (r.warnings != [] <==> exists f :: f in fields && !HasKey(data.members, f))
    ensures r.warnings != [] ==> r.warnings == [SomeFieldsMissing(MissingFields(fields, data.members))]
  {
    if !StructureOk(data) then Report(false, [InvalidStructure], [], None, [])
    else
      var ms := data.members;
      var present := DeclaredKeys(fields, ms);
      var stats := ReportStats(|ms|, |present|, TotalChars(ms), FieldStats(ms));
      var missing := MissingFields(fields, ms);
      var warnings := if fields != [] && missing != [] then [SomeFieldsMissing(missing)] else [];
      assert warnings != [] ==> missing[0] in missing;
      assert (exists f :: f in fields && !HasKey(ms, f)) ==> missing != [] by {
        if exists f :: f in fields && !HasKey(ms, f) {
          var f :| f in fields && !HasKey(ms, f);
          assert f in missing;
        }
      }
      Report(ValidateData(fields, data), [], warnings, Some(stats), present)
  }
}

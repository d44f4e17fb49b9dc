/**
 * One generation worker (`WorkerThread`): the item step for one language,
 * the group step over all configured languages, and the main loop with its
 * counters, stop flag and error threshold.  The writer it shares with the
 * other workers is a `Storage.Writer`; everything the worker obtains from
 * other threads, the API, the clock or the random generator arrives as a
 * parameter.
 */
module Worker {
  import opened Wrappers
  import opened Text
  import opened JsonValue
  import Validator
  import Storage

  /** Threshold of consecutive failed iterations when the configuration gives none. */
  const DefaultMaxErrors := 10

  // ---------------------------------------------------------- item step

  /** A value that counts as content: truthy, and not a whitespace-only string. */
  predicate HasContent(v: Json) {
    Truthy(v) && (!v.JStr? || !IsBlank(v.s))
  }

  /**
   * `_basic_data_validation`: a non-empty dict, with at least one schema
   * field when the schema declares any, and at least one value with content.
   */
  predicate BasicDataValidation(fields: seq<string>, data: Json) {
    data.JObj? && data.members != []
    && (fields == [] || exists i :: 0 <= i < |fields| && HasKey(data.members, fields[i]))
    && exists j :: 0 <= j < |data.members| && HasContent(data.members[j].value)
  }

  /** A record passing the basic check also passes the validator's structure and presence checks. */
  lemma BasicImpliesStructureAndPresence(fields: seq<string>, data: Json)
    requires BasicDataValidation(fields, data)
    ensures Validator.StructureOk(data) && Validator.PresenceOk(fields, data.members)
  {
    if fields != [] {
      var i :| 0 <= i < |fields| && HasKey(data.members, fields[i]);
      assert fields[i] in Validator.PresentFields(fields, data.members);
    }
  }

  /** A record whose values are all empty (None, false, 0, empty or blank) is rejected. */
  lemma EmptyValuesRejected(fields: seq<string>, data: Json)
    requires data.JObj?
    requires forall j :: 0 <= j < |data.members| ==> !HasContent(data.members[j].value)
    ensures !BasicDataValidation(fields, data)
  {
  }

  /**
   * `_generate_single_item` once the API call has returned `response`: a
   * falsy response or one that fails the basic check gives nothing; an
   * accepted record gets `language`, `temperature` and `timestamp`.  The
   * worker's validator has no `sanitize_replicas`, so a record with a
   * `dialog` key raises at the sanitising step and is dropped as well.
   */
  function GenerateSingleItem(fields: seq<string>, response: Option<Json>, languageCode: string,
                              temperature: real, timestamp: real): (r: Option<seq<Member>>)
    ensures r.Some? <==> (response.Some? && Truthy(response.value)
                          && BasicDataValidation(fields, response.value) && !HasKey(response.value.members, "dialog"))
    ensures r.Some? ==> (Lookup(r.value, "language") == Some(JStr(languageCode))
                         && Lookup(r.value, "temperature") == Some(JNum(temperature))
                         && Lookup(r.value, "timestamp") == Some(JNum(timestamp)))
    ensures r.Some? ==> forall k :: k != "language" && k != "temperature" && k != "timestamp" ==>
      Lookup(r.value, k) == Lookup(response.value.members, k)
  {
    if response.None? || !Truthy(response.value) then None
    else if !BasicDataValidation(fields, response.value) then None
    else if HasKey(response.value.members, "dialog") then None
    else
      var ms := response.value.members;
      Some(Put(Put(Put(ms, "language", JStr(languageCode)), "temperature", JNum(temperature)),
               "timestamp", JNum(timestamp)))
  }

  // --------------------------------------------------------- group step

  /** One entry of the configured language list. */
  datatype Language = Language(code: string, name: string)

  /**
   * What the environment supplies for one language: the API result, the
   * drawn (already rounded) temperature, the clock reading, and how the
   * writer's steps go for this record.
   */
  datatype ItemInput = ItemInput(response: Option<Json>, temperature: real, timestamp: real,
                                 fault: Storage.WriteFault, attempt: Storage.LockAttempt)

  /** The record handed to the writer for one language: theme and worker id added, then filtered to the schema. */
  function Record(fields: seq<string>, id: int, theme: string, lang: Language, input: ItemInput): (r: Option<seq<Member>>)
    ensures r.Some? <==> GenerateSingleItem(fields, input.response, lang.code, input.temperature, input.timestamp).Some?
    ensures r.Some? ==> forall k :: HasKey(r.value, k) ==> k in fields
  {
    match GenerateSingleItem(fields, input.response, lang.code, input.temperature, input.timestamp)
    case None => None
    case Some(item) =>
      Some(Validator.FilterOutputFields(fields, Put(Put(item, "theme", JStr(theme)), "worker_id", JNum(id as real))))
  }

  /** `write_dialog` on a writer that may already be closed. */
  function WriteOne(ws: Storage.WriterState, closed: bool, maxFileSize: int, bc: int, line: string,
                    fault: Storage.WriteFault, attempt: Storage.LockAttempt): (r: (Storage.WriterState, bool))
    requires Storage.Primary in ws.files
    ensures Storage.Primary in r.0.files
    ensures closed ==> r == (ws, false)
  {
    if closed then (ws, false) else Storage.Write(ws, maxFileSize, bc, line, fault, attempt)
  }

  /** The record of one language, as the line handed to the writer (`encode` is `json.dumps`). */
  function RecordLine(fields: seq<string>, id: int, theme: string, encode: seq<Member> -> string,
                      lang: Language, input: ItemInput): Option<string>
  {
    match Record(fields, id, theme, lang, input)
    case None => None
    case Some(rec) => Some(encode(rec))
  }

  /** The lines of a group, one per language (nothing for a language whose item step gives nothing). */
  function Lines(fields: seq<string>, id: int, theme: string, encode: seq<Member> -> string,
                 langs: seq<Language>, inputs: seq<ItemInput>): (ls: seq<Option<string>>)
    requires |inputs| == |langs|
    ensures |ls| == |langs|
    ensures forall i :: 0 <= i < |langs| ==> ls[i] == RecordLine(fields, id, theme, encode, langs[i], inputs[i])
  {
    seq(|langs|, i requires 0 <= i < |langs| => RecordLine(fields, id, theme, encode, langs[i], inputs[i]))
  }

  /** The writer's settings during one group. */
  datatype WriterSetting = WriterSetting(closed: bool, maxFileSize: int, bc: int)

  /**
   * The writer state after the given lines have been handed over in order,
   * and how many of the writes succeeded.  A missing line writes nothing.
   */
  function WriteLines(ws: Storage.WriterState, s: WriterSetting, lines: seq<Option<string>>, inputs: seq<ItemInput>)
    : (r: (Storage.WriterState, nat))
    requires Storage.Primary in ws.files && |inputs| == |lines|
    ensures Storage.Primary in r.0.files && r.1 <= |lines|
  {
    if lines == [] then (ws, 0)
    else
      var n := |lines| - 1;
      var (w, count) := WriteLines(ws, s, lines[..n], inputs[..n]);
      HandedOver(w, s, lines[n], inputs[n], count)
  }

  /**
   * One language's line handed to the writer: the writer state after it and
   * the count of successful writes, one more when this write succeeded.  A
   * missing line writes nothing.
   */
  function HandedOver(w: Storage.WriterState, s: WriterSetting, line: Option<string>, input: ItemInput, count: nat)
    : (r: (Storage.WriterState, nat))
    requires Storage.Primary in w.files
    ensures Storage.Primary in r.0.files && r.1 <= count + 1
  {
    if line.None? then (w, count)
    else
      var (w', ok) := WriteOne(w, s.closed, s.maxFileSize, s.bc, line.value, input.fault, input.attempt);
      (w', if ok then count + 1 else count)
  }

  /** One more line: WriteLines over the first `i + 1` lines extends WriteLines over the first `i`. */
  lemma WriteLinesStep(ws: Storage.WriterState, s: WriterSetting, lines: seq<Option<string>>, inputs: seq<ItemInput>,
                       i: nat, w: Storage.WriterState, count: nat)
    requires Storage.Primary in ws.files && |inputs| == |lines| && i < |lines|
    requires (w, count) == WriteLines(ws, s, lines[..i], inputs[..i])
    ensures Storage.Primary in w.files
    ensures WriteLines(ws, s, lines[..i + 1], inputs[..i + 1]) == HandedOver(w, s, lines[i], inputs[i], count)
  {
    assert lines[..i + 1][..i] == lines[..i] && inputs[..i + 1][..i] == inputs[..i];
  }

  /** The write for line `i` happens and succeeds. */
  predicate LineWritten(ws: Storage.WriterState, s: WriterSetting, lines: seq<Option<string>>, inputs: seq<ItemInput>, i: nat)
    requires Storage.Primary in ws.files && |inputs| == |lines| && i < |lines|
  {
    var w := WriteLines(ws, s, lines[..i], inputs[..i]).0;
    lines[i].Some? && WriteOne(w, s.closed, s.maxFileSize, s.bc, lines[i].value, inputs[i].fault, inputs[i].attempt).1
  }

  /** The success count reaches the number of lines exactly when every line was written. */
  lemma {:induction false} AllWrittenIff(ws: Storage.WriterState, s: WriterSetting, lines: seq<Option<string>>,
                                         inputs: seq<ItemInput>)
    requires Storage.Primary in ws.files && |inputs| == |lines|
    ensures WriteLines(ws, s, lines, inputs).1 == |lines|
      <==> forall i :: 0 <= i < |lines| ==> LineWritten(ws, s, lines, inputs, i)
  {
    if lines != [] {
      var n := |lines| - 1;
      AllWrittenIff(ws, s, lines[..n], inputs[..n]);
      LastLineCounted(ws, s, lines, inputs);
      var prefix := WriteLines(ws, s, lines[..n], inputs[..n]).1;
      var written := LineWritten(ws, s, lines, inputs, n);
      if WriteLines(ws, s, lines, inputs).1 == |lines| {
        assert prefix == n && written;
        forall i | 0 <= i < |lines| ensures LineWritten(ws, s, lines, inputs, i) {
          if i < n {
            assert LineWritten(ws, s, lines[..n], inputs[..n], i);
          }
        }
      }
      if forall i :: 0 <= i < |lines| ==> LineWritten(ws, s, lines, inputs, i) {
        assert forall i :: 0 <= i < n ==> LineWritten(ws, s, lines[..n], inputs[..n], i);
        assert prefix == n && written;
      }
    }
  }

  /**
   * The last line adds one to the count exactly when it is written, and
   * whether an earlier line is written does not depend on the lines after it.
   */
  lemma LastLineCounted(ws: Storage.WriterState, s: WriterSetting, lines: seq<Option<string>>, inputs: seq<ItemInput>)
    requires Storage.Primary in ws.files && |inputs| == |lines| && lines != []
    ensures var n := |lines| - 1;
      WriteLines(ws, s, lines, inputs).1
        == if LineWritten(ws, s, lines, inputs, n) then WriteLines(ws, s, lines[..n], inputs[..n]).1 + 1
           else WriteLines(ws, s, lines[..n], inputs[..n]).1
    ensures var n := |lines| - 1;
      forall i :: 0 <= i < n ==> LineWritten(ws, s, lines[..n], inputs[..n], i) == LineWritten(ws, s, lines, inputs, i)
  {
    var n := |lines| - 1;
    forall i | 0 <= i < n
      ensures LineWritten(ws, s, lines[..n], inputs[..n], i) == LineWritten(ws, s, lines, inputs, i)
    {
      assert lines[..n][..i] == lines[..i] && inputs[..n][..i] == inputs[..i];
    }
    var prefix := WriteLines(ws, s, lines[..n], inputs[..n]);
    assert LineWritten(ws, s, lines, inputs, n) <==>
      lines[n].Some? && WriteOne(prefix.0, s.closed, s.maxFileSize, s.bc, lines[n].value, inputs[n].fault, inputs[n].attempt).1;
  }

  /** A closed writer accepts nothing: the group's state is unchanged and no write counts. */
  lemma {:induction false} ClosedWriterWritesNothing(ws: Storage.WriterState, s: WriterSetting,
                                                     lines: seq<Option<string>>, inputs: seq<ItemInput>)
    requires Storage.Primary in ws.files && |inputs| == |lines| && s.closed
    ensures WriteLines(ws, s, lines, inputs) == (ws, 0)
  {
    if lines != [] {
      var n := |lines| - 1;
      ClosedWriterWritesNothing(ws, s, lines[..n], inputs[..n]);
    }
  }

  /** Index of the first stop the group sees: 0 when one was already requested, `|stops|` when none arrives. */
  function StopIndex(requested: bool, stops: seq<bool>): (k: nat)
    ensures k <= |stops| || (requested && k == 0)
    ensures k < |stops| ==> requested || stops[k]
    ensures !requested ==> forall j :: 0 <= j < k ==> !stops[j]
  {
    if requested || stops == [] then 0
    else if stops[0] then 0
    else 1 + StopIndex(false, stops[1..])
  }

  // ---------------------------------------------------------- main loop

  /** How one iteration of the main loop ends. */
  datatype IterationOutcome =
    | GroupSucceeded
    | GroupFailed
    | IterationRaised   // the loop body raised before the counters moved; the group step
                        // catches every exception and only the statistics callback can
                        // raise, after the counters moved, so the source cannot produce it

  /** The three counters of the main loop. */
  datatype Counters = Counters(generated: nat, errors: nat, consecutive: nat)

  /** One iteration's effect on the counters. */
  function Step(c: Counters, o: IterationOutcome): (r: Counters)
    ensures o.GroupSucceeded? ==> r == Counters(c.generated + 1, c.errors, 0)
    ensures !o.GroupSucceeded? ==> r == Counters(c.generated, c.errors + 1, c.consecutive + 1)
  {
    if o.GroupSucceeded? then c.(generated := c.generated + 1, consecutive := 0)
    else c.(errors := c.errors + 1, consecutive := c.consecutive + 1)
  }

  /** The counters after a run of iterations. */
  function Steps(c: Counters, os: seq<IterationOutcome>): Counters
    decreases |os|
  {
    if os == [] then c else Steps(Step(c, os[0]), os[1..])
  }

  /** One more iteration at the end. */
  lemma {:induction false} StepsSnoc(c: Counters, os: seq<IterationOutcome>, o: IterationOutcome)
    ensures Steps(c, os + [o]) == Step(Steps(c, os), o)
    decreases |os|
  {
    if os != [] {
      assert (os + [o])[1..] == os[1..] + [o];
      StepsSnoc(Step(c, os[0]), os[1..], o);
    }
  }

  /**
   * How many iterations the main loop runs: it goes on while no stop has
   * been requested, the consecutive failures are below `max`, and
   * iterations remain.  `stops[j]` is a stop request arriving during
   * iteration `j`.
   */
  function Iterations(c: Counters, os: seq<IterationOutcome>, stops: seq<bool>, stopped: bool, max: int): (k: nat)
    requires |stops| == |os|
    ensures k <= |os|
    decreases |os|
  {
    if stopped || c.consecutive >= max || os == [] then 0
    else 1 + Iterations(Step(c, os[0]), os[1..], stops[1..], stops[0], max)
  }

  /**
   * Every iteration that runs started with the loop's guard true: no stop
   * requested before it, and fewer than `max` consecutive failures.
   */
  lemma {:induction false} IterationsRespectGuard(c: Counters, os: seq<IterationOutcome>, stops: seq<bool>,
                                                  stopped: bool, max: int, j: nat)
    requires |stops| == |os| && j < Iterations(c, os, stops, stopped, max)
    ensures !stopped && forall i :: 0 <= i < j ==> !stops[i]
    ensures Steps(c, os[..j]).consecutive < max
    decreases |os|
  {
    if j > 0 {
      IterationsRespectGuard(Step(c, os[0]), os[1..], stops[1..], stops[0], max, j - 1);
      assert os[..j][1..] == os[1..][..j - 1];
      forall i | 0 <= i < j ensures !stops[i] {
        if i > 0 {
          assert stops[i] == stops[1..][i - 1];
        }
      }
    }
  }

  /** The loop stops early only when a stop was requested or the failure threshold was reached. */
  lemma {:induction false} IterationsEndForAReason(c: Counters, os: seq<IterationOutcome>, stops: seq<bool>,
                                                   stopped: bool, max: int)
    requires |stops| == |os|
    ensures var k := Iterations(c, os, stops, stopped, max);
      k < |os| ==> (if k == 0 then stopped else stops[k - 1]) || Steps(c, os[..k]).consecutive >= max
    decreases |os|
  {
    var k := Iterations(c, os, stops, stopped, max);
    if k > 0 {
      IterationsEndForAReason(Step(c, os[0]), os[1..], stops[1..], stops[0], max);
      assert os[..k][1..] == os[1..][..k - 1];
      if k > 1 {
        assert stops[k - 1] == stops[1..][k - 2];
      }
    }
  }

  /** From a fresh streak, `max` failures in a row with no stop end the loop after exactly `max` iterations. */
  lemma {:induction false} GivesUpAfterMaxFailures(c: Counters, os: seq<IterationOutcome>, stops: seq<bool>, max: int)
    requires |stops| == |os| && 0 <= c.consecutive <= max && max - c.consecutive <= |os|
    requires forall i :: 0 <= i < |os| ==> !os[i].GroupSucceeded? && !stops[i]
    ensures Iterations(c, os, stops, false, max) == max - c.consecutive
    decreases |os|
  {
    if c.consecutive < max {
      GivesUpAfterMaxFailures(Step(c, os[0]), os[1..], stops[1..], max);
    }
  }

  /** Every iteration adds exactly one to either the generated or the error count. */
  lemma {:induction false} StepsCountEveryIteration(c: Counters, os: seq<IterationOutcome>)
    ensures Steps(c, os).generated + Steps(c, os).errors == c.generated + c.errors + |os|
    decreases |os|
  {
    if os != [] {
      StepsCountEveryIteration(Step(c, os[0]), os[1..]);
    }
  }

  /** Consecutive failures never outnumber all failures. */
  lemma {:induction false} StepsKeepErrorsAboveConsecutive(c: Counters, os: seq<IterationOutcome>)
    requires c.errors >= c.consecutive
    ensures Steps(c, os).errors >= Steps(c, os).consecutive
    decreases |os|
  {
    if os != [] {
      StepsKeepErrorsAboveConsecutive(Step(c, os[0]), os[1..]);
    }
  }

  /** `get_stats()`; whether the thread is alive is supplied by the caller. */
  datatype WorkerStats = WorkerStats(workerId: int, isAlive: bool, isWorking: bool, generatedCount: nat,
                                     errorCount: nat, consecutiveErrors: nat, stopRequested: bool)

  /** WorkerThread. */
  class WorkerThread {
    const id: int
    const fields: seq<string>
    const languages: seq<Language>
    const maxConsecutiveErrors: int
    const writer: Storage.Writer
    var stopRequested: bool
    var isWorking: bool
    var generatedCount: nat
    var errorCount: nat
    var consecutiveErrors: nat

    /** Consecutive failures are among all failures. */
    predicate CountsOrdered()
      reads this
    {
      errorCount >= consecutiveErrors
    }

    /** The shared writer is in its resting state and the error counts are ordered. */
    ghost predicate Valid()
      reads this, writer, writer.lock
    {
      writer.Valid() && CountsOrdered()
    }

    /** `__init__`: all counters zero, no stop, not working; the threshold defaults to 10. */
    constructor(id: int, fields: seq<string>, languages: seq<Language>, maxErrors: Option<int>, writer: Storage.Writer)
      requires writer.Valid()
      ensures Valid()
      ensures this.id == id && this.fields == fields && this.languages == languages && this.writer == writer
      ensures maxConsecutiveErrors == (if maxErrors.Some? then maxErrors.value else DefaultMaxErrors)
      ensures !stopRequested && !isWorking && generatedCount == 0 && errorCount == 0 && consecutiveErrors == 0
    {
      this.id := id;
      this.fields := fields;
      this.languages := languages;
      this.writer := writer;
      maxConsecutiveErrors := if maxErrors.Some? then maxErrors.value else DefaultMaxErrors;
      stopRequested := false;
      isWorking := false;
      generatedCount := 0;
      errorCount := 0;
      consecutiveErrors := 0;
    }

    /** Hands one line to the shared writer: the writer's state moves as `WriteOne` says. */
    method WriteRecord(line: string, input: ItemInput) returns (ok: bool)
      requires Valid()
      modifies writer, writer.lock
      ensures Valid() && writer.isClosed == old(writer.isClosed)
      ensures (Storage.WriterState(writer.files, writer.writtenCount, writer.errorCount), ok)
        == WriteOne(Storage.WriterState(old(writer.files), old(writer.writtenCount), old(writer.errorCount)),
                    old(writer.isClosed), writer.maxFileSize, writer.backupCount, line, input.fault, input.attempt)
    {
      ok := writer.WriteDialog(line, input.fault, input.attempt);
    }

    /** The body of the language loop: a line, when the item step gave one, goes to the writer and is counted when written. */
    method HandOver(line: Option<string>, input: ItemInput, count: nat) returns (count': nat)
      requires Valid()
      modifies writer, writer.lock
      ensures Valid() && writer.isClosed == old(writer.isClosed)
      ensures (Storage.WriterState(writer.files, writer.writtenCount, writer.errorCount), count')
        == HandedOver(Storage.WriterState(old(writer.files), old(writer.writtenCount), old(writer.errorCount)),
                      WriterSetting(old(writer.isClosed), writer.maxFileSize, writer.backupCount), line, input, count)
    {
      count' := count;
      if line.Some? {
        var ok := WriteRecord(line.value, input);
        if ok {
          count' := count + 1;
        }
      }
    }

    /**
     * The language loop of `_generate_single_group`.  `lineOf(i)` is the
     * item step for language `i`, evaluated only when the loop reaches it;
     * `stops[i]` says whether a stop has been requested by the time
     * language `i` is checked.  `k` is where the loop ended and `count` how
     * many writes succeeded.
     */
    method WriteLanguages(lineOf: int -> Option<string>, inputs: seq<ItemInput>, stops: seq<bool>)
      returns (k: nat, count: nat)
      requires Valid() && |inputs| == |languages| && |stops| == |languages|
      modifies writer, writer.lock
      ensures Valid() && writer.isClosed == old(writer.isClosed)
      ensures k == StopIndex(stopRequested, stops) && k <= |languages|
      ensures (Storage.WriterState(writer.files, writer.writtenCount, writer.errorCount), count)
        == WriteLines(Storage.WriterState(old(writer.files), old(writer.writtenCount), old(writer.errorCount)),
                      WriterSetting(old(writer.isClosed), writer.maxFileSize, writer.backupCount),
                      seq(k, j => lineOf(j)), inputs[..k])
    {
      ghost var ws0 := Storage.WriterState(writer.files, writer.writtenCount, writer.errorCount);
      ghost var st := WriterSetting(writer.isClosed, writer.maxFileSize, writer.backupCount);
      ghost var lines := seq(|languages|, j => lineOf(j));
      count := 0;
      k := 0;
      while k < |languages| && !stopRequested && !stops[k]
        invariant 0 <= k <= |languages|
        invariant writer.Valid() && writer.isClosed == st.closed
        invariant k > 0 ==> !stopRequested
        invariant forall j :: 0 <= j < k ==> !stops[j]
        invariant (Storage.WriterState(writer.files, writer.writtenCount, writer.errorCount), count)
          == WriteLines(ws0, st, lines[..k], inputs[..k])
      {
        var line := lineOf(k);
        assert lines[k] == line;
        WriteLinesStep(ws0, st, lines, inputs, k, Storage.WriterState(writer.files, writer.writtenCount, writer.errorCount),
                       count);
        count := HandOver(line, inputs[k], count);
        k := k + 1;
      }
      StopIndexIs(stopRequested, stops, k);
      assert lines[..k] == seq(k, j => lineOf(j));
    }

    /**
     * `_generate_single_group`.  Languages are handled in order; a stop seen
     * before a language ends the group with False and sets the stop flag;
     * otherwise the group succeeds exactly when every write did.  Records
     * written before a failure stay written.
     */
    method GenerateSingleGroup(theme: string, inputs: seq<ItemInput>, stops: seq<bool>,
                               encode: seq<Member> -> string) returns (success: bool)
      requires Valid() && |inputs| == |languages| && |stops| == |languages|
      modifies this, writer, writer.lock
      ensures Valid()
      ensures generatedCount == old(generatedCount) && errorCount == old(errorCount)
      ensures consecutiveErrors == old(consecutiveErrors) && isWorking == old(isWorking)
      ensures writer.isClosed == old(writer.isClosed)
      ensures var k := StopIndex(old(stopRequested), stops);
        var st := WriterSetting(old(writer.isClosed), writer.maxFileSize, writer.backupCount);
        var lines := Lines(fields, id, theme, encode, languages, inputs);
        var r := WriteLines(Storage.WriterState(old(writer.files), old(writer.writtenCount), old(writer.errorCount)),
                            st, lines[..k], inputs[..k]);
        && stopRequested == (old(stopRequested) || k < |languages|)
        && Storage.WriterState(writer.files, writer.writtenCount, writer.errorCount) == r.0
        && success == (k == |languages| && r.1 == |languages|)
    {
      var lineOf := (j: int) => if 0 <= j < |languages| then RecordLine(fields, id, theme, encode, languages[j], inputs[j]) else None;
      var k, count := WriteLanguages(lineOf, inputs, stops);
      assert seq(k, j => lineOf(j)) == Lines(fields, id, theme, encode, languages, inputs)[..k];
      if k < |languages| {
        stopRequested := true;
        return false;
      }
      success := count == |languages|;
    }

    /** The counter updates at the end of one iteration of `run`. */
    method RecordOutcome(o: IterationOutcome)
      modifies this
      ensures Counters(generatedCount, errorCount, consecutiveErrors)
        == Step(Counters(old(generatedCount), old(errorCount), old(consecutiveErrors)), o)
      ensures stopRequested == old(stopRequested) && isWorking == old(isWorking)
    {
      if o.GroupSucceeded? {
        generatedCount := generatedCount + 1;
        consecutiveErrors := 0;
      } else {
        errorCount := errorCount + 1;
        consecutiveErrors := consecutiveErrors + 1;
      }
    }

    /**
     * `run`: iterate while no stop is requested and the consecutive failures
     * are below the threshold.  `outcomes[j]` is how iteration `j` ends and
     * `stopsDuring[j]` whether a stop request arrives while it runs; the
     * loop also ends when the supplied iterations run out.  `iterations` is
     * how many ran and `reports` what the statistics callback received.
     */
    method Run(outcomes: seq<IterationOutcome>, stopsDuring: seq<bool>) returns (iterations: nat, reports: seq<bool>)
      requires CountsOrdered() && |stopsDuring| == |outcomes|
      modifies this
      ensures CountsOrdered() && !isWorking
      ensures var c0 := Counters(old(generatedCount), old(errorCount), old(consecutiveErrors));
        && iterations == Iterations(c0, outcomes, stopsDuring, old(stopRequested), maxConsecutiveErrors)
        && Counters(generatedCount, errorCount, consecutiveErrors) == Steps(c0, outcomes[..iterations])
      ensures |reports| == iterations
      ensures forall j :: 0 <= j < iterations ==> reports[j] == outcomes[j].GroupSucceeded?
      ensures stopRequested == (old(stopRequested) || (iterations > 0 && stopsDuring[iterations - 1]))
    {
      ghost var c0 := Counters(generatedCount, errorCount, consecutiveErrors);
      ghost var stopped0 := stopRequested;
      iterations := 0;
      reports := [];
      while !stopRequested && consecutiveErrors < maxConsecutiveErrors && iterations < |outcomes|
        invariant iterations <= |outcomes|
        invariant CountsOrdered()
        invariant Counters(generatedCount, errorCount, consecutiveErrors) == Steps(c0, outcomes[..iterations])
        invariant Iterations(c0, outcomes, stopsDuring, stopped0, maxConsecutiveErrors)
          == iterations + Iterations(Counters(generatedCount, errorCount, consecutiveErrors), outcomes[iterations..],
                                     stopsDuring[iterations..], stopRequested, maxConsecutiveErrors)
        invariant |reports| == iterations
        invariant forall j :: 0 <= j < iterations ==> reports[j] == outcomes[j].GroupSucceeded?
        invariant stopRequested == (stopped0 || (iterations > 0 && stopsDuring[iterations - 1]))
        decreases |outcomes| - iterations
      {
        isWorking := true;
        var o := outcomes[iterations];
        StepsSnoc(c0, outcomes[..iterations], o);
        assert outcomes[..iterations + 1] == outcomes[..iterations] + [o];
        assert outcomes[iterations..][1..] == outcomes[iterations + 1..];
        assert stopsDuring[iterations..][1..] == stopsDuring[iterations + 1..];
        RecordOutcome(o);
        reports := reports + [o.GroupSucceeded?];
        if stopsDuring[iterations] {
          stopRequested := true;
        }
        iterations := iterations + 1;
      }
      isWorking := false;
    }

    /** `request_stop`: the stop flag is set and the worker no longer counts as working. */
    method RequestStop()
      modifies this
      ensures stopRequested && !isWorking
      ensures generatedCount == old(generatedCount) && errorCount == old(errorCount)
      ensures consecutiveErrors == old(consecutiveErrors)
    {
      stopRequested := true;
      isWorking := false;
    }

    /** `get_stats()`. */
    function GetStats(alive: bool): (st: WorkerStats)
      reads this
      ensures st.workerId == id && st.isAlive == alive && st.isWorking == isWorking
      ensures st.generatedCount == generatedCount && st.errorCount == errorCount
      ensures st.consecutiveErrors == consecutiveErrors && st.stopRequested == stopRequested
    {
      WorkerStats(id, alive, isWorking, generatedCount, errorCount, consecutiveErrors, stopRequested)
    }
  }

  /** The first stop seen is at `i` when none came earlier and one is seen at `i` (or the list ends there). */
  lemma {:induction false} StopIndexIs(requested: bool, stops: seq<bool>, i: nat)
    requires i <= |stops|
    requires i > 0 ==> !requested
    requires forall j :: 0 <= j < i ==> !stops[j]
    requires i < |stops| ==> requested || stops[i]
    ensures StopIndex(requested, stops) == i
  {
    if i > 0 {
      StopIndexIs(false, stops[1..], i - 1);
    }
  }
}

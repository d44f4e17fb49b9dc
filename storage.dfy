/**
 * The rotating, append-only JSONL writer and its sidecar file lock
 * (storage/thread_safe_writer.py).
 *
 * The file system is a map from file to its contents: the lines that
 * end in a line break, and whatever follows the last break (empty when
 * the file ends in one).  The primary file is `<stem>.jsonl`, the backups
 * are `<stem>.<k>.jsonl` and a quarantined file is
 * `<stem>.corrupted.<stamp>.jsonl`.  Sizes count characters.
 */
module Storage {
  import opened Wrappers
  import opened Text

  datatype FileKey = Primary | Backup(n: int) | Corrupted(stamp: int)

  /** The lines ended by a line break (without it), then the unterminated rest. */
  datatype Contents = Contents(lines: seq<string>, tail: string)

  /** An empty file. */
  const Empty := Contents([], [])

  type Disk = map<FileKey, Contents>

  /** The contents of a file, or nothing when it does not exist. */
  function Slot(fs: Disk, k: FileKey): Option<Contents> {
    if k in fs then Some(fs[k]) else None
  }

  /** Total size of lines that each end in a line break. */
  function LinesSize(lines: seq<string>): (n: nat)
    ensures lines == [] ==> n == 0
  {
    if |lines| == 0 then 0 else LinesSize(lines[..|lines| - 1]) + |lines[|lines| - 1]| + 1
  }

  /** Size of a file: its terminated lines and the unterminated rest. */
  function Size(c: Contents): nat {
    LinesSize(c.lines) + |c.tail|
  }

  /** Number of lines that are not blank. */
  function NonBlankCount(lines: seq<string>): (n: nat)
    ensures n <= |lines|
  {
    if |lines| == 0 then 0
    else NonBlankCount(lines[..|lines| - 1]) + (if IsBlank(lines[|lines| - 1]) then 0 else 1)
  }

  /**
   * What the writer counts at start-up: every non-blank line `readlines`
   * yields, an unterminated last line included.
   */
  function StartupCount(c: Contents): (n: nat)
    ensures n <= |c.lines| + 1
    ensures c.tail == [] ==> n <= |c.lines|
    ensures !IsBlank(c.tail) ==> n == NonBlankCount(c.lines) + 1
  {
    NonBlankCount(c.lines) + (if IsBlank(c.tail) then 0 else 1)
  }

  /** Appending text to a file: each line break turns the rest so far into a line. */
  function AppendText(c: Contents, t: string): Contents
    decreases |t|
  {
    if t == [] then c
    else if t[0] == '\n' then AppendText(Contents(c.lines + [c.tail], []), t[1..])
    else AppendText(Contents(c.lines, c.tail + [t[0]]), t[1..])
  }

  /** Appending in two pieces is appending the whole. */
  lemma {:induction false} AppendTextSplit(c: Contents, a: string, b: string)
    ensures AppendText(c, a + b) == AppendText(AppendText(c, a), b)
    decreases |a|
  {
    if a != [] {
      assert (a + b)[0] == a[0] && (a + b)[1..] == a[1..] + b;
      var next := if a[0] == '\n' then Contents(c.lines + [c.tail], []) else Contents(c.lines, c.tail + [a[0]]);
      AppendTextSplit(next, a[1..], b);
    } else {
      assert a + b == b;
    }
  }

  /** Appending never changes a line already there, and grows the size by exactly the text. */
  lemma {:induction false} AppendTextGrows(c: Contents, t: string)
    ensures c.lines <= AppendText(c, t).lines
    ensures Size(AppendText(c, t)) == Size(c) + |t|
    decreases |t|
  {
    if t != [] {
      if t[0] == '\n' {
        var next := Contents(c.lines + [c.tail], []);
        assert next.lines[..|c.lines|] == c.lines;
        AppendTextGrows(next, t[1..]);
      } else {
        AppendTextGrows(Contents(c.lines, c.tail + [t[0]]), t[1..]);
      }
    }
  }

  /** Text without a line break only extends the unterminated rest. */
  lemma {:induction false} AppendTextNoBreak(c: Contents, t: string)
    ensures '\n' !in t ==> AppendText(c, t) == Contents(c.lines, c.tail + t)
    decreases |t|
  {
    if t != [] && '\n' !in t {
      assert t[0] in t && forall x :: x in t[1..] ==> x in t;
      AppendTextNoBreak(Contents(c.lines, c.tail + [t[0]]), t[1..]);
      assert c.tail + [t[0]] + t[1..] == c.tail + t;
    }
  }

  /**
   * Appending one JSON line and its break: the line is joined onto the
   * unterminated rest (if any) and ends it, the size grows by the line
   * plus the break, and the file gains at least one line.
   */
  lemma AppendOneLine(c: Contents, line: string)
    ensures '\n' !in line ==> AppendText(c, line + "\n") == Contents(c.lines + [c.tail + line], [])
    ensures Size(AppendText(c, line + "\n")) == Size(c) + |line| + 1
    ensures c.lines <= AppendText(c, line + "\n").lines
    ensures |AppendText(c, line + "\n").lines| >= |c.lines| + 1
    ensures AppendText(c, line + "\n").tail == []
  {
    AppendTextSplit(c, line, "\n");
    var mid := AppendText(c, line);
    AppendTextGrows(c, line);
    AppendTextGrows(c, line + "\n");
    AppendTextNoBreak(c, line);
    assert AppendText(mid, "\n") == Contents(mid.lines + [mid.tail], []);
  }

  /** The first `n` characters of `t` (all of it when `n` is larger). */
  function Take(t: string, n: nat): (r: string)
    ensures r <= t && |r| == (if n <= |t| then n else |t|)
  {
    if n <= |t| then t[..n] else t
  }

  // ---------------------------------------------------------------- lock

  /** One attempt to take the sidecar lock: what `open` and `flock` report. */
  datatype LockAttempt =
    | Granted      // flock succeeded
    | Busy         // flock failed with EAGAIN or EACCES
    | FlockFails   // flock failed with any other errno
    | OpenFails    // the sidecar could not be opened

  datatype LockError = LockTimeout | SystemLockError | UnexpectedLockError

  /**
   * CrossPlatformFileLock on POSIX.  `handleOpen` stands for `_lock_file` not
   * being None, `sidecarExists` for the `<file>.lock` file on disk.
   */
  class FileLock {
    var isLocked: bool
    var handleOpen: bool
    var sidecarExists: bool

    /** A handle is only kept while the lock is held. */
    ghost predicate Valid()
      reads this
    {
      handleOpen ==> isLocked
    }

    constructor(sidecarExists: bool)
      ensures Valid()
      ensures !isLocked && !handleOpen && this.sidecarExists == sidecarExists
    {
      isLocked := false;
      handleOpen := false;
      this.sidecarExists := sidecarExists;
    }

    /**
     * `acquire(timeout)`: the loop body returns or raises on its first
     * iteration, so a busy lock gives `Ok(false)` at once instead of waiting;
     * only a timeout that has already expired is reported as a timeout.
     */
    method Acquire(timeout: real, attempt: LockAttempt) returns (r: Result<bool, LockError>)
      requires Valid()
      modifies this
      ensures Valid()
      ensures timeout <= 0.0 || attempt.OpenFails? ==> unchanged(this)
      ensures timeout <= 0.0 ==> r == Err(LockTimeout)
      ensures timeout > 0.0 ==> match attempt
        case OpenFails => r == Err(UnexpectedLockError)
        case Granted => r == Ok(true) && isLocked && handleOpen && sidecarExists
        case Busy => r == Ok(false) && isLocked == old(isLocked) && !handleOpen && sidecarExists
        case FlockFails => r == Err(SystemLockError) && isLocked == old(isLocked) && !handleOpen && sidecarExists
    {
      if timeout <= 0.0 {
        return Err(LockTimeout);
      }
      if attempt.OpenFails? {
        return Err(UnexpectedLockError);
      }
      // open(lockfile, 'w') creates the sidecar
      handleOpen := true;
      sidecarExists := true;
      match attempt {
        case Granted =>
          isLocked := true;
          r := Ok(true);
        case Busy =>
          handleOpen := false;
          r := Ok(false);
        case FlockFails =>
          handleOpen := false;
          r := Err(SystemLockError);
      }
    }

    /** `release()`: nothing when not locked; always ends unlocked with no handle. */
    method Release()
      requires Valid()
      modifies this
      ensures !isLocked && !handleOpen
      ensures !old(isLocked) ==> unchanged(this)
      ensures sidecarExists == (old(sidecarExists) && !(old(isLocked) && old(handleOpen)))
    {
      if !isLocked {
        return;
      }
      if handleOpen {
        // unlock, close, and unlink the sidecar
        sidecarExists := false;
      }
      isLocked := false;
      handleOpen := false;
    }
  }

  // ------------------------------------------------------------ rotation

  /** `old_backup.rename(new_backup)` for slot `i`, when slot `i` exists. */
  function Move(fs: Disk, i: int): Disk {
    if Backup(i) in fs then (fs - {Backup(i)})[Backup(i + 1) := fs[Backup(i)]] else fs
  }

  /** The renames of the loop `for i in range(i, 0, -1)`, highest slot first. */
  function ShiftDown(fs: Disk, i: int): Disk
    decreases i
  {
    if i <= 0 then fs else ShiftDown(Move(fs, i), i - 1)
  }

  /**
   * `_rotate_file` once rotation is due: drop slot `backup_count`, shift the
   * remaining slots up by one, rename the primary to slot 1 and create an
   * empty primary.
   */
  function Rotated(fs: Disk, bc: int): (r: Disk)
    requires Primary in fs
    ensures Primary in r && r[Primary] == Empty
  {
    var shifted := ShiftDown(fs - {Backup(bc)}, bc - 1);
    shifted[Backup(1) := fs[Primary]][Primary := Empty]
  }

  /** What rotation leaves in each file, stated per file. */
  function RotatedSlot(fs: Disk, bc: int, k: FileKey): Option<Contents>
    requires Primary in fs
  {
    match k
    case Primary => Some(Empty)
    case Corrupted(_) => Slot(fs, k)
    case Backup(n) =>
      if n == 1 then Some(fs[Primary])
      else if 2 <= n <= bc then Slot(fs, Backup(n - 1))
      else if n == bc then None
      else Slot(fs, k)
  }

  /** The shifting renames, per file: slot i+1 ends up in slot i+2 and so on down, slot 1 is vacated. */
  lemma {:induction false} ShiftDownSlots(fs: Disk, i: int, k: FileKey)
    requires i >= 1 ==> Backup(i + 1) !in fs
    ensures Slot(ShiftDown(fs, i), k) ==
      match k
      case Backup(n) =>
        if 2 <= n <= i + 1 then Slot(fs, Backup(n - 1))
        else if n == 1 && i >= 1 then None
        else Slot(fs, k)
      case _ => Slot(fs, k)
    decreases i
  {
    if i > 0 {
      var moved := Move(fs, i);
      assert i - 1 >= 1 ==> Backup(i) !in moved;
      ShiftDownSlots(moved, i - 1, k);
    }
  }

  /** Rotation per file: the independent statement of what `Rotated` does. */
  lemma RotatedSlots(fs: Disk, bc: int, k: FileKey)
    requires Primary in fs
    ensures Slot(Rotated(fs, bc), k) == RotatedSlot(fs, bc, k)
  {
    ShiftDownSlots(fs - {Backup(bc)}, bc - 1, k);
  }

  /** Backups are only ever kept in slots 1..max(backup_count, 1). */
  predicate BackupsWithin(fs: Disk, bc: int) {
    forall k :: k in fs && k.Backup? ==> 1 <= k.n <= (if bc < 1 then 1 else bc)
  }

  /** Rotation keeps the number of backups bounded by `backup_count` (one when it is below one). */
  lemma RotationKeepsBackupsWithin(fs: Disk, bc: int)
    requires Primary in fs && BackupsWithin(fs, bc)
    ensures BackupsWithin(Rotated(fs, bc), bc)
  {
    forall k | k in Rotated(fs, bc) && k.Backup?
      ensures 1 <= k.n <= (if bc < 1 then 1 else bc)
    {
      RotatedSlots(fs, bc, k);
    }
  }

  /** Rotation is due when the primary exists and has reached the maximum size. */
  predicate NeedsRotation(fs: Disk, maxFileSize: int) {
    Primary in fs && Size(fs[Primary]) >= maxFileSize
  }

  // --------------------------------------------------------------- write

  /** What can go wrong in one `write_dialog`, other than the lock. */
  datatype WriteFault =
    | NoFault
    | SizeCheckFails           // stat raised OSError: treated as "no rotation"
    | RotationFails            // a rename or unlink raised during rotation
    | AppendFails              // open or write raised before anything reached the primary
    | AppendFailsAfter(n: nat) // flush, fsync or close raised once the first n characters
                               // of the line and its break had reached the primary

  /** The writer's files and counters. */
  datatype WriterState = WriterState(files: Disk, written: nat, errors: nat)

  /** Whether this write rotates the files first. */
  predicate Rotates(fs: Disk, maxFileSize: int, fault: WriteFault) {
    NeedsRotation(fs, maxFileSize) && fault != SizeCheckFails
  }

  /** The state the append works on: rotated (count reset) when rotation is due. */
  function BeforeAppend(s: WriterState, maxFileSize: int, bc: int, fault: WriteFault): WriterState
    requires Primary in s.files
  {
    if Rotates(s.files, maxFileSize, fault) then WriterState(Rotated(s.files, bc), 0, s.errors) else s
  }

  /** Whether the write gets as far as opening the primary for the append. */
  predicate ReachesAppend(fs: Disk, maxFileSize: int, fault: WriteFault, attempt: LockAttempt) {
    !(Rotates(fs, maxFileSize, fault) && fault == RotationFails)
    && (attempt.Granted? || attempt.Busy?)
  }

  /** A write on an open writer succeeds unless rotation, locking or appending raises. */
  predicate WriteSucceeds(fs: Disk, maxFileSize: int, fault: WriteFault, attempt: LockAttempt) {
    ReachesAppend(fs, maxFileSize, fault, attempt) && fault != AppendFails && !fault.AppendFailsAfter?
  }

  /** The append under the file lock: opening, writing, flushing and syncing the primary. */
  function LockedAppend(s: WriterState, line: string, fault: WriteFault): WriterState
    requires Primary in s.files
  {
    if fault == AppendFails then s.(errors := s.errors + 1)
    else if fault.AppendFailsAfter? then
      var reached := Take(line + "\n", fault.n);
      WriterState(s.files[Primary := AppendText(s.files[Primary], reached)], s.written, s.errors + 1)
    else
      WriterState(s.files[Primary := AppendText(s.files[Primary], line + "\n")], s.written + 1, s.errors)
  }

  /** `write_dialog` on a writer that is not closed. */
  function Write(s: WriterState, maxFileSize: int, bc: int, line: string, fault: WriteFault,
                 attempt: LockAttempt): (WriterState, bool)
    requires Primary in s.files
  {
    if Rotates(s.files, maxFileSize, fault) && fault == RotationFails then
      (s.(errors := s.errors + 1), false)
    else
      var b := BeforeAppend(s, maxFileSize, bc, fault);
      if !(attempt.Granted? || attempt.Busy?) then
        (b.(errors := b.errors + 1), false)
      else
        (LockedAppend(b, line, fault), fault != AppendFails && !fault.AppendFailsAfter?)
  }

  /** A write reports success exactly when no step raised. */
  lemma WriteSucceedsExactly(s: WriterState, maxFileSize: int, bc: int, line: string,
                             fault: WriteFault, attempt: LockAttempt)
    requires Primary in s.files
    ensures Write(s, maxFileSize, bc, line, fault, attempt).1 <==> WriteSucceeds(s.files, maxFileSize, fault, attempt)
  {
  }

  /**
   * A successful write appends the record and a line break to the primary:
   * the record ends the primary's unterminated last line (it is a line of
   * its own exactly when the primary ended in a break), the size grows by
   * the line plus the break, every other file is as it was and the written
   * count goes up by one.
   */
  lemma SuccessfulWriteAppendsOneLine(s: WriterState, maxFileSize: int, bc: int, line: string,
                                      fault: WriteFault, attempt: LockAttempt)
    requires Primary in s.files
    requires Write(s, maxFileSize, bc, line, fault, attempt).1
    ensures var b := BeforeAppend(s, maxFileSize, bc, fault);
      var r := Write(s, maxFileSize, bc, line, fault, attempt).0;
      && Primary in b.files && Primary in r.files
      && ('\n' !in line ==> r.files[Primary] == Contents(b.files[Primary].lines + [b.files[Primary].tail + line], []))
      && b.files[Primary].lines <= r.files[Primary].lines && r.files[Primary].tail == []
      && Size(r.files[Primary]) == Size(b.files[Primary]) + |line| + 1
      && (forall k :: k != Primary ==> Slot(r.files, k) == Slot(b.files, k))
      && r.written == b.written + 1 && r.errors == s.errors
  {
    var b := BeforeAppend(s, maxFileSize, bc, fault);
    AppendOneLine(b.files[Primary], line);
  }

  /**
   * A failed write adds one to the error count and never raises the written
   * count.  Unless the append failed part-way, no file changed other than
   * by a completed rotation; when it did fail part-way, only the primary
   * grew, by what reached it: some leading part of the line and its break.
   */
  lemma FailedWriteCountsError(s: WriterState, maxFileSize: int, bc: int, line: string,
                               fault: WriteFault, attempt: LockAttempt)
    requires Primary in s.files
    requires !Write(s, maxFileSize, bc, line, fault, attempt).1
    ensures var r := Write(s, maxFileSize, bc, line, fault, attempt).0;
      var b := BeforeAppend(s, maxFileSize, bc, fault);
      && r.errors == s.errors + 1 && r.written <= s.written
      && (!(fault.AppendFailsAfter? && ReachesAppend(s.files, maxFileSize, fault, attempt)) ==>
            r.files == s.files || r.files == Rotated(s.files, bc))
      && (fault.AppendFailsAfter? && ReachesAppend(s.files, maxFileSize, fault, attempt) ==>
            && Primary in r.files && Primary in b.files && r.written == b.written
            && b.files[Primary].lines <= r.files[Primary].lines
            && Size(r.files[Primary]) == Size(b.files[Primary]) + |Take(line + "\n", fault.n)|
            && (forall k :: k != Primary ==> Slot(r.files, k) == Slot(b.files, k)))
  {
    if fault.AppendFailsAfter? && ReachesAppend(s.files, maxFileSize, fault, attempt) {
      var b := BeforeAppend(s, maxFileSize, bc, fault);
      AppendTextGrows(b.files[Primary], Take(line + "\n", fault.n));
    }
  }

  /**
   * A flush that raises before the break leaves the record's first
   * characters as the primary's unterminated last line.
   */
  lemma FlushFailureLeavesFragment(s: WriterState, maxFileSize: int, bc: int, line: string,
                                   n: nat, attempt: LockAttempt)
    requires Primary in s.files
    requires ReachesAppend(s.files, maxFileSize, AppendFailsAfter(n), attempt)
    ensures var b := BeforeAppend(s, maxFileSize, bc, AppendFailsAfter(n));
      var r := Write(s, maxFileSize, bc, line, AppendFailsAfter(n), attempt).0;
      n <= |line| && '\n' !in line ==>
        r.files[Primary] == Contents(b.files[Primary].lines, b.files[Primary].tail + line[..n])
  {
    var b := BeforeAppend(s, maxFileSize, bc, AppendFailsAfter(n));
    if n <= |line| && '\n' !in line {
      assert Take(line + "\n", n) == line[..n];
      assert forall x :: x in line[..n] ==> x in line;
      AppendTextNoBreak(b.files[Primary], line[..n]);
    }
  }

  /**
   * An fsync that raises after the whole line reached the primary leaves the
   * record written but not counted, and the write reported as failed.
   */
  lemma FsyncFailureKeepsLine(s: WriterState, maxFileSize: int, bc: int, line: string,
                              n: nat, attempt: LockAttempt)
    requires Primary in s.files
    requires ReachesAppend(s.files, maxFileSize, AppendFailsAfter(n), attempt)
    ensures var b := BeforeAppend(s, maxFileSize, bc, AppendFailsAfter(n));
      var w := Write(s, maxFileSize, bc, line, AppendFailsAfter(n), attempt);
      && !w.1 && w.0.written == b.written
      && (n > |line| ==> w.0.files[Primary] == AppendText(b.files[Primary], line + "\n"))
      && (n > |line| && '\n' !in line ==>
            w.0.files[Primary] == Contents(b.files[Primary].lines + [b.files[Primary].tail + line], []))
  {
    var b := BeforeAppend(s, maxFileSize, bc, AppendFailsAfter(n));
    if n > |line| {
      assert Take(line + "\n", n) == line + "\n";
      AppendOneLine(b.files[Primary], line);
    }
  }

  /**
   * The written count stays within the primary's terminated lines if it was
   * within them, and within one more than those if it was within one more
   * (which is where a start-up count of an unterminated last line starts).
   */
  lemma WriteKeepsCountWithinLines(s: WriterState, maxFileSize: int, bc: int, line: string,
                                   fault: WriteFault, attempt: LockAttempt)
    requires Primary in s.files
    ensures var r := Write(s, maxFileSize, bc, line, fault, attempt).0;
      && Primary in r.files
      && (s.written <= |s.files[Primary].lines| ==> r.written <= |r.files[Primary].lines|)
      && (s.written <= |s.files[Primary].lines| + 1 ==> r.written <= |r.files[Primary].lines| + 1)
  {
    var b := BeforeAppend(s, maxFileSize, bc, fault);
    AppendOneLine(b.files[Primary], line);
    if fault.AppendFailsAfter? {
      AppendTextGrows(b.files[Primary], Take(line + "\n", fault.n));
    }
  }

  /**
   * A start-up count that includes an unterminated last line counts it
   * again when the next record is joined onto it: the primary gains one
   * line and the count two, so with every line non-blank the count ends one
   * above the number of lines.
   */
  lemma JoinedLineCountedTwice(lines: seq<string>, tail: string, record: string, maxFileSize: int, bc: int)
    requires !IsBlank(tail) && '\n' !in record && Size(Contents(lines, tail)) < maxFileSize
    ensures var c := Contents(lines, tail);
      var r := Write(WriterState(map[Primary := c], StartupCount(c), 0), maxFileSize, bc, record, NoFault, Granted).0;
      && r.files[Primary] == Contents(lines + [tail + record], [])
      && r.written == NonBlankCount(lines) + 2
      && (NonBlankCount(lines) == |lines| ==> r.written == |r.files[Primary].lines| + 1)
  {
    AppendOneLine(Contents(lines, tail), record);
  }

  /** `get_stats()`; the size is in characters divided by 1024*1024. */
  datatype WriterStats = WriterStats(writtenCount: nat, errorCount: nat, isClosed: bool, fileSizeMb: real)

  /** ThreadSafeWriter. */
  class Writer {
    var files: Disk
    var writtenCount: nat
    var errorCount: nat
    var isClosed: bool
    const maxFileSize: int
    const backupCount: int
    const lock: FileLock

    /**
     * Between calls the primary exists, the count exceeds its terminated
     * lines by at most the one unterminated line counted at start-up, and
     * the lock is not held.
     */
    ghost predicate Valid()
      reads this, lock
    {
      Primary in files && writtenCount <= |files[Primary].lines| + 1 && !lock.isLocked && !lock.handleOpen
    }

    /**
     * `__init__` once the existing primary (if any) has been read without
     * error: a missing primary is created empty; otherwise the count is the
     * number of non-blank lines, or 0 when the counting read fails.
     */
    constructor(disk: Disk, maxFileSizeMb: int, backupCount: int, countReadFails: bool, sidecarExists: bool)
      ensures Valid() && fresh(lock)
      ensures files == (if Primary in disk then disk else disk[Primary := Empty])
      ensures writtenCount == (if Primary in disk && !countReadFails then StartupCount(disk[Primary]) else 0)
      ensures errorCount == 0 && !isClosed
      ensures maxFileSize == maxFileSizeMb * 1024 * 1024 && this.backupCount == backupCount
      ensures lock.sidecarExists == sidecarExists
    {
      maxFileSize := maxFileSizeMb * 1024 * 1024;
      this.backupCount := backupCount;
      lock := new FileLock(sidecarExists);
      errorCount := 0;
      isClosed := false;
      if Primary in disk {
        files := disk;
        writtenCount := if countReadFails then 0 else StartupCount(disk[Primary]);
      } else {
        files := disk[Primary := Empty];
        writtenCount := 0;
      }
    }

    /** The renaming loop of `_rotate_file`, once rotation is due. */
    method RotateFiles()
      modifies this
      requires Primary in files
      ensures files == Rotated(old(files), backupCount)
      ensures writtenCount == 0
      ensures errorCount == old(errorCount) && isClosed == old(isClosed)
    {
      var primary := files[Primary];
      files := files - {Backup(backupCount)};
      ghost var dropped := files;
      var i := backupCount - 1;
      while i > 0
        invariant ShiftDown(files, i) == ShiftDown(dropped, backupCount - 1)
        invariant Primary in files && files[Primary] == primary
        invariant errorCount == old(errorCount) && isClosed == old(isClosed)
        decreases i
      {
        if Backup(i) in files {
          var moved := files[Backup(i)];
          files := (files - {Backup(i)})[Backup(i + 1) := moved];
        }
        i := i - 1;
      }
      files := files[Backup(1) := primary][Primary := Empty];
      writtenCount := 0;
    }

    /** `write_dialog`, with the serialised record as `line`. */
    method WriteDialog(line: string, fault: WriteFault, attempt: LockAttempt) returns (ok: bool)
      requires Valid()
      modifies this, lock
      ensures Valid() && isClosed == old(isClosed)
      ensures old(isClosed) ==> !ok && unchanged(this) && unchanged(lock)
      ensures !old(isClosed) ==>
        (WriterState(files, writtenCount, errorCount), ok)
        == Write(WriterState(old(files), old(writtenCount), old(errorCount)), maxFileSize, backupCount, line, fault, attempt)
      ensures !old(isClosed) && !(Rotates(old(files), maxFileSize, fault) && fault == RotationFails) ==>
        lock.sidecarExists == (attempt.Busy? || attempt.FlockFails? || (attempt.OpenFails? && old(lock.sidecarExists)))
    {
      if isClosed {
        return false;
      }
      if NeedsRotation(files, maxFileSize) && fault != SizeCheckFails {
        if fault == RotationFails {
          errorCount := errorCount + 1;
          return false;
        }
        RotateFiles();
      }
      var acquired := lock.Acquire(10.0, attempt);
      if acquired.Err? {
        errorCount := errorCount + 1;
        return false;
      }
      ok := AppendRecord(line, fault);
      lock.Release();
    }

    /** The append under the file lock; a raising step counts one error. */
    method AppendRecord(line: string, fault: WriteFault) returns (ok: bool)
      requires Primary in files && writtenCount <= |files[Primary].lines| + 1
      modifies this
      ensures WriterState(files, writtenCount, errorCount)
        == LockedAppend(WriterState(old(files), old(writtenCount), old(errorCount)), line, fault)
      ensures ok <==> fault != AppendFails && !fault.AppendFailsAfter?
      ensures Primary in files && writtenCount <= |files[Primary].lines| + 1
      ensures isClosed == old(isClosed)
    {
      if fault == AppendFails {
        errorCount := errorCount + 1;
        return false;
      }
      AppendOneLine(files[Primary], line);
      if fault.AppendFailsAfter? {
        var reached := Take(line + "\n", fault.n);
        AppendTextGrows(files[Primary], reached);
        files := files[Primary := AppendText(files[Primary], reached)];
        errorCount := errorCount + 1;
        return false;
      }
      files := files[Primary := AppendText(files[Primary], line + "\n")];
      writtenCount := writtenCount + 1;
      ok := true;
    }

    /** `close()`: idempotent; marks the writer closed and releases the lock. */
    method Close()
      requires Valid()
      modifies this, lock
      ensures Valid() && isClosed
      ensures files == old(files) && writtenCount == old(writtenCount) && errorCount == old(errorCount)
      ensures old(isClosed) ==> unchanged(lock)
    {
      if isClosed {
        return;
      }
      isClosed := true;
      lock.Release();
    }

    /** `get_stats()`. */
    function Stats(): (st: WriterStats)
      reads this
      ensures st.writtenCount == writtenCount && st.errorCount == errorCount && st.isClosed == isClosed
      ensures Primary !in files ==> st.fileSizeMb == 0.0
      ensures st.fileSizeMb >= 0.0
    {
      WriterStats(writtenCount, errorCount, isClosed,
        if Primary in files then Size(files[Primary]) as real / (1024.0 * 1024.0) else 0.0)
    }
  }

  /** `_backup_corrupted_file`: the primary is renamed to the quarantine name. */
  function Quarantined(fs: Disk, stamp: int): (r: Disk)
    requires Primary in fs
    ensures Primary !in r && Corrupted(stamp) in r && r[Corrupted(stamp)] == fs[Primary]
  {
    (fs - {Primary})[Corrupted(stamp) := fs[Primary]]
  }

  /** How reading the existing primary goes at start-up. */
  datatype StartupRead = ReadOk | CountReadFails | ValidationReadFails(stamp: int)

  /**
   * Constructing a writer: when the integrity read of an existing primary
   * raises, the primary is quarantined and the constructor raises (the
   * error carries the files afterwards).
   */
  method OpenWriter(disk: Disk, maxFileSizeMb: int, backupCount: int, read: StartupRead, sidecarExists: bool)
    returns (r: Result<Writer, Disk>)
    ensures Primary in disk && read.ValidationReadFails? ==> r == Err(Quarantined(disk, read.stamp))
    ensures !(Primary in disk && read.ValidationReadFails?) ==> r.Ok?
    ensures r.Ok? ==> fresh(r.value) && fresh(r.value.lock) && r.value.Valid() && !r.value.isClosed
    ensures r.Ok? ==> r.value.files == (if Primary in disk then disk else disk[Primary := Empty])
    ensures r.Ok? ==>
      r.value.writtenCount == (if Primary in disk && read.ReadOk? then StartupCount(disk[Primary]) else 0)
  {
    if Primary in disk && read.ValidationReadFails? {
      return Err(Quarantined(disk, read.stamp));
    }
    var w := new Writer(disk, maxFileSizeMb, backupCount, read.CountReadFails?, sidecarExists);
    return Ok(w);
  }
}

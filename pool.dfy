/**
 * The pool manager (`ThreadPoolManager`): starting and stopping the
 * workers, the group statistics the workers report into, and the health
 * and restart bookkeeping over the worker list.  A worker thread is a
 * record of what the pool can observe of it; whether a thread is still
 * alive, whether starting one fails and how long the threads take to stop
 * are supplied by the caller.
 */
module Pool {
  import opened Wrappers

  /** What the pool sees of one worker thread. */
  datatype WorkerRecord = WorkerRecord(id: int, alive: bool, working: bool, stopRequested: bool,
                                       errorCount: nat, generatedCount: nat)

  /** A freshly constructed and started worker. */
  function Fresh(id: int): (w: WorkerRecord)
    ensures w.id == id && w.alive && !w.working && !w.stopRequested
    ensures w.errorCount == 0 && w.generatedCount == 0
  {
    WorkerRecord(id, true, false, false, 0, 0)
  }

  /** `request_stop` as seen from the pool: the stop flag is set and the worker no longer counts as working. */
  function Stopped(w: WorkerRecord): (r: WorkerRecord)
    ensures r.stopRequested && !r.working
    ensures r.id == w.id && r.alive == w.alive && r.errorCount == w.errorCount && r.generatedCount == w.generatedCount
  {
    w.(stopRequested := true, working := false)
  }

  /** Number of workers whose thread is alive. */
  function AliveCount(ws: seq<WorkerRecord>): (n: nat)
    ensures n <= |ws|
  {
    if ws == [] then 0 else AliveCount(ws[..|ws| - 1]) + (if ws[|ws| - 1].alive then 1 else 0)
  }

  /** Number of workers that are alive and working. */
  function WorkingCount(ws: seq<WorkerRecord>): (n: nat)
    ensures n <= AliveCount(ws)
  {
    if ws == [] then 0 else WorkingCount(ws[..|ws| - 1]) + (if ws[|ws| - 1].alive && ws[|ws| - 1].working then 1 else 0)
  }

  /** The counts are those of the workers' own flags: a list of dead workers has none alive, one of live workers all. */
  lemma {:induction false} AliveCountBounds(ws: seq<WorkerRecord>)
    ensures AliveCount(ws) == 0 <==> forall i :: 0 <= i < |ws| ==> !ws[i].alive
    ensures AliveCount(ws) == |ws| <==> forall i :: 0 <= i < |ws| ==> ws[i].alive
  {
    if ws != [] {
      var n := |ws| - 1;
      AliveCountBounds(ws[..n]);
      assert forall i :: 0 <= i < n ==> ws[..n][i] == ws[i];
    }
  }

  /** One entry of `worker_details`. */
  datatype WorkerInfo = WorkerInfo(workerId: int, isAlive: bool, isWorking: bool, errorCount: nat, generatedCount: nat)

  function Info(w: WorkerRecord): WorkerInfo {
    WorkerInfo(w.id, w.alive, w.working, w.errorCount, w.generatedCount)
  }

  /** `monitor_workers_health()`. */
  datatype HealthReport = HealthReport(totalWorkers: nat, aliveWorkers: nat, workingWorkers: nat,
                                       failedWorkers: nat, workerDetails: seq<WorkerInfo>)

  /** `get_stats()`, without the uptime. */
  datatype PoolStats = PoolStats(totalPairs: nat, successfulPairs: nat, failedPairs: nat, activeWorkers: nat,
                                 totalWorkers: nat, successRate: real, isRunning: bool, shutdownRequested: bool)

  /** `successful / total * 100`, and 0 before any group was reported. */
  function SuccessRate(successful: nat, total: nat): (r: real)
    ensures total == 0 ==> r == 0.0
    ensures successful <= total ==> 0.0 <= r <= 100.0
    ensures total > 0 && successful == total ==> r == 100.0
  {
    if total > 0 then (successful as real / total as real) * 100.0 else 0.0
  }

  class ThreadPoolManager {
    var workers: seq<WorkerRecord>
    var isRunningFlag: bool
    var shutdownRequested: bool
    var totalGroups: nat
    var successfulGroups: nat
    var failedGroups: nat

    /** Every reported group is either a success or a failure. */
    predicate Valid()
      reads this
    {
      totalGroups == successfulGroups + failedGroups
    }

    /** `__init__`: no workers, not running, all counters zero. */
    constructor()
      ensures Valid()
      ensures workers == [] && !isRunningFlag && !shutdownRequested
      ensures totalGroups == 0 && successfulGroups == 0 && failedGroups == 0
    {
      workers := [];
      isRunningFlag := false;
      shutdownRequested := false;
      totalGroups := 0;
      successfulGroups := 0;
      failedGroups := 0;
    }

    /**
     * `start_generation`.  `threads` is the configured thread count (None
     * when the setting is missing, which raises); `failAt` is the index of
     * the first worker whose construction or start raises, if any.  The
     * exception path clears the worker list.
     */
    method StartGeneration(threads: Option<int>, failAt: Option<nat>) returns (ok: bool)
      requires Valid()
      modifies this
      ensures Valid()
      ensures totalGroups == old(totalGroups) && successfulGroups == old(successfulGroups)
      ensures failedGroups == old(failedGroups)
      ensures old(isRunningFlag) || (threads.Some? && threads.value <= 0) ==>
                (!ok && workers == old(workers) && isRunningFlag == old(isRunningFlag)
                 && shutdownRequested == old(shutdownRequested))
      ensures !old(isRunningFlag) && (threads.None? || (threads.value > 0 && failAt.Some? && failAt.value < threads.value)) ==>
                (!ok && workers == [] && !isRunningFlag && shutdownRequested == old(shutdownRequested))
      ensures ok <==> (!old(isRunningFlag) && threads.Some? && threads.value > 0
                       && (failAt.None? || failAt.value >= threads.value))
      ensures ok ==> (isRunningFlag && !shutdownRequested
                      && |workers| == |old(workers)| + threads.value && workers[..|old(workers)|] == old(workers)
                      && forall i :: |old(workers)| <= i < |workers| ==> workers[i] == Fresh(i - |old(workers)| + 1))
    {
      if isRunningFlag {
        return false;
      }
      if threads.None? {
        workers := [];
        return false;
      }
      var count := threads.value;
      if count <= 0 {
        return false;
      }
      var i := 0;
      while i < count
        invariant 0 <= i <= count
        invariant |workers| == |old(workers)| + i && workers[..|old(workers)|] == old(workers)
        invariant forall j :: |old(workers)| <= j < |workers| ==> workers[j] == Fresh(j - |old(workers)| + 1)
        invariant failAt.Some? ==> i <= failAt.value
        invariant isRunningFlag == old(isRunningFlag) && shutdownRequested == old(shutdownRequested)
        invariant totalGroups == old(totalGroups) && successfulGroups == old(successfulGroups)
        invariant failedGroups == old(failedGroups)
      {
        if failAt == Some(i) {
          workers := [];
          return false;
        }
        workers := workers + [Fresh(i + 1)];
        i := i + 1;
      }
      isRunningFlag := true;
      shutdownRequested := false;
      ok := true;
    }

    /**
     * `stop_generation`.  `stoppedInTime` is whether every thread ended
     * before the timeout.  `told` lists the workers as they were left by
     * `request_stop`, before the list is cleared.
     */
    method StopGeneration(stoppedInTime: bool) returns (allStopped: bool, told: seq<WorkerRecord>)
      requires Valid()
      modifies this
      ensures Valid()
      ensures totalGroups == old(totalGroups) && successfulGroups == old(successfulGroups)
      ensures failedGroups == old(failedGroups)
      ensures !old(isRunningFlag) ==> (allStopped && told == [] && workers == old(workers)
                                       && shutdownRequested == old(shutdownRequested) && !isRunningFlag)
      ensures old(isRunningFlag) ==> (allStopped == stoppedInTime && shutdownRequested && !isRunningFlag
                                      && workers == [] && |told| == |old(workers)|
                                      && forall i :: 0 <= i < |told| ==> told[i] == Stopped(old(workers)[i]))
    {
      if !isRunningFlag {
        return true, [];
      }
      shutdownRequested := true;
      isRunningFlag := false;
      var i := 0;
      while i < |workers|
        invariant 0 <= i <= |workers| && |workers| == |old(workers)|
        invariant forall j :: 0 <= j < i ==> workers[j] == Stopped(old(workers)[j])
        invariant forall j :: i <= j < |workers| ==> workers[j] == old(workers)[j]
        invariant shutdownRequested && !isRunningFlag
        invariant totalGroups == old(totalGroups) && successfulGroups == old(successfulGroups)
        invariant failedGroups == old(failedGroups)
      {
        workers := workers[i := Stopped(workers[i])];
        i := i + 1;
      }
      told := workers;
      allStopped := stoppedInTime;
      workers := [];
    }

    /** `update_stats`: one more group, counted as a success or a failure. */
    method UpdateStats(success: bool)
      requires Valid()
      modifies this
      ensures Valid()
      ensures totalGroups == old(totalGroups) + 1
      ensures success ==> successfulGroups == old(successfulGroups) + 1 && failedGroups == old(failedGroups)
      ensures !success ==> failedGroups == old(failedGroups) + 1 && successfulGroups == old(successfulGroups)
      ensures workers == old(workers) && isRunningFlag == old(isRunningFlag)
      ensures shutdownRequested == old(shutdownRequested)
    {
      totalGroups := totalGroups + 1;
      if success {
        successfulGroups := successfulGroups + 1;
      } else {
        failedGroups := failedGroups + 1;
      }
    }

    /** `get_stats()`. */
    function GetStats(): (st: PoolStats)
      requires Valid()
      reads this
      ensures st.totalPairs == st.successfulPairs + st.failedPairs
      ensures st.activeWorkers <= st.totalWorkers == |workers|
      ensures 0.0 <= st.successRate <= 100.0
      ensures st.totalPairs == 0 ==> st.successRate == 0.0
    {
      PoolStats(totalGroups, successfulGroups, failedGroups, WorkingCount(workers), |workers|,
                SuccessRate(successfulGroups, totalGroups), isRunningFlag, shutdownRequested)
    }

    /** `is_running()`. */
    function IsRunning(): (r: bool)
      reads this
      ensures r ==> isRunningFlag
      ensures shutdownRequested ==> !r
    {
      isRunningFlag && !shutdownRequested
    }

    /**
     * `restart_failed_workers`.  `startFails[i]` says whether constructing
     * or starting the replacement for worker `i` raises, which leaves the
     * dead worker in place.
     */
    method RestartFailedWorkers(startFails: seq<bool>)
      requires |startFails| == |workers|
      modifies this
      ensures |workers| == |old(workers)|
      ensures forall i :: 0 <= i < |workers| ==> workers[i].id == old(workers)[i].id
      ensures !old(IsRunning()) ==> workers == old(workers)
      ensures old(IsRunning()) ==> forall i :: 0 <= i < |workers| ==>
        workers[i] == (if !old(workers)[i].alive && !startFails[i] then Fresh(old(workers)[i].id) else old(workers)[i])
      ensures isRunningFlag == old(isRunningFlag) && shutdownRequested == old(shutdownRequested)
      ensures totalGroups == old(totalGroups) && successfulGroups == old(successfulGroups)
      ensures failedGroups == old(failedGroups)
    {
      if !isRunningFlag || shutdownRequested {
        return;
      }
      var i := 0;
      while i < |workers|
        invariant 0 <= i <= |workers| && |workers| == |old(workers)|
        invariant forall j :: 0 <= j < i ==>
          workers[j] == (if !old(workers)[j].alive && !startFails[j] then Fresh(old(workers)[j].id) else old(workers)[j])
        invariant forall j :: i <= j < |workers| ==> workers[j] == old(workers)[j]
        invariant isRunningFlag == old(isRunningFlag) && shutdownRequested == old(shutdownRequested)
        invariant totalGroups == old(totalGroups) && successfulGroups == old(successfulGroups)
        invariant failedGroups == old(failedGroups)
      {
        if !workers[i].alive && !startFails[i] {
          workers := workers[i := Fresh(workers[i].id)];
        }
        i := i + 1;
      }
    }

    /** `monitor_workers_health()`: one pass over the worker list. */
    method MonitorWorkersHealth() returns (h: HealthReport)
      ensures h.totalWorkers == |workers|
      ensures h.aliveWorkers == AliveCount(workers) && h.workingWorkers == WorkingCount(workers)
      ensures h.aliveWorkers + h.failedWorkers == h.totalWorkers
      ensures h.workingWorkers <= h.aliveWorkers
      ensures |h.workerDetails| == |workers|
      ensures forall i :: 0 <= i < |workers| ==> h.workerDetails[i] == Info(workers[i])
    {
      var alive := 0;
      var working := 0;
      var failed := 0;
      var details := [];
      var i := 0;
      while i < |workers|
        invariant 0 <= i <= |workers|
        invariant alive == AliveCount(workers[..i]) && working == WorkingCount(workers[..i])
        invariant alive + failed == i
        invariant |details| == i && forall j :: 0 <= j < i ==> details[j] == Info(workers[j])
      {
        var w := workers[i];
        details := details + [Info(w)];
        assert workers[..i + 1][..i] == workers[..i];
        if w.alive {
          alive := alive + 1;
          if w.working {
            working := working + 1;
          }
        } else {
          failed := failed + 1;
        }
        i := i + 1;
      }
      assert workers[..i] == workers;
      h := HealthReport(|workers|, alive, working, failed, details);
    }
  }
}

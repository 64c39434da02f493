/** The write pause that slot exports share (src/cluster_migrateslots.c, pause
    bookkeeping in src/networking.c). */
module MigrationPause {
  import opened MigrationJobs

  const MF_PAUSE_MULT := 2
  const OPERATION_TIMEOUT := 2000

  /** The pause for slot migration: requested actions, deadline, whether writes
      are refused now, the clock and the server's cached clock. */
  datatype Pause = Pause(active: bool, end: int, effective: bool, now: int, cached: int)

  /** updatePausedActions: a pause is in force until its deadline by the cached
      clock. */
  function UpdatePaused(p: Pause): Pause {
    if p.end > p.cached then p.(effective := p.active) else p.(active := false, end := 0, effective := false)
  }

  /** pauseActions keeps the later deadline. */
  function PauseUntil(p: Pause, end: int): Pause {
    UpdatePaused(p.(active := true, end := if p.end < end then end else p.end))
  }

  /** unpauseActions */
  function Unpause(p: Pause): Pause { UpdatePaused(p.(active := false, end := 0)) }

  /** isSlotExportPauseTimedOut */
  predicate TimedOut(j: Job, p: Pause) { j.mfEnd < p.now || !p.active }

  /** The pause covers this deadline, or the deadline has passed. */
  predicate Covered(p: Pause, end: int) { (p.active && p.effective && p.end >= end) || end <= p.cached }

  predicate Holding(j: Job) { j.state.ExportPaused? || j.state.ExportGranted? }

  ghost predicate JobPaused(j: Job, p: Pause) {
    && (j.mfEnd != 0 <==> Holding(j))
    && (j.mfEnd != 0 ==> Covered(p, j.mfEnd))
    && (j.state.ExportPaused? && j.written ==> j.mfEnd <= p.cached)
  }

  /** A deadline is set exactly in the paused and granted states, every deadline
      is covered, and a write accepted since PAUSED means that the job's
      deadline has passed. */
  ghost predicate Guarded(jobs: seq<Job>, p: Pause) {
    && 0 < p.cached <= p.now
    && (forall i :: 0 <= i < |jobs| ==> JobPaused(jobs[i], p))
  }

  /** While a deadline is ahead, writes are refused. */
  lemma RefusedUntilDeadline(jobs: seq<Job>, p: Pause, i: nat)
    requires Guarded(jobs, p) && i < |jobs| && jobs[i].mfEnd > p.cached
    ensures p.effective
  {
  }

  /** A failover that may be granted means writes were frozen since PAUSED
      exactly while the cached clock is before the deadline: otherwise both
      clocks show the deadline itself, and nothing rules a write out. */
  lemma GrantIsFrozen(jobs: seq<Job>, p: Pause, i: nat)
    requires Guarded(jobs, p) && i < |jobs| && jobs[i].state.ExportPaused? && !TimedOut(jobs[i], p)
    ensures p.cached < jobs[i].mfEnd ==> !jobs[i].written
    ensures p.cached >= jobs[i].mfEnd <==> p.cached == p.now == jobs[i].mfEnd
    ensures p.cached >= jobs[i].mfEnd ==> Guarded(jobs[i := jobs[i].(written := true)], p)
  {
    assert JobPaused(jobs[i], p);
    if p.cached >= jobs[i].mfEnd {
      JobKeeps(jobs, p, i, jobs[i].(written := true));
    }
  }

  // ------------------------------------------------------------ pause steps

  lemma UpdateKeeps(jobs: seq<Job>, p: Pause)
    requires Guarded(jobs, p)
    ensures Guarded(jobs, UpdatePaused(p))
  {
    forall i | 0 <= i < |jobs|
      ensures JobPaused(jobs[i], UpdatePaused(p))
    {
      assert JobPaused(jobs[i], p);
    }
  }

  lemma PauseKeeps(jobs: seq<Job>, p: Pause, end: int)
    requires Guarded(jobs, p)
    ensures Guarded(jobs, PauseUntil(p, end))
  {
    forall i | 0 <= i < |jobs|
      ensures JobPaused(jobs[i], PauseUntil(p, end))
    {
      assert JobPaused(jobs[i], p);
    }
  }

  lemma UnpauseKeeps(jobs: seq<Job>, p: Pause)
    requires Guarded(jobs, p) && forall i :: 0 <= i < |jobs| ==> jobs[i].mfEnd == 0
    ensures Guarded(jobs, Unpause(p))
  {
    forall i | 0 <= i < |jobs|
      ensures JobPaused(jobs[i], Unpause(p))
    {
      assert JobPaused(jobs[i], p);
    }
  }

  /** Time passes; the cached clock follows the clock. */
  lemma ClocksKeep(jobs: seq<Job>, p: Pause, now: int, cached: int)
    requires Guarded(jobs, p) && p.now <= now && p.cached <= cached <= now
    ensures Guarded(jobs, p.(now := now, cached := cached))
  {
    forall i | 0 <= i < |jobs|
      ensures JobPaused(jobs[i], p.(now := now, cached := cached))
    {
      assert JobPaused(jobs[i], p);
    }
  }

  function Written(jobs: seq<Job>): (r: seq<Job>)
    ensures |r| == |jobs|
    ensures forall i :: 0 <= i < |jobs| ==> r[i] == jobs[i].(written := jobs[i].written || jobs[i].mfEnd != 0)
  {
    seq(|jobs|, i requires 0 <= i < |jobs| => jobs[i].(written := jobs[i].written || jobs[i].mfEnd != 0))
  }

  lemma WriteKeeps(jobs: seq<Job>, p: Pause)
    requires Guarded(jobs, p) && !p.effective
    ensures Guarded(Written(jobs), p)
  {
    forall i | 0 <= i < |jobs|
      ensures JobPaused(Written(jobs)[i], p)
    {
      assert JobPaused(jobs[i], p);
    }
  }

  lemma JobKeeps(jobs: seq<Job>, p: Pause, i: nat, j: Job)
    requires Guarded(jobs, p) && i < |jobs| && JobPaused(j, p)
    ensures Guarded(jobs[i := j], p)
  {
  }

  /** slotExportTryDoPause, once it may pause. */
  function PausedJob(j: Job, p: Pause, timeout: nat): Job {
    j.(mfEnd := p.now + timeout * MF_PAUSE_MULT, state := ExportPaused, written := false)
  }

  lemma DoPauseKeeps(jobs: seq<Job>, p: Pause, i: nat, timeout: nat)
    requires Guarded(jobs, p) && i < |jobs| && timeout > 0
    ensures var j := PausedJob(jobs[i], p, timeout); Guarded(jobs[i := j], PauseUntil(p, j.mfEnd))
  {
    var j := PausedJob(jobs[i], p, timeout);
    PauseKeeps(jobs, p, j.mfEnd);
    JobKeeps(jobs, PauseUntil(p, j.mfEnd), i, j);
  }

  /** The granting branch of REQUEST-FAILOVER. */
  function GrantedJob(j: Job, p: Pause): Job {
    j.(state := ExportGranted, mfEnd := if j.mfEnd < p.now + OPERATION_TIMEOUT then p.now + OPERATION_TIMEOUT else j.mfEnd)
  }

  function GrantedPause(j: Job, p: Pause): Pause {
    if j.mfEnd < p.now + OPERATION_TIMEOUT then PauseUntil(p, p.now + OPERATION_TIMEOUT) else p
  }

  lemma GrantKeeps(jobs: seq<Job>, p: Pause, i: nat)
    requires Guarded(jobs, p) && i < |jobs| && jobs[i].state.ExportPaused? && !TimedOut(jobs[i], p)
    ensures Guarded(jobs[i := GrantedJob(jobs[i], p)], GrantedPause(jobs[i], p))
  {
    assert JobPaused(jobs[i], p);
    PauseKeeps(jobs, p, p.now + OPERATION_TIMEOUT);
    JobKeeps(jobs, GrantedPause(jobs[i], p), i, GrantedJob(jobs[i], p));
  }

  // ------------------------------------------------- at the deadline itself

  /** The state of two exports in a run: the first pauses, its deadline comes,
      the pause expires, a write is accepted and the second export pauses, all
      within one millisecond. */
  ghost function AtDeadline(a: Job, b: Job, p: Pause, timeout: nat): (seq<Job>, Pause) {
    var a1 := PausedJob(a, p, timeout);
    var p1 := PauseUntil(p, a1.mfEnd);
    var p2 := UpdatePaused(p1.(now := a1.mfEnd, cached := a1.mfEnd));
    var jobs := Written([a1, b]);
    var b1 := PausedJob(b, p2, timeout);
    ([jobs[0], b1], PauseUntil(p2, b1.mfEnd))
  }

  /** The converse of GrantIsFrozen: for every pause, a run in which the request
      arrives when both clocks show the deadline and is granted although a write
      was accepted since PAUSED. The source's check is `mf_end < now`. */
  lemma GrantAtDeadline(a: Job, b: Job, p: Pause, timeout: nat)
    requires a.state.ExportWaitingToPause? && a.mfEnd == 0 && b.state.ExportWaitingToPause? && b.mfEnd == 0
    requires 0 < p.cached <= p.now && !p.active && !p.effective && p.end == 0 && timeout > 0
    ensures var (jobs, q) := AtDeadline(a, b, p, timeout);
      && Guarded(jobs, q) && jobs[0].state.ExportPaused? && !TimedOut(jobs[0], q)
      && jobs[0].written && q.cached == q.now == jobs[0].mfEnd
  {
    var a1 := PausedJob(a, p, timeout);
    var p1 := PauseUntil(p, a1.mfEnd);
    var p2 := UpdatePaused(p1.(now := a1.mfEnd, cached := a1.mfEnd));
    var b1 := PausedJob(b, p2, timeout);
    var q := PauseUntil(p2, b1.mfEnd);
    assert !p2.effective;
    assert JobPaused(Written([a1, b])[0], q) && JobPaused(b1, q);
  }
}

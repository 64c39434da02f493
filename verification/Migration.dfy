/** The event handlers of slot migration on one node
    (src/cluster_migrateslots.c). */
module Migration {
  import opened Common
  import opened MigrationJobs
  import opened MigrationPause

  /** What driving a job forward meets outside of this model: connection,
      authentication, fork and limits. */
  datatype Env = Env(connected: Option<bool>, auth: bool, sendsAuth: bool, busy: bool, forks: bool, mayPause: bool,
                     preventFailover: bool)

  function Owner(owners: map<nat, nat>, slot: nat): Option<nat> { if slot in owners then Some(owners[slot]) else None }

  /** One request of CLUSTER MIGRATESLOTS: ranges, the node that serves them and
      the known target, if it is known. */
  datatype Request = Request(ranges: seq<Range>, owner: nat, target: Option<nat>, name: nat)

  /** createSlotExportJob */
  function ExportJob(r: Request): Job {
    Job(r.name, Export, ExportConnecting, r.ranges, 0, JobFailed, if r.target.Some? then r.target.value else 0, false, false)
  }

  function Exports(reqs: seq<Request>, n: nat): seq<Job>
    requires n <= |reqs|
  {
    seq(n, k requires 0 <= k < n => ExportJob(reqs[k]))
  }

  /** createSlotImportJob: without a source it only tracks an import. */
  function ImportJob(name: nat, rs: seq<Range>, source: Option<nat>): Job {
    Job(name, Import, if source.Some? then ImportWaitAck else ImportOccurringOnPrimary, rs, 0, JobFailed,
        if source.Some? then source.value else 0, source.None?, false)
  }

  /** The first n requests can be granted together. */
  ghost predicate Requested(jobs: seq<Job>, myself: nat, reqs: seq<Request>, n: nat) {
    && n <= |reqs|
    && (forall k :: 0 <= k < n ==> reqs[k].owner == myself && Free(jobs, Export, reqs[k].ranges)
                                   && reqs[k].target.Some? && reqs[k].target.value != myself)
    && (forall j, k :: 0 <= j < k < n ==> Disjoint(reqs[j].ranges, reqs[k].ranges))
  }

  /** The node owns every slot of the ranges. */
  ghost predicate OwnedBy(owners: map<nat, nat>, rs: seq<Range>, node: nat) {
    forall slot :: InRanges(slot, rs) ==> Owner(owners, slot) == Some(node)
  }

  ghost predicate NoDeadline(jobs: seq<Job>) { forall i :: 0 <= i < |jobs| ==> jobs[i].mfEnd == 0 }

  /** The pause is lifted when no deadline is set. */
  ghost function Lifted(p: Pause, jobs: seq<Job>): Pause { if p.active && NoDeadline(jobs) then Unpause(p) else p }

  lemma DeadlinesMean(jobs: seq<Job>)
    ensures NoDeadline(jobs) <==> forall k :: 0 <= k < |jobs| ==> jobs[k].mfEnd == 0
  {
  }

  lemma Unpaused(p: Pause)
    ensures 0 < p.cached ==> !Unpause(p).active && !Unpause(p).effective
  {
  }

  lemma SameDeadlines(jobs: seq<Job>, i: nat, s: State)
    requires i < |jobs|
    ensures NoDeadline(jobs[i := jobs[i].(state := s)]) <==> NoDeadline(jobs)
  {
    var r := jobs[i := jobs[i].(state := s)];
    assert forall k :: 0 <= k < |jobs| ==> r[k].mfEnd == jobs[k].mfEnd;
  }

  /** How far an export is from waiting for its target. */
  function Rank(s: State): nat {
    match s
    case ExportConnecting => 3
    case ExportSendAuth => 2
    case ExportSendEstablish => 1
    case _ => 0
  }

  /** A job that failed, or an import whose cleanup ends in failure. */
  predicate Failing(j: Job) { j.state == JobFailed || (j.kind == Import && j.state == ImportCleaningUp && j.post == JobFailed) }

  /** Where a drive leaves an export that is connecting: it waits for the
      connection, for the reply to AUTH or for the reply to ESTABLISH, or failed. */
  predicate ConnectedIn(was: State, e: Env, now: State) {
    if was == ExportSendEstablish then now == ExportReadEstablish
    else if was == ExportSendAuth then now == if e.sendsAuth then ExportReadAuth else JobFailed
    else if e.connected == None then now == was
    else if e.connected == Some(false) then now == JobFailed
    else if !e.auth then now == ExportReadEstablish
    else now == if e.sendsAuth then ExportReadAuth else JobFailed
  }

  /** Where a drive leaves a paused or granted export. */
  ghost predicate HeldIn(j: Job, p: Pause, owners: map<nat, nat>, myself: nat, now: State) {
    if j.mfEnd < p.now || !p.active then now == JobFailed
    else if j.state == ExportPaused || OwnedBy(owners, j.ranges, myself) then now == j.state
    else now == if OwnedBy(owners, j.ranges, j.peer) then JobSuccess else JobFailed
  }

  /** One round of the loop over the connecting states. */
  function ConnectRound(j: Job, e: Env, primary: bool, loading: bool): Job {
    match j.state
    case ExportConnecting =>
      if e.connected == None then j
      else if e.connected == Some(false) then FinishJob(j, JobFailed, primary, loading)
      else j.(state := if e.auth then ExportSendAuth else ExportSendEstablish)
    case ExportSendAuth => if e.sendsAuth then j.(state := ExportReadAuth) else FinishJob(j, JobFailed, primary, loading)
    case _ => j.(state := ExportReadEstablish)
  }

  /** An export driven through its connecting states. */
  function Connected(j: Job, e: Env, primary: bool, loading: bool): Job
    decreases Rank(j.state)
  {
    if Rank(j.state) == 0 then j
    else
      var next := ConnectRound(j, e, primary, loading);
      if Rank(next.state) < Rank(j.state) then Connected(next, e, primary, loading) else next
  }

  lemma ConnectedMeans(j: Job, e: Env, primary: bool, loading: bool)
    requires Rank(j.state) > 0 && Active(j, Export)
    ensures ConnectedIn(j.state, e, Connected(j, e, primary, loading).state)
  {
    var one := ConnectRound(j, e, primary, loading);
    if Rank(one.state) > 0 && one.state != j.state {
      var two := ConnectRound(one, e, primary, loading);
      assert Connected(one, e, primary, loading) == two;
    }
  }

  lemma ConnectedStep(j: Job, e: Env, primary: bool, loading: bool)
    ensures Rank(j.state) == 0 ==> Connected(j, e, primary, loading) == j
    ensures Rank(j.state) > 0 ==>
      var next := ConnectRound(j, e, primary, loading);
      Connected(j, e, primary, loading) == if Rank(next.state) < Rank(j.state) then Connected(next, e, primary, loading) else next
  {
  }

  lemma RoundRank(j: Job, e: Env, primary: bool, loading: bool)
    requires Rank(j.state) > 0 && Active(j, Export)
    ensures var next := ConnectRound(j, e, primary, loading);
      if j.state.ExportConnecting? && e.connected == None then next == j
      else Rank(next.state) < Rank(j.state) && (Rank(next.state) > 0 ==> Active(next, Export))
  {
  }

  class Node {
    const myself: nat
    /** cluster_mf_timeout */
    const timeout: nat
    /** server.cluster->slot_migration_jobs */
    var jobs: seq<Job>
    /** Slots whose keys are marked as importing. */
    var flags: set<nat>
    var pause: Pause
    var primary: bool
    var loading: bool
    /** server.cluster->slots */
    var owners: map<nat, nat>
    /** Slots in importing_slots_from or migrating_slots_to */
    var manual: set<nat>

    ghost predicate Valid()
      reads this
    {
      Registry(jobs, flags) && Guarded(jobs, pause) && timeout > 0
    }

    constructor (myself: nat, timeout: nat, now: int, owners: map<nat, nat>)
      requires timeout > 0 && now > 0
      ensures Valid() && jobs == [] && this.myself == myself && this.owners == owners
    {
      this.myself, this.timeout, this.owners := myself, timeout, owners;
      jobs, flags, primary, loading, manual := [], {}, true, false, {};
      pause := Pause(false, 0, false, now, now);
    }

    // ------------------------------------------------------ shared helpers

    /** slotExportTryUnpause: lifts the pause only when no deadline is set. */
    method TryUnpause()
      modifies `pause
      ensures pause == Lifted(old(pause), jobs)
      ensures old(pause).active && 0 < old(pause).cached && (forall i :: 0 <= i < |jobs| ==> jobs[i].mfEnd == 0) ==>
        !pause.active && !pause.effective
      ensures (exists i :: 0 <= i < |jobs| && jobs[i].mfEnd != 0) ==> pause == old(pause)
    {
      if !pause.active {
        return;
      }
      var i := 0;
      while i < |jobs|
        invariant 0 <= i <= |jobs| && pause == old(pause)
        invariant forall k :: 0 <= k < i ==> jobs[k].mfEnd == 0
      {
        if jobs[i].mfEnd != 0 {
          return;
        }
        i := i + 1;
      }
      pause := Unpause(pause);
    }

    /** updateSlotMigrationJobState between states that hold no deadline */
    method SetState(i: nat, s: State)
      requires Valid() && i < |jobs| && !Finished(jobs[i]) && StateOf(jobs[i].kind, s)
      requires !FinishedState(s) && s != ImportCleaningUp && !Holding(jobs[i]) && !s.ExportPaused? && !s.ExportGranted?
      modifies `jobs
      ensures Valid() && jobs == old(jobs)[i := old(jobs)[i].(state := s)]
    {
      hide Registry, Guarded;
      KnownJob(i);
      ReplaceKeeps(jobs, flags, i, jobs[i].(state := s));
      JobKeeps(jobs, pause, i, jobs[i].(state := s));
      jobs := jobs[i := jobs[i].(state := s)];
    }

    /** A finished job may be finished again under this condition. */
    ghost predicate MayFinish(i: nat, s: State)
      requires i < |jobs|
      reads this
    {
      || !Finished(jobs[i]) || jobs[i].kind == Export
      || (!NeedsCleanup(jobs[i], s, primary, loading) && Free(jobs, Import, jobs[i].ranges))
    }

    /** finishSlotMigrationJob; on a job that is already finished the invariant
        holds afterwards only under that condition. */
    method Finish(i: nat, s: State)
      requires Valid() && i < |jobs| && FinishedState(s)
      modifies `jobs, `flags, `pause
      ensures Valid() <==> old(MayFinish(i, s))
      ensures jobs == old(jobs)[i := FinishJob(old(jobs)[i], s, primary, loading)]
      ensures flags == FinishFlags(old(flags), old(jobs)[i], s, primary, loading)
      ensures pause == if old(jobs)[i].kind == Export then Lifted(old(pause), jobs) else old(pause)
      ensures jobs[i].kind == old(jobs)[i].kind && jobs[i].ranges == old(jobs)[i].ranges
      ensures s == JobSuccess || old(jobs)[i].kind == Export ==> jobs[i].state == s
      ensures old(jobs)[i].kind == Export ==> jobs[i].mfEnd == 0 && flags == old(flags)
      ensures old(jobs)[i].kind == Export && old(pause).active && (forall k :: 0 <= k < |jobs| ==> jobs[k].mfEnd == 0) ==>
        !pause.active && !pause.effective
      ensures old(jobs)[i].kind == Import && s == JobSuccess ==> forall slot :: InRanges(slot, jobs[i].ranges) ==> slot !in flags
      ensures old(jobs)[i].kind == Import && s != JobSuccess && primary && !loading && old(jobs)[i].state != ImportCleaningUp ==>
        jobs[i].state == ImportCleaningUp && jobs[i].post == s && flags == old(flags)
      ensures old(jobs)[i].kind == Import && (!primary || loading || old(jobs)[i].state == ImportCleaningUp) ==>
        jobs[i].state == s && forall slot :: InRanges(slot, jobs[i].ranges) ==> slot !in flags
    {
      hide Registry, Guarded, Free, FinishJob, FinishFlags, NoDeadline, Slots, InRanges;
      FinishRegistered(i, s);
      ghost var job := jobs[i];
      FinishIs(job, flags, s, primary, loading);
      if jobs[i].kind == Export {
        FinishGuarded(jobs, pause, i, s, primary, loading);
        ClocksInOrder(jobs, pause);
        jobs := jobs[i := jobs[i].(mfEnd := 0)];
        TryUnpause();
        SameDeadlines(jobs, i, s);
        Unpaused(old(pause));
        jobs := jobs[i := jobs[i].(state := s)];
        assert jobs == old(jobs)[i := job.(mfEnd := 0, state := s)];
        DeadlinesMean(jobs);
        return;
      }
      FinishGuarded(jobs, pause, i, s, primary, loading);
      if primary && jobs[i].state != ImportCleaningUp && !loading && s != JobSuccess {
        // The rest is done after cleanup.
        jobs := jobs[i := jobs[i].(post := s, state := ImportCleaningUp)];
        return;
      }
      jobs := jobs[i := jobs[i].(state := s)];
      flags := flags - Slots(jobs[i].ranges);
    }

    lemma FinishRegistered(i: nat, s: State)
      requires Registry(jobs, flags) && i < |jobs| && FinishedState(s)
      ensures Typed(jobs[i])
      ensures MayFinish(i, s) <==>
        Registry(jobs[i := FinishJob(jobs[i], s, primary, loading)], FinishFlags(flags, jobs[i], s, primary, loading))
    {
      if Finished(jobs[i]) {
        FinishAgainIff(jobs, flags, i, s, primary, loading);
      } else {
        FinishKeeps(jobs, flags, i, s, primary, loading);
      }
    }

    /** What the invariant says about one job. */
    lemma KnownJob(i: nat)
      requires Valid() && i < |jobs|
      ensures Typed(jobs[i]) && JobPaused(jobs[i], pause)
      ensures Holding(jobs[i]) ==> jobs[i].kind == Export
    {
    }

    // --------------------------------------------------- export: pausing

    /** slotExportTryDoPause with the state change that follows it */
    method TryDoPause(i: nat, mayPause: bool) returns (ok: bool)
      requires Valid() && i < |jobs| && Active(jobs[i], Export) && !Holding(jobs[i])
      modifies `jobs, `pause
      ensures Valid() && ok == mayPause
      ensures jobs == if ok then old(jobs)[i := PausedJob(old(jobs)[i], old(pause), timeout)] else old(jobs)
      ensures ok ==> jobs[i].state == ExportPaused && jobs[i].mfEnd == pause.now + 2 * timeout
      ensures pause == if ok then PauseUntil(old(pause), jobs[i].mfEnd) else old(pause)
    {
      hide Registry, Guarded;
      if !mayPause {
        return false;
      }
      KnownJob(i);
      DoPauseKeeps(jobs, pause, i, timeout);
      var j := PausedJob(jobs[i], pause, timeout);
      ReplaceKeeps(jobs, flags, i, j);
      jobs := jobs[i := j];
      pause := PauseUntil(pause, j.mfEnd);
      return true;
    }

    ghost function PauseRequested(j: Job, mayPause: bool): Job
      reads this
    {
      if !j.state.ExportStreaming? && !j.state.ExportSnapshotting? then FinishJob(j, JobFailed, primary, loading)
      else if mayPause then PausedJob(j, pause, timeout)
      else j.(state := ExportWaitingToPause)
    }

    /** SYNCSLOTS REQUEST-PAUSE */
    method RequestPause(i: nat, mayPause: bool)
      requires Valid() && i < |jobs| && InProgress(jobs[i])
      modifies `jobs, `flags, `pause
      ensures Valid() && jobs == old(jobs)[i := old(PauseRequested(jobs[i], mayPause))]
      ensures var was, now := old(jobs)[i].state, jobs[i].state;
        if was.ExportStreaming? || was.ExportSnapshotting? then now == if mayPause then ExportPaused else ExportWaitingToPause
        else Failing(jobs[i])
    {
      hide Registry, Guarded, FinishJob;
      KnownJob(i);
      if !jobs[i].state.ExportStreaming? && !jobs[i].state.ExportSnapshotting? {
        Finish(i, JobFailed);
        return;
      }
      if !jobs[i].state.ExportStreaming? {
        SetState(i, ExportStreaming);
      }
      var ok := TryDoPause(i, mayPause);
      if !ok {
        SetState(i, ExportWaitingToPause);
      }
    }

    /** SYNCSLOTS REQUEST-FAILOVER: a grant while the cached clock is before the
        deadline means that no write was accepted since PAUSED, and none will be
        until the new deadline. */
    method RequestFailover(i: nat) returns (granted: bool)
      requires Valid() && i < |jobs| && InProgress(jobs[i])
      modifies `jobs, `flags, `pause
      ensures Valid() && |jobs| == |old(jobs)|
      ensures granted <==> old(jobs)[i].state.ExportPaused? && !TimedOut(old(jobs)[i], old(pause))
      ensures granted ==> jobs == old(jobs)[i := GrantedJob(old(jobs)[i], old(pause))]
      ensures granted ==> pause.effective && jobs[i].mfEnd >= old(pause).now + OPERATION_TIMEOUT
      ensures granted && old(pause).cached < old(jobs)[i].mfEnd ==> !old(jobs)[i].written
      ensures !granted ==> jobs == old(jobs)[i := FinishJob(old(jobs)[i], JobFailed, primary, loading)] && Failing(jobs[i])
      ensures granted ==> jobs[i].state == ExportGranted && jobs[i].mfEnd >= old(pause).now + 2000
    {
      hide Registry, Guarded, UpdatePaused;
      KnownJob(i);
      if !jobs[i].state.ExportPaused? {
        Finish(i, JobFailed);
        return false;
      }
      if TimedOut(jobs[i], pause) {
        Finish(i, JobFailed);
        return false;
      }
      GrantIsFrozen(jobs, pause, i);
      GrantKeeps(jobs, pause, i);
      ReplaceKeeps(jobs, flags, i, GrantedJob(jobs[i], pause));
      var deadline := pause.now + OPERATION_TIMEOUT;
      var j := jobs[i];
      if j.mfEnd < deadline {
        j := j.(mfEnd := deadline);
        pause := PauseUntil(pause, deadline);
      }
      jobs := jobs[i := j.(state := ExportGranted)];
      ClocksInOrder(jobs, pause);
      PauseClocks(old(pause), deadline);
      RefusedUntilDeadline(jobs, pause, i);
      return true;
    }

    /** The expired-pause branches of proceedWithSlotMigration, and success once
        the target owns the slots. */
    method ProceedHolding(i: nat)
      requires Valid() && i < |jobs| && Holding(jobs[i])
      modifies `jobs, `flags, `pause
      ensures Valid() && jobs == old(jobs)[i := old(Held(jobs[i]))]
      ensures HeldIn(old(jobs)[i], old(pause), owners, myself, jobs[i].state)
      ensures TimedOut(old(jobs)[i], old(pause)) ==>
        pause == Lifted(if old(jobs)[i].state.ExportPaused? then UpdatePaused(old(pause)) else old(pause), jobs)
    {
      hide Registry, Guarded, OwnedBy, FinishJob;
      KnownJob(i);
      if TimedOut(jobs[i], pause) {
        if jobs[i].state.ExportPaused? {
          UpdateKeeps(jobs, pause);
          pause := UpdatePaused(pause);
        }
        Finish(i, JobFailed);
        return;
      }
      if jobs[i].state.ExportPaused? {
        assert jobs == jobs[i := jobs[i]];
        return;
      }
      CheckOwnership(i);
    }

    /** A paused or granted export fails once its pause has expired; a granted
        one is checked against the owners. */
    ghost function Held(j: Job): Job
      reads this
    {
      if TimedOut(j, pause) then FinishJob(j, JobFailed, primary, loading)
      else if j.state.ExportPaused? then j
      else Checked(j)
    }

    /** Whether one node owns all slots of the ranges (getClusterNodeBySlotRanges) */
    method OwnerOf(rs: seq<Range>) returns (node: Option<nat>)
      requires rs != [] && AllProper(rs)
      ensures forall n: nat :: node == Some(n) <==> OwnedBy(owners, rs, n)
    {
      node := None;
      var k := 0;
      while k < |rs|
        invariant 0 <= k <= |rs|
        invariant forall slot :: InRanges(slot, rs[..k]) ==> node.Some? && Owner(owners, slot) == node
        invariant node.Some? ==> exists slot :: InRanges(slot, rs) && Owner(owners, slot) == node
        invariant k > 0 ==> node.Some?
      {
        var r := rs[k];
        var slot := r.first;
        while slot <= r.last
          invariant r.first <= slot
          invariant forall x :: InRanges(x, rs[..k]) ==> node.Some? && Owner(owners, x) == node
          invariant forall x: nat :: InRange(x, r) && x < slot ==> node.Some? && Owner(owners, x) == node
          invariant node.Some? ==> exists x :: InRanges(x, rs) && Owner(owners, x) == node
          decreases r.last + 1 - slot
        {
          assert InRange(slot, rs[k]) && InRanges(slot, rs);
          if slot !in owners {
            return None;
          }
          if node.None? {
            node := Some(owners[slot]);
          } else if node.value != owners[slot] {
            ghost var x: nat :| InRanges(x, rs) && Owner(owners, x) == node;
            return None;
          }
          slot := slot + 1;
        }
        assert Proper(r) && InRange(r.first, r);
        RangesSplit(rs, k + 1);
        k := k + 1;
      }
      assert rs[..k] == rs;
    }

    /** An export under the current owners: kept while this node owns its slots,
        successful when its target does, failed otherwise. */
    ghost function Checked(j: Job): Job
      reads this
    {
      if OwnedBy(owners, j.ranges, myself) then j
      else FinishJob(j, if OwnedBy(owners, j.ranges, j.peer) then JobSuccess else JobFailed, primary, loading)
    }

    /** checkSlotExportOwnership and what follows from it */
    method CheckOwnership(i: nat)
      requires Valid() && i < |jobs| && Active(jobs[i], Export)
      modifies `jobs, `flags, `pause
      ensures Valid() && jobs == old(jobs)[i := old(Checked(jobs[i]))]
      ensures var j := old(jobs)[i];
        if OwnedBy(owners, j.ranges, myself) then jobs[i] == j
        else jobs[i].state == if OwnedBy(owners, j.ranges, j.peer) then JobSuccess else JobFailed
    {
      hide Registry, Guarded, OwnedBy, FinishJob;
      KnownJob(i);
      var n := OwnerOf(jobs[i].ranges);
      if n == Some(myself) {
        assert jobs == jobs[i := jobs[i]];
        return;
      }
      if n == Some(jobs[i].peer) {
        Finish(i, JobSuccess);
      } else {
        Finish(i, JobFailed);
      }
    }

    /** clusterUpdateSlotExportsOnOwnershipChange */
    method ExportsOnOwnershipChange()
      requires Valid()
      modifies `jobs, `flags, `pause
      ensures Valid() && |jobs| == |old(jobs)|
      ensures forall k :: 0 <= k < |jobs| ==>
        jobs[k] == if Active(old(jobs)[k], Export) then old(Checked(jobs[k])) else old(jobs)[k]
    {
      hide Registry, Guarded, OwnedBy, FinishJob;
      var k := 0;
      while k < |jobs|
        invariant 0 <= k <= |jobs| && |jobs| == |old(jobs)| && Valid()
        invariant forall x :: k <= x < |jobs| ==> jobs[x] == old(jobs)[x]
        invariant forall x :: 0 <= x < k ==>
          jobs[x] == if Active(old(jobs)[x], Export) then old(Checked(jobs[x])) else old(jobs)[x]
      {
        if jobs[k].kind == Export && !Finished(jobs[k]) {
          CheckOwnership(k);
        }
        k := k + 1;
      }
      UnpauseGuarded(jobs, pause);
      TryUnpause();
    }

    // ------------------------------------------------- import: messages

    /** SYNCSLOTS SNAPSHOT-EOF; the reply is REQUEST-PAUSE. */
    method SnapshotEof(i: nat) returns (replies: bool)
      requires Valid() && i < |jobs| && InProgress(jobs[i])
      modifies `jobs, `flags, `pause
      ensures Valid() && replies == old(jobs)[i].state.ImportReceiveSnapshot?
      ensures jobs == old(jobs)[i := Advanced(old(jobs)[i], replies, ImportWaitingForPaused)]
      ensures if replies then jobs[i].state == ImportWaitingForPaused else Failing(jobs[i])
    {
      replies := Advance(i, ImportReceiveSnapshot, ImportWaitingForPaused);
    }

    /** SYNCSLOTS PAUSED; the reply is REQUEST-FAILOVER. */
    method PausedMessage(i: nat) returns (replies: bool)
      requires Valid() && i < |jobs| && InProgress(jobs[i])
      modifies `jobs, `flags, `pause
      ensures Valid() && replies == old(jobs)[i].state.ImportWaitingForPaused?
      ensures jobs == old(jobs)[i := Advanced(old(jobs)[i], replies, ImportFailoverRequested)]
      ensures if replies then jobs[i].state == ImportFailoverRequested else Failing(jobs[i])
    {
      replies := Advance(i, ImportWaitingForPaused, ImportFailoverRequested);
    }

    /** SYNCSLOTS FAILOVER-GRANTED */
    method FailoverGranted(i: nat) returns (ok: bool)
      requires Valid() && i < |jobs| && InProgress(jobs[i])
      modifies `jobs, `flags, `pause
      ensures Valid() && ok == old(jobs)[i].state.ImportFailoverRequested?
      ensures jobs == old(jobs)[i := Advanced(old(jobs)[i], ok, ImportFailoverGranted)]
      ensures if ok then jobs[i].state == ImportFailoverGranted else Failing(jobs[i])
    {
      ok := Advance(i, ImportFailoverRequested, ImportFailoverGranted);
    }

    /** The job after an expected message, or failed after any other. */
    function Advanced(j: Job, ok: bool, to: State): Job
      reads this
    {
      if ok then j.(state := to) else FinishJob(j, JobFailed, primary, loading)
    }

    method Advance(i: nat, from: State, to: State) returns (ok: bool)
      requires Valid() && i < |jobs| && InProgress(jobs[i])
      requires StateOf(Import, from) && StateOf(Import, to) && !FinishedState(from) && !FinishedState(to) && to != ImportCleaningUp
      modifies `jobs, `flags, `pause
      ensures Valid() && ok == (old(jobs)[i].state == from)
      ensures jobs == old(jobs)[i := Advanced(old(jobs)[i], ok, to)]
      ensures if ok then jobs[i].state == to else Failing(jobs[i])
    {
      hide Registry, Guarded, FinishJob;
      KnownJob(i);
      if jobs[i].state != from {
        Finish(i, JobFailed);
        return false;
      }
      SetState(i, to);
      return true;
    }

    /** SYNCSLOTS ACK */
    method AckMessage(i: nat)
      requires Valid() && i < |jobs|
      modifies `jobs
      ensures Valid()
      ensures jobs == if old(jobs)[i].state.ImportWaitAck?
        then old(jobs)[i := old(jobs)[i].(state := ImportReceiveSnapshot)] else old(jobs)
    {
      hide Registry, Guarded;
      KnownJob(i);
      if jobs[i].state == ImportWaitAck {
        SetState(i, ImportReceiveSnapshot);
      }
    }

    /** performSlotImportJobFailover: every slot of the job becomes mine. */
    method Claim(rs: seq<Range>)
      modifies `owners
      ensures forall slot :: Owner(owners, slot) == if InRanges(slot, rs) then Some(myself) else Owner(old(owners), slot)
    {
      var k := 0;
      while k < |rs|
        invariant 0 <= k <= |rs|
        invariant forall x :: Owner(owners, x) == if InRanges(x, rs[..k]) then Some(myself) else Owner(old(owners), x)
      {
        var r := rs[k];
        var slot := r.first;
        ghost var before := owners;
        while slot <= r.last
          invariant r.first <= slot
          invariant forall x: nat :: Owner(owners, x) == if InRange(x, r) && x < slot then Some(myself) else Owner(before, x)
          decreases r.last + 1 - slot
        {
          owners := owners[slot := myself];
          slot := slot + 1;
        }
        RangesSplit(rs, k + 1);
        k := k + 1;
      }
      assert rs[..k] == rs;
    }

    // ------------------------------------------------------ driving a job

    method Connect(i: nat, e: Env)
      requires Valid() && i < |jobs| && Active(jobs[i], Export) && Rank(jobs[i].state) > 0
      modifies `jobs, `flags, `pause
      ensures Valid() && jobs == old(jobs)[i := ConnectRound(old(jobs)[i], e, primary, loading)]
      ensures old(jobs)[i].state == ExportConnecting && e.connected == Some(true) ==>
        jobs[i].state == if e.auth then ExportSendAuth else ExportSendEstablish
    {
      hide Registry, Guarded, FinishJob;
      if jobs[i].state.ExportConnecting? {
        if e.connected == None {
          assert jobs == jobs[i := jobs[i]];
        } else if e.connected == Some(false) {
          Finish(i, JobFailed);
        } else {
          SetState(i, if e.auth then ExportSendAuth else ExportSendEstablish);
        }
      } else if jobs[i].state.ExportSendAuth? {
        if e.sendsAuth {
          SetState(i, ExportReadAuth);
        } else {
          Finish(i, JobFailed);
        }
      } else {
        SetState(i, ExportReadEstablish);
      }
    }

    /** The connecting states of proceedWithSlotMigration: runs until the job
        waits for a message or has failed. */
    method ProceedConnecting(i: nat, e: Env)
      requires Valid() && i < |jobs| && Active(jobs[i], Export) && Rank(jobs[i].state) > 0
      modifies `jobs, `flags, `pause
      ensures Valid() && jobs == old(jobs)[i := Connected(old(jobs)[i], e, primary, loading)]
      ensures ConnectedIn(old(jobs)[i].state, e, jobs[i].state)
    {
      hide Registry, Guarded, FinishJob, ConnectRound, Connected, ConnectedIn;
      ghost var goal := Connected(jobs[i], e, primary, loading);
      ConnectedMeans(jobs[i], e, primary, loading);
      assert jobs == jobs[i := jobs[i]];
      while Rank(jobs[i].state) > 0
        invariant Valid() && |jobs| == |old(jobs)| && jobs == old(jobs)[i := jobs[i]] && Connected(jobs[i], e, primary, loading) == goal
        invariant Rank(jobs[i].state) > 0 ==> Active(jobs[i], Export)
        decreases Rank(jobs[i].state)
      {
        RoundRank(jobs[i], e, primary, loading);
        ConnectedStep(jobs[i], e, primary, loading);
        var waits := jobs[i].state.ExportConnecting? && e.connected == None;
        Connect(i, e);
        if waits {
          return;
        }
      }
      ConnectedStep(jobs[i], e, primary, loading);
    }

    /** What driving a job makes of it. */
    ghost function Driven(j: Job, e: Env): Job
      reads this
    {
      match j.state
      case ImportFailoverGranted => if e.preventFailover then j else FinishJob(j, JobSuccess, primary, loading)
      case ImportCleaningUp => FinishJob(j, j.post, primary, loading)
      case ExportConnecting => Connected(j, e, primary, loading)
      case ExportSendAuth => Connected(j, e, primary, loading)
      case ExportSendEstablish => Connected(j, e, primary, loading)
      case ExportWaitingToSnapshot =>
        if e.busy then j
        else if e.forks then j.(state := ExportSnapshotting)
        else FinishJob(j, JobFailed, primary, loading)
      case ExportWaitingToPause => if e.mayPause then PausedJob(j, pause, timeout) else j
      case ExportPaused => Held(j)
      case ExportGranted => Held(j)
      case _ => j
    }

    /** The takeover of a granted import, which ends it in success. */
    method TakeOver(i: nat)
      requires Valid() && i < |jobs| && jobs[i].kind == Import && InProgress(jobs[i])
      modifies `jobs, `flags, `pause, `owners
      ensures Valid() && jobs == old(jobs)[i := FinishJob(old(jobs)[i], JobSuccess, primary, loading)]
      ensures jobs[i].state == JobSuccess && jobs[i].ranges == old(jobs)[i].ranges
      ensures forall slot :: InRanges(slot, jobs[i].ranges) ==> slot !in flags
      ensures forall slot :: Owner(owners, slot) == if InRanges(slot, jobs[i].ranges) then Some(myself) else Owner(old(owners), slot)
    {
      hide Registry, Guarded, InRanges, FinishJob;
      Claim(jobs[i].ranges);
      Finish(i, JobSuccess);
    }

    /** A cleaned-up import ends in the state that it was to end in. */
    method FinishCleanup(i: nat)
      requires Valid() && i < |jobs| && jobs[i].state == ImportCleaningUp
      modifies `jobs, `flags, `pause
      ensures Valid() && jobs == old(jobs)[i := FinishJob(old(jobs)[i], old(jobs)[i].post, primary, loading)]
      ensures jobs[i].state == old(jobs)[i].post && jobs[i].ranges == old(jobs)[i].ranges
      ensures forall slot :: InRanges(slot, jobs[i].ranges) ==> slot !in flags
    {
      hide Registry, Guarded, InRanges, FinishJob;
      KnownJob(i);
      Finish(i, jobs[i].post);
    }

    /** An export that waits for its snapshot starts the child when it can. */
    method BeginSnapshot(i: nat, e: Env)
      requires Valid() && i < |jobs| && jobs[i].state == ExportWaitingToSnapshot
      modifies `jobs, `flags, `pause
      ensures Valid()
      ensures jobs == if e.busy then old(jobs)
        else if e.forks then old(jobs)[i := old(jobs)[i].(state := ExportSnapshotting)]
        else old(jobs)[i := FinishJob(old(jobs)[i], JobFailed, primary, loading)]
      ensures jobs[i].state == if e.busy then ExportWaitingToSnapshot else if e.forks then ExportSnapshotting else JobFailed
    {
      hide Registry, Guarded, FinishJob;
      KnownJob(i);
      if e.busy {
        return;
      }
      if e.forks {
        SetState(i, ExportSnapshotting);
      } else {
        Finish(i, JobFailed);
      }
    }

    /** proceedWithSlotMigration; a granted import takes its slots over. */
    method Proceed(i: nat, e: Env)
      requires Valid() && i < |jobs|
      modifies `jobs, `flags, `pause, `owners
      ensures Valid() && jobs == old(jobs)[i := old(Driven(jobs[i], e))]
      ensures owners != old(owners) ==> old(jobs)[i].state.ImportFailoverGranted? && !e.preventFailover
      ensures old(jobs)[i].state.ImportFailoverGranted? && !e.preventFailover ==> OwnedBy(owners, jobs[i].ranges, myself)
      ensures forall slot :: !InRanges(slot, jobs[i].ranges) ==> Owner(owners, slot) == Owner(old(owners), slot)
      ensures var was, now := old(jobs)[i].state, jobs[i].state;
        && (was == ImportFailoverGranted ==> now == if e.preventFailover then was else JobSuccess)
        && (was == ImportCleaningUp ==> now == old(jobs)[i].post)
        && ((was == ImportFailoverGranted && !e.preventFailover) || was == ImportCleaningUp ==>
              forall slot :: InRanges(slot, jobs[i].ranges) ==> slot !in flags)
        && (was == ExportConnecting || was == ExportSendAuth || was == ExportSendEstablish ==> ConnectedIn(was, e, now))
        && (was == ExportWaitingToSnapshot ==> now == if e.busy then was else if e.forks then ExportSnapshotting else JobFailed)
        && (was == ExportWaitingToPause ==> now == if e.mayPause then ExportPaused else was)
        && (was == ExportPaused || was == ExportGranted ==> HeldIn(old(jobs)[i], old(pause), old(owners), myself, now))
    {
      hide Registry, Guarded, InRanges, FinishJob, Connected, Held, ConnectedIn, HeldIn;
      KnownJob(i);
      FinishRanges(jobs[i], JobSuccess);
      match jobs[i].state {
        case ImportFailoverGranted =>
          if !e.preventFailover {
            TakeOver(i);
          }
        case ImportCleaningUp => FinishCleanup(i);
        case ExportConnecting => ProceedConnecting(i, e);
        case ExportSendAuth => ProceedConnecting(i, e);
        case ExportSendEstablish => ProceedConnecting(i, e);
        case ExportWaitingToSnapshot => BeginSnapshot(i, e);
        case ExportWaitingToPause => var _ := TryDoPause(i, e.mayPause);
        case ExportPaused => ProceedHolding(i);
        case ExportGranted => ProceedHolding(i);
        case _ =>
      }
    }

    lemma FinishRanges(j: Job, s: State)
      ensures FinishJob(j, s, primary, loading).ranges == j.ranges
    {
    }

    /** Reading the reply to AUTH or ESTABLISH. */
    method ReadReply(i: nat, ok: bool)
      requires Valid() && i < |jobs| && (jobs[i].state.ExportReadAuth? || jobs[i].state.ExportReadEstablish?)
      modifies `jobs, `flags, `pause
      ensures Valid()
      ensures jobs == old(jobs)[i := Advanced(old(jobs)[i], ok,
        if old(jobs)[i].state.ExportReadAuth? then ExportSendEstablish else ExportWaitingToSnapshot)]
      ensures !ok ==> jobs[i].state == JobFailed
      ensures ok && old(jobs)[i].state == ExportReadAuth ==> jobs[i].state == ExportSendEstablish
      ensures ok && old(jobs)[i].state == ExportReadEstablish ==> jobs[i].state == ExportWaitingToSnapshot
    {
      hide Registry, Guarded;
      KnownJob(i);
      if !ok {
        Finish(i, JobFailed);
      } else {
        SetState(i, if jobs[i].state.ExportReadAuth? then ExportSendEstablish else ExportWaitingToSnapshot);
      }
    }

    function AfterChild(j: Job, ok: bool): Job
      reads this
    {
      if !j.state.ExportSnapshotting? then j
      else if ok then j.(state := ExportStreaming)
      else FinishJob(j, JobFailed, primary, loading)
    }

    /** backgroundSlotMigrationDoneHandler */
    method ChildDone(ok: bool)
      requires Valid()
      modifies `jobs, `flags, `pause
      ensures Valid() && |jobs| == |old(jobs)|
      ensures forall k :: 0 <= k < |jobs| ==> jobs[k] == AfterChild(old(jobs)[k], ok)
      ensures forall k :: 0 <= k < |jobs| ==>
        if old(jobs)[k].state == ExportSnapshotting then jobs[k].state == (if ok then ExportStreaming else JobFailed)
        else jobs[k] == old(jobs)[k]
    {
      hide Registry, Guarded, FinishJob;
      var k := 0;
      while k < |jobs|
        invariant 0 <= k <= |jobs| && |jobs| == |old(jobs)| && Valid()
        invariant forall x :: k <= x < |jobs| ==> jobs[x] == old(jobs)[x]
        invariant forall x :: 0 <= x < k ==> jobs[x] == AfterChild(old(jobs)[x], ok)
        invariant forall x :: 0 <= x < k && old(jobs)[x].state == ExportSnapshotting ==>
          jobs[x].state == if ok then ExportStreaming else JobFailed
      {
        KnownJob(k);
        if jobs[k].state == ExportSnapshotting {
          if ok {
            SetState(k, ExportStreaming);
          } else {
            Finish(k, JobFailed);
          }
        }
        k := k + 1;
      }
    }

    function AfterAll(j: Job, exports: bool, imports: bool, s: State): Job
      reads this
    {
      if InProgress(j) && (if j.kind == Export then exports else imports) then FinishJob(j, s, primary, loading) else j
    }

    /** Finishing every job in progress of the given kinds: a flush fails all, a
        cancellation cancels exports, a load or promotion fails imports. */
    method FinishAll(exports: bool, imports: bool, s: State)
      requires Valid() && FinishedState(s)
      modifies `jobs, `flags, `pause
      ensures Valid() && |jobs| == |old(jobs)|
      ensures forall k :: 0 <= k < |jobs| ==> jobs[k] == AfterAll(old(jobs)[k], exports, imports, s)
      ensures forall k :: 0 <= k < |jobs| && old(jobs)[k].kind == Export && InProgress(old(jobs)[k]) && exports ==> jobs[k].state == s
      ensures forall k :: 0 <= k < |jobs| && old(jobs)[k].kind == Import && InProgress(old(jobs)[k]) && imports ==>
        jobs[k].state == s || (jobs[k].state == ImportCleaningUp && jobs[k].post == s)
      ensures forall k :: 0 <= k < |jobs| && !(if old(jobs)[k].kind == Export then exports else imports) ==> jobs[k] == old(jobs)[k]
    {
      hide Registry, Guarded, FinishJob;
      var k := 0;
      while k < |jobs|
        invariant 0 <= k <= |jobs| && |jobs| == |old(jobs)| && Valid()
        invariant forall x :: k <= x < |jobs| ==> jobs[x] == old(jobs)[x]
        invariant forall x :: 0 <= x < k ==> jobs[x] == AfterAll(old(jobs)[x], exports, imports, s)
      {
        if InProgress(jobs[k]) && (if jobs[k].kind == Export then exports else imports) {
          Finish(k, s);
        }
        k := k + 1;
      }
      forall x | 0 <= x < |jobs|
        ensures var j := FinishJob(old(jobs)[x], s, primary, loading);
          j.state == s || (old(jobs)[x].kind == Import && j.state == ImportCleaningUp && j.post == s)
      {
        EndsIn(old(jobs)[x], s);
      }
    }

    lemma EndsIn(j: Job, s: State)
      ensures var r := FinishJob(j, s, primary, loading);
        r.state == s || (j.kind == Import && r.state == ImportCleaningUp && r.post == s)
    {
    }

    /** clusterHandleSlotMigrationClientClose: a granted export stays, so that
        writes remain paused until the takeover is known. */
    method ClientClosed(i: nat)
      requires Valid() && i < |jobs|
      modifies `jobs, `flags, `pause
      ensures Valid()
      ensures var j := old(jobs)[i];
        if !InProgress(j) || j.tracking || j.state.ExportGranted? then jobs == old(jobs) && pause == old(pause)
        else jobs == old(jobs)[i := FinishJob(j, JobFailed, primary, loading)] && Failing(jobs[i])
    {
      hide Registry, Guarded, FinishJob;
      if !InProgress(jobs[i]) || jobs[i].tracking {
        return;
      }
      if !jobs[i].state.ExportGranted? {
        Finish(i, JobFailed);
      }
    }

    /** clusterCleanupSlotMigrationLog */
    method CleanupLog(max: nat)
      requires Valid()
      modifies `jobs
      ensures Valid() && |jobs| <= |old(jobs)| && (|jobs| >= max || jobs == old(jobs))
      ensures forall j :: j in old(jobs) && !Finished(j) ==> j in jobs
      ensures |jobs| > max ==> forall k :: 0 <= k < |jobs| ==> !Finished(jobs[k])
    {
      hide Registry, Guarded;
      var k := |jobs|;
      while |jobs| > max && k > 0
        invariant 0 <= k <= |jobs| <= |old(jobs)| && Valid() && (|jobs| >= max || jobs == old(jobs))
        invariant forall j :: j in old(jobs) && !Finished(j) ==> j in jobs
        invariant forall x :: k <= x < |jobs| ==> !Finished(jobs[x])
        decreases k
      {
        k := k - 1;
        if Finished(jobs[k]) {
          DropKeeps(jobs, flags, k);
          DropGuarded(jobs, pause, k);
          ghost var before := jobs;
          jobs := jobs[..k] + jobs[k + 1..];
          KeepsOthers(before, k);
        }
      }
    }

    // -------------------------------------------------------- new jobs

    /** validateSlotMigrationCanStartOrReply */
    method CanStart(modulesAllow: bool) returns (ok: bool)
      ensures ok <==> modulesAllow && primary && manual == {}
    {
      if !modulesAllow {
        return false;
      }
      if !primary {
        return false;
      }
      return manual == {};
    }

    /** CLUSTER MIGRATESLOTS on its parsed requests: all of them become exports
        or none, and they do exactly when a migration can start, this node serves
        the slots, none is being exported or requested twice, and each target is
        another node. */
    method MigrateSlots(reqs: seq<Request>, modulesAllow: bool) returns (ok: bool)
      requires Valid() && forall k :: 0 <= k < |reqs| ==> AllProper(reqs[k].ranges) && reqs[k].ranges != []
      modifies `jobs
      ensures Valid()
      ensures ok <==> modulesAllow && primary && manual == {} && Requested(old(jobs), myself, reqs, |reqs|)
      ensures jobs == if ok then Exports(reqs, |reqs|) + old(jobs) else old(jobs)
      ensures ok ==> forall k :: 0 <= k < |reqs| ==>
        && jobs[k].kind == Export && jobs[k].state == ExportConnecting && jobs[k].ranges == reqs[k].ranges
        && Some(jobs[k].peer) == reqs[k].target && jobs[k].mfEnd == 0
    {
      hide Registry, Guarded, Free, Disjoint;
      ok := CanStart(modulesAllow);
      if !ok {
        return;
      }
      var k := 0;
      while k < |reqs|
        invariant 0 <= k <= |reqs| && jobs == old(jobs) && Requested(jobs, myself, reqs, k)
      {
        ok := CheckRequest(reqs, k);
        if !ok {
          RequestedPrefix(jobs, myself, reqs, k + 1);
          return;
        }
        k := k + 1;
      }
      AddExports(jobs, flags, pause, myself, reqs, |reqs|);
      jobs := Exports(reqs, |reqs|) + jobs;
      return true;
    }

    method CheckRequest(reqs: seq<Request>, k: nat) returns (ok: bool)
      requires Valid() && k < |reqs| && Requested(jobs, myself, reqs, k)
      requires forall k :: 0 <= k < |reqs| ==> AllProper(reqs[k].ranges) && reqs[k].ranges != []
      ensures ok <==> Requested(jobs, myself, reqs, k + 1)
    {
      hide Registry, Guarded, InRanges;
      if reqs[k].owner != myself {
        return false;
      }
      var free := SlotsFree(Export, reqs[k].ranges);
      if !free {
        return false;
      }
      var j := 0;
      while j < k
        invariant 0 <= j <= k && forall x :: 0 <= x < j ==> Disjoint(reqs[x].ranges, reqs[k].ranges)
      {
        var overlap := ListsOverlap(reqs[j].ranges, reqs[k].ranges);
        if overlap {
          return false;
        }
        j := j + 1;
      }
      return reqs[k].target.Some? && reqs[k].target.value != myself;
    }

    /** Whether no slot of the ranges has an unfinished job of the kind. */
    method SlotsFree(kind: Kind, rs: seq<Range>) returns (free: bool)
      requires Valid()
      ensures free <==> Free(jobs, kind, rs)
    {
      hide Registry, Guarded;
      var k := 0;
      while k < |rs|
        invariant 0 <= k <= |rs| && forall slot :: InRanges(slot, rs[..k]) ==> !SlotIn(jobs, kind, slot)
      {
        var r := rs[k];
        var slot := r.first;
        while slot <= r.last
          invariant r.first <= slot && forall x: nat :: InRange(x, r) && x < slot ==> !SlotIn(jobs, kind, x)
          decreases r.last + 1 - slot
        {
          if SlotIn(jobs, kind, slot) {
            assert InRange(slot, rs[k]) && InRanges(slot, rs);
            return false;
          }
          slot := slot + 1;
        }
        RangesSplit(rs, k + 1);
        k := k + 1;
      }
      assert rs[..k] == rs;
      return true;
    }

    /** SYNCSLOTS ESTABLISH on its parsed fields: the slots become flagged and
        the import is registered exactly when no slot is being imported and,
        unless it only tracks another node, a migration can start and the source
        owns the slots. */
    method Establish(name: nat, rs: seq<Range>, owner: nat, source: Option<nat>, tracking: bool, modulesAllow: bool)
      returns (ok: bool)
      requires Valid() && AllProper(rs) && rs != []
      modifies `jobs, `flags
      ensures Valid()
      ensures ok <==> Free(old(jobs), Import, rs)
                      && (tracking || (modulesAllow && primary && manual == {} && source == Some(owner) && owner != myself))
      ensures jobs == if ok then [ImportJob(name, rs, if tracking then None else source)] + old(jobs) else old(jobs)
      ensures flags == if ok then old(flags) + Slots(rs) else old(flags)
      ensures ok ==> jobs[0].kind == Import && jobs[0].ranges == rs && jobs[0].tracking == tracking
      ensures ok ==> jobs[0].state == if tracking then ImportOccurringOnPrimary else ImportWaitAck
      ensures ok && !tracking ==> Some(jobs[0].peer) == source
    {
      hide Registry, Guarded, Free, Slots;
      if !tracking {
        ok := CanStart(modulesAllow);
        if !ok {
          return;
        }
      }
      if !tracking && (source.None? || source.value == myself) {
        return false;
      }
      var free := SlotsFree(Import, rs);
      if !free {
        return false;
      }
      if !tracking && source.value != owner {
        return false;
      }
      var j := ImportJob(name, rs, if tracking then None else source);
      AddImportKeeps(jobs, flags, j);
      AddGuarded(jobs, pause, j);
      flags := flags + Slots(rs);
      jobs := [j] + jobs;
      return true;
    }

    /** An import under the current owners: a demoted node only tracks it; on a
        primary it stays while its source owns the slots. When the slots came to
        this node itself it is finished twice, which skips the cleanup. */
    ghost function Updated(j: Job): Job
      reads this
    {
      if !primary then
        if j.state.ImportOccurringOnPrimary? then j else j.(state := ImportOccurringOnPrimary, tracking := true)
      else if j.peer == 0 || OwnedBy(owners, j.ranges, j.peer) then j
      else if OwnedBy(owners, j.ranges, myself) then
        FinishJob(FinishJob(j, JobFailed, primary, loading), JobFailed, primary, loading)
      else FinishJob(j, JobFailed, primary, loading)
    }

    /** clusterUpdateSlotImportsOnOwnershipChange */
    method ImportsOnOwnershipChange()
      requires Valid()
      modifies `jobs, `flags, `pause
      ensures Valid() && |jobs| == |old(jobs)|
      ensures forall k :: 0 <= k < |jobs| ==>
        jobs[k] == if old(jobs)[k].kind == Import && InProgress(old(jobs)[k]) then old(Updated(jobs[k])) else old(jobs)[k]
    {
      hide Registry, Guarded, Free, OwnedBy, FinishJob;
      var k := 0;
      while k < |jobs|
        invariant 0 <= k <= |jobs| && |jobs| == |old(jobs)| && Valid()
        invariant forall x :: k <= x < |jobs| ==> jobs[x] == old(jobs)[x]
        invariant forall x :: 0 <= x < k ==>
          jobs[x] == if old(jobs)[x].kind == Import && InProgress(old(jobs)[x]) then old(Updated(jobs[x])) else old(jobs)[x]
      {
        if jobs[k].kind == Import && InProgress(jobs[k]) {
          UpdateImport(k);
        }
        k := k + 1;
      }
    }

    method UpdateImport(k: nat)
      requires Valid() && k < |jobs| && jobs[k].kind == Import && InProgress(jobs[k])
      modifies `jobs, `flags, `pause
      ensures Valid() && jobs == old(jobs)[k := old(Updated(jobs[k]))]
      ensures !primary ==> jobs[k].state == ImportOccurringOnPrimary
      ensures primary && (old(jobs)[k].peer == 0 || OwnedBy(owners, old(jobs)[k].ranges, old(jobs)[k].peer)) ==> jobs == old(jobs)
      ensures primary && old(jobs)[k].peer != 0 && !OwnedBy(owners, old(jobs)[k].ranges, old(jobs)[k].peer) ==>
        if OwnedBy(owners, old(jobs)[k].ranges, myself) then jobs[k].state == JobFailed else Failing(jobs[k])
    {
      hide Registry, Guarded, Free, OwnedBy;
      KnownJob(k);
      if !primary {
        if !jobs[k].state.ImportOccurringOnPrimary? {
          var j := jobs[k].(state := ImportOccurringOnPrimary, tracking := true);
          ReplaceKeeps(jobs, flags, k, j);
          JobKeeps(jobs, pause, k, j);
          jobs := jobs[k := j];
        } else {
          assert jobs == jobs[k := jobs[k]];
        }
        return;
      }
      // A job without a source node.
      if jobs[k].peer == 0 {
        assert jobs == jobs[k := jobs[k]];
        return;
      }
      var n := OwnerOf(jobs[k].ranges);
      if n == Some(jobs[k].peer) {
        assert jobs == jobs[k := jobs[k]];
        return;
      }
      if n == Some(myself) {
        FinishedIsFree(k, JobFailed);
        Finish(k, JobFailed);
      }
      Finish(k, JobFailed);
    }

    /** Once an import has ended its slots are free. */
    lemma FinishedIsFree(i: nat, s: State)
      requires Valid() && i < |jobs| && Active(jobs[i], Import) && FinishedState(s)
      ensures var j := FinishJob(jobs[i], s, primary, loading);
        Finished(j) ==> Free(jobs[i := j], Import, j.ranges)
    {
      var j := FinishJob(jobs[i], s, primary, loading);
      if Finished(j) {
        forall slot: nat | InRanges(slot, j.ranges)
          ensures !SlotIn(jobs[i := j], Import, slot)
        {
          SlotsWithout(jobs, i, j, Import, slot);
        }
      }
    }

    // ------------------------------------------------ writes and the clock

    /** A client write is accepted exactly when no pause is in force. */
    method AcceptWrite() returns (accepted: bool)
      requires Valid()
      modifies `jobs
      ensures Valid() && accepted == !pause.effective
      ensures jobs == if accepted then Written(old(jobs)) else old(jobs)
    {
      hide Registry, Guarded;
      if pause.effective {
        return false;
      }
      WriteKeeps(jobs, pause);
      WrittenRegistry(jobs, flags);
      jobs := Written(jobs);
      return true;
    }

    method Tick(now: int, refresh: bool)
      requires Valid() && now >= pause.now
      modifies `pause
      ensures Valid() && pause == old(pause).(now := now, cached := if refresh then now else old(pause).cached)
    {
      hide Registry, Guarded;
      ClocksInOrder(jobs, pause);
      ClocksKeep(jobs, pause, now, if refresh then now else pause.cached);
      pause := pause.(now := now, cached := if refresh then now else pause.cached);
    }

    /** updatePausedActions from the event loop */
    method RefreshPause()
      requires Valid()
      modifies `pause
      ensures Valid() && pause == UpdatePaused(old(pause))
    {
      hide Registry, Guarded;
      UpdateKeeps(jobs, pause);
      pause := UpdatePaused(pause);
    }
  }

  lemma ClocksInOrder(jobs: seq<Job>, p: Pause)
    requires Guarded(jobs, p)
    ensures 0 < p.cached <= p.now
  {
  }

  lemma PauseClocks(p: Pause, end: int)
    ensures PauseUntil(p, end).now == p.now && PauseUntil(p, end).cached == p.cached
  {
  }

  lemma FinishIs(j: Job, flags: set<nat>, s: State, primary: bool, loading: bool)
    ensures j.kind == Export ==>
      FinishJob(j, s, primary, loading) == j.(mfEnd := 0, state := s) && FinishFlags(flags, j, s, primary, loading) == flags
    ensures j.kind == Import && NeedsCleanup(j, s, primary, loading) ==>
      FinishJob(j, s, primary, loading) == j.(post := s, state := ImportCleaningUp)
      && FinishFlags(flags, j, s, primary, loading) == flags
    ensures j.kind == Import && !NeedsCleanup(j, s, primary, loading) ==>
      FinishJob(j, s, primary, loading) == j.(state := s)
      && FinishFlags(flags, j, s, primary, loading) == flags - Slots(j.ranges)
  {
    hide Slots;
  }

  /** Finishing a job leaves the other deadlines covered. */
  lemma FinishGuarded(jobs: seq<Job>, p: Pause, i: nat, s: State, primary: bool, loading: bool)
    requires Guarded(jobs, p) && i < |jobs| && FinishedState(s) && Typed(jobs[i])
    ensures var r := jobs[i := FinishJob(jobs[i], s, primary, loading)];
      && Guarded(r, p)
      && (NoDeadline(jobs[i := jobs[i].(mfEnd := 0)]) && jobs[i].kind == Export ==> Guarded(r, Unpause(p)))
  {
    var j := FinishJob(jobs[i], s, primary, loading);
    var r := jobs[i := j];
    assert JobPaused(jobs[i], p);
    JobKeeps(jobs, p, i, j);
    var cleared := jobs[i := jobs[i].(mfEnd := 0)];
    if NoDeadline(cleared) && jobs[i].kind == Export {
      assert forall k :: 0 <= k < |r| ==> r[k].mfEnd == cleared[k].mfEnd;
      UnpauseKeeps(r, p);
    }
  }

  lemma UnpauseGuarded(jobs: seq<Job>, p: Pause)
    requires Guarded(jobs, p)
    ensures NoDeadline(jobs) ==> Guarded(jobs, Unpause(p))
  {
    if NoDeadline(jobs) {
      UnpauseKeeps(jobs, p);
    }
  }

  lemma DropGuarded(jobs: seq<Job>, p: Pause, k: nat)
    requires Guarded(jobs, p) && k < |jobs|
    ensures Guarded(jobs[..k] + jobs[k + 1..], p)
  {
    var r := jobs[..k] + jobs[k + 1..];
    assert forall x :: 0 <= x < |r| ==> r[x] == jobs[if x < k then x else x + 1];
  }

  lemma KeepsOthers(jobs: seq<Job>, k: nat)
    requires k < |jobs|
    ensures var r := jobs[..k] + jobs[k + 1..];
      && (forall j :: j in jobs && j != jobs[k] ==> j in r)
      && (forall x :: k <= x < |r| ==> r[x] == jobs[x + 1])
  {
    var r := jobs[..k] + jobs[k + 1..];
    forall j | j in jobs && j != jobs[k]
      ensures j in r
    {
      var x :| 0 <= x < |jobs| && jobs[x] == j;
      assert r[if x < k then x else x - 1] == j;
    }
  }

  lemma WrittenRegistry(jobs: seq<Job>, flags: set<nat>)
    requires Registry(jobs, flags)
    ensures Registry(Written(jobs), flags)
  {
    hide InRanges;
    var r := Written(jobs);
    forall slot: nat
      ensures SlotIn(r, Import, slot) <==> SlotIn(jobs, Import, slot)
    {
      if SlotIn(jobs, Import, slot) {
        var k :| 0 <= k < |jobs| && Active(jobs[k], Import) && InRanges(slot, jobs[k].ranges);
        assert Active(r[k], Import) && InRanges(slot, r[k].ranges);
      }
      if SlotIn(r, Import, slot) {
        var k :| 0 <= k < |r| && Active(r[k], Import) && InRanges(slot, r[k].ranges);
        assert Active(jobs[k], Import) && InRanges(slot, jobs[k].ranges);
      }
    }
  }

  lemma RequestedPrefix(jobs: seq<Job>, myself: nat, reqs: seq<Request>, n: nat)
    requires n <= |reqs|
    ensures Requested(jobs, myself, reqs, |reqs|) ==> Requested(jobs, myself, reqs, n)
  {
    hide Free, Disjoint;
  }

  lemma AddGuarded(jobs: seq<Job>, p: Pause, j: Job)
    requires Guarded(jobs, p) && j.mfEnd == 0 && !Holding(j)
    ensures Guarded([j] + jobs, p)
  {
    var a := [j] + jobs;
    assert forall i :: 0 < i < |a| ==> a[i] == jobs[i - 1];
  }

  /** The requests from the last to the first are put at the head. */
  lemma {:induction false} AddExports(jobs: seq<Job>, flags: set<nat>, p: Pause, myself: nat, reqs: seq<Request>, n: nat)
    requires n <= |reqs| && Registry(jobs, flags) && Guarded(jobs, p) && Requested(jobs, myself, reqs, n)
    requires forall k :: 0 <= k < n ==> AllProper(reqs[k].ranges) && reqs[k].ranges != []
    ensures Registry(Exports(reqs, n) + jobs, flags) && Guarded(Exports(reqs, n) + jobs, p)
    decreases n
  {
    hide Registry, Guarded;
    if n == 0 {
      assert Exports(reqs, n) + jobs == jobs;
    } else {
      var last := ExportJob(reqs[n - 1]);
      AddExportKeeps(jobs, flags, last);
      AddGuarded(jobs, p, last);
      StillRequested(jobs, myself, reqs, n);
      AddExports([last] + jobs, flags, p, myself, reqs, n - 1);
      assert Exports(reqs, n - 1) + ([last] + jobs) == Exports(reqs, n) + jobs;
    }
  }

  lemma StillRequested(jobs: seq<Job>, myself: nat, reqs: seq<Request>, n: nat)
    requires 0 < n <= |reqs| && Requested(jobs, myself, reqs, n)
    ensures Requested([ExportJob(reqs[n - 1])] + jobs, myself, reqs, n - 1)
  {
    hide InRanges;
    var last := ExportJob(reqs[n - 1]);
    forall k | 0 <= k < n - 1
      ensures Free([last] + jobs, Export, reqs[k].ranges)
    {
      assert Disjoint(reqs[k].ranges, reqs[n - 1].ranges) && Free(jobs, Export, reqs[k].ranges);
      forall slot: nat | InRanges(slot, reqs[k].ranges)
        ensures !SlotIn([last] + jobs, Export, slot)
      {
        SlotInAdded(jobs, last, Export, slot);
      }
    }
  }
}

/** Slot migration jobs and the registry that holds them
    (src/cluster_migrateslots.c). */
module MigrationJobs {
  import opened Common

  // ---------------------------------------------------------------- ranges

  datatype Range = Range(first: nat, last: nat)

  predicate InRange(slot: nat, r: Range) { r.first <= slot <= r.last }

  /** isSlotInSlotRanges */
  predicate InRanges(slot: nat, rs: seq<Range>) { exists k :: 0 <= k < |rs| && InRange(slot, rs[k]) }

  predicate Proper(r: Range) { r.first <= r.last < SLOTS }

  ghost predicate AllProper(rs: seq<Range>) { forall k :: 0 <= k < |rs| ==> Proper(rs[k]) }

  /** doSlotRangesOverlap */
  predicate Overlap(a: Range, b: Range) { a.last >= b.first && a.first <= b.last }

  /** Two ranges overlap exactly when they share a slot. */
  lemma OverlapIff(a: Range, b: Range)
    requires Proper(a) && Proper(b)
    ensures Overlap(a, b) <==> exists slot :: InRange(slot, a) && InRange(slot, b)
  {
    if Overlap(a, b) {
      var slot := if a.first <= b.first then b.first else a.first;
      assert InRange(slot, a) && InRange(slot, b);
    }
  }

  ghost predicate Disjoint(a: seq<Range>, b: seq<Range>) { forall slot :: !(InRanges(slot, a) && InRanges(slot, b)) }

  /** doSlotRangeListsOverlap */
  method ListsOverlap(a: seq<Range>, b: seq<Range>) returns (yes: bool)
    requires AllProper(a) && AllProper(b)
    ensures yes <==> !Disjoint(a, b)
  {
    var i := 0;
    while i < |a|
      invariant 0 <= i <= |a|
      invariant forall x, y :: 0 <= x < i && 0 <= y < |b| ==> !Overlap(a[x], b[y])
    {
      var j := 0;
      while j < |b|
        invariant 0 <= j <= |b|
        invariant forall y :: 0 <= y < j ==> !Overlap(a[i], b[y])
      {
        if Overlap(a[i], b[j]) {
          OverlapIff(a[i], b[j]);
          var slot: nat :| InRange(slot, a[i]) && InRange(slot, b[j]);
          assert InRanges(slot, a) && InRanges(slot, b);
          return true;
        }
        j := j + 1;
      }
      i := i + 1;
    }
    forall slot: nat
      ensures !(InRanges(slot, a) && InRanges(slot, b))
    {
      if InRanges(slot, a) && InRanges(slot, b) {
        var x :| 0 <= x < |a| && InRange(slot, a[x]);
        var y :| 0 <= y < |b| && InRange(slot, b[y]);
        assert Overlap(a[x], b[y]);
      }
    }
    return false;
  }

  // ------------------------------------------------------------------ jobs

  datatype Kind = Export | Import

  datatype State =
    | ImportWaitAck | ImportReceiveSnapshot | ImportWaitingForPaused | ImportFailoverRequested
    | ImportFailoverGranted | ImportCleaningUp | ImportOccurringOnPrimary
    | ExportConnecting | ExportSendAuth | ExportReadAuth | ExportSendEstablish | ExportReadEstablish
    | ExportWaitingToSnapshot | ExportSnapshotting | ExportStreaming | ExportWaitingToPause
    | ExportPaused | ExportGranted
    | JobFailed | JobCancelled | JobSuccess

  /** A job: `peer` is the target of an export and the source of an import, 0 if
      there is none (nodes are numbered from 1); a tracking job follows a
      migration that runs elsewhere. `written` records
      that a write was accepted since the job told its target of the pause. */
  datatype Job = Job(name: nat, kind: Kind, state: State, ranges: seq<Range>, mfEnd: int, post: State, peer: nat,
                     tracking: bool, written: bool)

  /** isSlotMigrationJobFinished */
  predicate FinishedState(s: State) { s.JobFailed? || s.JobCancelled? || s.JobSuccess? }

  predicate Finished(j: Job) { FinishedState(j.state) }

  /** isSlotMigrationJobInProgress */
  predicate InProgress(j: Job) { j.state != ImportCleaningUp && !Finished(j) }

  predicate StateOf(k: Kind, s: State) {
    || FinishedState(s)
    || (k == Import && (s.ImportWaitAck? || s.ImportReceiveSnapshot? || s.ImportWaitingForPaused?
                        || s.ImportFailoverRequested? || s.ImportFailoverGranted? || s.ImportCleaningUp?
                        || s.ImportOccurringOnPrimary?))
    || (k == Export && (s.ExportConnecting? || s.ExportSendAuth? || s.ExportReadAuth? || s.ExportSendEstablish?
                        || s.ExportReadEstablish? || s.ExportWaitingToSnapshot? || s.ExportSnapshotting?
                        || s.ExportStreaming? || s.ExportWaitingToPause? || s.ExportPaused? || s.ExportGranted?))
  }

  predicate Active(j: Job, k: Kind) { j.kind == k && !Finished(j) }

  ghost predicate Typed(j: Job) {
    StateOf(j.kind, j.state) && AllProper(j.ranges) && j.ranges != []
    && (j.state == ImportCleaningUp ==> FinishedState(j.post))
  }

  /** clusterIsSlotImporting and clusterIsSlotExporting */
  predicate SlotIn(jobs: seq<Job>, k: Kind, slot: nat) {
    exists i :: 0 <= i < |jobs| && Active(jobs[i], k) && InRanges(slot, jobs[i].ranges)
  }

  ghost predicate PairwiseDisjoint(jobs: seq<Job>, k: Kind) {
    forall i, j :: 0 <= i < j < |jobs| && Active(jobs[i], k) && Active(jobs[j], k) ==>
      Disjoint(jobs[i].ranges, jobs[j].ranges)
  }

  /** Types agree with states, unfinished jobs of a kind are disjoint, and the
      importing flags mark exactly the slots being imported. */
  ghost predicate Registry(jobs: seq<Job>, flags: set<nat>) {
    && (forall i :: 0 <= i < |jobs| ==> Typed(jobs[i]))
    && PairwiseDisjoint(jobs, Export)
    && PairwiseDisjoint(jobs, Import)
    && (forall slot :: slot in flags <==> SlotIn(jobs, Import, slot))
  }

  function RangeSlots(r: Range): (s: set<nat>)
    ensures forall slot :: slot in s <==> InRange(slot, r)
    decreases r.last + 1 - r.first
  {
    if r.first > r.last then {} else {r.first} + RangeSlots(Range(r.first + 1, r.last))
  }

  /** setSlotImportingStateInAllDbs */
  function Flagged(rs: seq<Range>, n: nat): (s: set<nat>)
    requires n <= |rs|
    ensures forall slot :: slot in s <==> InRanges(slot, rs[..n])
  {
    if n == 0 then {}
    else
      var rest := Flagged(rs, n - 1);
      assert forall slot :: InRanges(slot, rs[..n]) <==> InRanges(slot, rs[..n - 1]) || InRange(slot, rs[n - 1]) by {
        RangesSplit(rs, n);
      }
      rest + RangeSlots(rs[n - 1])
  }

  lemma RangesSplit(rs: seq<Range>, n: nat)
    requires 0 < n <= |rs|
    ensures forall slot :: InRanges(slot, rs[..n]) <==> InRanges(slot, rs[..n - 1]) || InRange(slot, rs[n - 1])
  {
    forall slot: nat
      ensures InRanges(slot, rs[..n]) <==> InRanges(slot, rs[..n - 1]) || InRange(slot, rs[n - 1])
    {
      if InRanges(slot, rs[..n - 1]) {
        var k :| 0 <= k < n - 1 && InRange(slot, rs[..n - 1][k]);
        assert InRange(slot, rs[..n][k]);
      }
      if InRange(slot, rs[n - 1]) {
        assert InRange(slot, rs[..n][n - 1]);
      }
      if InRanges(slot, rs[..n]) {
        var k :| 0 <= k < n && InRange(slot, rs[..n][k]);
        assert k < n - 1 ==> InRange(slot, rs[..n - 1][k]);
      }
    }
  }

  function Slots(rs: seq<Range>): (s: set<nat>)
    ensures forall slot :: slot in s <==> InRanges(slot, rs)
  {
    assert rs[..|rs|] == rs;
    Flagged(rs, |rs|)
  }

  // ------------------------------------------------------- registry steps

  /** A job changes within its life: same kind, same slots, same finishedness. */
  lemma ReplaceKeeps(jobs: seq<Job>, flags: set<nat>, i: nat, j: Job)
    requires Registry(jobs, flags) && i < |jobs| && Typed(j)
    requires j.kind == jobs[i].kind && j.ranges == jobs[i].ranges && (Finished(j) <==> Finished(jobs[i]))
    ensures Registry(jobs[i := j], flags)
  {
    hide InRanges, Typed;
    var r := jobs[i := j];
    forall slot: nat
      ensures SlotIn(r, Import, slot) <==> SlotIn(jobs, Import, slot)
    {
      if SlotIn(jobs, Import, slot) {
        var k :| 0 <= k < |jobs| && Active(jobs[k], Import) && InRanges(slot, jobs[k].ranges);
        assert Active(r[k], Import) && InRanges(slot, r[k].ranges);
      }
      if SlotIn(r, Import, slot) {
        var k :| 0 <= k < |r| && Active(r[k], Import) && InRanges(slot, r[k].ranges);
        assert Active(jobs[k], Import) && InRanges(slot, jobs[k].ranges);
      }
    }
  }

  /** finishSlotMigrationJob on the jobs and flags: a failed import on a primary
      is cleaned up first. */
  predicate NeedsCleanup(j: Job, s: State, primary: bool, loading: bool) {
    j.kind == Import && primary && j.state != ImportCleaningUp && !loading && s != JobSuccess
  }

  function FinishJob(j: Job, s: State, primary: bool, loading: bool): Job {
    var k := if j.kind == Export then j.(mfEnd := 0) else j;
    if NeedsCleanup(j, s, primary, loading) then k.(post := s, state := ImportCleaningUp) else k.(state := s)
  }

  function FinishFlags(flags: set<nat>, j: Job, s: State, primary: bool, loading: bool): set<nat> {
    if j.kind == Import && !NeedsCleanup(j, s, primary, loading) then flags - Slots(j.ranges) else flags
  }

  /** The active jobs after job i has become inactive. */
  lemma SlotsWithout(jobs: seq<Job>, i: nat, j: Job, k: Kind, slot: nat)
    requires i < |jobs| && j.kind == jobs[i].kind && Finished(j) && PairwiseDisjoint(jobs, k)
    ensures SlotIn(jobs[i := j], k, slot) <==>
      SlotIn(jobs, k, slot) && !(Active(jobs[i], k) && InRanges(slot, jobs[i].ranges))
  {
    hide InRanges;
    var r := jobs[i := j];
    if SlotIn(r, k, slot) {
      var x :| 0 <= x < |r| && Active(r[x], k) && InRanges(slot, r[x].ranges);
      assert x != i && r[x] == jobs[x];
      assert Disjoint(jobs[if x < i then x else i].ranges, jobs[if x < i then i else x].ranges)
        || !Active(jobs[i], k);
    }
    if SlotIn(jobs, k, slot) && !(Active(jobs[i], k) && InRanges(slot, jobs[i].ranges)) {
      var x :| 0 <= x < |jobs| && Active(jobs[x], k) && InRanges(slot, jobs[x].ranges);
      assert r[x] == jobs[x];
    }
  }

  lemma FinishKeeps(jobs: seq<Job>, flags: set<nat>, i: nat, s: State, primary: bool, loading: bool)
    requires Registry(jobs, flags) && i < |jobs| && !Finished(jobs[i]) && FinishedState(s)
    ensures Registry(jobs[i := FinishJob(jobs[i], s, primary, loading)], FinishFlags(flags, jobs[i], s, primary, loading))
  {
    hide InRanges, Slots;
    var j := FinishJob(jobs[i], s, primary, loading);
    assert Typed(jobs[i]);
    if NeedsCleanup(jobs[i], s, primary, loading) {
      ReplaceKeeps(jobs, flags, i, j);
    } else {
      forall slot: nat
        ensures slot in FinishFlags(flags, jobs[i], s, primary, loading) <==> SlotIn(jobs[i := j], Import, slot)
      {
        SlotsWithout(jobs, i, j, Import, slot);
      }
    }
  }

  /** Finishing a job that is already finished keeps the registry exactly when
      the job is an export, or it is not put up for cleanup again and no other
      import has taken over its slots. */
  lemma FinishAgainIff(jobs: seq<Job>, flags: set<nat>, i: nat, s: State, primary: bool, loading: bool)
    requires Registry(jobs, flags) && i < |jobs| && Finished(jobs[i]) && FinishedState(s)
    ensures Registry(jobs[i := FinishJob(jobs[i], s, primary, loading)], FinishFlags(flags, jobs[i], s, primary, loading))
      <==> jobs[i].kind == Export
           || (!NeedsCleanup(jobs[i], s, primary, loading)
               && forall slot :: InRanges(slot, jobs[i].ranges) ==> !SlotIn(jobs, Import, slot))
  {
    hide Slots;
    var j, after := FinishJob(jobs[i], s, primary, loading), FinishFlags(flags, jobs[i], s, primary, loading);
    var r := jobs[i := j];
    assert Typed(jobs[i]);
    if NeedsCleanup(jobs[i], s, primary, loading) {
      var slot := jobs[i].ranges[0].first;
      assert InRange(slot, jobs[i].ranges[0]) && InRanges(slot, jobs[i].ranges);
      RevivedBreaks(jobs, flags, i, j, slot);
    } else {
      forall slot: nat
        ensures SlotIn(r, Import, slot) <==> SlotIn(jobs, Import, slot)
      {
        SlotsWithout(jobs, i, j, Import, slot);
      }
      if jobs[i].kind == Export {
        ReplaceKeeps(jobs, flags, i, j);
      } else {
        forall slot: nat
          ensures slot in after <==> SlotIn(jobs, Import, slot) && !InRanges(slot, jobs[i].ranges)
        {
        }
        if forall slot :: InRanges(slot, jobs[i].ranges) ==> !SlotIn(jobs, Import, slot) {
          ReplaceKeeps(jobs, flags, i, j);
          assert after == flags;
        }
      }
    }
  }

  /** A finished import that becomes unfinished again shares its slots with
      another import or has none of its flags. */
  lemma RevivedBreaks(jobs: seq<Job>, flags: set<nat>, i: nat, j: Job, slot: nat)
    requires Registry(jobs, flags) && i < |jobs| && Finished(jobs[i]) && Active(j, Import) && j.ranges == jobs[i].ranges
    requires InRanges(slot, j.ranges)
    ensures !Registry(jobs[i := j], flags)
  {
    hide InRanges, Typed;
    var r := jobs[i := j];
    assert Active(r[i], Import) && InRanges(slot, r[i].ranges);
    assert SlotIn(r, Import, slot);
    if slot in flags {
      var k :| 0 <= k < |jobs| && Active(jobs[k], Import) && InRanges(slot, jobs[k].ranges);
      assert k != i && Active(r[k], Import) && InRanges(slot, r[k].ranges);
      assert !Disjoint(r[if k < i then k else i].ranges, r[if k < i then i else k].ranges);
    }
  }

  /** No slot of the ranges belongs to an unfinished job of the kind. */
  ghost predicate Free(jobs: seq<Job>, k: Kind, rs: seq<Range>) {
    forall slot :: InRanges(slot, rs) ==> !SlotIn(jobs, k, slot)
  }

  lemma SlotInAdded(jobs: seq<Job>, j: Job, k: Kind, slot: nat)
    ensures SlotIn([j] + jobs, k, slot) <==> SlotIn(jobs, k, slot) || (Active(j, k) && InRanges(slot, j.ranges))
    ensures SlotIn(jobs + [j], k, slot) <==> SlotIn(jobs, k, slot) || (Active(j, k) && InRanges(slot, j.ranges))
  {
    hide InRanges;
    var a, b := [j] + jobs, jobs + [j];
    if SlotIn(jobs, k, slot) {
      var x :| 0 <= x < |jobs| && Active(jobs[x], k) && InRanges(slot, jobs[x].ranges);
      assert a[x + 1] == jobs[x] && b[x] == jobs[x];
    }
    if Active(j, k) && InRanges(slot, j.ranges) {
      assert a[0] == j && b[|jobs|] == j;
    }
    if SlotIn(a, k, slot) {
      var x :| 0 <= x < |a| && Active(a[x], k) && InRanges(slot, a[x].ranges);
      assert x > 0 ==> a[x] == jobs[x - 1];
    }
    if SlotIn(b, k, slot) {
      var x :| 0 <= x < |b| && Active(b[x], k) && InRanges(slot, b[x].ranges);
      assert x < |jobs| ==> b[x] == jobs[x];
    }
  }

  lemma FreeIsDisjoint(jobs: seq<Job>, k: Kind, rs: seq<Range>)
    ensures Free(jobs, k, rs) <==> forall i :: 0 <= i < |jobs| && Active(jobs[i], k) ==> Disjoint(jobs[i].ranges, rs)
  {
    hide InRanges;
    if Free(jobs, k, rs) {
      forall i | 0 <= i < |jobs| && Active(jobs[i], k)
        ensures Disjoint(jobs[i].ranges, rs)
      {
        assert forall slot: nat :: InRanges(slot, jobs[i].ranges) ==> SlotIn(jobs, k, slot);
      }
    }
  }

  lemma AddExportKeeps(jobs: seq<Job>, flags: set<nat>, j: Job)
    requires Registry(jobs, flags) && Typed(j) && j.kind == Export && Free(jobs, Export, j.ranges)
    ensures Registry([j] + jobs, flags)
  {
    hide InRanges, Typed;
    FreeIsDisjoint(jobs, Export, j.ranges);
    var a := [j] + jobs;
    assert forall i :: 0 < i < |a| ==> a[i] == jobs[i - 1];
    forall slot: nat
      ensures SlotIn(a, Import, slot) <==> SlotIn(jobs, Import, slot)
    {
      SlotInAdded(jobs, j, Import, slot);
    }
  }

  lemma AddImportKeeps(jobs: seq<Job>, flags: set<nat>, j: Job)
    requires Registry(jobs, flags) && Typed(j) && Active(j, Import) && Free(jobs, Import, j.ranges)
    ensures Registry([j] + jobs, flags + Slots(j.ranges))
  {
    hide InRanges, Typed, Slots;
    FreeIsDisjoint(jobs, Import, j.ranges);
    var a := [j] + jobs;
    assert forall i :: 0 < i < |a| ==> a[i] == jobs[i - 1];
    forall slot: nat
      ensures slot in flags + Slots(j.ranges) <==> SlotIn(a, Import, slot)
    {
      SlotInAdded(jobs, j, Import, slot);
    }
  }

  /** An import loaded from an RDB file is added without a check; the registry
      holds afterwards exactly when its slots were free. */
  lemma LoadImportIff(jobs: seq<Job>, flags: set<nat>, j: Job)
    requires Registry(jobs, flags) && Typed(j) && Active(j, Import)
    ensures Registry(jobs + [j], flags + Slots(j.ranges)) <==> Free(jobs, Import, j.ranges)
  {
    hide InRanges, Typed, Slots;
    FreeIsDisjoint(jobs, Import, j.ranges);
    var a := jobs + [j];
    assert forall i :: 0 <= i < |jobs| ==> a[i] == jobs[i];
    assert a[|jobs|] == j;
    forall slot: nat
      ensures slot in flags + Slots(j.ranges) <==> SlotIn(a, Import, slot)
    {
      SlotInAdded(jobs, j, Import, slot);
    }
  }

  /** clusterCleanupSlotMigrationLog drops finished jobs only. */
  lemma DropKeeps(jobs: seq<Job>, flags: set<nat>, i: nat)
    requires Registry(jobs, flags) && i < |jobs| && Finished(jobs[i])
    ensures Registry(jobs[..i] + jobs[i + 1..], flags)
  {
    hide InRanges, Typed;
    var r := jobs[..i] + jobs[i + 1..];
    assert forall x :: 0 <= x < |r| ==> r[x] == jobs[if x < i then x else x + 1];
    forall slot: nat
      ensures SlotIn(r, Import, slot) <==> SlotIn(jobs, Import, slot)
    {
      if SlotIn(jobs, Import, slot) {
        var x :| 0 <= x < |jobs| && Active(jobs[x], Import) && InRanges(slot, jobs[x].ranges);
        assert r[if x < i then x else x - 1] == jobs[x];
      }
    }
  }
}

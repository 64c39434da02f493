/** One slot migration seen from both nodes: contents, channels and pause
    (src/cluster_migrateslots.c). */
module SlotTransfer {
  import opened MigrationPause

  // --------------------------------------------------------------- contents

  /** Contents of the migrated slots: empty slots, the effect of a command, and
      the commands that a snapshot of them consists of. */
  datatype World<!S, !C> = World(empty: S, apply: (S, C) -> S, rewrite: S -> seq<C>)

  function Run<S, C>(w: World<S, C>, s: S, cs: seq<C>): S {
    if cs == [] then s else Run(w, w.apply(s, cs[0]), cs[1..])
  }

  /** A snapshot loaded into empty slots gives the contents it was taken of. */
  ghost predicate Faithful<S(!new), C(!new)>(w: World<S, C>) { forall s :: Run(w, w.empty, w.rewrite(s)) == s }

  lemma {:induction false} RunLast<S, C>(w: World<S, C>, s: S, cs: seq<C>, c: C)
    ensures Run(w, s, cs + [c]) == w.apply(Run(w, s, cs), c)
    decreases |cs|
  {
    if cs != [] {
      assert (cs + [c])[1..] == cs[1..] + [c];
      RunLast(w, w.apply(s, cs[0]), cs[1..], c);
    }
  }

  // --------------------------------------------------------------- messages

  /** From the source: data commands and SYNCSLOTS messages. */
  datatype Msg<C> = Cmd(cmd: C) | Ack | SnapshotEof | PausedMsg | GrantedMsg

  /** From the target. */
  datatype Reply = AckReply | RequestPause | RequestFailover

  /** The data commands among messages. */
  function Cmds<C>(ms: seq<Msg<C>>): seq<C> {
    if ms == [] then [] else (if ms[0].Cmd? then [ms[0].cmd] else []) + Cmds(ms[1..])
  }

  function AsMsgs<C>(cs: seq<C>): seq<Msg<C>> {
    if cs == [] then [] else [Cmd(cs[0])] + AsMsgs(cs[1..])
  }

  lemma {:induction false} CmdsSplit<C>(a: seq<Msg<C>>, b: seq<Msg<C>>)
    ensures Cmds(a + b) == Cmds(a) + Cmds(b)
    decreases |a|
  {
    if a == [] {
      assert a + b == b;
    } else {
      assert (a + b)[1..] == a[1..] + b;
      CmdsSplit(a[1..], b);
      var first := if a[0].Cmd? then [a[0].cmd] else [];
      assert first + (Cmds(a[1..]) + Cmds(b)) == first + Cmds(a[1..]) + Cmds(b);
    }
  }

  lemma {:induction false} CmdsOf<C>(cs: seq<C>)
    ensures Cmds(AsMsgs(cs)) == cs
    ensures forall i :: 0 <= i < |AsMsgs(cs)| ==> AsMsgs(cs)[i].Cmd?
    decreases |cs|
  {
    if cs != [] {
      CmdsOf(cs[1..]);
      assert AsMsgs(cs)[1..] == AsMsgs(cs[1..]);
    }
  }

  // ----------------------------------------------------------------- states

  datatype Exporter = Waiting | Snapshotting | Streaming | WaitingToPause | Paused | Granted | Ended
  datatype Importer = WaitAck | Receiving | WaitingForPaused | Requested | MayClaim | Claimed | Failed

  /** Both nodes. `snapshot` is what the child has yet to send, `out` the output
      buffer that is held back during the snapshot, `wire` what is sent and not
      yet read. `linked` tells whether the source still has the job's client,
      `quiet` that no write was accepted since the grant. */
  datatype System<S, C> = System(
    source: S, target: S, ex: Exporter, im: Importer,
    snapshot: seq<Msg<C>>, out: seq<Msg<C>>, wire: seq<Msg<C>>, back: seq<Reply>,
    mfEnd: int, pause: Pause, linked: bool, quiet: bool
  )

  /** Everything on its way to the target, in order. */
  function Pipe<S, C>(s: System<S, C>): seq<Msg<C>> { s.wire + s.snapshot + s.out }

  predicate Feeding(e: Exporter) { e != Waiting && e != Ended }

  predicate Receives(i: Importer) { i != Claimed && i != Failed }

  datatype Event<C> =
    | Write(c: C) | BeginSnapshot | ForwardSnapshot | ChildDone(ok: bool) | FlushOut | SendAck
    | Deliver | DeliverReply(mayPause: bool, others: bool) | SendAckReply | DriveExport(mayPause: bool, others: bool)
    | Takeover | TargetOwns(others: bool) | SourceFails(others: bool) | TargetFails | ClientLost(others: bool)
    | Tick(now: int) | RefreshClock | RefreshPause | OtherPause(end: int)

  // ------------------------------------------------------------------ steps

  /** finishSlotMigrationJob on the source; `others` tells whether another export
      still has a deadline. */
  function EndExport<S, C>(s: System<S, C>, others: bool): System<S, C> {
    s.(ex := Ended, mfEnd := 0, pause := if s.pause.active && !others then Unpause(s.pause) else s.pause)
  }

  /** clusterHandleSlotMigrationClientClose for a granted export: the job stays,
      and what the client had not sent is gone. */
  function Unlink<S, C>(s: System<S, C>): System<S, C> { s.(linked := false, out := []) }

  function DoPause<S, C>(s: System<S, C>, timeout: nat): System<S, C> {
    var end := s.pause.now + timeout * MF_PAUSE_MULT;
    s.(ex := Paused, mfEnd := end, pause := PauseUntil(s.pause, end), out := s.out + [PausedMsg])
  }

  predicate Expired<S, C>(s: System<S, C>) { s.mfEnd < s.pause.now || !s.pause.active }

  function Grant<S, C>(s: System<S, C>): System<S, C> {
    var deadline := s.pause.now + OPERATION_TIMEOUT;
    var r := if s.mfEnd < deadline then s.(mfEnd := deadline, pause := PauseUntil(s.pause, deadline)) else s;
    r.(ex := Granted, out := s.out + [GrantedMsg], quiet := true)
  }

  /** The target reads the next message. */
  function Handle<S, C>(w: World<S, C>, s: System<S, C>, m: Msg<C>): System<S, C> {
    if !Receives(s.im) then s
    else
      match m
      case Cmd(c) => s.(target := w.apply(s.target, c))
      case Ack => if s.im == WaitAck then s.(im := Receiving) else s
      case SnapshotEof => if s.im == Receiving then s.(im := WaitingForPaused, back := s.back + [RequestPause]) else s.(im := Failed)
      case PausedMsg => if s.im == WaitingForPaused then s.(im := Requested, back := s.back + [RequestFailover]) else s.(im := Failed)
      case GrantedMsg => if s.im == Requested then s.(im := MayClaim) else s.(im := Failed)
  }

  /** The source reads the next reply. */
  function HandleReply<S, C>(s: System<S, C>, r: Reply, timeout: nat, mayPause: bool, others: bool): System<S, C> {
    if s.ex == Ended then s
    else
      match r
      case AckReply => s
      case RequestPause =>
        if s.ex == Streaming || s.ex == Snapshotting then
          if mayPause then DoPause(s, timeout) else s.(ex := WaitingToPause)
        else EndExport(s, others)
      case RequestFailover =>
        if s.ex == Paused && !Expired(s) then Grant(s) else EndExport(s, others)
  }

  /** One event; an event whose guard does not hold changes nothing. */
  function Step<S, C>(w: World<S, C>, timeout: nat, s: System<S, C>, e: Event<C>): System<S, C> {
    match e
    case Write(c) =>
      if s.pause.effective then s
      else s.(
        source := w.apply(s.source, c),
        out := if Feeding(s.ex) && s.linked then s.out + [Cmd(c)] else s.out,
        quiet := s.quiet && s.ex != Granted)
    case BeginSnapshot =>
      if s.ex == Waiting && s.out == [] then
        s.(ex := Snapshotting, snapshot := AsMsgs(w.rewrite(s.source)) + [SnapshotEof])
      else s
    case ForwardSnapshot =>
      if s.snapshot != [] && s.ex != Ended then s.(wire := s.wire + [s.snapshot[0]], snapshot := s.snapshot[1..]) else s
    case ChildDone(ok) =>
      if s.ex != Snapshotting then s
      else if !ok then EndExport(s, true)
      else if s.snapshot == [] then s.(ex := Streaming)
      else s
    case FlushOut =>
      if s.out != [] && s.ex != Snapshotting && s.ex != Ended then s.(wire := s.wire + [s.out[0]], out := s.out[1..]) else s
    case SendAck =>
      if s.ex != Snapshotting && s.ex != Granted && s.ex != Ended then s.(out := s.out + [Ack]) else s
    case Deliver => if s.wire == [] then s else Handle(w, s.(wire := s.wire[1..]), s.wire[0])
    case DeliverReply(mayPause, others) =>
      if s.back == [] || !s.linked then s else HandleReply(s.(back := s.back[1..]), s.back[0], timeout, mayPause, others)
    case SendAckReply => if Receives(s.im) && s.im != WaitAck then s.(back := s.back + [AckReply]) else s
    case DriveExport(mayPause, others) =>
      if s.ex == WaitingToPause then (if mayPause then DoPause(s, timeout) else s)
      else if s.ex == Paused && Expired(s) then EndExport(s.(pause := UpdatePaused(s.pause)), others)
      else if s.ex == Granted && Expired(s) then EndExport(s, others)
      else s
    case Takeover => if s.im == MayClaim then s.(im := Claimed) else s
    case TargetOwns(others) => if s.ex == Granted && s.im == Claimed then EndExport(s, others) else s
    case SourceFails(others) => if s.ex == Ended then s else EndExport(s, others)
    case TargetFails => if Receives(s.im) then s.(im := Failed) else s
    case ClientLost(others) => if s.ex == Granted then Unlink(s) else if s.ex == Ended then s else EndExport(s, others)
    case Tick(now) => if now >= s.pause.now then s.(pause := s.pause.(now := now)) else s
    case RefreshClock => s.(pause := s.pause.(cached := s.pause.now))
    case RefreshPause => s.(pause := UpdatePaused(s.pause))
    case OtherPause(end) => s.(pause := PauseUntil(s.pause, end))
  }

  // -------------------------------------------------------------- invariant

  /** The deadline is set while paused or granted, it is covered by the pause or
      has passed, and a write since the grant means that it has passed. */
  ghost predicate Pausing<S, C>(s: System<S, C>) {
    && 0 < s.pause.cached <= s.pause.now
    && (s.mfEnd != 0 <==> s.ex == Paused || s.ex == Granted)
    && (s.mfEnd != 0 ==> Covered(s.pause, s.mfEnd))
    && (s.ex == Granted && !s.quiet ==> s.mfEnd <= s.pause.cached)
  }

  /** The snapshot is sent before anything that follows it, and nothing happens
      on its end before the target has read it. */
  ghost predicate Ordered<S, C>(s: System<S, C>) {
    && (s.snapshot != [] ==> s.ex == Snapshotting || s.ex == Ended)
    && (s.snapshot != [] ==> s.snapshot[|s.snapshot| - 1] == SnapshotEof)
    && (forall i :: 0 <= i < |s.snapshot| - 1 ==> s.snapshot[i].Cmd?)
    && SnapshotEof !in s.out
    && (s.snapshot != [] || s.ex == Waiting ==> SnapshotEof !in s.wire && Early(s))
  }

  ghost predicate Early<S, C>(s: System<S, C>) {
    && (s.im == WaitAck || s.im == Receiving || s.im == Failed)
    && RequestPause !in s.back && RequestFailover !in s.back
  }

  /** The messages after the grant, or all if it is not on its way. */
  function AfterGrant<C>(ms: seq<Msg<C>>): seq<Msg<C>> {
    if ms == [] then [] else if ms[0] == GrantedMsg then ms[1..] else AfterGrant(ms[1..])
  }

  /** The grant is on its way or was read. */
  ghost predicate GrantSent<S, C>(s: System<S, C>) { GrantedMsg in Pipe(s) || s.im == MayClaim || s.im == Claimed }

  ghost predicate Granting<S, C>(s: System<S, C>) {
    && (s.ex != Granted && s.ex != Ended ==> GrantedMsg !in Pipe(s) && s.im != MayClaim && s.im != Claimed)
    && (s.ex == Granted && (s.im == MayClaim || s.im == Claimed) ==> GrantedMsg !in Pipe(s))
    && (s.ex == Granted && GrantedMsg in Pipe(s) ==> GrantedMsg !in AfterGrant(Pipe(s)))
    && (s.ex == Granted && s.quiet && GrantSent(s) ==>
          Cmds(if GrantedMsg in Pipe(s) then AfterGrant(Pipe(s)) else Pipe(s)) == [])
  }

  /** Only a granted export outlives its client, and then sends nothing. */
  ghost predicate Linking<S, C>(s: System<S, C>) { !s.linked ==> (s.ex == Granted || s.ex == Ended) && s.out == [] }

  /** Nothing was left out of the pipe: the source has its client, or lost it
      after the grant was sent and has accepted no write since the grant. */
  ghost predicate Intact<S, C>(s: System<S, C>) { s.linked || (s.quiet && GrantSent(s)) }

  /** No write is lost: the source's contents are the target's followed by the
      commands on their way. */
  ghost predicate Conserved<S, C>(w: World<S, C>, s: System<S, C>) {
    Receives(s.im) ==>
      && (Feeding(s.ex) && Intact(s) ==> s.source == Run(w, s.target, Cmds(Pipe(s))))
      && (s.ex == Waiting ==> s.target == w.empty && Cmds(Pipe(s)) == [])
  }

  ghost predicate Inv<S, C>(w: World<S, C>, s: System<S, C>) {
    Pausing(s) && Ordered(s) && Linking(s) && Granting(s) && Conserved(w, s)
  }

  /** When the target may claim the slots and no write was accepted since the
      grant, both nodes hold the same contents; while the source's pause for
      this job is in force, none was and none is. */
  lemma ClaimIsSafe<S, C>(w: World<S, C>, s: System<S, C>)
    requires Inv(w, s) && s.im == MayClaim && s.ex == Granted
    ensures s.quiet ==> s.target == s.source
    ensures s.mfEnd > s.pause.cached ==> s.quiet && s.pause.effective
  {
  }

  // --------------------------------------------------- pipes stay in order

  /** Forwarding and flushing move messages along the pipe. */
  lemma PipeSame<S, C>(s: System<S, C>)
    ensures s.snapshot != [] ==> Pipe(s.(wire := s.wire + [s.snapshot[0]], snapshot := s.snapshot[1..])) == Pipe(s)
    ensures s.snapshot == [] && s.out != [] ==> Pipe(s.(wire := s.wire + [s.out[0]], out := s.out[1..])) == Pipe(s)
  {
    if s.snapshot != [] {
      assert s.snapshot == [s.snapshot[0]] + s.snapshot[1..];
      assert s.wire + [s.snapshot[0]] + s.snapshot[1..] + s.out == s.wire + s.snapshot + s.out;
    } else if s.out != [] {
      assert s.out == [s.out[0]] + s.out[1..];
      assert s.wire + [s.out[0]] + s.snapshot + s.out[1..] == s.wire + s.snapshot + s.out;
    }
  }

  lemma PipeHead<S, C>(s: System<S, C>)
    requires s.wire != []
    ensures Pipe(s) == [s.wire[0]] + Pipe(s.(wire := s.wire[1..]))
  {
    assert s.wire == [s.wire[0]] + s.wire[1..];
    assert [s.wire[0]] + s.wire[1..] + s.snapshot + s.out == [s.wire[0]] + (s.wire[1..] + s.snapshot + s.out);
  }

  lemma PipeMore<S, C>(s: System<S, C>, m: Msg<C>)
    ensures Pipe(s.(out := s.out + [m])) == Pipe(s) + [m]
    ensures Cmds(Pipe(s) + [m]) == Cmds(Pipe(s)) + if m.Cmd? then [m.cmd] else []
  {
    assert s.wire + s.snapshot + (s.out + [m]) == s.wire + s.snapshot + s.out + [m];
    CmdsSplit(Pipe(s), [m]);
    assert [m][1..] == [];
    assert Cmds([m]) == (if m.Cmd? then [m.cmd] else []) + [];
  }

  // ------------------------------------------------------ steps of the pause

  lemma StepPausing<S, C>(w: World<S, C>, timeout: nat, s: System<S, C>, e: Event<C>)
    requires Pausing(s) && timeout > 0
    ensures Pausing(Step(w, timeout, s, e))
  {
    hide Handle, HandleReply, AsMsgs;
    match e
    case Deliver =>
      if s.wire != [] {
        HandlePause(w, s.(wire := s.wire[1..]), s.wire[0]);
      }
    case DeliverReply(mayPause, others) =>
      if s.back != [] {
        ReplyPausing(s.(back := s.back[1..]), s.back[0], timeout, mayPause, others);
      }
    case _ =>
  }

  lemma HandlePause<S, C>(w: World<S, C>, s: System<S, C>, m: Msg<C>)
    ensures var r := Handle(w, s, m); r.ex == s.ex && r.mfEnd == s.mfEnd && r.pause == s.pause && r.quiet == s.quiet
  {
  }

  lemma ReplyPausing<S, C>(s: System<S, C>, r: Reply, timeout: nat, mayPause: bool, others: bool)
    requires Pausing(s) && timeout > 0
    ensures Pausing(HandleReply(s, r, timeout, mayPause, others))
  {
  }

  // ------------------------------------------------------- steps of the order

  lemma StepOrdered<S, C>(w: World<S, C>, timeout: nat, s: System<S, C>, e: Event<C>)
    requires Ordered(s)
    ensures Ordered(Step(w, timeout, s, e))
  {
    hide UpdatePaused, PauseUntil, Unpause, AsMsgs, Handle, HandleReply, Ordered;
    var t := Step(w, timeout, s, e);
    match e
    case Deliver =>
      if s.wire != [] {
        DeliverOrdered(w, s);
      }
    case DeliverReply(mayPause, others) =>
      if s.back != [] {
        ReplyOrdered(s, timeout, mayPause, others);
      }
    case BeginSnapshot =>
      if s.ex == Waiting && s.out == [] {
        BeginOrdered(w, s);
      }
    case ForwardSnapshot =>
      if s.snapshot != [] && s.ex != Ended {
        ForwardOrdered(s);
      }
    case FlushOut =>
      if s.out != [] && s.ex != Snapshotting && s.ex != Ended {
        FlushOrdered(s);
      }
    case SendAckReply => AckOrdered(s);
    case _ => SameOrdered(s, t);
  }

  /** Steps that leave snapshot, wire and replies alone. */
  lemma SameOrdered<S, C>(s: System<S, C>, t: System<S, C>)
    requires Ordered(s) && t.snapshot == s.snapshot && t.wire == s.wire && t.back == s.back
    requires t.im == s.im || t.im == Failed || s.im == MayClaim
    requires t.ex == s.ex || t.ex == Ended || (s.ex != Snapshotting && s.ex != Ended && t.ex != Waiting) || (s.snapshot == [] && t.ex == Streaming)
    requires t.out == s.out || t.out == [] || exists m :: m != SnapshotEof && t.out == s.out + [m]
    ensures Ordered(t)
  {
  }

  lemma BeginOrdered<S, C>(w: World<S, C>, s: System<S, C>)
    requires Ordered(s) && s.ex == Waiting && s.out == []
    ensures Ordered(s.(ex := Snapshotting, snapshot := AsMsgs(w.rewrite(s.source)) + [SnapshotEof]))
  {
    hide AsMsgs;
    CmdsOf(w.rewrite(s.source));
  }

  lemma ForwardOrdered<S, C>(s: System<S, C>)
    requires Ordered(s) && s.snapshot != [] && s.ex != Ended
    ensures Ordered(s.(wire := s.wire + [s.snapshot[0]], snapshot := s.snapshot[1..]))
  {
  }

  lemma FlushOrdered<S, C>(s: System<S, C>)
    requires Ordered(s) && s.out != [] && s.ex != Snapshotting && s.ex != Ended
    ensures Ordered(s.(wire := s.wire + [s.out[0]], out := s.out[1..]))
  {
    assert s.out[0] in s.out;
  }

  lemma AckOrdered<S, C>(s: System<S, C>)
    requires Ordered(s)
    ensures Ordered(s.(back := s.back + [AckReply]))
  {
  }

  lemma DeliverOrdered<S, C>(w: World<S, C>, s: System<S, C>)
    requires Ordered(s) && s.wire != []
    ensures Ordered(Handle(w, s.(wire := s.wire[1..]), s.wire[0]))
  {
    assert s.wire[0] in s.wire;
    assert forall m :: m in s.wire[1..] ==> m in s.wire;
  }

  lemma ReplyOrdered<S, C>(s: System<S, C>, timeout: nat, mayPause: bool, others: bool)
    requires Ordered(s) && s.back != []
    ensures Ordered(HandleReply(s.(back := s.back[1..]), s.back[0], timeout, mayPause, others))
  {
    hide UpdatePaused, PauseUntil, Unpause;
    assert s.back[0] in s.back;
    assert forall r :: r in s.back[1..] ==> r in s.back;
  }

  // ------------------------------------------------------ steps of the grant

  lemma AfterSplit<C>(m: Msg<C>, ms: seq<Msg<C>>)
    ensures AfterGrant([m] + ms) == if m == GrantedMsg then ms else AfterGrant(ms)
  {
    assert ([m] + ms)[1..] == ms;
  }

  /** Appending behind the grant. */
  lemma {:induction false} AfterMore<C>(ms: seq<Msg<C>>, m: Msg<C>)
    ensures GrantedMsg in ms ==> AfterGrant(ms + [m]) == AfterGrant(ms) + [m]
    ensures GrantedMsg !in ms ==> AfterGrant(ms + [m]) == []
    decreases |ms|
  {
    if ms != [] {
      assert (ms + [m])[1..] == ms[1..] + [m];
      assert GrantedMsg in ms <==> ms[0] == GrantedMsg || GrantedMsg in ms[1..];
      AfterMore(ms[1..], m);
    } else {
      assert (ms + [m])[1..] == [];
    }
  }

  lemma CmdsHead<C>(m: Msg<C>, ms: seq<Msg<C>>)
    ensures Cmds([m] + ms) == (if m.Cmd? then [m.cmd] else []) + Cmds(ms)
  {
    assert ([m] + ms)[1..] == ms;
  }

  lemma DeliverGranting<S, C>(w: World<S, C>, s: System<S, C>)
    requires Granting(s) && s.wire != []
    ensures Granting(Handle(w, s.(wire := s.wire[1..]), s.wire[0]))
  {
    hide Cmds, AfterGrant, Pipe;
    var m, r := s.wire[0], s.(wire := s.wire[1..]);
    PipeHead(s);
    AfterSplit(m, Pipe(r));
    CmdsHead(m, Pipe(r));
    assert GrantedMsg in Pipe(s) <==> m == GrantedMsg || GrantedMsg in Pipe(r);
    HandleKeeps(w, r, m);
  }

  lemma {:induction false} AfterPrefix<C>(a: seq<Msg<C>>, b: seq<Msg<C>>)
    requires GrantedMsg in a
    ensures AfterGrant(a + b) == AfterGrant(a) + b
    decreases |a|
  {
    assert (a + b)[1..] == a[1..] + b;
    if a[0] != GrantedMsg {
      AfterPrefix(a[1..], b);
    }
  }

  /** What a lost client had not sent follows a grant that was sent. */
  lemma UnlinkedPipe<S, C>(s: System<S, C>)
    requires Granting(s) && Ordered(s) && s.ex == Granted
    ensures Pipe(s) == Pipe(Unlink(s)) + s.out
    ensures GrantedMsg in Pipe(Unlink(s)) ==> AfterGrant(Pipe(s)) == AfterGrant(Pipe(Unlink(s))) + s.out
    ensures s.quiet && GrantSent(Unlink(s)) ==> GrantSent(s) && Cmds(s.out) == []
    ensures Cmds(Pipe(s)) == Cmds(Pipe(Unlink(s))) + Cmds(s.out)
  {
    hide Cmds, AfterGrant;
    var p := Pipe(Unlink(s));
    assert Pipe(s) == p + s.out;
    CmdsSplit(p, s.out);
    if GrantedMsg in p {
      AfterPrefix(p, s.out);
      CmdsSplit(AfterGrant(p), s.out);
    }
  }

  lemma UnlinkGranting<S, C>(s: System<S, C>)
    requires Granting(s) && Ordered(s) && s.ex == Granted
    ensures Granting(Unlink(s))
  {
    hide Cmds, AfterGrant, Pipe;
    UnlinkedPipe(s);
    if GrantedMsg in Pipe(Unlink(s)) {
      CmdsSplit(AfterGrant(Pipe(Unlink(s))), s.out);
    }
  }

  lemma HandleKeeps<S, C>(w: World<S, C>, s: System<S, C>, m: Msg<C>)
    ensures var r := Handle(w, s, m);
      && Pipe(r) == Pipe(s) && r.ex == s.ex && r.quiet == s.quiet && r.linked == s.linked && r.source == s.source
      && (r.im == Claimed ==> s.im == Claimed)
      && (r.im == MayClaim ==> s.im == MayClaim || m == GrantedMsg)
  {
  }

  lemma GrantGranting<S, C>(s: System<S, C>)
    requires Granting(s) && s.ex == Paused
    ensures Granting(Grant(s))
  {
    hide Cmds, AfterGrant, UpdatePaused;
    PipeMore(s, GrantedMsg);
    AfterMore(Pipe(s), GrantedMsg);
    assert Pipe(Grant(s)) == Pipe(s) + [GrantedMsg];
    NoCmds<C>();
  }

  lemma NoCmds<C>()
    ensures Cmds<C>([]) == []
  {
  }

  lemma AppendGranting<S, C>(s: System<S, C>, m: Msg<C>, t: System<S, C>)
    requires Granting(s) && m != GrantedMsg && t.ex != Granted && (s.ex == Granted ==> t.ex == Ended)
    requires (t.ex == Ended || s.ex != Ended) && t.im == s.im && Pipe(t) == Pipe(s) + [m]
    ensures Granting(t)
  {
    hide Cmds, AfterGrant, Pipe;
  }

  /** A write behind the grant ends the quiet. */
  lemma WriteGranting<S, C>(w: World<S, C>, timeout: nat, s: System<S, C>, c: C)
    requires Granting(s)
    ensures Granting(Step(w, timeout, s, Write(c)))
  {
    hide Cmds, AfterGrant, Pipe;
    if Feeding(s.ex) && s.linked && !s.pause.effective {
      var r := s.(out := s.out + [Cmd(c)]);
      PipeMore(s, Cmd(c));
      AfterMore(Pipe(s), Cmd(c));
      PipeOnly(r, Step(w, timeout, s, Write(c)));
    } else {
      PipeOnly(s, Step(w, timeout, s, Write(c)));
    }
  }

  lemma PipeOnly<S, C>(s: System<S, C>, t: System<S, C>)
    requires s.wire == t.wire && s.snapshot == t.snapshot && s.out == t.out
    ensures Pipe(s) == Pipe(t)
  {
  }

  /** Ending or moving on without sending. */
  lemma SameGranting<S, C>(s: System<S, C>, t: System<S, C>)
    requires Granting(s) && Pipe(t) == Pipe(s) && t.im == s.im
    requires t.ex == Ended || (t.ex == s.ex && t.quiet == s.quiet) || (s.ex != Granted && s.ex != Ended && t.ex != Granted)
    ensures Granting(t)
  {
    hide Cmds, AfterGrant, Pipe;
  }

  lemma PauseGranting<S, C>(s: System<S, C>, timeout: nat)
    requires Granting(s) && s.ex != Granted && s.ex != Ended
    ensures Granting(DoPause(s, timeout))
  {
    hide Granting, UpdatePaused;
    PipeMore(s, PausedMsg);
    PipeOnly(s.(out := s.out + [PausedMsg]), DoPause(s, timeout));
    AppendGranting(s, PausedMsg, DoPause(s, timeout));
  }

  lemma ReplyGranting<S, C>(s: System<S, C>, timeout: nat, mayPause: bool, others: bool, r: Reply)
    requires Granting(s)
    ensures Granting(HandleReply(s, r, timeout, mayPause, others))
  {
    hide Granting, UpdatePaused, DoPause, Grant, Pipe;
    PipeOnly(s, EndExport(s, others));
    SameGranting(s, EndExport(s, others));
    if r == RequestPause && (s.ex == Streaming || s.ex == Snapshotting) {
      PauseGranting(s, timeout);
      PipeOnly(s, s.(ex := WaitingToPause));
      SameGranting(s, s.(ex := WaitingToPause));
    } else if r == RequestFailover && s.ex == Paused {
      GrantGranting(s);
    }
  }

  lemma BeginGranting<S, C>(w: World<S, C>, s: System<S, C>)
    requires Granting(s) && Ordered(s) && s.ex == Waiting && s.out == []
    ensures Granting(s.(ex := Snapshotting, snapshot := AsMsgs(w.rewrite(s.source)) + [SnapshotEof]))
  {
    hide Cmds, AfterGrant, AsMsgs;
    CmdsOf(w.rewrite(s.source));
    var r := s.(ex := Snapshotting, snapshot := AsMsgs(w.rewrite(s.source)) + [SnapshotEof]);
    assert forall m :: m in s.wire ==> m in Pipe(s);
    forall m | m in Pipe(r)
      ensures m != GrantedMsg
    {
      assert m in s.wire || m in AsMsgs(w.rewrite(s.source)) || m == SnapshotEof;
    }
  }

  lemma StepGranting<S, C>(w: World<S, C>, timeout: nat, s: System<S, C>, e: Event<C>)
    requires Granting(s) && Ordered(s)
    ensures Granting(Step(w, timeout, s, e))
  {
    hide Granting, UpdatePaused, PauseUntil, Unpause, Pipe, DoPause, AsMsgs, Handle, HandleReply;
    var t := Step(w, timeout, s, e);
    match e {
      case Write(c) => WriteGranting(w, timeout, s, c);
      case Deliver =>
        if s.wire != [] {
          DeliverGranting(w, s);
        }
      case DeliverReply(mayPause, others) =>
        if s.back != [] {
          var r := s.(back := s.back[1..]);
          PipeOnly(s, r);
          SameGranting(s, r);
          ReplyGranting(r, timeout, mayPause, others, s.back[0]);
        }
      case BeginSnapshot =>
        if s.ex == Waiting && s.out == [] {
          BeginGranting(w, s);
        }
      case DriveExport(mayPause, others) =>
        if s.ex == WaitingToPause && mayPause {
          PauseGranting(s, timeout);
        } else {
          PipeOnly(s, t);
          SameGranting(s, t);
        }
      case SendAck =>
        if s.ex != Snapshotting && s.ex != Granted && s.ex != Ended {
          PipeMore(s, Ack);
          AppendGranting(s, Ack, t);
        }
      case ForwardSnapshot =>
        PipeSame(s);
        SameGranting(s, t);
      case FlushOut =>
        PipeSame(s);
        SameGranting(s, t);
      case Takeover => TakeoverGranting(s, t);
      case TargetFails => TakeoverGranting(s, t);
      case ClientLost(others) =>
        if s.ex == Granted {
          UnlinkGranting(s);
        } else {
          PipeOnly(s, t);
          SameGranting(s, t);
        }
      case _ =>
        PipeOnly(s, t);
        SameGranting(s, t);
    }
  }

  lemma TakeoverGranting<S, C>(s: System<S, C>, t: System<S, C>)
    requires Granting(s)
    requires t == s || t == s.(im := Failed) || (t == s.(im := Claimed) && s.im == MayClaim)
    ensures Granting(t)
  {
    PipeOnly(s, t);
    hide Cmds, AfterGrant, Pipe;
  }

  // ----------------------------------------------------- steps of the client

  lemma StepLinking<S, C>(w: World<S, C>, timeout: nat, s: System<S, C>, e: Event<C>)
    requires Linking(s)
    ensures Linking(Step(w, timeout, s, e))
  {
    hide UpdatePaused, PauseUntil, Unpause, AsMsgs;
  }

  // ------------------------------------------------------ steps of the data

  lemma DeliverConserved<S, C>(w: World<S, C>, s: System<S, C>)
    requires Conserved(w, s) && s.wire != []
    ensures Conserved(w, Handle(w, s.(wire := s.wire[1..]), s.wire[0]))
  {
    hide Pipe;
    var m, r := s.wire[0], s.(wire := s.wire[1..]);
    PipeHead(s);
    CmdsHead(m, Pipe(r));
    assert GrantedMsg in Pipe(s) <==> m == GrantedMsg || GrantedMsg in Pipe(r);
    HandleKeeps(w, r, m);
    if m.Cmd? {
      assert ([m.cmd] + Cmds(Pipe(r)))[1..] == Cmds(Pipe(r));
    } else {
      assert [] + Cmds(Pipe(r)) == Cmds(Pipe(r));
    }
  }

  lemma WriteConserved<S, C>(w: World<S, C>, timeout: nat, s: System<S, C>, c: C)
    requires Conserved(w, s) && Linking(s)
    ensures Conserved(w, Step(w, timeout, s, Write(c)))
  {
    hide Pipe, Cmds, Run;
    var t := Step(w, timeout, s, Write(c));
    if Feeding(s.ex) && s.linked && !s.pause.effective {
      PipeMore(s, Cmd(c));
      PipeOnly(s.(out := s.out + [Cmd(c)]), t);
      RunLast(w, s.target, Cmds(Pipe(s)), c);
    } else {
      PipeOnly(s, t);
    }
  }

  /** The snapshot of the source, loaded into the empty target. */
  lemma BeginConserved<S(!new), C(!new)>(w: World<S, C>, s: System<S, C>)
    requires Conserved(w, s) && Ordered(s) && Faithful(w) && s.ex == Waiting && s.out == []
    ensures Conserved(w, s.(ex := Snapshotting, snapshot := AsMsgs(w.rewrite(s.source)) + [SnapshotEof]))
  {
    hide Run;
    var cs := w.rewrite(s.source);
    var r := s.(ex := Snapshotting, snapshot := AsMsgs(cs) + [SnapshotEof]);
    CmdsOf(cs);
    assert Pipe(s) == s.wire;
    assert Pipe(r) == s.wire + (AsMsgs(cs) + [SnapshotEof]);
    CmdsSplit(s.wire, AsMsgs(cs) + [SnapshotEof]);
    CmdsSplit(AsMsgs(cs), [SnapshotEof]);
    var eof: seq<Msg<C>> := [SnapshotEof];
    assert eof[1..] == [] && Cmds(eof) == [];
    assert [] + (cs + []) == cs;
  }

  /** A step that sends no data and leaves the contents alone. */
  lemma SameConserved<S, C>(w: World<S, C>, s: System<S, C>, t: System<S, C>)
    requires Conserved(w, s) && Cmds(Pipe(t)) == Cmds(Pipe(s)) && t.source == s.source && t.target == s.target
    requires Receives(t.im) ==> Receives(s.im)
    requires Feeding(t.ex) ==> Feeding(s.ex) && (Intact(t) ==> Intact(s))
    requires t.ex == Waiting ==> s.ex == Waiting
    ensures Conserved(w, t)
  {
    hide Cmds, Pipe, Run, Intact;
  }

  lemma SendConserved<S, C>(w: World<S, C>, s: System<S, C>, m: Msg<C>, t: System<S, C>)
    requires Conserved(w, s) && s.linked && !m.Cmd? && t.source == s.source && t.target == s.target && t.im == s.im
    requires t.wire == s.wire && t.snapshot == s.snapshot && t.out == s.out + [m]
    requires Feeding(t.ex) ==> Feeding(s.ex)
    requires t.ex == Waiting ==> s.ex == Waiting
    ensures Conserved(w, t)
  {
    hide Cmds, Pipe, Run, Conserved;
    PipeMore(s, m);
    PipeOnly(s.(out := s.out + [m]), t);
    assert Cmds(Pipe(s)) + [] == Cmds(Pipe(s));
    SameConserved(w, s, t);
  }

  lemma ReplyConserved<S, C>(w: World<S, C>, s: System<S, C>, timeout: nat, mayPause: bool, others: bool, r: Reply)
    requires Conserved(w, s) && s.linked
    ensures Conserved(w, HandleReply(s, r, timeout, mayPause, others))
  {
    hide Conserved, UpdatePaused, Pipe, Cmds;
    var t := HandleReply(s, r, timeout, mayPause, others);
    if r == RequestPause && (s.ex == Streaming || s.ex == Snapshotting) && mayPause {
      SendConserved(w, s, PausedMsg, t);
    } else if r == RequestFailover && s.ex == Paused && !Expired(s) {
      SendConserved(w, s, GrantedMsg, t);
    } else {
      PipeOnly(s, t);
      SameConserved(w, s, t);
    }
  }

  lemma UnlinkConserved<S, C>(w: World<S, C>, s: System<S, C>, others: bool)
    requires Conserved(w, s) && Ordered(s) && Granting(s)
    ensures s.ex == Granted ==> Conserved(w, Unlink(s))
    ensures Conserved(w, EndExport(s, others))
  {
    hide Pipe, Cmds, Run, UpdatePaused, AfterGrant;
    if s.ex == Granted {
      UnlinkedPipe(s);
      assert Cmds(s.out) == [] ==> Cmds(Pipe(Unlink(s))) + Cmds(s.out) == Cmds(Pipe(Unlink(s)));
    }
  }

  lemma StepConserved<S(!new), C(!new)>(w: World<S, C>, timeout: nat, s: System<S, C>, e: Event<C>)
    requires Conserved(w, s) && Ordered(s) && Linking(s) && Granting(s) && Faithful(w)
    ensures Conserved(w, Step(w, timeout, s, e))
  {
    hide Conserved, Granting, UpdatePaused, PauseUntil, Unpause, Pipe, Cmds, AsMsgs, Handle, HandleReply;
    var t := Step(w, timeout, s, e);
    match e {
      case ClientLost(others) => UnlinkConserved(w, s, others);
      case Write(c) => WriteConserved(w, timeout, s, c);
      case Deliver =>
        if s.wire != [] {
          DeliverConserved(w, s);
        }
      case DeliverReply(mayPause, others) =>
        if s.back != [] && s.linked {
          var r := s.(back := s.back[1..]);
          PipeOnly(s, r);
          SameConserved(w, s, r);
          ReplyConserved(w, r, timeout, mayPause, others, s.back[0]);
        }
      case BeginSnapshot =>
        if s.ex == Waiting && s.out == [] {
          BeginConserved(w, s);
        }
      case DriveExport(mayPause, others) =>
        if s.ex == WaitingToPause && mayPause {
          SendConserved(w, s, PausedMsg, t);
        } else {
          PipeOnly(s, t);
          SameConserved(w, s, t);
        }
      case SendAck =>
        if s.ex != Snapshotting && s.ex != Granted && s.ex != Ended {
          SendConserved(w, s, Ack, t);
        }
      case ForwardSnapshot =>
        PipeSame(s);
        SameConserved(w, s, t);
      case FlushOut =>
        PipeSame(s);
        SameConserved(w, s, t);
      case _ =>
        PipeOnly(s, t);
        SameConserved(w, s, t);
    }
  }

  // ------------------------------------------------------------------- runs

  function RunEvents<S, C>(w: World<S, C>, timeout: nat, s: System<S, C>, es: seq<Event<C>>): System<S, C> {
    if es == [] then s else Step(w, timeout, RunEvents(w, timeout, s, es[..|es| - 1]), es[|es| - 1])
  }

  /** The source is about to snapshot; the target has empty slots. */
  function Start<S, C>(w: World<S, C>, contents: S, now: int): System<S, C> {
    System(contents, w.empty, Waiting, WaitAck, [], [Ack], [], [], 0, Pause(false, 0, false, now, now), true, true)
  }

  lemma StartInv<S, C>(w: World<S, C>, contents: S, now: int)
    requires now > 0
    ensures Inv(w, Start(w, contents, now))
  {
    assert Pipe(Start(w, contents, now)) == [Ack];
    var ack: seq<Msg<C>> := [Ack];
    assert ack[1..] == [];
  }

  /** Over every run of the two nodes, no write is lost. */
  lemma {:induction false} RunsKeepInv<S(!new), C(!new)>(w: World<S, C>, timeout: nat, contents: S, now: int, es: seq<Event<C>>)
    requires Faithful(w) && timeout > 0 && now > 0
    ensures Inv(w, RunEvents(w, timeout, Start(w, contents, now), es))
    decreases |es|
  {
    hide Step, Pausing, Ordered, Linking, Granting, Conserved, Start, Faithful;
    if es == [] {
      StartInv(w, contents, now);
    } else {
      var n := |es| - 1;
      RunsKeepInv(w, timeout, contents, now, es[..n]);
      var s := RunEvents(w, timeout, Start(w, contents, now), es[..n]);
      StepPausing(w, timeout, s, es[n]);
      StepOrdered(w, timeout, s, es[n]);
      StepLinking(w, timeout, s, es[n]);
      StepGranting(w, timeout, s, es[n]);
      StepConserved(w, timeout, s, es[n]);
    }
  }

  /** In every run: when the target may take the slots over and no write was
      accepted since the grant, as while the source's pause for the job is in
      force, both hold the same contents. */
  lemma TakeoverLosesNothing<S(!new), C(!new)>(w: World<S, C>, timeout: nat, contents: S, now: int, es: seq<Event<C>>)
    requires Faithful(w) && timeout > 0 && now > 0
    ensures var s := RunEvents(w, timeout, Start(w, contents, now), es);
      s.im == MayClaim && s.ex == Granted ==>
        (s.quiet ==> s.target == s.source) && (s.mfEnd > s.pause.cached ==> s.quiet && s.pause.effective)
  {
    RunsKeepInv(w, timeout, contents, now, es);
    var s := RunEvents(w, timeout, Start(w, contents, now), es);
    if s.im == MayClaim && s.ex == Granted {
      ClaimIsSafe(w, s);
    }
  }

  // ----------------------------------------------------- runs that complete

  ghost predicate Reachable<S, C(!new)>(w: World<S, C>, timeout: nat, start: System<S, C>, s: System<S, C>) {
    exists es: seq<Event<C>> :: RunEvents(w, timeout, start, es) == s
  }

  lemma ReachStart<S, C(!new)>(w: World<S, C>, timeout: nat, start: System<S, C>)
    ensures Reachable(w, timeout, start, start)
  {
    assert RunEvents(w, timeout, start, []) == start;
  }

  lemma ReachStep<S, C(!new)>(w: World<S, C>, timeout: nat, start: System<S, C>, s: System<S, C>, e: Event<C>)
    requires Reachable(w, timeout, start, s)
    ensures Reachable(w, timeout, start, Step(w, timeout, s, e))
  {
    hide Step;
    var es: seq<Event<C>> :| RunEvents(w, timeout, start, es) == s;
    assert (es + [e])[..|es|] == es;
    assert RunEvents(w, timeout, start, es + [e]) == Step(w, timeout, s, e);
  }

  /** The child is sending: the ACK is read and nothing is on the wire. */
  function Sending<S, C>(contents: S, target: S, cs: seq<C>, now: int): System<S, C> {
    System(contents, target, Snapshotting, Receiving, AsMsgs(cs) + [SnapshotEof], [], [], [], 0, Pause(false, 0, false, now, now), true, true)
  }

  lemma SnapshotBegins<S, C(!new)>(w: World<S, C>, timeout: nat, contents: S, now: int)
    ensures Reachable(w, timeout, Start(w, contents, now), Sending(contents, w.empty, w.rewrite(contents), now))
  {
    hide Reachable, AsMsgs, UpdatePaused, HandleReply;
    var start := Start(w, contents, now);
    ReachStart(w, timeout, start);
    ReachStep(w, timeout, start, start, FlushOut);
    var sent := Step(w, timeout, start, FlushOut);
    assert sent.wire == [Ack] && sent.out == [];
    ReachStep(w, timeout, start, sent, Deliver);
    var read := Step(w, timeout, sent, Deliver);
    assert read == sent.(wire := [], im := Receiving);
    ReachStep(w, timeout, start, read, BeginSnapshot);
  }

  lemma {:induction false} SnapshotArrives<S, C(!new)>(w: World<S, C>, timeout: nat, start: System<S, C>, contents: S, target: S, cs: seq<C>, now: int)
    requires Reachable(w, timeout, start, Sending(contents, target, cs, now))
    ensures Reachable(w, timeout, start, Sending(contents, Run(w, target, cs), [], now))
    decreases |cs|
  {
    hide Reachable, UpdatePaused, HandleReply;
    if cs != [] {
      var s := Sending(contents, target, cs, now);
      ReachStep(w, timeout, start, s, ForwardSnapshot);
      var sent := Step(w, timeout, s, ForwardSnapshot);
      assert s.snapshot[0] == Cmd(cs[0]) && s.snapshot[1..] == AsMsgs(cs[1..]) + [SnapshotEof];
      assert sent == s.(wire := [Cmd(cs[0])], snapshot := AsMsgs(cs[1..]) + [SnapshotEof]);
      ReachStep(w, timeout, start, sent, Deliver);
      assert Step(w, timeout, sent, Deliver) == Sending(contents, w.apply(target, cs[0]), cs[1..], now);
      SnapshotArrives(w, timeout, start, contents, w.apply(target, cs[0]), cs[1..], now);
    }
  }

  function Deadline(timeout: nat, now: int): int {
    if timeout * MF_PAUSE_MULT < OPERATION_TIMEOUT then now + OPERATION_TIMEOUT else now + timeout * MF_PAUSE_MULT
  }

  /** The target may claim the slots. */
  function Ready<S, C>(contents: S, timeout: nat, now: int): System<S, C> {
    var end := Deadline(timeout, now);
    System(contents, contents, Granted, MayClaim, [], [], [], [], end, Pause(true, end, true, now, now), true, true)
  }

  /** The source has paused for the job and the target knows. */
  function PausedBoth<S, C>(contents: S, target: S, timeout: nat, now: int): System<S, C> {
    var end := now + timeout * MF_PAUSE_MULT;
    System(contents, target, Paused, Requested, [], [], [], [RequestFailover], end, Pause(true, end, true, now, now), true, true)
  }

  /** The target has loaded the snapshot and asks for the pause. */
  function Loaded<S, C>(contents: S, target: S, now: int): System<S, C> {
    System(contents, target, Snapshotting, WaitingForPaused, [], [], [], [RequestPause], 0, Pause(false, 0, false, now, now), true, true)
  }

  lemma EofArrives<S, C(!new)>(w: World<S, C>, timeout: nat, start: System<S, C>, contents: S, target: S, now: int)
    requires Reachable(w, timeout, start, Sending(contents, target, [], now))
    ensures Reachable(w, timeout, start, Loaded(contents, target, now))
  {
    hide Reachable, UpdatePaused, HandleReply;
    var s: System<S, C> := Sending(contents, target, [], now);
    assert s.snapshot == [SnapshotEof];
    ReachStep(w, timeout, start, s, ForwardSnapshot);
    var eof := Step(w, timeout, s, ForwardSnapshot);
    assert eof == s.(wire := [SnapshotEof], snapshot := []);
    ReachStep(w, timeout, start, eof, Deliver);
    assert Step(w, timeout, eof, Deliver) == Loaded(contents, target, now);
  }

  lemma PauseArrives<S, C(!new)>(w: World<S, C>, timeout: nat, start: System<S, C>, contents: S, target: S, now: int)
    requires timeout > 0 && now > 0 && Reachable(w, timeout, start, Loaded(contents, target, now))
    ensures Reachable(w, timeout, start, PausedBoth(contents, target, timeout, now))
  {
    hide Reachable;
    var s: System<S, C> := Loaded(contents, target, now);
    ReachStep(w, timeout, start, s, DeliverReply(true, false));
    var paused := Step(w, timeout, s, DeliverReply(true, false));
    assert paused.out == [PausedMsg] && paused.ex == Paused && paused.back == [];
    ReachStep(w, timeout, start, paused, FlushOut);
    var told := Step(w, timeout, paused, FlushOut);
    assert told == paused.(wire := [PausedMsg], out := []);
    ReachStep(w, timeout, start, told, Deliver);
    assert Step(w, timeout, told, Deliver) == PausedBoth(contents, target, timeout, now);
  }

  lemma GrantArrives<S, C(!new)>(w: World<S, C>, timeout: nat, start: System<S, C>, contents: S, now: int)
    requires timeout > 0 && Reachable(w, timeout, start, PausedBoth(contents, contents, timeout, now))
    ensures Reachable(w, timeout, start, Ready(contents, timeout, now))
  {
    hide Reachable;
    var s: System<S, C> := PausedBoth(contents, contents, timeout, now);
    ReachStep(w, timeout, start, s, DeliverReply(true, false));
    var granted := Step(w, timeout, s, DeliverReply(true, false));
    assert granted.out == [GrantedMsg] && granted.ex == Granted && granted.back == [];
    ReachStep(w, timeout, start, granted, FlushOut);
    var told := Step(w, timeout, granted, FlushOut);
    assert told == granted.(wire := [GrantedMsg], out := []);
    ReachStep(w, timeout, start, told, Deliver);
    assert Step(w, timeout, told, Deliver) == Ready(contents, timeout, now);
  }

  /** Whatever the slots hold, some run brings the target to where it may claim
      them, with the source's contents and the deadline ahead. */
  lemma TransferCompletes<S(!new), C(!new)>(w: World<S, C>, timeout: nat, contents: S, now: int)
    requires Faithful(w) && timeout > 0 && now > 0
    ensures Reachable(w, timeout, Start(w, contents, now), Ready(contents, timeout, now))
    ensures Reachable(w, timeout, Start(w, contents, now), Ready(contents, timeout, now).(im := Claimed))
  {
    hide Reachable, Run;
    var start := Start(w, contents, now);
    SnapshotBegins(w, timeout, contents, now);
    SnapshotArrives(w, timeout, start, contents, w.empty, w.rewrite(contents), now);
    EofArrives(w, timeout, start, contents, contents, now);
    PauseArrives(w, timeout, start, contents, contents, now);
    GrantArrives(w, timeout, start, contents, now);
    ReachStep(w, timeout, start, Ready(contents, timeout, now), Takeover);
  }

  /** The claim does not look at the source's deadline: once it has passed, a
      write can be accepted and lost by the takeover. */
  lemma LateClaimLosesWrite<S(!new), C(!new)>(w: World<S, C>, timeout: nat, contents: S, now: int, c: C)
    requires Faithful(w) && timeout > 0 && now > 0
    ensures exists s: System<S, C> :: Reachable(w, timeout, Start(w, contents, now), s) && s.ex == Granted && s.im == Claimed
              && s.target == contents && s.source == w.apply(contents, c)
  {
    hide Reachable, Run, Faithful;
    var start := Start(w, contents, now);
    TransferCompletes(w, timeout, contents, now);
    var s: System<S, C> := Ready(contents, timeout, now);
    PauseRunsOut(w, timeout, start, s);
    ReachStep(w, timeout, start, Resumed(s), Write(c));
    var written := Step(w, timeout, Resumed(s), Write(c));
    ReachStep(w, timeout, start, written, Takeover);
    var claimed := Step(w, timeout, written, Takeover);
    assert claimed.ex == Granted && claimed.im == Claimed && claimed.source == w.apply(contents, c);
  }

  /** The source and its pause once the deadline has passed. */
  function Resumed<S, C>(s: System<S, C>): System<S, C> {
    s.(pause := Pause(false, 0, false, s.pause.end, s.pause.end))
  }

  lemma PauseRunsOut<S, C(!new)>(w: World<S, C>, timeout: nat, start: System<S, C>, s: System<S, C>)
    requires Reachable(w, timeout, start, s) && s.pause.end >= s.pause.now
    ensures Reachable(w, timeout, start, Resumed(s))
  {
    hide Reachable;
    ReachStep(w, timeout, start, s, Tick(s.pause.end));
    var late := Step(w, timeout, s, Tick(s.pause.end));
    ReachStep(w, timeout, start, late, RefreshClock);
    var known := Step(w, timeout, late, RefreshClock);
    ReachStep(w, timeout, start, known, RefreshPause);
  }

  /** Conservation ends where it says: a granted export without its client
      accepts a write after the deadline that is neither at the target nor on
      its way, while the target may still claim the slots. */
  lemma UnlinkedWriteIsLost<S(!new), C(!new)>(w: World<S, C>, timeout: nat, contents: S, now: int, c: C)
    requires Faithful(w) && timeout > 0 && now > 0
    ensures exists s: System<S, C> :: Reachable(w, timeout, Start(w, contents, now), s) && s.ex == Granted && s.im == MayClaim
              && !s.linked && !s.quiet && s.source == w.apply(contents, c) && s.target == contents && Pipe(s) == []
  {
    hide Reachable, Run, Faithful;
    var start := Start(w, contents, now);
    TransferCompletes(w, timeout, contents, now);
    var ready: System<S, C> := Ready(contents, timeout, now);
    ReachStep(w, timeout, start, ready, ClientLost(false));
    var lost := Step(w, timeout, ready, ClientLost(false));
    PauseRunsOut(w, timeout, start, lost);
    ReachStep(w, timeout, start, Resumed(lost), Write(c));
    var written := Step(w, timeout, Resumed(lost), Write(c));
    assert written.source == w.apply(contents, c) && Pipe(written) == [];
  }

  /** Nor does it hold for a grant that the client had not sent: a write accepted
      in the millisecond of the deadline waits before the grant and goes with
      it, though no write was accepted since. */
  lemma UnsentGrantLosesWrite<S(!new), C(!new)>(w: World<S, C>, timeout: nat, contents: S, now: int, c: C)
    requires Faithful(w) && timeout > 0 && now > 0
    ensures exists s: System<S, C> :: Reachable(w, timeout, Start(w, contents, now), s) && s.ex == Granted && s.im == Requested
              && !s.linked && s.quiet && s.source == w.apply(contents, c) && s.target == contents && Pipe(s) == []
  {
    hide Reachable, Run;
    var start := Start(w, contents, now);
    SnapshotBegins(w, timeout, contents, now);
    SnapshotArrives(w, timeout, start, contents, w.empty, w.rewrite(contents), now);
    EofArrives(w, timeout, start, contents, contents, now);
    PauseArrives(w, timeout, start, contents, contents, now);
    var paused: System<S, C> := PausedBoth(contents, contents, timeout, now);
    PauseRunsOut(w, timeout, start, paused);
    GrantWithWrite(w, timeout, start, paused, c);
  }

  lemma GrantWithWrite<S, C(!new)>(w: World<S, C>, timeout: nat, start: System<S, C>, s: System<S, C>, c: C)
    requires s == PausedBoth(s.source, s.target, timeout, s.pause.now) && timeout > 0 && Reachable(w, timeout, start, Resumed(s))
    ensures exists t: System<S, C> :: Reachable(w, timeout, start, t) && t.ex == Granted && t.im == Requested
              && !t.linked && t.quiet && t.source == w.apply(s.source, c) && t.target == s.target && Pipe(t) == []
  {
    hide Reachable;
    ReachStep(w, timeout, start, Resumed(s), Write(c));
    var written := Step(w, timeout, Resumed(s), Write(c));
    ReachStep(w, timeout, start, written, OtherPause(s.mfEnd + 1));
    var again := Step(w, timeout, written, OtherPause(s.mfEnd + 1));
    ReachStep(w, timeout, start, again, DeliverReply(true, false));
    var granted := Step(w, timeout, again, DeliverReply(true, false));
    assert granted.ex == Granted;
    ReachStep(w, timeout, start, granted, ClientLost(false));
    var lost := Step(w, timeout, granted, ClientLost(false));
    assert lost.source == w.apply(s.source, c) && Pipe(lost) == [];
  }
}

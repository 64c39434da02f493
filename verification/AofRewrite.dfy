/** Background rewrite of the append-only file: start, success and failure
    (src/aof.c). */
module AofRewrite {
  import opened Common
  import opened SdsArgs
  import opened Decimal
  import opened AofManifest

  // ------------------------------------------------------------ file names

  lemma DigitsDiffer(a: nat, b: nat)
    requires Digits(a) == Digits(b)
    ensures a == b
  {
    StrtolDigits(Digits(a), a);
    StrtolDigits(Digits(b), b);
  }

  lemma MiddleSame(f: string, a: string, b: string, end: string)
    requires f + a + end == f + b + end
    ensures a == b
  {
    var x, y := f + a + end, f + b + end;
    assert |x| == |f| + |a| + |end| && |y| == |f| + |b| + |end|;
    assert x[|f|..|f| + |a|] == a && y[|f|..|f| + |b|] == b;
  }

  lemma IncrNamesDiffer(f: string, a: nat, b: nat)
    requires IncrName(f, a) == IncrName(f, b)
    ensures a == b
  {
    hide Digits;
    var dot, end := f + ".", ".incr" + ".aof";
    assert IncrName(f, a) == dot + Digits(a) + end;
    assert IncrName(f, b) == dot + Digits(b) + end;
    MiddleSame(dot, Digits(a), Digits(b), end);
    DigitsDiffer(a, b);
  }

  lemma BaseNamesDiffer(f: string, a: nat, ra: bool, b: nat, rb: bool)
    requires BaseFileName(f, a, ra) == BaseFileName(f, b, rb)
    ensures a == b && ra == rb
  {
    hide Digits;
    var x, y := BaseFileName(f, a, ra), BaseFileName(f, b, rb);
    assert x[|x| - 1] == if ra then 'b' else 'f';
    assert y[|y| - 1] == if rb then 'b' else 'f';
    var dot, end := f + ".", ".base" + if ra then ".rdb" else ".aof";
    assert x == dot + Digits(a) + end && y == dot + Digits(b) + end;
    MiddleSame(dot, Digits(a), Digits(b), end);
    DigitsDiffer(a, b);
  }

  lemma KindsDiffer(f: string, a: nat, b: nat, rdb: bool)
    ensures IncrName(f, a) != BaseFileName(f, b, rdb)
  {
    hide Digits;
    var x, y := IncrName(f, a), BaseFileName(f, b, rdb);
    assert x[|x| - 1] == 'f' && x[|x| - 5] == 'r';
    assert y[|y| - 1] == (if rdb then 'b' else 'f') && y[|y| - 5] == 'e';
  }

  /** getTempIncrAofName */
  function TempIncrName(f: string): string { "temp-" + f + ".incr" }

  lemma TempDiffers(f: string, a: nat, rdb: bool)
    ensures TempIncrName(f) != IncrName(f, a) && TempIncrName(f) != BaseFileName(f, a, rdb)
  {
    hide Digits;
    var t, x, y := TempIncrName(f), IncrName(f, a), BaseFileName(f, a, rdb);
    assert t[|t| - 1] == 'r' && x[|x| - 1] == 'f' && y[|y| - 1] == if rdb then 'b' else 'f';
  }

  predicate IsIncr(f: string, i: Info) { i.number >= 0 && i.name == IncrName(f, i.number) }

  predicate IsBase(f: string, i: Info) {
    i.number >= 0 && (i.name == BaseFileName(f, i.number, true) || i.name == BaseFileName(f, i.number, false))
  }

  /** Every file is named by its number, and a history file is older than the
      counter of its kind or than the files in use. */
  ghost predicate Tracked(f: string, m: Manifest) {
    && WellFormed(m)
    && (m.base.Some? ==> IsBase(f, m.base.value))
    && (forall i :: 0 <= i < |m.incr| ==> IsIncr(f, m.incr[i]))
    && (forall h :: 0 <= h < |m.history| ==> Past(f, m, m.history[h]))
  }

  ghost predicate Past(f: string, m: Manifest, h: Info) {
    || (IsIncr(f, h) && h.number <= m.incrSeq && forall i :: 0 <= i < |m.incr| ==> h.number < m.incr[i].number)
    || (IsBase(f, h) && h.number <= m.baseSeq && (m.base.Some? ==> h.number < m.base.value.number))
  }

  /** A name that replaying the manifest reads. */
  ghost predicate InUse(m: Manifest, name: string) {
    (m.base.Some? && m.base.value.name == name) || exists i :: 0 <= i < |m.incr| && m.incr[i].name == name
  }

  /** Deleting history files touches no file in use. */
  lemma HistoryNotInUse(f: string, m: Manifest, h: Info)
    requires Tracked(f, m) && Past(f, m, h)
    ensures !InUse(m, h.name)
  {
    hide IncrName, BaseFileName;
    if m.base.Some? && m.base.value.name == h.name {
      NamesSame(f, m.base.value, h);
    }
    forall i | 0 <= i < |m.incr|
      ensures m.incr[i].name != h.name
    {
      if m.incr[i].name == h.name {
        NamesSame(f, m.incr[i], h);
      }
    }
  }

  /** Equal names have equal kinds and numbers. */
  lemma NamesSame(f: string, a: Info, b: Info)
    requires (IsIncr(f, a) || IsBase(f, a)) && (IsIncr(f, b) || IsBase(f, b)) && a.name == b.name
    ensures a.number == b.number && (IsIncr(f, a) <==> IsIncr(f, b)) && (IsIncr(f, a) <==> !IsBase(f, a))
  {
    hide IncrName, BaseFileName;
    KindsDiffer(f, a.number, b.number, true);
    KindsDiffer(f, a.number, b.number, false);
    KindsDiffer(f, b.number, a.number, true);
    KindsDiffer(f, b.number, a.number, false);
    KindsDiffer(f, a.number, a.number, true);
    KindsDiffer(f, a.number, a.number, false);
    if IsIncr(f, a) {
      IncrNamesDiffer(f, a.number, b.number);
    } else {
      forall x: bool, y: bool | BaseFileName(f, a.number, x) == BaseFileName(f, b.number, y)
        ensures a.number == b.number
      {
        BaseNamesDiffer(f, a.number, x, b.number, y);
      }
    }
  }

  // ------------------------------------------------- tracking is preserved

  lemma TrackedNewIncr(f: string, m: Manifest)
    requires Tracked(f, m)
    ensures Tracked(f, NewIncr(m, f))
    ensures !InUse(m, IncrName(f, m.incrSeq + 1))
  {
    hide IncrName, BaseFileName, WellFormed;
    var r, added := NewIncr(m, f), Info(IncrName(f, m.incrSeq + 1), m.incrSeq + 1, Incr);
    Facts(m);
    StepWellFormed(m, AddIncr(f));
    forall h | 0 <= h < |r.history|
      ensures Past(f, r, r.history[h])
    {
      assert Past(f, m, m.history[h]);
    }
    if m.base.Some? && m.base.value.name == added.name {
      NamesSame(f, m.base.value, added);
    }
    forall i | 0 <= i < |m.incr|
      ensures m.incr[i].name != added.name
    {
      if m.incr[i].name == added.name {
        NamesSame(f, m.incr[i], added);
      }
    }
  }

  /** What well-formedness says about the counters. */
  lemma Facts(m: Manifest)
    requires WellFormed(m)
    ensures m.incrSeq >= 0 && m.baseSeq >= 0
    ensures forall i :: 0 <= i < |m.incr| ==> 0 < m.incr[i].number <= m.incrSeq
    ensures forall i, j :: 0 <= i < j < |m.incr| ==> m.incr[i].number < m.incr[j].number
    ensures m.base.Some? ==> m.base.value.number == m.baseSeq
  {
  }

  lemma TrackedNewBase(f: string, m: Manifest, rdb: bool)
    requires Tracked(f, m)
    ensures Tracked(f, NewBase(m, f, rdb))
    ensures !InUse(m, BaseFileName(f, m.baseSeq + 1, rdb))
  {
    hide IncrName, BaseFileName, WellFormed;
    var r, added := NewBase(m, f, rdb), Info(BaseFileName(f, m.baseSeq + 1, rdb), m.baseSeq + 1, Base);
    Facts(m);
    StepWellFormed(m, AddBase(f, rdb));
    var gap := if m.base.Some? then 1 else 0;
    forall h | 0 <= h < |r.history|
      ensures Past(f, r, r.history[h])
    {
      assert h >= gap ==> r.history[h] == m.history[h - gap] && Past(f, m, m.history[h - gap]);
    }
    if m.base.Some? && m.base.value.name == added.name {
      NamesSame(f, m.base.value, added);
    }
    forall i | 0 <= i < |m.incr|
      ensures m.incr[i].name != added.name
    {
      if m.incr[i].name == added.name {
        NamesSame(f, m.incr[i], added);
      }
    }
  }

  lemma TrackedMark(f: string, m: Manifest, open: bool)
    requires Tracked(f, m)
    ensures Tracked(f, MarkHistory(m, open))
  {
    hide IncrName, BaseFileName, WellFormed;
    var r := MarkHistory(m, open);
    Facts(m);
    StepWellFormed(m, Rewritten(open));
    var n := if open && m.incr != [] then |m.incr| - 1 else |m.incr|;
    forall h | 0 <= h < |r.history|
      ensures Past(f, r, r.history[h])
    {
      if h < n {
        assert r.history[h] == m.incr[h].(kind := History);
        assert IsIncr(f, m.incr[h]);
      } else {
        assert r.history[h] == m.history[h - n] && Past(f, m, m.history[h - n]);
      }
    }
  }

  lemma TrackedCleared(f: string, m: Manifest)
    requires Tracked(f, m)
    ensures Tracked(f, m.(history := []))
  {
    hide IncrName, BaseFileName;
    assert AllOf([], History);
  }

  /** Files in use have different names. */
  lemma UsedNamesDiffer(f: string, m: Manifest)
    requires Tracked(f, m)
    ensures forall i, j :: 0 <= i < j < |m.incr| ==> m.incr[i].name != m.incr[j].name
    ensures m.base.Some? ==> forall i :: 0 <= i < |m.incr| ==> m.incr[i].name != m.base.value.name
    ensures !InUse(m, TempIncrName(f))
  {
    hide IncrName, BaseFileName, WellFormed, TempIncrName;
    Facts(m);
    forall i, j | 0 <= i < j < |m.incr|
      ensures m.incr[i].name != m.incr[j].name
    {
      if m.incr[i].name == m.incr[j].name {
        NamesSame(f, m.incr[i], m.incr[j]);
      }
    }
    if m.base.Some? {
      KindsOf(f, m.base.value);
      forall i | 0 <= i < |m.incr|
        ensures m.incr[i].name != m.base.value.name
      {
        if m.incr[i].name == m.base.value.name {
          NamesSame(f, m.incr[i], m.base.value);
        }
      }
      TempDiffers(f, m.base.value.number, true);
      TempDiffers(f, m.base.value.number, false);
    }
    forall i | 0 <= i < |m.incr|
      ensures m.incr[i].name != TempIncrName(f)
    {
      TempDiffers(f, m.incr[i].number, true);
    }
  }

  lemma KindsOf(f: string, a: Info)
    requires IsBase(f, a)
    ensures !IsIncr(f, a)
  {
    hide IncrName, BaseFileName;
    KindsDiffer(f, a.number, a.number, true);
    KindsDiffer(f, a.number, a.number, false);
  }

  /** After a restart the INCR counter is that of the last listed file. A new
      file then takes the name of a history file exactly when no INCR file is
      listed and the history still has the first one. */
  lemma RestartReusesNameIff(f: string, m: Manifest)
    requires Tracked(f, m)
    ensures var name := IncrName(f, Reloaded(m).incrSeq + 1);
      (exists h :: 0 <= h < |m.history| && m.history[h].name == name) <==>
      (m.incr == [] && exists h :: 0 <= h < |m.history| && m.history[h].name == IncrName(f, 1))
  {
    hide IncrName, BaseFileName, WellFormed;
    Facts(m);
    if m.incr != [] {
      var added := Info(IncrName(f, m.incrSeq + 1), m.incrSeq + 1, Incr);
      forall h | 0 <= h < |m.history|
        ensures m.history[h].name != added.name
      {
        assert Past(f, m, m.history[h]);
        if m.history[h].name == added.name {
          NamesSame(f, m.history[h], added);
        }
      }
    }
  }

  lemma RestartReusesName(f: string)
    ensures var m := RunOps([AddIncr(f), AddBase(f, false), Rewritten(false), Restart, AddIncr(f)]);
      m.incr != [] && m.history != [] && m.incr[0].name == m.history[0].name
  {
    hide IncrName, BaseFileName;
    var ops := [AddIncr(f), AddBase(f, false), Rewritten(false), Restart, AddIncr(f)];
    assert ops[..1] == [AddIncr(f)] && ops[..1][..0] == [];
    assert ops[..2][..1] == ops[..1] && ops[..3][..2] == ops[..2] && ops[..4][..3] == ops[..3];
    assert ops[..5] == ops && ops[..5][..4] == ops[..4];
    var m1 := Do(EMPTY, AddIncr(f));
    var m2 := Do(m1, AddBase(f, false));
    var m3 := Do(m2, Rewritten(false));
    assert RunOps(ops[..1]) == m1;
    assert RunOps(ops[..2]) == m2;
    assert RunOps(ops[..3]) == m3;
    assert RunOps(ops[..4]) == Do(m3, Restart);
  }

  // ---------------------------------------------------------------- meaning

  /** A BASE file holds a dataset, an INCR file a list of commands. */
  datatype Content<S, C> = Snapshot(dataset: S) | Log(cmds: seq<C>)

  function Run<S, C>(apply: (S, C) -> S, s: S, cs: seq<C>): S {
    if cs == [] then s else apply(Run(apply, s, cs[..|cs| - 1]), cs[|cs| - 1])
  }

  predicate HasLogs<S, C>(files: map<string, Content<S, C>>, incr: seq<Info>) {
    forall i :: 0 <= i < |incr| ==> incr[i].name in files && files[incr[i].name].Log?
  }

  function Logs<S, C>(files: map<string, Content<S, C>>, incr: seq<Info>): seq<C>
    requires HasLogs(files, incr)
  {
    if incr == [] then [] else Logs(files, incr[..|incr| - 1]) + files[incr[|incr| - 1].name].cmds
  }

  predicate Readable<S, C>(files: map<string, Content<S, C>>, m: Manifest) {
    HasLogs(files, m.incr) && (m.base.Some? ==> m.base.value.name in files && files[m.base.value.name].Snapshot?)
  }

  function BaseOf<S, C>(files: map<string, Content<S, C>>, m: Manifest, empty: S): S
    requires Readable(files, m)
  {
    if m.base.Some? then files[m.base.value.name].dataset else empty
  }

  /** Replaying the manifest's BASE and INCR files and then more commands. */
  function Replayed<S, C>(apply: (S, C) -> S, empty: S, files: map<string, Content<S, C>>, m: Manifest, more: seq<C>): S
    requires Readable(files, m)
  {
    Run(apply, BaseOf(files, m, empty), Logs(files, m.incr) + more)
  }

  lemma {:induction false} LogsSame<S, C>(a: map<string, Content<S, C>>, b: map<string, Content<S, C>>, incr: seq<Info>)
    requires HasLogs(a, incr)
    requires forall i :: 0 <= i < |incr| ==> incr[i].name in b && b[incr[i].name] == a[incr[i].name]
    ensures HasLogs(b, incr) && Logs(b, incr) == Logs(a, incr)
    decreases |incr|
  {
    if incr != [] {
      LogsSame(a, b, incr[..|incr| - 1]);
    }
  }

  /** Changes to files not in use do not matter. */
  lemma ReplayedSame<S, C>(apply: (S, C) -> S, empty: S, a: map<string, Content<S, C>>, b: map<string, Content<S, C>>,
                           m: Manifest, more: seq<C>)
    requires Readable(a, m) && forall n :: InUse(m, n) ==> n in b && b[n] == a[n]
    ensures Readable(b, m) && Replayed(apply, empty, b, m, more) == Replayed(apply, empty, a, m, more)
  {
    assert m.base.Some? ==> InUse(m, m.base.value.name);
    forall i | 0 <= i < |m.incr|
      ensures m.incr[i].name in b && b[m.incr[i].name] == a[m.incr[i].name]
    {
      assert InUse(m, m.incr[i].name);
    }
    LogsSame(a, b, m.incr);
  }

  /** Commands move from the buffer to the end of the last INCR file. */
  lemma FlushedSame<S, C>(apply: (S, C) -> S, empty: S, f: string, files: map<string, Content<S, C>>, m: Manifest,
                          buf: seq<C>, k: nat)
    requires Readable(files, m) && Tracked(f, m) && m.incr != [] && k <= |buf|
    ensures var name := m.incr[|m.incr| - 1].name;
      var after := files[name := Log(files[name].cmds + buf[..k])];
      Readable(after, m) && Replayed(apply, empty, after, m, buf[k..]) == Replayed(apply, empty, files, m, buf)
  {
    hide Tracked, InUse, Run;
    UsedNamesDiffer(f, m);
    var n := |m.incr| - 1;
    var name := m.incr[n].name;
    var after := files[name := Log(files[name].cmds + buf[..k])];
    LogsSame(files, after, m.incr[..n]);
    assert HasLogs(after, m.incr);
    var x, y := Logs(files, m.incr[..n]), files[name].cmds;
    assert x + (y + buf[..k]) + buf[k..] == x + y + (buf[..k] + buf[k..]);
    assert buf[..k] + buf[k..] == buf;
  }

  /** Adding an empty INCR file. */
  lemma OpenedSame<S, C>(apply: (S, C) -> S, empty: S, f: string, files: map<string, Content<S, C>>, m: Manifest)
    requires Readable(files, m) && Tracked(f, m)
    ensures var next, after := NewIncr(m, f), files[IncrName(f, m.incrSeq + 1) := Log([])];
      Readable(after, next) && Replayed(apply, empty, after, next, []) == Replayed(apply, empty, files, m, [])
  {
    hide Tracked, IncrName, Run;
    TrackedNewIncr(f, m);
    var next, after := NewIncr(m, f), files[IncrName(f, m.incrSeq + 1) := Log([])];
    ReplayedSame(apply, empty, files, after, m, []);
    var n := |m.incr|;
    assert next.incr[..n] == m.incr;
    forall i | 0 <= i < |next.incr|
      ensures next.incr[i].name in after && after[next.incr[i].name].Log?
    {
      assert i < n ==> next.incr[i] == m.incr[i];
    }
    LogsSame(after, after, m.incr);
    assert Logs(after, next.incr) == Logs(after, m.incr) + [];
    assert Logs(after, m.incr) + [] + [] == Logs(after, m.incr) + [];
  }

  /** Replaying a snapshot and the one INCR file opened when it was taken. */
  lemma SwappedIs<S, C>(apply: (S, C) -> S, empty: S, files: map<string, Content<S, C>>, m: Manifest, buf: seq<C>)
    requires m.base.Some? && |m.incr| == 1 && Readable(files, m)
    ensures Replayed(apply, empty, files, m, buf) ==
      Run(apply, files[m.base.value.name].dataset, files[m.incr[0].name].cmds + buf)
  {
    assert m.incr[..0] == [];
    assert Logs(files, m.incr) == [] + files[m.incr[0].name].cmds;
    assert [] + files[m.incr[0].name].cmds == files[m.incr[0].name].cmds;
  }

  /** Commands left in the buffer when the snapshot is taken are in it already;
      for a dataset that is the list of its commands, replaying them again gives
      the same dataset exactly when there are none. */
  lemma LeftoverTwiceIff<C>(snapshot: seq<C>, leftover: seq<C>, later: seq<C>)
    ensures var append := (s: seq<C>, c: C) => s + [c];
      Run(append, snapshot, leftover + later) == Run(append, snapshot, later) <==> leftover == []
  {
    var append := (s: seq<C>, c: C) => s + [c];
    RunAppends(append, snapshot, leftover + later);
    RunAppends(append, snapshot, later);
    if leftover != [] {
      assert |snapshot + (leftover + later)| > |snapshot + later|;
    } else {
      assert leftover + later == later;
    }
  }

  lemma {:induction false} RunAppends<C>(append: (seq<C>, C) -> seq<C>, s: seq<C>, cs: seq<C>)
    requires forall x, c :: append(x, c) == x + [c]
    ensures Run(append, s, cs) == s + cs
    decreases |cs|
  {
    if cs != [] {
      RunAppends(append, s, cs[..|cs| - 1]);
      assert cs == cs[..|cs| - 1] + [cs[|cs| - 1]];
      assert s + cs[..|cs| - 1] + [cs[|cs| - 1]] == s + cs;
    }
  }
}

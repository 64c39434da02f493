/** The server's append-only state through rewrites (src/aof.c). */
module AofServer {
  import opened Common
  import opened SdsArgs
  import opened AofManifest
  import opened AofRewrite

  datatype AofState = AofOff | AofOn | AofWaitRewrite

  class Server<S, C> {
    const apply: (S, C) -> S
    const empty: S
    const filename: string

    var state: AofState
    var manifest: Manifest
    /** The manifest file. */
    var onDisk: Manifest
    /** The files of the append-only directory. */
    var files: map<string, Content<S, C>>
    /** The file behind server.aof_fd */
    var fd: Option<string>
    /** server.aof_buf, command by command */
    var buf: seq<C>
    /** The dataset as the rewriting child saw it at the fork. */
    var child: Option<S>
    /** The dataset. */
    var live: S

    ghost predicate Tracking()
      reads this
    {
      && Tracked(filename, manifest) && Tracked(filename, onDisk)
      && onDisk.base == manifest.base && onDisk.incr == manifest.incr
      && (manifest.base.None? ==> manifest.history == [] && onDisk.history == [])
    }

    /** AOF_ON: replaying BASE, INCR files and buffer gives the dataset; so does
        the child's snapshot with the current INCR file and the buffer. */
    ghost predicate On()
      reads this
    {
      && manifest.incr != [] && fd == Some(manifest.incr[|manifest.incr| - 1].name)
      && Readable(files, manifest)
      && Replayed(apply, empty, files, manifest, buf) == live
      && (child.Some? ==> Run(apply, child.value, files[fd.value].cmds + buf) == live)
    }

    /** The BASE file holds this snapshot. */
    ghost predicate Based(snapshot: Option<S>)
      reads this
    {
      && snapshot.Some? && manifest.base.Some?
      && manifest.base.value.name in files && files[manifest.base.value.name] == Snapshot(snapshot.value)
    }

    /** AOF_WAIT_REWRITE: the snapshot, the temporary INCR file and the buffer
        give the dataset. Without a child nothing is collected. */
    ghost predicate Waiting()
      reads this
    {
      if child.Some? then
        && fd == Some(TempIncrName(filename))
        && fd.value in files && files[fd.value].Log?
        && Run(apply, child.value, files[fd.value].cmds + buf) == live
      else buf == []
    }

    ghost predicate Valid()
      reads this
    {
      Tracking() && match state case AofOn => On() case AofWaitRewrite => Waiting() case AofOff => Off()
    }

    /** AOF_OFF: nothing is collected. A failed start leaves the temporary INCR
        file open. */
    ghost predicate Off()
      reads this
    {
      buf == [] && (fd == None || fd == Some(TempIncrName(filename)))
    }

    /** A server without append-only files, with the log off. */
    constructor (apply: (S, C) -> S, empty: S, filename: string)
      ensures Valid() && state == AofOff && live == empty && child == None && manifest == EMPTY
      ensures this.apply == apply && this.empty == empty && this.filename == filename
    {
      this.apply, this.empty, this.filename := apply, empty, filename;
      state, manifest, onDisk, files := AofOff, EMPTY, EMPTY, map[];
      fd, buf, child, live := None, [], None, empty;
    }

    /** A command is executed and fed. */
    method Feed(c: C)
      requires Valid()
      modifies `live, `buf
      ensures Valid() && live == apply(old(live), c)
    {
      hide Tracked, InUse, Run;
      if state == AofOn {
        RunOneMore(apply, BaseOf(files, manifest, empty), Logs(files, manifest.incr), buf, c);
      }
      if state != AofOff && child.Some? {
        RunOneMore(apply, child.value, files[fd.value].cmds, buf, c);
      }
      live := apply(live, c);
      if state == AofOn || (state == AofWaitRewrite && child.Some?) {
        buf := buf + [c];
      }
    }

    /** A flush that moves the first k commands to the file. */
    method Flush(k: nat)
      requires Valid() && k <= |buf|
      modifies `files, `buf
      ensures Valid() && buf == old(buf)[k..]
    {
      hide Tracked, InUse, Run;
      if buf == [] {
        return;
      }
      ghost var before := files;
      var name := fd.value;
      assert files[name].cmds + buf == files[name].cmds + buf[..k] + buf[k..];
      if state == AofOn {
        FlushedSame(apply, empty, filename, files, manifest, buf, k);
      }
      files := files[name := Log(files[name].cmds + buf[..k])];
      buf := buf[k..];
    }

    /** openNewIncrAofForAppend on an empty buffer */
    method OpenNewIncr(opens: bool, persists: bool) returns (ok: bool)
      requires Valid() && buf == [] && child == None
      modifies `files, `fd, `manifest, `onDisk
      ensures Valid()
      ensures ok <==> state == AofOff || (opens && (state == AofOn ==> persists))
      ensures ok && state != AofOff ==> fd.Some? && fd.value in files && files[fd.value] == Log([])
      ensures state == AofWaitRewrite ==> fd == (if ok then Some(TempIncrName(filename)) else old(fd)) && manifest == old(manifest)
      ensures state == AofOff ==> fd == old(fd) && manifest == old(manifest)
    {
      hide Tracked, IncrName, Run, TempIncrName;
      if state == AofOff {
        return true;
      }
      if !opens {
        return false;
      }
      if state == AofWaitRewrite {
        files := files[TempIncrName(filename) := Log([])];
        fd := Some(TempIncrName(filename));
        return true;
      }
      var temp := NewIncr(manifest, filename);
      var name := temp.incr[|temp.incr| - 1].name;
      TrackedNewIncr(filename, manifest);
      OpenedSame(apply, empty, filename, files, manifest);
      ghost var before := files;
      files := files[name := Log([])];
      ReplayedSame(apply, empty, before, files, manifest, buf);
      if !persists {
        return false;
      }
      onDisk := temp;
      manifest := temp;
      fd := Some(name);
      return true;
    }

    /** rewriteAppendOnlyFileBackground; the forced flush empties the buffer. */
    method StartRewrite(opens: bool, persists: bool, forks: bool) returns (ok: bool)
      requires Valid()
      modifies `files, `buf, `fd, `manifest, `onDisk, `child
      ensures Valid()
      ensures ok <==> old(child) == None && (state == AofOff || (opens && (state == AofOn ==> persists))) && forks
      ensures child == if ok then Some(live) else old(child)
      ensures state == AofWaitRewrite ==>
        fd == (if old(child) == None && opens then Some(TempIncrName(filename)) else old(fd)) && manifest == old(manifest)
      ensures state == AofOff ==> fd == old(fd) && manifest == old(manifest)
    {
      hide Tracked, IncrName, Readable, TempIncrName;
      if child.Some? {
        return false;
      }
      Flush(|buf|);
      var switched := OpenNewIncr(opens, persists);
      if !switched {
        return false;
      }
      if !forks {
        return false;
      }
      child := Some(live);
      return true;
    }

    /** The end of backgroundRewriteDoneHandler after success or failure. */
    method Cleanup()
      requires Tracking() && (state == AofOn ==> On()) && (state == AofOff ==> Off())
      modifies `child, `buf, `files
      ensures Valid() && child == None
      ensures state != AofWaitRewrite ==> buf == old(buf) && files == old(files)
    {
      hide Tracked, InUse, Run, TempIncrName;
      child := None;
      if state == AofWaitRewrite {
        buf := [];
        files := files - {TempIncrName(filename)};
      }
    }

    /** aofDelHistoryFiles */
    method DeleteHistory(persists: bool)
      modifies `files, `manifest, `onDisk
      ensures manifest == old(manifest).(history := [])
      ensures onDisk == if persists && old(manifest).history != [] then manifest else old(onDisk)
      ensures files == old(files) - HistoryNames(old(manifest))
    {
      if manifest.history == [] {
        return;
      }
      ghost var start := manifest;
      var h := 0;
      while h < |manifest.history|
        invariant 0 <= h <= |manifest.history| && manifest == start && onDisk == old(onDisk)
        invariant files == old(files) - NamesUpTo(start, h)
      {
        assert NamesUpTo(start, h + 1) == NamesUpTo(start, h) + {manifest.history[h].name};
        files := files - {manifest.history[h].name};
        h := h + 1;
      }
      manifest := manifest.(history := []);
      if persists {
        onDisk := manifest;
      }
    }

    /** The renames and the manifest update of a rewrite in AOF_ON. */
    method SwapOn(rdb: bool, renames: bool, persists: bool) returns (ok: bool)
      requires Valid() && state == AofOn && child.Some?
      modifies `files, `manifest, `onDisk
      ensures Valid() && ok == (renames && persists)
      ensures ok ==> |manifest.incr| == 1 && Based(child) && onDisk == manifest
      ensures ok ==> manifest == Swapped(AofOn, filename, old(manifest), rdb, true)
      ensures !ok ==> manifest == old(manifest) && onDisk == old(onDisk)
    {
      hide Tracked, IncrName, BaseFileName, Run, WellFormed;
      var temp := NewBase(manifest, filename, rdb);
      TrackedNewBase(filename, manifest, rdb);
      var base := temp.base.value.name;
      if !renames {
        return false;
      }
      ghost var before := files;
      files := files[base := Snapshot(child.value)];
      ReplayedSame(apply, empty, before, files, manifest, buf);
      assert InUse(manifest, fd.value);
      temp := MarkHistory(temp, fd.Some?);
      if !persists {
        files := files - {base};
        ReplayedSame(apply, empty, before, files, manifest, buf);
        return false;
      }
      TrackedMark(filename, NewBase(manifest, filename, rdb), true);
      ghost var last := manifest.incr[|manifest.incr| - 1];
      assert temp.incr == [last];
      onDisk := temp;
      manifest := temp;
      assert Readable(files, manifest);
      SwappedIs(apply, empty, files, manifest, buf);
      return true;
    }

    /** The same in AOF_WAIT_REWRITE: the temporary INCR file gets its name. */
    method SwapWaiting(rdb: bool, renamesBase: bool, renamesIncr: bool, persists: bool) returns (ok: bool)
      requires Valid() && state == AofWaitRewrite && child.Some?
      modifies `files, `manifest, `onDisk, `fd
      ensures Tracking() && ok == (renamesBase && renamesIncr && persists)
      ensures ok ==> On() && Based(child) && onDisk == manifest && |manifest.incr| == 1
      ensures ok ==> manifest == Swapped(AofWaitRewrite, filename, old(manifest), rdb, true)
      ensures !ok ==> manifest == old(manifest) && onDisk == old(onDisk)
    {
      hide Tracked, IncrName, BaseFileName, Run, WellFormed, TempIncrName;
      var temp := NewBase(manifest, filename, rdb);
      TrackedNewBase(filename, manifest, rdb);
      var base := temp.base.value.name;
      if !renamesBase {
        return false;
      }
      var incr := NewIncr(temp, filename);
      TrackedNewIncr(filename, temp);
      UsedNamesDiffer(filename, incr);
      TrackedMark(filename, incr, true);
      var name := incr.incr[|incr.incr| - 1].name;
      files := files[base := Snapshot(child.value)];
      if !renamesIncr {
        files := files - {base};
        return false;
      }
      assert InUse(incr, base);
      var log := files[TempIncrName(filename)];
      files := (files - {TempIncrName(filename)})[name := log];
      fd := Some(name);
      temp := MarkHistory(incr, fd.Some?);
      if !persists {
        files := files - {base, name};
        return false;
      }
      assert temp.incr == [incr.incr[|incr.incr| - 1]];
      onDisk := temp;
      manifest := temp;
      assert Readable(files, manifest);
      SwappedIs(apply, empty, files, manifest, buf);
      return true;
    }

    /** And with the log off: the child's file replaces all others, unless a
        file is still open, in which case the last INCR file stays. */
    method SwapOff(rdb: bool, renames: bool, persists: bool) returns (ok: bool)
      requires Valid() && state == AofOff && child.Some?
      modifies `files, `manifest, `onDisk
      ensures Tracking() && ok == (renames && persists)
      ensures ok ==> manifest == Swapped(AofOff, filename, old(manifest), rdb, fd.Some?) && onDisk == manifest
      ensures !ok ==> manifest == old(manifest) && onDisk == old(onDisk)
      ensures ok ==> Based(child) && (manifest.incr == [] <==> fd == None || old(manifest).incr == [])
      ensures ok && manifest.incr == [] ==> Readable(files, manifest) && Replayed(apply, empty, files, manifest, []) == child.value
    {
      hide Tracked, IncrName, BaseFileName, WellFormed;
      var temp := NewBase(manifest, filename, rdb);
      TrackedNewBase(filename, manifest, rdb);
      var base := temp.base.value.name;
      if !renames {
        return false;
      }
      files := files[base := Snapshot(child.value)];
      TrackedMark(filename, temp, fd.Some?);
      temp := MarkHistory(temp, fd.Some?);
      if !persists {
        files := files - {base};
        return false;
      }
      onDisk := temp;
      manifest := temp;
      return true;
    }

    /** Removing the history after a successful rewrite. */
    method Collect(gcPersists: bool, ghost snapshot: Option<S>)
      requires Tracking() && (state != AofOff ==> On())
      modifies `files, `manifest, `onDisk
      ensures Tracking() && (state != AofOff ==> On()) && manifest == old(manifest).(history := [])
      ensures old(Based(snapshot)) ==> Based(snapshot)
    {
      hide Tracked, IncrName, BaseFileName, Run, WellFormed, HistoryNames;
      ghost var before, m := files, manifest;
      DeleteHistory(gcPersists);
      TrackedCleared(filename, m);
      HistoryUnused(filename, m);
      SameUse(m, manifest);
      if state != AofOff {
        UsedInFiles(before, m);
        ReplayedSame(apply, empty, before, files, m, buf);
        assert InUse(m, fd.value);
        assert Readable(files, manifest);
      }
      assert m.base.Some? ==> InUse(m, m.base.value.name);
    }

    /** backgroundRewriteDoneHandler: in AOF_ON the replayed dataset stays the
        live one whatever fails; AOF_WAIT_REWRITE turns to AOF_ON on success. */
    method FinishRewrite(exited: bool, rdb: bool, renamesBase: bool, renamesIncr: bool, persists: bool, gc: bool,
                         gcPersists: bool) returns (ok: bool)
      requires Valid() && child.Some?
      modifies this
      ensures Valid() && child == None && live == old(live)
      ensures ok <==> exited && renamesBase && (old(state) == AofWaitRewrite ==> renamesIncr) && persists
      ensures state == if ok && old(state) == AofWaitRewrite then AofOn else old(state)
      ensures ok ==> Based(old(child)) && (state == AofOn ==> |manifest.incr| == 1)
      ensures ok ==>
        var m := Swapped(old(state), filename, old(manifest), rdb, old(state) != AofOff || old(fd).Some?);
        manifest == (if gc then m.(history := []) else m) && (!gc ==> onDisk == manifest)
      ensures !ok ==> manifest == old(manifest) && onDisk == old(onDisk)
      ensures ok && state == AofOff ==> (manifest.incr == [] <==> old(fd) == None || old(manifest).incr == [])
    {
      hide Tracked, IncrName, BaseFileName, Run, WellFormed, TempIncrName, Readable;
      ok := false;
      if exited {
        match state {
          case AofOn => ok := SwapOn(rdb, renamesBase, persists);
          case AofWaitRewrite => ok := SwapWaiting(rdb, renamesBase, renamesIncr, persists);
          case AofOff => ok := SwapOff(rdb, renamesBase, persists);
        }
        if ok {
          if gc {
            Collect(gcPersists, child);
          }
          if state == AofWaitRewrite {
            state := AofOn;
          }
        }
      }
      Cleanup();
    }

    /** startAppendOnly: a running rewrite is stopped and a new one started. */
    method Enable(opens: bool, forks: bool) returns (ok: bool)
      requires Valid() && state == AofOff
      modifies this
      ensures Valid() && live == old(live)
      ensures ok <==> opens && forks
      ensures state == if ok then AofWaitRewrite else AofOff
      ensures child == if ok then Some(live) else None
      ensures fd == (if opens then Some(TempIncrName(filename)) else old(fd)) && manifest == old(manifest)
    {
      hide Tracked, IncrName, BaseFileName, Run, WellFormed, TempIncrName;
      state := AofWaitRewrite;
      child := None;
      ok := StartRewrite(opens, true, forks);
      if !ok {
        state := AofOff;
      }
    }

    /** stopAppendOnly */
    method Disable()
      requires Valid() && state != AofOff
      modifies this
      ensures Valid() && state == AofOff && live == old(live) && child == None && fd == None && manifest == old(manifest)
    {
      hide Tracked, IncrName, BaseFileName, Run, WellFormed, TempIncrName;
      Flush(|buf|);
      fd, state, child, buf := None, AofOff, None, [];
    }

    /** aofOpenIfNeededOnServerStart; a file that is opened for appending keeps
        what it holds. */
    method OpenOnStart(rdb: bool)
      modifies `manifest, `onDisk, `files, `fd
      ensures manifest == Opened(filename, old(manifest), rdb) && onDisk == manifest
      ensures manifest.incr != [] && fd == Some(LastName(manifest))
      ensures files == OpenedFiles(filename, old(files), old(manifest), rdb, live)
    {
      hide IncrName, BaseFileName;
      if manifest.base == None && manifest.incr == [] {
        manifest := NewBase(manifest, filename, rdb);
        files := files[manifest.base.value.name := Snapshot(live)];
      }
      if manifest.incr == [] {
        manifest := NewIncr(manifest, filename);
      }
      var name := manifest.incr[|manifest.incr| - 1].name;
      if name !in files {
        files := files[name := Log([])];
      }
      fd := Some(name);
      onDisk := manifest;
    }

    /** A restart in AOF_ON: the manifest is read, its files are replayed, the
        last INCR file or a new one is opened and the history removed. The open
        file is removed with it exactly when its name is reused. */
    method Restart(rdb: bool, gc: bool, gcPersists: bool) returns (ok: bool)
      requires Valid()
      modifies this
      ensures ok <==> Readable(old(files), old(onDisk))
      ensures ok ==> state == AofOn && buf == [] && child == None && live == Replayed(apply, empty, old(files), old(onDisk), [])
      ensures ok ==> manifest.incr != [] && fd == Some(LastName(manifest))
      ensures ok && gc ==> (fd.value in files <==> !Reuses(filename, old(onDisk)))
      ensures ok && old(onDisk).incr != [] ==> Valid()
      ensures ok && gc && gcPersists && !Reuses(filename, old(onDisk)) && Unused(old(files), IncrName(filename, 1)) ==> Valid()
    {
      hide IncrName, BaseFileName, Run, WellFormed, Tracked, Opened, OpenedFiles, HistoryNames, Replayed, Logged, TempIncrName;
      if !Readable(files, onDisk) {
        return false;
      }
      live := Replayed(apply, empty, files, onDisk, []);
      state, buf, child, fd := AofOn, [], None, None;
      manifest := Reloaded(onDisk);
      ghost var start, before := onDisk, files;
      OpenOnStart(rdb);
      ghost var m, all := manifest, files;
      if gc {
        DeleteHistory(gcPersists);
      }
      OpenedHistory(filename, start, rdb);
      OpenedName(filename, before, start, rdb, live);
      if start.incr != [] {
        StartedListed(apply, empty, filename, before, start, rdb, live);
        LoggedOn(apply, empty, filename, all, m, live);
        LoggedOn(apply, empty, filename, all - HistoryNames(m), m.(history := []), live);
      } else if gc && !Reuses(filename, start) && Unused(before, IncrName(filename, 1)) {
        StartedNew(apply, empty, filename, before, start, rdb, live);
        LoggedOn(apply, empty, filename, all - HistoryNames(m), m.(history := []), live);
      }
      return true;
    }
  }

  /** The manifest of a successful rewrite; `open` tells whether a file is open. */
  function Swapped(state: AofState, f: string, m: Manifest, rdb: bool, open: bool): Manifest {
    var based := NewBase(m, f, rdb);
    MarkHistory(if state == AofWaitRewrite then NewIncr(based, f) else based, open)
  }

  // ------------------------------------------------------------- restart

  function LastName(m: Manifest): string
    requires m.incr != []
  {
    m.incr[|m.incr| - 1].name
  }

  /** A new INCR file takes the name of a history file. */
  ghost predicate Reuses(f: string, m: Manifest) { m.incr == [] && IncrName(f, 1) in HistoryNames(m) }

  ghost predicate Unused<S, C>(files: map<string, Content<S, C>>, name: string) {
    name in files ==> files[name] == Log([])
  }

  function WithBase(f: string, m: Manifest, rdb: bool): Manifest {
    if m.base.None? && m.incr == [] then NewBase(m, f, rdb) else m
  }

  /** The manifest and the files after the open at server start. */
  function Opened(f: string, m: Manifest, rdb: bool): (r: Manifest)
    ensures r.incr != []
  {
    var b := WithBase(f, m, rdb);
    if b.incr == [] then NewIncr(b, f) else b
  }

  function OpenedFiles<S, C>(f: string, files: map<string, Content<S, C>>, m: Manifest, rdb: bool, live: S)
    : map<string, Content<S, C>>
  {
    var based := BasedFiles(f, files, m, rdb, live);
    var name := LastName(Opened(f, m, rdb));
    if name in based then based else based[name := Log([])]
  }

  lemma OpenedHistory(f: string, d: Manifest, rdb: bool)
    ensures Opened(f, Reloaded(d), rdb).history == d.history
    ensures HistoryNames(Opened(f, Reloaded(d), rdb)) == HistoryNames(d)
  {
    hide IncrName, BaseFileName;
  }

  lemma OpenedName<S, C>(f: string, files: map<string, Content<S, C>>, d: Manifest, rdb: bool, live: S)
    requires Tracked(f, d)
    ensures var name := LastName(Opened(f, Reloaded(d), rdb));
      && name in OpenedFiles(f, files, Reloaded(d), rdb, live)
      && (name in HistoryNames(d) <==> Reuses(f, d))
      && (d.incr == [] ==> name == IncrName(f, 1))
  {
    hide IncrName, BaseFileName, Tracked, HistoryNames;
    HistoryUnused(f, d);
    if d.incr != [] {
      assert InUse(d, LastName(d));
    }
  }

  /** A log that replays to the dataset. */
  ghost predicate Logged<S, C>(apply: (S, C) -> S, empty: S, f: string, files: map<string, Content<S, C>>, m: Manifest, live: S) {
    && Tracked(f, m) && (m.base.None? ==> m.history == []) && m.incr != []
    && Readable(files, m) && Replayed(apply, empty, files, m, []) == live
  }

  lemma LoggedOn<S, C>(apply: (S, C) -> S, empty: S, f: string, files: map<string, Content<S, C>>, m: Manifest, live: S)
    requires Logged(apply, empty, f, files, m, live)
    ensures Tracked(f, m) && (m.base.None? ==> m.history == []) && Readable(files, m) && Replayed(apply, empty, files, m, []) == live
  {
  }

  /** The last listed INCR file is opened again. */
  lemma StartedListed<S, C>(apply: (S, C) -> S, empty: S, f: string, files: map<string, Content<S, C>>, d: Manifest, rdb: bool, live: S)
    requires Tracked(f, d) && (d.base.None? ==> d.history == []) && Readable(files, d) && d.incr != []
    requires live == Replayed(apply, empty, files, d, [])
    ensures var m, all := Opened(f, Reloaded(d), rdb), OpenedFiles(f, files, Reloaded(d), rdb, live);
      Logged(apply, empty, f, all, m, live) && Logged(apply, empty, f, all - HistoryNames(m), m.(history := []), live)
  {
    hide IncrName, BaseFileName, Run, HistoryNames, InUse;
    var m := Reloaded(d);
    assert Opened(f, m, rdb) == m && OpenedFiles(f, files, m, rdb, live) == files;
    ReloadTracked(f, d);
    TrackedCleared(f, m);
    HistoryUnused(f, m);
    SameUse(m, m.(history := []));
    UsedInFiles(files, m);
    ReplayedSame(apply, empty, files, files - HistoryNames(m), m, []);
  }

  lemma ReloadTracked(f: string, d: Manifest)
    requires Tracked(f, d) && (d.base.None? || d.incr == [] ==> d.history == [])
    ensures Tracked(f, Reloaded(d))
  {
    hide IncrName, BaseFileName;
    var m := Reloaded(d);
    forall h | 0 <= h < |m.history|
      ensures Past(f, m, m.history[h])
    {
      assert Past(f, d, d.history[h]);
    }
  }

  /** A new INCR file under an unused name. */
  lemma StartedNew<S, C>(apply: (S, C) -> S, empty: S, f: string, files: map<string, Content<S, C>>, d: Manifest, rdb: bool, live: S)
    requires Tracked(f, d) && (d.base.None? ==> d.history == []) && Readable(files, d) && d.incr == []
    requires live == Replayed(apply, empty, files, d, []) && !Reuses(f, d) && Unused(files, IncrName(f, 1))
    ensures var m, all := Opened(f, Reloaded(d), rdb), OpenedFiles(f, files, Reloaded(d), rdb, live);
      Logged(apply, empty, f, all - HistoryNames(m), m.(history := []), live)
  {
    hide IncrName, BaseFileName, Run, HistoryNames, InUse, Tracked, Readable, Replayed;
    var r := Reloaded(d);
    var m, all := Opened(f, r, rdb), OpenedFiles(f, files, r, rdb, live);
    var clear := r.(history := []);
    OpenedHistory(f, d, rdb);
    TrackedCleared(f, d);
    ReloadTracked(f, d.(history := []));
    var kept := files - HistoryNames(d);
    StartedBase(apply, empty, f, files, d, rdb, live);
    var based, bfiles := WithBase(f, clear, rdb), BasedFiles(f, kept, r, rdb, live);
    OpenedSame(apply, empty, f, bfiles, based);
    TrackedNewIncr(f, based);
    assert m.(history := []) == NewIncr(based, f);
    NewFiles(f, files, d, rdb, live);
  }

  lemma NewFiles<S, C>(f: string, files: map<string, Content<S, C>>, d: Manifest, rdb: bool, live: S)
    requires (d.base.None? ==> d.history == []) && d.incr == [] && !Reuses(f, d) && Unused(files, IncrName(f, 1))
    ensures OpenedFiles(f, files, Reloaded(d), rdb, live) - HistoryNames(d) ==
      BasedFiles(f, files - HistoryNames(d), Reloaded(d), rdb, live)[IncrName(f, 1) := Log([])]
  {
    hide IncrName, BaseFileName;
    KindsDiffer(f, 1, 1, rdb);
    var r, name := Reloaded(d), IncrName(f, 1);
    assert LastName(Opened(f, r, rdb)) == name;
    if d.base.None? {
      assert HistoryNames(d) == {};
    }
  }

  /** The files with a new BASE file when there was none. */
  function BasedFiles<S, C>(f: string, files: map<string, Content<S, C>>, m: Manifest, rdb: bool, live: S)
    : map<string, Content<S, C>>
  {
    if m.base.None? && m.incr == [] then files[BaseFileName(f, m.baseSeq + 1, rdb) := Snapshot(live)] else files
  }

  lemma StartedBase<S, C>(apply: (S, C) -> S, empty: S, f: string, files: map<string, Content<S, C>>, d: Manifest, rdb: bool, live: S)
    requires Tracked(f, d) && (d.base.None? ==> d.history == []) && Readable(files, d) && d.incr == []
    requires live == Replayed(apply, empty, files, d, []) && Tracked(f, Reloaded(d).(history := []))
    ensures var based, kept := WithBase(f, Reloaded(d).(history := []), rdb), files - HistoryNames(d);
      var all := BasedFiles(f, kept, Reloaded(d), rdb, live);
      Tracked(f, based) && based.history == [] && Readable(all, based) && Replayed(apply, empty, all, based, []) == live
  {
    hide IncrName, BaseFileName, InUse, Tracked, HistoryNames;
    HistoryUnused(f, d);
    TrackedNewBase(f, Reloaded(d).(history := []), rdb);
    if d.base.Some? {
      BaseInUse(d);
    }
  }

  lemma BaseInUse(d: Manifest)
    requires d.base.Some?
    ensures InUse(d, d.base.value.name)
  {
  }

  function NamesUpTo(m: Manifest, n: nat): set<string>
    requires n <= |m.history|
  {
    set i | 0 <= i < n :: m.history[i].name
  }

  function HistoryNames(m: Manifest): set<string> { NamesUpTo(m, |m.history|) }

  /** Removing the history removes no file that replaying needs. */
  lemma HistoryUnused(f: string, m: Manifest)
    requires Tracked(f, m)
    ensures forall n :: InUse(m, n) ==> n !in HistoryNames(m)
  {
    hide IncrName, BaseFileName, InUse;
    forall i | 0 <= i < |m.history|
      ensures !InUse(m, m.history[i].name)
    {
      assert Past(f, m, m.history[i]);
      HistoryNotInUse(f, m, m.history[i]);
    }
  }

  lemma RunOneMore<S, C>(apply: (S, C) -> S, s: S, cs: seq<C>, buf: seq<C>, c: C)
    ensures Run(apply, s, cs + (buf + [c])) == apply(Run(apply, s, cs + buf), c)
  {
    assert cs + (buf + [c]) == (cs + buf) + [c];
    assert ((cs + buf) + [c])[..|cs + buf|] == cs + buf;
  }

  lemma UsedInFiles<S, C>(files: map<string, Content<S, C>>, m: Manifest)
    requires Readable(files, m)
    ensures forall n :: InUse(m, n) ==> n in files
  {
  }

  lemma SameUse(m: Manifest, n: Manifest)
    requires m.base == n.base && m.incr == n.incr
    ensures forall name :: InUse(m, name) <==> InUse(n, name)
  {
  }

  // --------------------------------------------------------------- two runs

  /** The log switched on and off again. */
  method OnThenOff<S, C>(apply: (S, C) -> S, empty: S, filename: string) returns (s: Server<S, C>)
    ensures fresh(s) && s.Valid() && s.state == AofOff && s.child == None && s.fd == None && s.filename == filename
    ensures s.manifest.incr != [] && s.manifest == Swapped(AofWaitRewrite, filename, EMPTY, true, true)
  {
    hide IncrName, BaseFileName, Swapped, Tracked, Run, Readable, TempIncrName;
    s := new Server(apply, empty, filename);
    var _ := s.Enable(true, true);
    var _ := s.FinishRewrite(true, true, true, true, true, false, false);
    s.Disable();
  }

  /** A switch back on whose fork fails leaves the temporary file open, and the
      next rewrite with the log off keeps an INCR file. */
  method FailedSwitchKeepsIncr<S, C>(apply: (S, C) -> S, empty: S, filename: string) returns (s: Server<S, C>)
    ensures fresh(s) && s.Valid() && s.state == AofOff && s.manifest.incr != []
  {
    hide IncrName, BaseFileName, Swapped, Tracked, Run, Readable, TempIncrName;
    s := OnThenOff(apply, empty, filename);
    var _ := s.Enable(true, false);
    var _ := s.StartRewrite(true, true, true);
    var _ := s.FinishRewrite(true, true, true, true, true, false, false);
  }

  /** A rewrite with the log off whose history stays, and a restart: the new
      INCR file has the name of a history file and is removed with it. */
  method RestartRemovesOpenFile<S, C>(apply: (S, C) -> S, empty: S, filename: string) returns (s: Server<S, C>)
    ensures fresh(s) && s.state == AofOn && s.fd.Some? && s.fd.value !in s.files
  {
    hide IncrName, BaseFileName, Swapped, Tracked, Run, Reuses, TempIncrName, Replayed, HistoryNames, Unused;
    s := OnThenOff(apply, empty, filename);
    var _ := s.StartRewrite(true, true, true);
    var _ := s.FinishRewrite(true, true, true, true, true, false, false);
    TwiceSwapped(filename);
    var _ := s.Restart(true, true, true);
  }

  lemma TwiceSwapped(f: string)
    ensures var m := Swapped(AofOff, f, Swapped(AofWaitRewrite, f, EMPTY, true, true), true, false);
      m.incr == [] && Reuses(f, m)
  {
    hide IncrName, BaseFileName;
    var m1 := Swapped(AofWaitRewrite, f, EMPTY, true, true);
    assert m1.incr == [Info(IncrName(f, 1), 1, Incr)];
    var m := Swapped(AofOff, f, m1, true, false);
    assert m.history[0].name == IncrName(f, 1);
  }
}

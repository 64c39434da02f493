/** Writing the append-only buffer to its file (src/aof.c). */
module AofFlush {

  // ------------------------------------------------------------------ file

  /** An open file: its bytes, and where a descriptor opened without O_APPEND
      writes next. */
  datatype Disk = Disk(file: string, offset: nat)

  function Zeros(n: nat): (s: string)
    ensures |s| == n
  {
    seq(n, _ => '\0')
  }

  /** write(2): at the end in append mode, else at the offset. Writing past the
      end leaves a hole of zero bytes. */
  function Write(d: Disk, append: bool, data: string): Disk {
    var at := if append then |d.file| else d.offset;
    if data == "" then d
    else if at > |d.file| then Disk(d.file + Zeros(at - |d.file|) + data, at + |data|)
    else Disk(d.file[..at] + data + (if at + |data| < |d.file| then d.file[at + |data|..] else ""), at + |data|)
  }

  /** ftruncate does not move the offset. */
  function Truncate(d: Disk, n: nat): Disk {
    if n <= |d.file| then d.(file := d.file[..n]) else d.(file := d.file + Zeros(n - |d.file|))
  }

  /** The descriptor never points inside the file. */
  predicate AtEnd(d: Disk, append: bool) { append || d.offset >= |d.file| }

  lemma WriteTwice(d: Disk, append: bool, a: string, b: string)
    requires AtEnd(d, append)
    ensures Write(Write(d, append, a), append, b) == Write(d, append, a + b)
    ensures AtEnd(Write(d, append, a), append)
  {
    var empty := "";
    assert a + empty == a && empty + b == b;
    if a != "" && b != "" {
      var w := Write(d, append, a);
      var head := if append || d.offset == |d.file| then d.file else d.file + Zeros(d.offset - |d.file|);
      assert d.file[..|d.file|] == d.file;
      assert w.file == head + a;
      assert w.file[..|w.file|] == w.file;
      assert head + a + b == head + (a + b);
    }
  }

  lemma WriteNothing(d: Disk, append: bool)
    ensures Write(d, append, "") == d
  {
  }

  /** A write continues the file exactly when the descriptor appends or stands
      at the end. */
  lemma ContinuesIff(d: Disk, append: bool, data: string)
    requires data != "" && AtEnd(d, append)
    ensures Write(d, append, data).file == d.file + data <==> append || d.offset == |d.file|
  {
    assert d.file[..|d.file|] == d.file;
    if !append && d.offset > |d.file| {
      assert |Write(d, append, data).file| > |d.file + data|;
    } else {
      assert d.file + data + "" == d.file + data;
    }
  }

  /** Cutting a written piece off again restores the file. */
  lemma UndoneWrite(d: Disk, append: bool, data: string)
    requires AtEnd(d, append)
    ensures Truncate(Write(d, append, data), |d.file|).file == d.file
    ensures AtEnd(Truncate(Write(d, append, data), |d.file|), append)
    ensures |Write(d, append, data).file| >= |d.file|
  {
    assert d.file[..|d.file|] == d.file;
  }

  /** Without append mode, as openNewIncrAofForAppend opens its files, a short
      write that was cut off again leaves a hole before the next write. */
  lemma HoleAfterUndo()
    ensures var d := Truncate(Write(Disk("", 0), false, "a"), 0);
      d.file == "" && Write(d, false, "ab").file == "\0ab" && Write(d, true, "ab").file == "ab"
  {
    assert Zeros(1) == "\0";
    var d := Truncate(Write(Disk("", 0), false, "a"), 0);
    assert Write(d, false, "ab").file == "" + "\0" + "ab";
  }

  // ----------------------------------------------------------------- write

  /** What write(2) reports: a count, an interruption or an error. */
  datatype Written = Count(n: nat) | Interrupted | WriteError

  datatype Policy = Always | EverySec | No

  /** What one flush meets. A list of write results that runs out means that
      every further call fails. */
  datatype Env = Env(now: int, force: bool, fsyncRunning: bool, writes: seq<Written>, truncates: bool,
                     skipFsync: bool, fsyncs: bool)

  /** Bytes kept in the file, bytes written and cut off again, nothing tried, or
      the end of the process. */
  datatype Outcome = Kept(n: nat) | Undone | Nothing | Exited

  /** The bytes that a sequence of write calls gets out of `len`: interruptions
      are retried and the first error ends it. */
  function Total(len: nat, writes: seq<Written>): (n: nat)
    ensures n <= len
  {
    if len == 0 || writes == [] || writes[0].WriteError? then 0
    else if writes[0].Interrupted? then Total(len, writes[1..])
    else
      var step := if writes[0].n <= len then writes[0].n else len;
      step + Total(len - step, writes[1..])
  }

  /** The bytes that the calls accept before the first error. */
  function Accepted(writes: seq<Written>): nat {
    if writes == [] || writes[0].WriteError? then 0
    else (if writes[0].Count? then writes[0].n else 0) + Accepted(writes[1..])
  }

  /** All of the data is written exactly when the calls accept as much before the
      first error, interrupted or not; otherwise what they accept. */
  lemma {:induction false} TotalExact(len: nat, writes: seq<Written>)
    ensures Total(len, writes) == if Accepted(writes) < len then Accepted(writes) else len
    decreases |writes|
  {
    if len > 0 && writes != [] && !writes[0].WriteError? {
      var step := if writes[0].Interrupted? then 0 else if writes[0].n <= len then writes[0].n else len;
      TotalExact(len - step, writes[1..]);
    }
  }

  predicate Postponed(policy: Policy, e: Env, start: int) {
    policy == EverySec && !e.force && e.fsyncRunning && (start == 0 || e.now - start < 2000)
  }

  /** The failures that end the process: an fsync due under `always`. */
  predicate FsyncFails(policy: Policy, e: Env) { policy == Always && !e.skipFsync && !e.fsyncs }

  /** Whether a flush that ends with an empty buffer syncs the file. */
  predicate Syncs(policy: Policy, e: Env, lastFsync: int) {
    !e.skipFsync && (if policy == Always then e.fsyncs else policy == EverySec && e.now - lastFsync >= 1000 && !e.fsyncRunning)
  }

  /** What becomes of a non-empty buffer. A short write is cut off again where
      ftruncate works, and ends the process under `always`. */
  function Fate(policy: Policy, e: Env, len: nat): Outcome {
    var n := Total(len, e.writes);
    if n == len then (if FsyncFails(policy, e) then Exited else Kept(n))
    else if policy == Always then Exited
    else if n > 0 && !e.truncates then Kept(n)
    else Undone
  }

  class Aof {
    /** server.aof_buf */
    var buf: string
    /** The file behind server.aof_fd */
    var disk: Disk
    const append: bool
    const policy: Policy
    /** aof_last_incr_size and aof_last_incr_fsync_offset */
    var lastIncrSize: nat
    var fsyncOffset: nat
    var lastFsync: int
    var postponedStart: int
    /** aof_last_write_status */
    var writeOk: bool
    /** All bytes fed so far. */
    ghost var fed: string

    ghost predicate Conserved()
      reads this
    {
      disk.file + buf == fed && lastIncrSize == |disk.file| && fsyncOffset <= lastIncrSize
    }

    ghost predicate Valid()
      reads this
    {
      Conserved() && AtEnd(disk, append)
    }

    ghost predicate Unsynced()
      reads this
    {
      fsyncOffset != lastIncrSize
    }

    /** Opening the file: bytes already in it count as written and synced. */
    constructor (file: string, append: bool, policy: Policy)
      ensures Valid() && this.append == append && this.policy == policy && buf == "" && fed == file
    {
      buf, disk, fed := "", Disk(file, |file|), file;
      this.append, this.policy := append, policy;
      lastIncrSize, fsyncOffset := |file|, |file|;
      lastFsync, postponedStart, writeOk := 0, 0, true;
    }

    /** The append of feedAppendOnlyFile */
    method Feed(data: string)
      requires Valid()
      modifies this
      ensures Valid() && fed == old(fed) + data && disk == old(disk)
    {
      assert disk.file + (buf + data) == disk.file + buf + data;
      buf := buf + data;
      fed := fed + data;
    }

    /** aofWrite: writes a prefix of the data; short only after an error. */
    method AofWrite(data: string, writes: seq<Written>) returns (n: int)
      requires AtEnd(disk, append)
      modifies `disk
      ensures n == if data != "" && Total(|data|, writes) == 0 then -1 else Total(|data|, writes)
      ensures disk == Write(old(disk), append, if n > 0 then data[..n] else "")
    {
      hide Write, AtEnd;
      var total, left := 0, writes;
      assert data[..0] == "";
      WriteNothing(disk, append);
      while total < |data|
        invariant 0 <= total <= |data| && total + Total(|data| - total, left) == Total(|data|, writes)
        invariant disk == Write(old(disk), append, data[..total]) && AtEnd(disk, append)
        decreases |left|
      {
        if left == [] || left[0].WriteError? {
          n := if total > 0 then total else -1;
          return;
        }
        var r := left[0];
        left := left[1..];
        if r.Interrupted? {
          continue;
        }
        var step := if r.n <= |data| - total then r.n else |data| - total;
        WriteTwice(old(disk), append, data[..total], data[total..total + step]);
        assert data[..total] + data[total..total + step] == data[..total + step];
        WriteTwice(old(disk), append, data[..total + step], "");
        disk := Write(disk, append, data[total..total + step]);
        total := total + step;
      }
      n := total;
      assert data[..total] == data;
    }

    /** The end of flushAppendOnlyFile: fsync if it is due. */
    method TryFsync(e: Env) returns (exited: bool)
      requires fsyncOffset <= lastIncrSize
      modifies `fsyncOffset, `lastFsync
      ensures exited <==> FsyncFails(policy, e)
      ensures fsyncOffset == if Syncs(policy, e, old(lastFsync)) then lastIncrSize else old(fsyncOffset)
      ensures policy == Always && !e.skipFsync && e.fsyncs ==> fsyncOffset == lastIncrSize && lastFsync == e.now
      ensures policy == EverySec && !e.skipFsync && e.now - old(lastFsync) >= 1000 ==>
        lastFsync == e.now && (!e.fsyncRunning ==> fsyncOffset == lastIncrSize)
    {
      if e.skipFsync {
        return false;
      }
      if policy == Always {
        if !e.fsyncs {
          return true;
        }
        fsyncOffset := lastIncrSize;
        lastFsync := e.now;
      } else if policy == EverySec && e.now - lastFsync >= 1000 {
        if !e.fsyncRunning {
          fsyncOffset := lastIncrSize;
        }
        lastFsync := e.now;
      }
      return false;
    }

    /** Whether the flush is put off while a background fsync runs. */
    method Postpone(e: Env) returns (later: bool)
      modifies `postponedStart
      ensures later <==> Postponed(policy, e, old(postponedStart))
      ensures later ==> policy == EverySec && !e.force && e.fsyncRunning
      ensures old(postponedStart) != 0 && e.now - old(postponedStart) >= 2000 ==> !later
      ensures later ==> postponedStart == if old(postponedStart) == 0 then e.now else old(postponedStart)
    {
      if policy == EverySec && !e.force && e.fsyncRunning {
        if postponedStart == 0 {
          postponedStart := e.now;
          return true;
        } else if e.now - postponedStart < 2000 {
          return true;
        }
      }
      return false;
    }

    /** The write of flushAppendOnlyFile and its error handling: the data is
        kept, wholly or in part, or nothing of it stays. */
    method WriteBuffer(e: Env) returns (n: int, exited: bool)
      requires Valid() && buf != ""
      modifies `disk, `buf, `lastIncrSize, `writeOk
      ensures var t := Total(|old(buf)|, e.writes);
        n == (if t == |old(buf)| || (t > 0 && !e.truncates) then t else -1) && (exited <==> t < |old(buf)| && policy == Always)
      ensures n == -1 ==> disk.file == old(disk.file) && buf == old(buf) && lastIncrSize == old(lastIncrSize)
      ensures n > 0 ==> disk == Write(old(disk), append, old(buf)[..n])
      ensures n > 0 && !exited ==> buf == old(buf)[n..] && lastIncrSize == old(lastIncrSize) + n
      ensures AtEnd(disk, append)
      ensures writeOk <==> n == |old(buf)| || (exited && old(writeOk))
    {
      n := AofWrite(buf, e.writes);
      WriteTwice(old(disk), append, if n > 0 then buf[..n] else "", "");
      UndoneWrite(old(disk), append, if n > 0 then buf[..n] else "");
      if n != |buf| {
        if n >= 0 && e.truncates {
          disk := Truncate(disk, lastIncrSize);
          n := -1;
        }
        if policy == Always {
          return n, true;
        }
        writeOk := false;
        if n > 0 {
          lastIncrSize := lastIncrSize + n;
          buf := buf[n..];
        }
        return n, false;
      }
      writeOk := true;
      lastIncrSize := lastIncrSize + n;
      assert buf[n..] == "";
      buf := "";
      return n, false;
    }

    /** flushAppendOnlyFile: what it keeps continues the log exactly when the
        descriptor appends or stood at the end of the file; what it cannot keep
        stays in the buffer. */
    method Flush(e: Env) returns (outcome: Outcome)
      requires Valid()
      modifies this
      ensures fed == old(fed) && AtEnd(disk, append)
      ensures old(buf) != "" ==>
                outcome == if Postponed(policy, e, old(postponedStart)) then Nothing else Fate(policy, e, |old(buf)|)
      ensures old(buf) == "" ==> outcome == if old(Unsynced()) && FsyncFails(policy, e) then Exited else Nothing
      ensures !outcome.Exited? && buf == "" && Syncs(policy, e, old(lastFsync)) ==> !Unsynced()
      ensures policy == Always && !e.skipFsync && outcome.Kept? ==> buf == "" && !Unsynced()
      ensures outcome.Nothing? || outcome.Undone? ==> Valid() && disk.file == old(disk.file) && buf == old(buf)
      ensures outcome.Kept? ==> 0 < outcome.n <= |old(buf)| && buf == old(buf)[outcome.n..]
      ensures outcome.Kept? ==> (Conserved() <==> append || old(disk.offset) == |old(disk.file)|)
      ensures outcome.Exited? ==> policy == Always && (append ==> disk.file <= fed)
    {
      if buf == "" {
        if (policy == EverySec && fsyncOffset != lastIncrSize && e.now - lastFsync >= 1000 && !e.fsyncRunning)
           || (policy == Always && fsyncOffset != lastIncrSize) {
          var exited := TryFsync(e);
          return if exited then Exited else Nothing;
        }
        return Nothing;
      }
      var later := Postpone(e);
      if later {
        return Nothing;
      }
      ghost var before, data := disk, buf;
      var n, exited := WriteBuffer(e);
      postponedStart := 0;
      if n > 0 {
        ContinuesIff(before, append, data[..n]);
        assert data == data[..n] + data[n..];
        KeptOrNot(before.file, disk.file, data, n);
      }
      if exited {
        return Exited;
      }
      if n == -1 {
        return Undone;
      }
      if buf == "" {
        exited := TryFsync(e);
        if exited {
          return Exited;
        }
      }
      return Kept(n);
    }
  }

  /** The written piece continues the file exactly when nothing is lost. */
  lemma KeptOrNot(file: string, now: string, data: string, n: nat)
    requires n <= |data|
    ensures now + data[n..] == file + data <==> now == file + data[..n]
  {
    assert file + data == file + data[..n] + data[n..];
    if now + data[n..] == file + data {
      assert now == (now + data[n..])[..|now|];
      assert file + data[..n] == (file + data)[..|file| + n];
    }
  }
}

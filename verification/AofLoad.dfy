/** Loading one append-only file, and the feed that writes it (src/aof.c). */
module AofLoad {
  import opened Ascii
  import opened Decimal
  import opened AofLog

  // ------------------------------------------------------- fake client

  datatype Kind = Multi | Exec | Select | Plain

  function KindOf(c: Cmd): Kind {
    if c == [] then Plain
    else
      var name := Lower(c[0]);
      if name == "multi" then Multi else if name == "exec" then Exec else if name == "select" then Select else Plain
  }

  datatype Ran = Ran(db: nat, cmd: Cmd)

  /** The client that replays the file: its database, its open transaction and
      the commands it has run so far. */
  datatype Client = Client(db: nat, multi: bool, queued: seq<Cmd>, ran: seq<Ran>)

  /** SELECT takes a plain decimal number below dbnum. */
  predicate SelectsDb(dbnum: nat, c: Cmd) {
    && |c| == 2 && c[1] != "" && |c[1]| <= 19
    && (forall k :: 0 <= k < |c[1]| ==> IsDigit(c[1][k]))
    && (c[1] == "0" || c[1][0] != '0')
    && 0 <= Strtol(c[1]) < dbnum
  }

  /** A command outside a transaction, or one that EXEC runs. */
  function RunPlain(dbnum: nat, c: Client, cmd: Cmd): Client {
    match KindOf(cmd)
    case Plain => c.(ran := c.ran + [Ran(c.db, cmd)])
    case Select => if SelectsDb(dbnum, cmd) then c.(db := Strtol(cmd[1])) else c
    case _ => c
  }

  function RunQueue(dbnum: nat, c: Client, queue: seq<Cmd>): Client
    decreases |queue|
  {
    if queue == [] then c else RunQueue(dbnum, RunPlain(dbnum, c, queue[0]), queue[1..])
  }

  function RunCommand(dbnum: nat, c: Client, cmd: Cmd): Client {
    var kind := KindOf(cmd);
    if c.multi && kind != Exec then c.(queued := c.queued + [cmd])
    else if kind == Multi then c.(multi := true, queued := [])
    else if kind == Exec then
      if c.multi then RunQueue(dbnum, c.(multi := false, queued := []), c.queued) else c
    else RunPlain(dbnum, c, cmd)
  }

  // ------------------------------------------------------------- loader

  /** The server around the loader: its databases, the commands it knows and
      accepts by arity, aof-load-truncated, and whether truncate succeeds. */
  datatype Server = Server(dbnum: nat, known: Cmd -> bool, loadTruncated: bool, truncates: bool)

  datatype Loader = Loader(client: Client, validUpTo: nat, validBeforeMulti: nat)

  datatype Result = Loaded | Truncated(at: nat) | Failed

  const START := Loader(Client(0, false, [], []), 0, 0)

  function Step(s: Server, l: Loader, cmd: Cmd, next: nat): Loader {
    Loader(
      RunCommand(s.dbnum, l.client, cmd),
      if s.loadTruncated then next else l.validUpTo,
      if KindOf(cmd) == Multi then l.validUpTo else l.validBeforeMulti
    )
  }

  function CutAt(s: Server, at: nat): Result { if s.loadTruncated && s.truncates then Truncated(at) else Failed }

  /** The main loop of loadSingleAppendOnlyFile. */
  function Load(s: Server, f: string, pos: nat, l: Loader): (Result, Loader)
    requires pos <= |f|
    decreases |f| - pos
  {
    match ReadCommand(f, pos)
    case EndOfFile => if l.client.multi then (CutAt(s, l.validBeforeMulti), l) else (Loaded, l)
    case Annotation(next) => Load(s, f, next, l)
    case Complete(cmd, next) => if s.known(cmd) then Load(s, f, next, Step(s, l, cmd, next)) else (Failed, l)
    case ShortRead => (CutAt(s, l.validUpTo), l)
    case BadFormat => (Failed, l)
  }

  // ---------------------------------------------------------------- logs

  /** What a log holds: timestamp annotations and commands. */
  datatype Item = Note(time: nat) | Entry(cmd: Cmd)

  function PrintItem(i: Item): (s: string)
    ensures s != ""
  {
    match i
    case Note(time) => "#TS:" + Digits(time) + "\r\n"
    case Entry(cmd) => PrintCommand(cmd)
  }

  function PrintItems(items: seq<Item>): string {
    if items == [] then "" else PrintItems(items[..|items| - 1]) + PrintItem(items[|items| - 1])
  }

  ghost predicate Loadable(s: Server, i: Item) {
    match i
    case Note(time) => time < 0x8000_0000_0000_0000
    case Entry(cmd) => Printable(cmd) && s.known(cmd)
  }

  ghost predicate AllLoadable(s: Server, items: seq<Item>) {
    forall k :: 0 <= k < |items| ==> Loadable(s, items[k])
  }

  function RunItem(s: Server, l: Loader, i: Item, next: nat): Loader {
    match i
    case Note(_) => l
    case Entry(cmd) => Step(s, l, cmd, next)
  }

  /** The loader after a whole log, with the offsets it has recorded. */
  function RunItems(s: Server, items: seq<Item>): Loader {
    if items == [] then START
    else RunItem(s, RunItems(s, items[..|items| - 1]), items[|items| - 1], |PrintItems(items)|)
  }

  lemma NoteRead(f: string, pos: nat, time: nat)
    requires At(f, pos, PrintItem(Note(time))) && time < 0x8000_0000_0000_0000
    ensures ReadCommand(f, pos) == Annotation(pos + |PrintItem(Note(time))|)
  {
    var p, d := PrintItem(Note(time)), Digits(time);
    ShortDigits(time);
    NoteBytes(f, pos, time);
    assert p[|p| - 1] == '\n';
    LineIs(f, pos, |p| - 1, LINE);
  }

  lemma NoteBytes(f: string, pos: nat, time: nat)
    requires (pos < |f| && CutIn(f, pos, PrintItem(Note(time)))) || At(f, pos, PrintItem(Note(time)))
    ensures pos < |f| && f[pos] == '#'
    ensures forall j :: pos <= j < |f| && j < pos + |PrintItem(Note(time))| - 1 ==> f[j] != '\n'
    ensures At(f, pos, PrintItem(Note(time))) ==> f[pos + |PrintItem(Note(time))| - 1] == '\n'
  {
    var p, d := PrintItem(Note(time)), Digits(time);
    assert p == "#TS:" + d + "\r\n" && |p| == |d| + 6;
    forall j | pos <= j < |f| && j < pos + |p|
      ensures f[j] == p[j - pos]
    {
      if At(f, pos, p) {
        assert f[j] == f[pos..pos + |p|][j - pos];
      } else {
        assert f[j] == f[pos..][j - pos];
      }
    }
    forall j | 0 <= j < |p| - 1
      ensures p[j] != '\n'
    {
      assert 4 <= j < 4 + |d| ==> p[j] == d[j - 4];
    }
  }

  lemma NoteCut(f: string, pos: nat, time: nat)
    requires pos < |f| && CutIn(f, pos, PrintItem(Note(time))) && time < 0x8000_0000_0000_0000
    ensures ReadCommand(f, pos) == Annotation(|f|)
  {
    ShortDigits(time);
    NoteBytes(f, pos, time);
    LineToEnd(f, pos, LINE);
  }

  /** A whole item at the current offset is read and run. */
  lemma ItemLoaded(s: Server, f: string, pos: nat, i: Item, l: Loader)
    requires At(f, pos, PrintItem(i)) && Loadable(s, i)
    ensures var next := pos + |PrintItem(i)|; Load(s, f, pos, l) == Load(s, f, next, RunItem(s, l, i, next))
  {
    hide ReadCommand, PrintCommand, Step;
    match i
    case Note(time) => NoteRead(f, pos, time);
    case Entry(cmd) => CommandReadBack(f, pos, cmd);
  }

  lemma {:induction false} PrintPrefix(items: seq<Item>, k: nat)
    requires k <= |items|
    ensures PrintItems(items[..k]) <= PrintItems(items)
    decreases |items| - k
  {
    if k == |items| {
      assert items[..k] == items;
    } else {
      assert items[..k + 1][..k] == items[..k];
      PrintPrefix(items, k + 1);
    }
  }

  /** Reading a file that starts with a log: the loader gets past the log in
      the state that the log prescribes. */
  lemma {:induction false} LogLoaded(s: Server, f: string, items: seq<Item>)
    requires AllLoadable(s, items) && PrintItems(items) <= f
    ensures Load(s, f, 0, START) == Load(s, f, |PrintItems(items)|, RunItems(s, items))
    decreases |items|
  {
    hide Load, RunItem, PrintItem;
    if items != [] {
      var n := |items| - 1;
      var before, p := PrintItems(items[..n]), PrintItems(items);
      assert before <= p <= f;
      LogLoaded(s, f, items[..n]);
      assert f[..|p|] == p;
      assert f[|before|..|p|] == PrintItem(items[n]);
      assert At(f, |before|, PrintItem(items[n]));
      ItemLoaded(s, f, |before|, items[n], RunItems(s, items[..n]));
    }
  }

  /** Where a file of n bytes ends: k whole items, then a piece of item k. */
  ghost predicate EndsIn(items: seq<Item>, n: nat, k: nat) {
    && k <= |items|
    && |PrintItems(items[..k])| <= n
    && (if k == |items| then n == |PrintItems(items)| else n < |PrintItems(items[..k + 1])|)
  }

  /** Every number of bytes ends somewhere. */
  lemma {:induction false} EndsSomewhere(items: seq<Item>, n: nat) returns (k: nat)
    requires n <= |PrintItems(items)|
    ensures EndsIn(items, n, k)
    decreases |items|
  {
    assert items[..|items|] == items;
    if n == |PrintItems(items)| {
      return |items|;
    }
    var last := |items| - 1;
    if |PrintItems(items[..last])| <= n {
      return last;
    }
    k := EndsSomewhere(items[..last], n);
    assert items[..last][..k] == items[..k] && items[..last][..k + 1] == items[..k + 1];
  }

  ghost predicate InsideCommand(items: seq<Item>, n: nat, k: nat) {
    k < |items| && |PrintItems(items[..k])| < n && items[k].Entry?
  }

  ghost predicate InsideNote(items: seq<Item>, n: nat, k: nat) {
    k < |items| && |PrintItems(items[..k])| < n && items[k].Note?
  }

  /** Every prefix of a log loads exactly its whole items. It is cut back to the
      last command when it ends inside a command, and to before the last MULTI
      when it ends cleanly inside a transaction. A piece of an annotation stays. */
  lemma CutLogLoads(s: Server, items: seq<Item>, n: nat, k: nat)
    requires AllLoadable(s, items) && n <= |PrintItems(items)| && EndsIn(items, n, k)
    ensures var f, l := PrintItems(items)[..n], RunItems(s, items[..k]);
      Load(s, f, 0, START) ==
        (if InsideCommand(items, n, k) then CutAt(s, l.validUpTo) else if l.client.multi then CutAt(s, l.validBeforeMulti) else Loaded, l)
  {
    hide ReadCommand, PrintCommand, RunItem;
    var f, l := PrintItems(items)[..n], RunItems(s, items[..k]);
    var before := PrintItems(items[..k]);
    PrintPrefix(items, k);
    assert before <= f;
    LogLoaded(s, f, items[..k]);
    if |before| < n {
      PieceLeft(items, n, k);
      match items[k] {
        case Note(time) =>
          NoteCut(f, |before|, time);
          EndRead(f);
        case Entry(cmd) =>
          CommandCut(f, |before|, cmd);
      }
    } else {
      assert |before| == |f|;
      EndRead(f);
    }
  }

  /** Without aof-load-truncated, or when the file cannot be truncated, a file that
      ends inside a command or a transaction does not load; any other does. */
  lemma NoTruncation(s: Server, items: seq<Item>, n: nat) returns (k: nat)
    requires AllLoadable(s, items) && n <= |PrintItems(items)| && (!s.loadTruncated || !s.truncates)
    ensures EndsIn(items, n, k)
    ensures Load(s, PrintItems(items)[..n], 0, START).0 ==
      if InsideCommand(items, n, k) || RunItems(s, items[..k]).client.multi then Failed else Loaded
  {
    hide Load, PrintItems, RunItems;
    k := EndsSomewhere(items, n);
    CutLogLoads(s, items, n, k);
  }

  lemma EndRead(f: string)
    ensures ReadCommand(f, |f|) == EndOfFile
  {
  }

  lemma PieceLeft(items: seq<Item>, n: nat, k: nat)
    requires n <= |PrintItems(items)| && EndsIn(items, n, k) && |PrintItems(items[..k])| < n
    ensures k < |items| && CutIn(PrintItems(items)[..n], |PrintItems(items[..k])|, PrintItem(items[k]))
  {
    hide PrintItem;
    var before := PrintItems(items[..k]);
    assert items[..|items|] == items;
    assert k < |items|;
    assert items[..k + 1][..k] == items[..k];
    PrintPrefix(items, k + 1);
    var next := PrintItems(items[..k + 1]);
    assert next == before + PrintItem(items[k]);
    assert PrintItems(items)[..n] == next[..n];
    assert next[..n][|before|..] == PrintItem(items[k])[..n - |before|];
  }

  // ------------------------------------------- cut logs of commands only

  ghost predicate NoNotes(items: seq<Item>) { forall k :: 0 <= k < |items| ==> items[k].Entry? }

  /** Without annotations the last valid offset is the end of the log. */
  lemma UpToEnd(s: Server, items: seq<Item>)
    requires NoNotes(items) && s.loadTruncated
    ensures RunItems(s, items).validUpTo == |PrintItems(items)|
  {
    hide PrintItem;
    if items != [] {
      assert items[|items| - 1].Entry?;
    }
  }

  ghost predicate NoTransactions(items: seq<Item>) {
    forall k :: 0 <= k < |items| ==> items[k].Entry? ==> KindOf(items[k].cmd) != Multi && KindOf(items[k].cmd) != Exec
  }

  /** Running the commands one by one, as a client without transactions. */
  function RunAll(dbnum: nat, items: seq<Item>): Client {
    if items == [] then Client(0, false, [], [])
    else
      var c := RunAll(dbnum, items[..|items| - 1]);
      match items[|items| - 1]
      case Note(_) => c
      case Entry(cmd) => RunPlain(dbnum, c, cmd)
  }

  lemma {:induction false} PlainRuns(s: Server, items: seq<Item>)
    requires NoTransactions(items)
    ensures RunItems(s, items).client == RunAll(s.dbnum, items) && !RunAll(s.dbnum, items).multi
    decreases |items|
  {
    hide PrintItems;
    if items != [] {
      PlainRuns(s, items[..|items| - 1]);
    }
  }

  /** Truncated tails recover exactly: any prefix of a log of commands without
      transactions runs its whole commands and is cut to exactly their bytes. */
  lemma PlainTail(s: Server, items: seq<Item>, n: nat) returns (k: nat)
    requires AllLoadable(s, items) && NoNotes(items) && NoTransactions(items) && s.loadTruncated && s.truncates
    requires n <= |PrintItems(items)|
    ensures EndsIn(items, n, k)
    ensures var (result, l) := Load(s, PrintItems(items)[..n], 0, START);
      && l.client == RunAll(s.dbnum, items[..k])
      && result == (if n == |PrintItems(items[..k])| then Loaded else Truncated(|PrintItems(items[..k])|))
  {
    hide Load, PrintItems, RunItems;
    k := EndsSomewhere(items, n);
    CutLogLoads(s, items, n, k);
    UpToEnd(s, items[..k]);
    PlainRuns(s, items[..k]);
    assert items[..|items|] == items;
    assert k < |items| ==> items[k].Entry?;
  }

  ghost predicate AllNotes(items: seq<Item>) { forall k :: 0 <= k < |items| ==> items[k].Note? }

  /** The log without the annotations at its end, where the last valid offset
      lies. */
  lemma {:induction false} UpToItems(s: Server, items: seq<Item>) returns (m: nat)
    requires s.loadTruncated
    ensures m <= |items| && AllNotes(items[m..]) && (m > 0 ==> items[m - 1].Entry?)
    ensures RunItems(s, items).validUpTo == |PrintItems(items[..m])|
    ensures RunItems(s, items[..m]) == RunItems(s, items)
    decreases |items|
  {
    hide PrintItem;
    if items == [] {
      return 0;
    }
    var n := |items| - 1;
    if items[n].Entry? {
      assert items[..|items|] == items;
      return |items|;
    }
    m := UpToItems(s, items[..n]);
    assert items[..n][..m] == items[..m];
    assert items[m..] == items[..n][m..] + [items[n]];
  }

  /** The last MULTI was read inside an open transaction. */
  ghost predicate Nested(s: Server, items: seq<Item>) {
    items != [] &&
    var n := |items| - 1;
    if items[n].Entry? && KindOf(items[n].cmd) == Multi then RunItems(s, items[..n]).client.multi else Nested(s, items[..n])
  }

  /** The last MULTI m of an open transaction, and the end j of the last command
      before it; nothing has run since. */
  lemma {:induction false} OpenMulti(s: Server, items: seq<Item>) returns (j: nat, m: nat)
    requires s.loadTruncated && RunItems(s, items).client.multi
    ensures LastMulti(items, j, m) && RunItems(s, items).validBeforeMulti == |PrintItems(items[..j])|
    ensures var c, d := RunItems(s, items[..j]).client, RunItems(s, items).client;
      c.ran == d.ran && c.db == d.db && c.multi == Nested(s, items)
    decreases |items|
  {
    hide PrintItems;
    var n := |items| - 1;
    var before := RunItems(s, items[..n]);
    if items[n].Entry? && KindOf(items[n].cmd) == Multi {
      m := n;
      j := UpToItems(s, items[..n]);
      assert items[..n][..j] == items[..j] && items[j..n] == items[..n][j..];
    } else {
      if items[n].Entry? {
        RunsNothing(s.dbnum, before.client, items[n].cmd);
      }
      j, m := OpenMulti(s, items[..n]);
      LastMultiMore(items, j, m);
    }
  }

  /** The last MULTI is item m, and only annotations lie between item j and it. */
  ghost predicate LastMulti(items: seq<Item>, j: nat, m: nat) {
    && j <= m < |items| && items[m].Entry? && KindOf(items[m].cmd) == Multi
    && (forall i :: m < i < |items| && items[i].Entry? ==> KindOf(items[i].cmd) != Multi)
    && AllNotes(items[j..m]) && (j > 0 ==> items[j - 1].Entry?)
  }

  lemma LastMultiMore(items: seq<Item>, j: nat, m: nat)
    requires items != [] && LastMulti(items[..|items| - 1], j, m)
    requires items[|items| - 1].Entry? ==> KindOf(items[|items| - 1].cmd) != Multi
    ensures LastMulti(items, j, m) && items[..|items| - 1][..j] == items[..j]
  {
    var n := |items| - 1;
    assert items[..n][j..m] == items[j..m];
    forall i | m < i < |items| && items[i].Entry?
      ensures KindOf(items[i].cmd) != Multi
    {
      assert i < n ==> items[i] == items[..n][i];
    }
  }

  lemma RunsNothing(dbnum: nat, c: Client, cmd: Cmd)
    requires RunCommand(dbnum, c, cmd).multi && KindOf(cmd) != Multi
    ensures c.multi && RunCommand(dbnum, c, cmd).ran == c.ran && RunCommand(dbnum, c, cmd).db == c.db
  {
    if KindOf(cmd) == Exec && c.multi {
      QueueCloses(dbnum, c.(multi := false, queued := []), c.queued);
    }
  }

  lemma {:induction false} QueueCloses(dbnum: nat, c: Client, queue: seq<Cmd>)
    ensures RunQueue(dbnum, c, queue).multi == c.multi
    decreases |queue|
  {
    if queue != [] {
      QueueCloses(dbnum, RunPlain(dbnum, c, queue[0]), queue[1..]);
    }
  }

  /** A file that ends on an item boundary inside an open transaction is cut
      to the last command before the last MULTI, and what the server has run is
      what that shorter file holds. */
  lemma OpenTail(s: Server, items: seq<Item>) returns (j: nat, m: nat)
    requires AllLoadable(s, items) && s.loadTruncated && s.truncates
    requires RunItems(s, items).client.multi
    ensures LastMulti(items, j, m)
    ensures Load(s, PrintItems(items), 0, START) == (Truncated(|PrintItems(items[..j])|), RunItems(s, items))
    ensures RunItems(s, items).client.ran == RunItems(s, items[..j]).client.ran
  {
    hide Load, PrintItems, RunItems;
    j, m := OpenMulti(s, items);
    WholeLog(s, items);
  }

  lemma WholeLog(s: Server, items: seq<Item>)
    requires AllLoadable(s, items)
    ensures var l := RunItems(s, items);
      Load(s, PrintItems(items), 0, START) == (if l.client.multi then CutAt(s, l.validBeforeMulti) else Loaded, l)
  {
    hide Load, PrintItems, RunItems;
    assert items[..|items|] == items;
    assert PrintItems(items)[..|PrintItems(items)|] == PrintItems(items);
    CutLogLoads(s, items, |PrintItems(items)|, |items|);
  }

  // ------------------------------------------------- appending after a cut

  /** The bytes left in the file after loading it. */
  function Left(s: Server, f: string): string {
    var (result, _) := Load(s, f, 0, START);
    if result.Truncated? && result.at <= |f| then f[..result.at] else f
  }

  /** A piece of an annotation stays in the file. */
  ghost predicate KeepsPiece(s: Server, items: seq<Item>, n: nat, k: nat) {
    InsideNote(items, n, k) && !RunItems(s, items[..k]).client.multi
  }

  /** A transaction stays open in the file: the cut is inside a command of it, or
      the MULTI that is cut off was itself read inside one. */
  ghost predicate KeepsOpen(s: Server, items: seq<Item>, n: nat, k: nat)
    requires k <= |items|
  {
    RunItems(s, items[..k]).client.multi && (InsideCommand(items, n, k) || Nested(s, items[..k]))
  }

  /** The items left in the file, unless a piece of an annotation stays. */
  lemma LeftItems(s: Server, items: seq<Item>, n: nat, k: nat) returns (m: nat)
    requires AllLoadable(s, items) && s.loadTruncated && s.truncates
    requires n <= |PrintItems(items)| && EndsIn(items, n, k) && !KeepsPiece(s, items, n, k)
    ensures m <= k && Left(s, PrintItems(items)[..n]) == PrintItems(items[..m])
    ensures var c, d := RunItems(s, items[..m]).client, RunItems(s, items[..k]).client;
      c.ran == d.ran && c.db == d.db && c.multi == KeepsOpen(s, items, n, k)
  {
    hide Load, PrintItems, RunItems, LastMulti, Nested;
    CutLogLoads(s, items, n, k);
    PrintPrefix(items, k);
    m := k;
    if InsideCommand(items, n, k) {
      m := UpToItems(s, items[..k]);
    } else if RunItems(s, items[..k]).client.multi {
      var last;
      m, last := OpenMulti(s, items[..k]);
      LastMultiBelow(items[..k], m, last);
    } else {
      assert k == |items| ==> items[..k] == items;
    }
    assert items[..k][..m] == items[..m];
    PrintPrefix(items[..k], m);
  }

  lemma LastMultiBelow(items: seq<Item>, j: nat, m: nat)
    requires LastMulti(items, j, m)
    ensures j < |items|
  {
  }

  /** The file that a load leaves holds what the load has run, and loads cleanly
      exactly when no transaction stays open in it. */
  lemma CutFileReloads(s: Server, items: seq<Item>, n: nat) returns (k: nat)
    requires AllLoadable(s, items) && s.loadTruncated && s.truncates && n <= |PrintItems(items)|
    ensures EndsIn(items, n, k)
    ensures var f := PrintItems(items)[..n];
      var (result, l) := Load(s, Left(s, f), 0, START);
      l.client.ran == Load(s, f, 0, START).1.client.ran && (result == Loaded <==> !KeepsOpen(s, items, n, k))
  {
    hide Load, PrintItems, RunItems, Nested;
    k := EndsSomewhere(items, n);
    CutLogLoads(s, items, n, k);
    if !KeepsPiece(s, items, n, k) {
      var m := LeftItems(s, items, n, k);
      WholeLog(s, items[..m]);
    }
  }

  /** A log cut anywhere and loaded, appended to and loaded again: the new command
      runs after the old ones exactly when no piece of an annotation and no open
      transaction stayed in the file. A piece makes the file unloadable; an open
      transaction swallows the command, and the file is cut before its MULTI. */
  lemma AppendAfterCut(s: Server, items: seq<Item>, n: nat, c: Cmd) returns (k: nat, m: nat)
    requires AllLoadable(s, items) && s.loadTruncated && s.truncates && n <= |PrintItems(items)|
    requires Printable(c) && s.known(c) && KindOf(c) == Plain
    ensures EndsIn(items, n, k) && m <= k
    ensures !KeepsPiece(s, items, n, k) ==> Left(s, PrintItems(items)[..n]) == PrintItems(items[..m])
    ensures var f := PrintItems(items)[..n];
      var was := Load(s, f, 0, START).1.client;
      var (result, l) := Load(s, Left(s, f) + PrintCommand(c), 0, START);
      if KeepsPiece(s, items, n, k) then result == Failed
      else if KeepsOpen(s, items, n, k) then BeforeMulti(items[..m], result) && l.client.ran == was.ran
      else result == Loaded && l.client.ran == was.ran + [Ran(was.db, c)]
  {
    hide Load, PrintCommand, PrintItems, RunItems, Printable, Nested;
    k := EndsSomewhere(items, n);
    var f := PrintItems(items)[..n];
    CutLogLoads(s, items, n, k);
    PrintPrefix(items, k);
    if KeepsPiece(s, items, n, k) {
      PieceLeft(items, n, k);
      NoteThenCommand(s, items[..k], f, items[k].time, c);
      m := k;
    } else {
      m := LeftItems(s, items, n, k);
      LogThenCommand(s, items[..m], c);
    }
  }

  /** Cut to the last command before the last MULTI. */
  ghost predicate BeforeMulti(items: seq<Item>, result: Result) {
    exists j: nat, m: nat :: LastMulti(items, j, m) && result == Truncated(|PrintItems(items[..j])|)
  }

  /** Such files exist: a transaction cut inside its second command. */
  lemma OpenStays(s: Server, a: Cmd, b: Cmd)
    requires KindOf(a) == Plain
    ensures var items := [Entry(["MULTI"]), Entry(a), Entry(b)];
      var n := |PrintItems(items[..2])| + 1;
      EndsIn(items, n, 2) && KeepsOpen(s, items, n, 2)
  {
    hide Nested, PrintArgs;
    var items := [Entry(["MULTI"]), Entry(a), Entry(b)];
    var one, two := [Entry(["MULTI"])], [Entry(["MULTI"]), Entry(a)];
    assert items[..2] == two && items[..3] == items && two[..1] == one && one[..0] == [];
    assert Lower("MULTI") == "multi";
    assert RunItems(s, one).client.multi;
    assert PrintItems(items) == PrintItems(two) + PrintItem(Entry(b));
    assert |Header('*', |b|)| >= 2;
  }

  lemma LogThenCommand(s: Server, items: seq<Item>, c: Cmd)
    requires AllLoadable(s, items) && s.loadTruncated && s.truncates && Printable(c) && s.known(c) && KindOf(c) == Plain
    ensures var was := RunItems(s, items).client;
      var (result, l) := Load(s, PrintItems(items) + PrintCommand(c), 0, START);
      if was.multi then BeforeMulti(items, result) && l.client.ran == was.ran
      else result == Loaded && l.client.ran == was.ran + [Ran(was.db, c)]
  {
    hide Load, PrintCommand, Printable, RunItems, LastMulti;
    var more := items + [Entry(c)];
    assert more[..|items|] == items;
    assert PrintItems(more) == PrintItems(items) + PrintCommand(c);
    WholeLog(s, more);
    RunLast(s, items, c);
    if RunItems(s, items).client.multi {
      var j, m := OpenMulti(s, items);
      assert LastMulti(items, j, m);
    }
  }

  lemma RunLast(s: Server, items: seq<Item>, c: Cmd)
    requires KindOf(c) == Plain
    ensures var l, r := RunItems(s, items), RunItems(s, items + [Entry(c)]);
      && r.client == RunCommand(s.dbnum, l.client, c) && r.validBeforeMulti == l.validBeforeMulti
  {
    hide PrintItems;
    assert (items + [Entry(c)])[..|items|] == items;
  }

  /** A piece of an annotation swallows the first line appended after it. */
  lemma NoteThenCommand(s: Server, items: seq<Item>, f: string, time: nat, c: Cmd)
    requires AllLoadable(s, items) && PrintItems(items) <= f && |PrintItems(items)| < |f|
    requires CutIn(f, |PrintItems(items)|, PrintItem(Note(time))) && time < 0x8000_0000_0000_0000
    requires Printable(c)
    ensures Load(s, f + PrintCommand(c), 0, START).0 == Failed
  {
    hide PrintArgs, RunItems, PrintItems, ReadCommand, LineEnd;
    var g, pos, h := f + PrintCommand(c), |PrintItems(items)|, Header('*', |c|);
    LogLoaded(s, g, items);
    assert PrintCommand(c) == h + PrintArgs(c);
    assert g[|f|..|f| + |h|] == h;
    NoteSwallows(f, g, pos, time, |c|);
    ArgsStart(c);
    assert g[|f| + |h|] == PrintArgs(c)[0] == '$';
    DollarIsBad(g, |f| + |h|);
  }

  lemma DollarIsBad(g: string, at: nat)
    requires at < |g| && g[at] == '$'
    ensures ReadCommand(g, at) == BadFormat
  {
  }

  lemma NoteSwallows(f: string, g: string, pos: nat, time: nat, n: nat)
    requires f <= g && pos < |f| && CutIn(f, pos, PrintItem(Note(time))) && time < 0x8000_0000_0000_0000 && n < 0x8000_0000
    requires At(g, |f|, Header('*', n))
    ensures ReadCommand(g, pos) == Annotation(|f| + |Header('*', n)|)
  {
    hide Digits, LineEnd;
    var h := Header('*', n);
    NoteBytes(f, pos, time);
    ShortDigits(time);
    ShortDigits(n);
    HeaderLine(g, |f|, n);
    assert forall j :: pos <= j < |f| ==> g[j] == f[j];
    LineIs(g, pos, |f| + |h| - 1 - pos, LINE);
  }

  lemma HeaderLine(g: string, at: nat, n: nat)
    requires At(g, at, Header('*', n))
    ensures forall j :: at <= j < at + |Header('*', n)| - 1 ==> g[j] != '\n'
    ensures g[at + |Header('*', n)| - 1] == '\n'
  {
    var h, d := Header('*', n), Digits(n);
    forall j | at <= j < at + |h|
      ensures g[j] == h[j - at]
    {
      assert g[j] == g[at..at + |h|][j - at];
    }
    forall j | 0 <= j < |h| - 1
      ensures h[j] != '\n'
    {
      assert 1 <= j < 1 + |d| ==> h[j] == d[j - 1];
    }
  }

  lemma ArgsStart(c: Cmd)
    requires c != []
    ensures PrintArgs(c) != "" && PrintArgs(c)[0] == '$'
  {
    assert PrintArg(c[0])[0] == '$';
  }

  // --------------------------------------------------------- transactions

  /** Commands run one by one outside a transaction. */
  function RunEach(dbnum: nat, c: Client, q: seq<Cmd>): Client {
    if q == [] then c else RunPlain(dbnum, RunEach(dbnum, c, q[..|q| - 1]), q[|q| - 1])
  }

  lemma {:induction false} RunEachFirst(dbnum: nat, c: Client, q: seq<Cmd>)
    requires q != []
    ensures RunEach(dbnum, c, q) == RunEach(dbnum, RunPlain(dbnum, c, q[0]), q[1..])
    decreases |q|
  {
    hide RunPlain;
    var n := |q| - 1;
    if n == 0 {
      assert q[..n] == [] && q[1..] == [];
    } else {
      RunEachFirst(dbnum, c, q[..n]);
      assert q[..n][1..] == q[1..][..n - 1] && q[1..][n - 1] == q[n];
    }
  }

  /** EXEC runs the queue command by command. */
  lemma {:induction false} QueueRuns(dbnum: nat, c: Client, q: seq<Cmd>)
    ensures RunQueue(dbnum, c, q) == RunEach(dbnum, c, q)
    decreases |q|
  {
    hide RunPlain;
    if q != [] {
      RunEachFirst(dbnum, c, q);
      QueueRuns(dbnum, RunPlain(dbnum, c, q[0]), q[1..]);
    }
  }

  /** For every log: outside a transaction the loader has run all commands one by
      one, MULTI and EXEC having no effect of their own; inside one it has run
      all but the queued ones, which EXEC would run in order. */
  lemma {:induction false} TransactionsRun(s: Server, items: seq<Item>)
    ensures var c := RunItems(s, items).client;
      && RunEach(s.dbnum, c.(multi := false, queued := []), c.queued) == RunAll(s.dbnum, items)
      && (!c.multi ==> c == RunAll(s.dbnum, items))
      && !RunAll(s.dbnum, items).multi && RunAll(s.dbnum, items).queued == []
    decreases |items|
  {
    hide PrintItems, RunPlain, RunQueue;
    if items != [] {
      var n := |items| - 1;
      TransactionsRun(s, items[..n]);
      if items[n].Entry? {
        CommandRuns(s.dbnum, RunItems(s, items[..n]).client, items[n].cmd, RunAll(s.dbnum, items[..n]));
      }
    }
  }

  lemma CommandRuns(dbnum: nat, c: Client, cmd: Cmd, all: Client)
    requires RunEach(dbnum, c.(multi := false, queued := []), c.queued) == all && (!c.multi ==> c == all)
    requires !all.multi && all.queued == []
    ensures var d := RunCommand(dbnum, c, cmd);
      && RunEach(dbnum, d.(multi := false, queued := []), d.queued) == RunPlain(dbnum, all, cmd)
      && (!d.multi ==> d == RunPlain(dbnum, all, cmd))
      && !RunPlain(dbnum, all, cmd).multi && RunPlain(dbnum, all, cmd).queued == []
  {
    hide SelectsDb;
    if c.multi && KindOf(cmd) != Exec {
      assert (c.queued + [cmd])[..|c.queued|] == c.queued;
    } else if c.multi {
      QueueRuns(dbnum, c.(multi := false, queued := []), c.queued);
    }
  }

  function Entries(q: seq<Cmd>): seq<Item> { seq(|q|, i requires 0 <= i < |q| => Entry(q[i])) }

  function Transaction(q: seq<Cmd>): seq<Item> { [Entry(["MULTI"])] + Entries(q) + [Entry(["EXEC"])] }

  lemma {:induction false} RunAllEntries(dbnum: nat, items: seq<Item>, q: seq<Cmd>)
    ensures RunAll(dbnum, items + Entries(q)) == RunEach(dbnum, RunAll(dbnum, items), q)
    decreases |q|
  {
    hide RunPlain;
    if q == [] {
      assert items + Entries(q) == items;
    } else {
      var n := |q| - 1;
      RunAllEntries(dbnum, items, q[..n]);
      assert items + Entries(q) == items + Entries(q[..n]) + [Entry(q[n])];
      RunOneMore(dbnum, items + Entries(q[..n]), Entry(q[n]));
    }
  }

  lemma {:induction false} PlainEach(dbnum: nat, c: Client, q: seq<Cmd>)
    requires forall i :: 0 <= i < |q| ==> KindOf(q[i]) == Plain
    ensures RunEach(dbnum, c, q) == c.(ran := c.ran + seq(|q|, i requires 0 <= i < |q| => Ran(c.db, q[i])))
    decreases |q|
  {
    if q == [] {
      assert c.ran + [] == c.ran;
    } else {
      var n := |q| - 1;
      PlainEach(dbnum, c, q[..n]);
      assert c.ran + seq(n, i requires 0 <= i < n => Ran(c.db, q[..n][i])) + [Ran(c.db, q[n])]
        == c.ran + seq(|q|, i requires 0 <= i < |q| => Ran(c.db, q[i]));
    }
  }

  /** A complete transaction after any log that leaves none open, on the printed
      bytes: the loader ends outside a transaction and has run its commands in
      order, each in the database selected for it. */
  lemma TransactionLoads(s: Server, items: seq<Item>, q: seq<Cmd>)
    requires AllLoadable(s, items + Transaction(q)) && !RunItems(s, items).client.multi
    ensures var c := RunItems(s, items).client;
      var (result, l) := Load(s, PrintItems(items + Transaction(q)), 0, START);
      && result == Loaded && l.client == RunEach(s.dbnum, c, q) && !l.client.multi
      && ((forall i :: 0 <= i < |q| ==> KindOf(q[i]) == Plain) ==>
            l.client == c.(ran := c.ran + seq(|q|, i requires 0 <= i < |q| => Ran(c.db, q[i]))))
  {
    hide Load, PrintItems, RunPlain, RunQueue, AllLoadable;
    var all := items + Transaction(q);
    TransactionCloses(s, items, q);
    WholeLog(s, all);
    TransactionsRun(s, all);
    TransactionsRun(s, items);
    RunAllTransaction(s.dbnum, items, q);
    if forall i :: 0 <= i < |q| ==> KindOf(q[i]) == Plain {
      PlainEach(s.dbnum, RunItems(s, items).client, q);
    }
  }

  lemma RunAllTransaction(dbnum: nat, items: seq<Item>, q: seq<Cmd>)
    ensures RunAll(dbnum, items + Transaction(q)) == RunEach(dbnum, RunAll(dbnum, items), q)
  {
    var multi, exec := Entry(["MULTI"]), Entry(["EXEC"]);
    assert Lower("MULTI") == "multi" && Lower("EXEC") == "exec";
    RunOneMore(dbnum, items, multi);
    RunAllEntries(dbnum, items + [multi], q);
    assert items + Transaction(q) == items + [multi] + Entries(q) + [exec];
    RunOneMore(dbnum, items + [multi] + Entries(q), exec);
  }

  lemma TransactionCloses(s: Server, items: seq<Item>, q: seq<Cmd>)
    ensures !RunItems(s, items + Transaction(q)).client.multi
  {
    hide PrintItems, RunPlain;
    var all := items + Transaction(q);
    var n := |all| - 1;
    assert all[n] == Entry(["EXEC"]) && Lower("EXEC") == "exec";
    var c := RunItems(s, all[..n]).client;
    QueueCloses(s.dbnum, c.(multi := false, queued := []), c.queued);
  }

  // ----------------------------------------------------------------- feed

  /** One call of feedAppendOnlyFile: the database (-1 for none), the command
      and the clock. */
  datatype Fed = Fed(dictid: int, cmd: Cmd, now: nat)

  /** aof_selected_db and aof_cur_timestamp */
  datatype Feeder = Feeder(selected: int, stamp: nat)

  function FeedItems(fd: Feeder, e: Fed, stamps: bool): seq<Item> {
    (if stamps && fd.stamp < e.now then [Note(e.now)] else [])
    + (if e.dictid != -1 && e.dictid != fd.selected && e.dictid >= 0 then [Entry(["SELECT", Digits(e.dictid)])] else [])
    + [Entry(e.cmd)]
  }

  function FeedNext(fd: Feeder, e: Fed, stamps: bool): Feeder {
    Feeder(if e.dictid != -1 then e.dictid else fd.selected, if stamps && fd.stamp < e.now then e.now else fd.stamp)
  }

  function FeedAll(fd: Feeder, es: seq<Fed>, stamps: bool): Feeder {
    if es == [] then fd else FeedNext(FeedAll(fd, es[..|es| - 1], stamps), es[|es| - 1], stamps)
  }

  function LogOf(fd: Feeder, es: seq<Fed>, stamps: bool): seq<Item> {
    if es == [] then []
    else LogOf(fd, es[..|es| - 1], stamps) + FeedItems(FeedAll(fd, es[..|es| - 1], stamps), es[|es| - 1], stamps)
  }

  /** A command fed with a database of its own and no transaction or SELECT. */
  ghost predicate Feedable(s: Server, e: Fed) {
    && -1 <= e.dictid < s.dbnum && s.dbnum < 0x8000_0000
    && KindOf(e.cmd) == Plain && Printable(e.cmd) && s.known(e.cmd)
    && e.now < 0x8000_0000_0000_0000
    && (e.dictid >= 0 ==> s.known(["SELECT", Digits(e.dictid)]))
  }

  /** The database in use after these calls, starting in database 0. */
  function ExpectedDb(es: seq<Fed>): nat {
    if es == [] then 0
    else if es[|es| - 1].dictid >= 0 then es[|es| - 1].dictid
    else ExpectedDb(es[..|es| - 1])
  }

  /** Every command in the database it was fed with; a command fed without a
      database runs in the one in use. */
  function Expected(es: seq<Fed>): seq<Ran> {
    if es == [] then [] else Expected(es[..|es| - 1]) + [Ran(ExpectedDb(es), es[|es| - 1].cmd)]
  }

  lemma SelectRuns(dbnum: nat, c: Client, db: nat)
    requires !c.multi && db < dbnum && dbnum < 0x8000_0000
    ensures RunCommand(dbnum, c, ["SELECT", Digits(db)]) == c.(db := db)
    ensures Printable(["SELECT", Digits(db)])
  {
    var cmd := ["SELECT", Digits(db)];
    ShortDigits(db);
    StrtolDigits(Digits(db), db);
    assert Lower("SELECT") == "select";
    assert KindOf(cmd) == Select;
    assert db == 0 ==> Digits(db) == "0";
  }

  lemma RunOneMore(dbnum: nat, items: seq<Item>, i: Item)
    ensures RunAll(dbnum, items + [i]) ==
      if i.Entry? then RunPlain(dbnum, RunAll(dbnum, items), i.cmd) else RunAll(dbnum, items)
  {
    assert (items + [i])[..|items|] == items;
  }

  /** One call adds at most an annotation and a SELECT before its command. */
  lemma FeedRuns(s: Server, items: seq<Item>, fd: Feeder, e: Fed, stamps: bool)
    requires Feedable(s, e) && !RunAll(s.dbnum, items).multi
    requires fd.selected == -1 || fd.selected == RunAll(s.dbnum, items).db
    ensures var c := RunAll(s.dbnum, items);
      var db := if e.dictid >= 0 then e.dictid else c.db;
      RunAll(s.dbnum, items + FeedItems(fd, e, stamps)) == c.(db := db, ran := c.ran + [Ran(db, e.cmd)])
  {
    hide RunAll, Digits, SelectsDb;
    var c := RunAll(s.dbnum, items);
    var noted := if stamps && fd.stamp < e.now then items + [Note(e.now)] else items;
    RunOneMore(s.dbnum, items, Note(e.now));
    assert RunAll(s.dbnum, noted) == c;
    var selected := noted;
    if e.dictid >= 0 && e.dictid != fd.selected {
      var select := ["SELECT", Digits(e.dictid)];
      selected := noted + [Entry(select)];
      RunOneMore(s.dbnum, noted, Entry(select));
      SelectRuns(s.dbnum, c, e.dictid);
      assert RunAll(s.dbnum, selected) == c.(db := e.dictid);
    }
    RunOneMore(s.dbnum, selected, Entry(e.cmd));
    FedItems(items, fd, e, stamps);
  }

  lemma FedItems(items: seq<Item>, fd: Feeder, e: Fed, stamps: bool)
    ensures var noted := if stamps && fd.stamp < e.now then items + [Note(e.now)] else items;
      var selected := if e.dictid >= 0 && e.dictid != fd.selected then noted + [Entry(["SELECT", Digits(e.dictid)])] else noted;
      items + FeedItems(fd, e, stamps) == selected + [Entry(e.cmd)]
  {
    hide Digits;
  }

  lemma {:induction false} LogRuns(s: Server, stamp: nat, es: seq<Fed>, stamps: bool)
    requires forall i :: 0 <= i < |es| ==> Feedable(s, es[i])
    ensures var fd, log := Feeder(-1, stamp), LogOf(Feeder(-1, stamp), es, stamps);
      && RunAll(s.dbnum, log) == Client(ExpectedDb(es), false, [], Expected(es))
      && (FeedAll(fd, es, stamps).selected == -1 || FeedAll(fd, es, stamps).selected == ExpectedDb(es))
    decreases |es|
  {
    hide FeedItems, Feedable;
    if es != [] {
      var n := |es| - 1;
      LogRuns(s, stamp, es[..n], stamps);
      FeedRuns(s, LogOf(Feeder(-1, stamp), es[..n], stamps), FeedAll(Feeder(-1, stamp), es[..n], stamps), es[n], stamps);
      FeedableDb(s, es[n]);
    }
  }

  /** The time of the last annotation, or the given one without any. */
  function LastNote(items: seq<Item>, stamp: nat): nat {
    if items == [] then stamp
    else if items[|items| - 1].Note? then items[|items| - 1].time
    else LastNote(items[..|items| - 1], stamp)
  }

  /** The latest clock of the calls, if later than the given one. */
  function Latest(es: seq<Fed>, stamp: nat): nat {
    if es == [] then stamp
    else
      var before := Latest(es[..|es| - 1], stamp);
      if before < es[|es| - 1].now then es[|es| - 1].now else before
  }

  /** With annotations on, a log ends under the annotation of the latest clock so
      far; with annotations off it has none. */
  lemma {:induction false} AnnotatedLog(fd: Feeder, es: seq<Fed>, stamps: bool)
    ensures stamps ==> LastNote(LogOf(fd, es, stamps), fd.stamp) == Latest(es, fd.stamp) == FeedAll(fd, es, stamps).stamp
    ensures !stamps ==> NoNotes(LogOf(fd, es, stamps)) && FeedAll(fd, es, stamps).stamp == fd.stamp
    decreases |es|
  {
    hide Digits;
    if es != [] {
      var n := |es| - 1;
      AnnotatedLog(fd, es[..n], stamps);
      var now, log := FeedAll(fd, es[..n], stamps), LogOf(fd, es[..n], stamps);
      NotedItems(log, now, es[n], stamps, fd.stamp);
    }
  }

  lemma NotedItems(items: seq<Item>, fd: Feeder, e: Fed, stamps: bool, stamp: nat)
    ensures LastNote(items + FeedItems(fd, e, stamps), stamp) ==
      if stamps && fd.stamp < e.now then e.now else LastNote(items, stamp)
    ensures !stamps && NoNotes(items) ==> NoNotes(items + FeedItems(fd, e, stamps))
  {
    hide Digits, LastNote;
    FedItems(items, fd, e, stamps);
    var noted := if stamps && fd.stamp < e.now then items + [Note(e.now)] else items;
    LastNoteMore(items, Note(e.now), stamp);
    var selected := noted;
    if e.dictid >= 0 && e.dictid != fd.selected {
      selected := noted + [Entry(["SELECT", Digits(e.dictid)])];
      LastNoteMore(noted, Entry(["SELECT", Digits(e.dictid)]), stamp);
    }
    LastNoteMore(selected, Entry(e.cmd), stamp);
  }

  lemma LastNoteMore(items: seq<Item>, i: Item, stamp: nat)
    ensures LastNote(items + [i], stamp) == if i.Note? then i.time else LastNote(items, stamp)
  {
    assert (items + [i])[..|items|] == items;
  }

  lemma FeedableDb(s: Server, e: Fed)
    requires Feedable(s, e)
    ensures e.dictid >= -1
  {
  }

  lemma {:induction false} LogLoadable(s: Server, fd: Feeder, es: seq<Fed>, stamps: bool)
    requires forall i :: 0 <= i < |es| ==> Feedable(s, es[i])
    ensures AllLoadable(s, LogOf(fd, es, stamps)) && NoTransactions(LogOf(fd, es, stamps))
    decreases |es|
  {
    if es != [] {
      var n := |es| - 1;
      LogLoadable(s, fd, es[..n], stamps);
      ItemsLoadable(s, FeedAll(fd, es[..n], stamps), es[n], stamps);
    }
  }

  lemma ItemsLoadable(s: Server, fd: Feeder, e: Fed, stamps: bool)
    requires Feedable(s, e)
    ensures AllLoadable(s, FeedItems(fd, e, stamps)) && NoTransactions(FeedItems(fd, e, stamps))
  {
    if e.dictid >= 0 {
      SelectRuns(s.dbnum, Client(0, false, [], []), e.dictid);
      assert Lower("SELECT") == "select";
    }
  }

  /** The log round trip: whatever commands are fed, into whatever databases,
      with or without annotations, the loader runs exactly these commands, each
      in its database. */
  lemma RoundTrip(s: Server, stamp: nat, es: seq<Fed>, stamps: bool)
    requires forall i :: 0 <= i < |es| ==> Feedable(s, es[i])
    ensures var f := PrintItems(LogOf(Feeder(-1, stamp), es, stamps));
      var (result, l) := Load(s, f, 0, START);
      result == Loaded && l.client.ran == Expected(es)
  {
    hide Load, PrintItems, RunItems, LogOf, Feedable, AllLoadable, NoTransactions, Expected;
    var items := LogOf(Feeder(-1, stamp), es, stamps);
    LogLoadable(s, Feeder(-1, stamp), es, stamps);
    LogRuns(s, stamp, es, stamps);
    PlainRuns(s, items);
    WholeLog(s, items);
  }

  /** With a database for every command, the recovered list is the fed list. */
  lemma {:induction false} ExpectedExact(es: seq<Fed>)
    requires forall i :: 0 <= i < |es| ==> es[i].dictid >= 0
    ensures |Expected(es)| == |es|
    ensures forall i :: 0 <= i < |es| ==> Expected(es)[i] == Ran(es[i].dictid, es[i].cmd)
    decreases |es|
  {
    if es != [] {
      ExpectedExact(es[..|es| - 1]);
    }
  }
}

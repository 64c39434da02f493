/** The buffer that commands are fed into and the file that is loaded back
    (src/aof.c). */
module AofFeed {
  import opened Decimal
  import opened AofLog
  import opened AofLoad

  lemma {:induction false} PrintOneMoreArg(c: Cmd, a: string)
    ensures PrintArgs(c + [a]) == PrintArgs(c) + PrintArg(a)
    decreases |c|
  {
    hide PrintArg;
    if c == [] {
      assert PrintArgs([a]) == PrintArg(a) + PrintArgs([]);
      assert PrintArg(a) + "" == PrintArg(a);
    } else {
      assert (c + [a])[1..] == c[1..] + [a];
      PrintOneMoreArg(c[1..], a);
      assert PrintArg(c[0]) + (PrintArgs(c[1..]) + PrintArg(a)) == PrintArg(c[0]) + PrintArgs(c[1..]) + PrintArg(a);
    }
  }

  /** catAppendOnlyGenericCommand */
  method CatGenericCommand(dst: string, argv: Cmd) returns (r: string)
    ensures r == dst + PrintCommand(argv)
  {
    hide Digits;
    r := dst + ("*" + Digits(|argv|) + "\r\n");
    var j := 0;
    while j < |argv|
      invariant 0 <= j <= |argv|
      invariant r == dst + ("*" + Digits(|argv|) + "\r\n" + PrintArgs(argv[..j]))
    {
      assert argv[..j + 1] == argv[..j] + [argv[j]];
      PrintOneMoreArg(argv[..j], argv[j]);
      r := r + ("$" + Digits(|argv[j]|) + "\r\n");
      r := r + argv[j];
      r := r + "\r\n";
      j := j + 1;
    }
    assert argv[..j] == argv;
  }

  /** SELECT as the feed formats it. */
  lemma SelectBytes(db: nat)
    ensures "*2\r\n" + "$6\r\nSELECT\r\n" + ("$" + Digits(|Digits(db)|) + "\r\n" + Digits(db) + "\r\n")
            == PrintItem(Entry(["SELECT", Digits(db)]))
  {
    hide Digits, PrintArg, PrintArgs;
    var d := Digits(db);
    var c := ["SELECT", d];
    SelectParts();
    SelectArgs(d);
    PrintArgBytes(d);
    var a, b, e := "*2\r\n", "$6\r\nSELECT\r\n", PrintArg(d);
    assert PrintCommand(c) == a + (b + e);
    assert a + (b + e) == a + b + e;
  }

  lemma SelectParts()
    ensures PrintArg("SELECT") == "$6\r\nSELECT\r\n"
    ensures "*" + Digits(2) + "\r\n" == "*2\r\n"
  {
    SmallDigits();
  }

  lemma PrintArgBytes(d: string)
    ensures PrintArg(d) == "$" + Digits(|d|) + "\r\n" + d + "\r\n"
  {
  }

  lemma SelectArgs(d: string)
    ensures PrintArgs(["SELECT", d]) == PrintArg("SELECT") + PrintArg(d)
  {
    hide PrintArg;
    PrintOneMoreArg(["SELECT"], d);
    PrintOneMoreArg([], "SELECT");
    assert [] + ["SELECT"] == ["SELECT"] && ["SELECT"] + [d] == ["SELECT", d];
  }

  lemma SmallDigits()
    ensures Digits(2) == "2" && Digits(6) == "6"
  {
  }

  lemma PrintMore(items: seq<Item>, i: Item)
    ensures PrintItems(items + [i]) == PrintItems(items) + PrintItem(i)
  {
    assert (items + [i])[..|items|] == items;
  }

  class AofBuffer {
    /** server.aof_buf */
    var buf: string
    /** server.aof_selected_db */
    var selectedDb: int
    /** server.aof_cur_timestamp */
    var curTimestamp: nat

    ghost function State(): Feeder
      reads this
    {
      Feeder(selectedDb, curTimestamp)
    }

    /** feedAppendOnlyFile: appends the annotation, SELECT and command that the
        log calls for; while the log is off only the tracking moves on. */
    method Feed(dictid: int, argv: Cmd, now: nat, stamps: bool, appending: bool)
      requires dictid >= -1
      modifies this
      ensures State() == FeedNext(old(State()), Fed(dictid, argv, now), stamps)
      ensures buf == old(buf) + if appending then PrintItems(FeedItems(old(State()), Fed(dictid, argv, now), stamps)) else ""
    {
      hide Digits, PrintCommand, PrintItem, PrintItems;
      PrintNone();
      var out := "";
      ghost var items: seq<Item> := [];
      if stamps && curTimestamp < now {
        curTimestamp := now;
        NoteBytesAre(now);
        out := out + ("#TS:" + Digits(curTimestamp) + "\r\n");
        PrintMore(items, Note(now));
        items := items + [Note(now)];
      }
      if dictid != -1 && dictid != selectedDb {
        var seldb := Digits(dictid);
        SelectBytes(dictid);
        out := out + ("*2\r\n" + "$6\r\nSELECT\r\n" + ("$" + Digits(|seldb|) + "\r\n" + seldb + "\r\n"));
        selectedDb := dictid;
        PrintMore(items, Entry(["SELECT", Digits(dictid)]));
        items := items + [Entry(["SELECT", Digits(dictid)])];
      }
      assert out == PrintItems(items);
      out := CatGenericCommand(out, argv);
      EntryBytes(argv);
      PrintMore(items, Entry(argv));
      assert FeedItems(old(State()), Fed(dictid, argv, now), stamps) == items + [Entry(argv)];
      if appending {
        buf := buf + out;
      } else {
        assert buf + "" == buf;
      }
    }
  }

  lemma PrintNone()
    ensures PrintItems([]) == ""
  {
  }

  lemma NoteBytesAre(time: nat)
    ensures PrintItem(Note(time)) == "#TS:" + Digits(time) + "\r\n"
  {
  }

  lemma EntryBytes(c: Cmd)
    ensures PrintItem(Entry(c)) == PrintCommand(c)
  {
  }

  /** What a sequence of Feed calls appends, call by call. */
  function Appended(fd: Feeder, es: seq<Fed>, stamps: bool): string {
    if es == [] then ""
    else
      var n := |es| - 1;
      Appended(fd, es[..n], stamps) + PrintItems(FeedItems(FeedAll(fd, es[..n], stamps), es[n], stamps))
  }

  lemma {:induction false} PrintBoth(a: seq<Item>, b: seq<Item>)
    ensures PrintItems(a + b) == PrintItems(a) + PrintItems(b)
    decreases |b|
  {
    hide PrintItem;
    if b == [] {
      assert a + b == a;
    } else {
      var n := |b| - 1;
      PrintBoth(a, b[..n]);
      assert (a + b)[..|a + b| - 1] == a + b[..n];
    }
  }

  /** Together the calls append the printed log. */
  lemma {:induction false} AppendedIsLog(fd: Feeder, es: seq<Fed>, stamps: bool)
    ensures Appended(fd, es, stamps) == PrintItems(LogOf(fd, es, stamps))
    decreases |es|
  {
    hide FeedItems, PrintItem;
    if es != [] {
      var n := |es| - 1;
      AppendedIsLog(fd, es[..n], stamps);
      PrintBoth(LogOf(fd, es[..n], stamps), FeedItems(FeedAll(fd, es[..n], stamps), es[n], stamps));
    }
  }

  /** Loading what the calls appended runs exactly the fed commands. */
  lemma FedIsLoaded(s: Server, stamp: nat, es: seq<Fed>, stamps: bool)
    requires forall i :: 0 <= i < |es| ==> Feedable(s, es[i])
    ensures var (result, l) := Load(s, Appended(Feeder(-1, stamp), es, stamps), 0, START);
      result == Loaded && l.client.ran == Expected(es)
  {
    hide Load, PrintItems, Feedable, Expected, LogOf;
    AppendedIsLog(Feeder(-1, stamp), es, stamps);
    RoundTrip(s, stamp, es, stamps);
  }

  // ---------------------------------------------------------------- load

  datatype FileResult = AofOk | AofTruncated | AofFailed | AofEmpty | RdbPreamble

  /** The loader's test for an RDB file compares six bytes. */
  predicate LooksLikeRdb(f: string) { |f| >= 6 && f[..6] == "NEXCAC" }

  /** loadSingleAppendOnlyFile on the bytes of an open file; returns what was
      run and the bytes left in the file. */
  method LoadFile(s: Server, f: string) returns (result: FileResult, client: Client, left: string)
    ensures f == "" ==> result == AofEmpty && left == f
    ensures LooksLikeRdb(f) ==> result == RdbPreamble && left == f
    ensures f != "" && !LooksLikeRdb(f) ==>
      var (outcome, l) := Load(s, f, 0, START);
      && client == l.client
      && result == (match outcome case Loaded => AofOk case Truncated(_) => AofTruncated case Failed => AofFailed)
      && (outcome.Truncated? ==> outcome.at <= |f|)
      && left == if outcome.Truncated? then f[..outcome.at] else f
  {
    client, left := START.client, f;
    if f == "" {
      return AofEmpty, client, left;
    }
    if LooksLikeRdb(f) {
      return RdbPreamble, client, left;
    }
    var validUpTo, validBeforeMulti := 0, 0;
    var pos := 0;
    while true
      invariant pos <= |f| && validUpTo <= |f| && validBeforeMulti <= |f| && left == f
      invariant Load(s, f, pos, Loader(client, validUpTo, validBeforeMulti)) == Load(s, f, 0, START)
      decreases |f| - pos
    {
      var r := ReadCommand(f, pos);
      match r {
        case EndOfFile =>
          if !client.multi {
            return AofOk, client, left;
          }
          validUpTo := validBeforeMulti;
          break;
        case Annotation(next) =>
          pos := next;
        case BadFormat =>
          return AofFailed, client, left;
        case ShortRead =>
          break;
        case Complete(cmd, next) =>
          if !s.known(cmd) {
            return AofFailed, client, left;
          }
          if KindOf(cmd) == Multi {
            validBeforeMulti := validUpTo;
          }
          client := RunCommand(s.dbnum, client, cmd);
          if s.loadTruncated {
            validUpTo := next;
          }
          pos := next;
      }
    }
    if !s.loadTruncated || !s.truncates {
      return AofFailed, client, left;
    }
    left := f[..validUpTo];
    return AofTruncated, client, left;
  }
}

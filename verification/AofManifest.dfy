/** The manifest of append-only files: its growth, its text and the reader of
    that text (src/aof.c). */
module AofManifest {
  import opened Common
  import opened Ascii
  import opened Decimal
  import Seqs
  import opened SdsArgs
  import AofLog

  datatype FileType = Base | History | Incr
  datatype Info = Info(name: string, number: int, kind: FileType)

  datatype Manifest = Manifest(base: Option<Info>, history: seq<Info>, incr: seq<Info>, baseSeq: int, incrSeq: int)

  const EMPTY := Manifest(None, [], [], 0, 0)

  // ------------------------------------------------------- well-formedness

  ghost predicate AllOf(l: seq<Info>, kind: FileType) {
    forall i :: 0 <= i < |l| ==> l[i].kind == kind && l[i].number > 0
  }

  ghost predicate Increasing(l: seq<Info>) {
    forall i, j :: 0 <= i < j < |l| ==> l[i].number < l[j].number
  }

  /** INCR sequence numbers are positive and strictly increasing and the
      counter is the last one; likewise for the BASE file. */
  ghost predicate WellFormed(m: Manifest) {
    && m.baseSeq >= 0 && m.incrSeq >= 0
    && AllOf(m.history, History) && AllOf(m.incr, Incr) && Increasing(m.incr)
    && (m.incr != [] ==> m.incrSeq == m.incr[|m.incr| - 1].number)
    && (m.base.Some? ==> m.base.value.kind == Base && m.base.value.number > 0 && m.baseSeq == m.base.value.number)
  }

  // ----------------------------------------------------------------- text

  function TypeChar(k: FileType): char { match k case Base => 'b' case History => 'h' case Incr => 'i' }

  function TypeOf(c: char): Option<FileType> {
    if c == 'b' then Some(Base) else if c == 'h' then Some(History) else if c == 'i' then Some(Incr) else None
  }

  /** sdsneedsrepr */
  predicate NeedsRepr(s: string) {
    exists k :: 0 <= k < |s| && (s[k] == '\\' || s[k] == '"' || !(32 < s[k] as int < 127))
  }

  function PrintName(name: string): string
    requires Bytes(name)
  {
    if NeedsRepr(name) then Repr(name) else name
  }

  function PrintNumber(n: int): string { if n < 0 then "-" + Digits(-n) else Digits(n) }

  /** The line of aofInfoFormat without its newline. */
  function Line(i: Info): string
    requires Bytes(i.name)
  {
    "file " + PrintName(i.name) + " seq " + PrintNumber(i.number) + " type " + [TypeChar(i.kind)]
  }

  function PrintInfos(l: seq<Info>): string
    requires forall i :: 0 <= i < |l| ==> Bytes(l[i].name)
  {
    if l == [] then "" else PrintInfos(l[..|l| - 1]) + (Line(l[|l| - 1]) + "\n")
  }

  /** All files in manifest order. */
  function Files(m: Manifest): seq<Info> { BaseFiles(m) + m.history + m.incr }

  function BaseFiles(m: Manifest): seq<Info> { if m.base.Some? then [m.base.value] else [] }

  // -------------------------------------------------------------- reading

  predicate Trimmed(c: char) { c == ' ' || c == '\t' || c == '\r' || c == '\n' }

  function TrimLeft(s: string): string { if s != "" && Trimmed(s[0]) then TrimLeft(s[1..]) else s }

  function TrimRight(s: string): string { if s != "" && Trimmed(s[|s| - 1]) then TrimRight(s[..|s| - 1]) else s }

  predicate BaseName(s: string) { forall k :: 0 <= k < |s| ==> s[k] != '/' && s[k] != '\\' }

  /** What a line has set so far; the number 0 and type NUL mean unset. */
  datatype Fields = Fields(name: Option<string>, number: int, kind: char)

  /** The key and value pairs from argument `i` on; None for a path. */
  function ReadFields(argv: seq<string>, i: nat, fs: Fields): Option<Fields>
    requires |argv| % 2 == 0 && i % 2 == 0 && i <= |argv|
    decreases |argv| - i
  {
    if i == |argv| then Some(fs)
    else
      var key, value := Lower(CString(argv[i])), CString(argv[i + 1]);
      if key == "file" then
        if BaseName(value) then ReadFields(argv, i + 2, fs.(name := Some(value))) else None
      else if key == "seq" then ReadFields(argv, i + 2, fs.(number := Strtol(value)))
      else if key == "type" then ReadFields(argv, i + 2, fs.(kind := if value == "" then '\0' else value[0]))
      else ReadFields(argv, i + 2, fs)
  }

  /** One line of the manifest file; None for every format error. */
  function ReadLine(buf: string): Option<Fields> {
    if '\n' !in CString(buf) then None
    else
      var line := TrimRight(TrimLeft(CString(buf)));
      var argv := SplitArgs(line, 0);
      if line == "" || argv.None? || |argv.value| < 6 || |argv.value| % 2 == 1 then None
      else
        var fs := ReadFields(argv.value, 0, Fields(None, 0, '\0'));
        if fs.None? || fs.value.name.None? || fs.value.number == 0 || fs.value.kind == '\0' then None else fs
  }

  /** Adding a line's file to the manifest read so far. */
  function AddFile(m: Manifest, fs: Fields, maxseq: int): Option<Manifest>
    requires fs.name.Some?
  {
    var kind := TypeOf(fs.kind);
    if kind.None? then None
    else
      var i := Info(fs.name.value, fs.number, kind.value);
      match kind.value
      case Base => if m.base.Some? then None else Some(m.(base := Some(i), baseSeq := i.number))
      case History => Some(m.(history := m.history + [i]))
      case Incr => if fs.number <= maxseq then None else Some(m.(incr := m.incr + [i], incrSeq := i.number))
  }

  /** aofLoadManifestFromFile from an offset on; maxseq is the INCR counter. */
  function Parse(f: string, pos: nat, m: Manifest, first: bool): Option<Manifest>
    requires pos <= |f|
    decreases |f| - pos
  {
    if pos == |f| then if first then None else Some(m)
    else
      var e := AofLog.LineEnd(f, pos, 1024);
      var buf := f[pos..e];
      if buf[0] == '#' then Parse(f, e, m, false)
      else
        var fs := ReadLine(buf);
        if fs.None? || fs.value.name.None? then None
        else
          var next := AddFile(m, fs.value, m.incrSeq);
          if next.None? then None else Parse(f, e, next.value, false)
  }

  // ----------------------------------------------------------- round trip

  /** A file name that the manifest can hold: a base name that, unless it is
      printed quoted, has no single quote. */
  ghost predicate Named(name: string) {
    && name != "" && Bytes(name) && BaseName(name) && '\0' !in name
    && (NeedsRepr(name) || '\'' !in name)
  }

  lemma PlainNameIsWord(name: string)
    requires name != "" && !NeedsRepr(name) && '\'' !in name
    ensures Word(name)
  {
    forall k | 0 <= k < |name|
      ensures name[k] != '\0' && !Blank(name[k]) && name[k] != '"' && name[k] != '\''
    {
      assert !(name[k] == '\\' || name[k] == '"' || !(32 < name[k] as int < 127));
    }
    assert 32 < name[0] as int < 127;
  }

  lemma DigitsAreWord(n: nat)
    ensures Word(Digits(n))
  {
    assert forall k :: 0 <= k < |Digits(n)| ==> IsDigit(Digits(n)[k]);
  }

  lemma {:induction false} ReprIsPrintable(s: string)
    requires Bytes(s)
    ensures forall k :: 0 <= k < |ReprBody(s)| ==> 32 <= ReprBody(s)[k] as int < 127
    decreases |s|
  {
    if s != "" {
      ReprIsPrintable(s[1..]);
    }
  }

  /** The fields of a line, from the right. */
  lemma LineTail(i: Info, s: string, p: nat)
    requires i.number > 0
    requires p <= |s| && s[p..] == "seq " + Digits(i.number) + " type " + [TypeChar(i.kind)]
    ensures SplitArgs(s, p) == Some(["seq", Digits(i.number), "type", [TypeChar(i.kind)]])
  {
    hide SplitArgs, Digits, TypeChar, Word;
    var d, c := Digits(i.number), TypeChar(i.kind);
    SeqField(s, p, d, c);
    TypeIsVisible(i.kind);
    TypeField(s, p + 5 + |d|, c);
    DigitsAreWord(i.number);
    SeqIsWord();
    SplitWord(s, p + 4, |d|);
    SplitWord(s, p, 3);
    assert ["seq"] + ([d] + ["type", [c]]) == ["seq", d, "type", [c]];
  }

  lemma SeqIsWord()
    ensures Word("seq")
  {
  }

  lemma SeqField(s: string, p: nat, d: string, c: char)
    requires p <= |s| && s[p..] == "seq " + d + " type " + [c]
    ensures p + 5 + |d| <= |s| && s[p..p + 3] == "seq" && s[p + 3] == ' '
    ensures s[p + 4..p + 4 + |d|] == d && s[p + 4 + |d|] == ' ' && s[p + 5 + |d|..] == "type " + [c]
  {
    var tail := " type " + [c];
    assert "seq " + d + " type " + [c] == "seq " + (d + tail);
    Seqs.Cut(s, p, "seq ", d + tail);
    Seqs.Sub(s, p, p + 4, 0, 3);
    assert s[p + 3] == s[p..p + 4][3];
    Seqs.Cut(s, p + 4, d, tail);
    assert tail == " " + ("type " + [c]);
    Seqs.Cut(s, p + 4 + |d|, " ", "type " + [c]);
    assert s[p + 4 + |d|] == s[p + 4 + |d|..p + 4 + |d| + 1][0];
  }

  lemma TypeIsVisible(k: FileType)
    ensures 32 < TypeChar(k) as int < 127 && TypeChar(k) != '"' && TypeChar(k) != '\''
  {
  }

  lemma TypeField(s: string, p: nat, c: char)
    requires p <= |s| && s[p..] == "type " + [c] && 32 < c as int < 127 && c != '"' && c != '\''
    ensures SplitArgs(s, p) == Some(["type", [c]])
  {
    hide SplitArgs;
    Seqs.Cut(s, p, "type ", [c]);
    Seqs.Sub(s, p, p + 5, 0, 4);
    assert s[p + 4] == s[p..p + 5][4];
    assert |s| == p + 6 && s[p + 5..p + 6] == s[p + 5..];
    assert s[p..p + 4] == "type";
    SplitEnd(s);
    SplitWord(s, p + 5, 1);
    SplitWord(s, p, 4);
    assert ["type"] + ([[c]] + []) == ["type", [c]];
  }

  lemma SplitEnd(s: string)
    ensures SplitArgs(s, |s|) == Some([])
  {
  }

  lemma LineSplits(i: Info)
    requires Named(i.name) && i.number > 0
    ensures SplitArgs(Line(i), 0) == Some(["file", i.name, "seq", Digits(i.number), "type", [TypeChar(i.kind)]])
  {
    hide SplitArgs, Digits, NeedsRepr, Repr, TypeChar;
    var s, n := Line(i), PrintName(i.name);
    var p := 5 + |n| + 1;
    assert s == "file " + n + (" " + ("seq " + Digits(i.number) + " type " + [TypeChar(i.kind)]));
    FileField(s, n, "seq " + Digits(i.number) + " type " + [TypeChar(i.kind)]);
    LineTail(i, s, p);
    if NeedsRepr(i.name) {
      SplitRepr(s, 5, i.name);
    } else {
      PlainNameIsWord(i.name);
      SplitWord(s, 5, |n|);
    }
    SplitWord(s, 0, 4);
    var rest := ["seq", Digits(i.number), "type", [TypeChar(i.kind)]];
    assert ["file"] + ([i.name] + rest) == ["file", i.name, "seq", Digits(i.number), "type", [TypeChar(i.kind)]];
  }

  lemma FileField(s: string, n: string, rest: string)
    requires s == "file " + n + (" " + rest)
    ensures |s| >= 6 + |n| && s[0..4] == "file" && s[4] == ' '
    ensures s[5..5 + |n|] == n && s[5 + |n|] == ' ' && s[6 + |n|..] == rest
  {
    assert s[0..] == "file " + (n + (" " + rest));
    Seqs.Cut(s, 0, "file ", n + (" " + rest));
    Seqs.Sub(s, 0, 5, 0, 4);
    assert s[4] == s[0..5][4];
    Seqs.Cut(s, 5, n, " " + rest);
    Seqs.Cut(s, 5 + |n|, " ", rest);
    assert s[5 + |n|] == s[5 + |n|..6 + |n|][0];
  }

  /** No character of a line ends or cuts it. */
  lemma LineIsOneLine(i: Info)
    requires Named(i.name) && i.number > 0
    ensures forall k :: 0 <= k < |Line(i)| ==> Line(i)[k] != '\n' && Line(i)[k] != '\0'
    ensures Line(i) != "" && Line(i)[0] == 'f' && Line(i)[|Line(i)| - 1] == TypeChar(i.kind)
  {
    hide ReprBody, Digits;
    var n, d := PrintName(i.name), Digits(i.number);
    NameOneLine(i.name);
    DigitsOneLine(i.number);
    var a := "file " + n;
    var b := a + " seq " + d;
    assert Line(i) == b + " type " + [TypeChar(i.kind)];
  }

  ghost predicate OneLine(s: string) { forall k :: 0 <= k < |s| ==> s[k] != '\n' && s[k] != '\0' }

  lemma NameOneLine(name: string)
    requires Named(name)
    ensures OneLine(PrintName(name))
  {
    hide ReprBody;
    ReprIsPrintable(name);
    if !NeedsRepr(name) {
      PlainNameIsWord(name);
    }
  }

  lemma DigitsOneLine(n: nat)
    ensures OneLine(Digits(n))
  {
    assert forall k :: 0 <= k < |Digits(n)| ==> IsDigit(Digits(n)[k]);
  }

  lemma {:induction false} CStringWhole(s: string)
    requires forall k :: 0 <= k < |s| ==> s[k] != '\0'
    ensures CString(s) == s
    decreases |s|
  {
    if s != "" {
      CStringWhole(s[1..]);
    }
  }

  lemma FieldsAreCStrings(i: Info)
    requires Named(i.name) && i.number > 0
    ensures CString("file") == "file" && CString("seq") == "seq" && CString("type") == "type"
    ensures CString(i.name) == i.name && CString(Digits(i.number)) == Digits(i.number)
    ensures CString([TypeChar(i.kind)]) == [TypeChar(i.kind)]
  {
    hide CString;
    DigitsOneLine(i.number);
    CStringWhole("file");
    CStringWhole("seq");
    CStringWhole("type");
    CStringWhole(i.name);
    CStringWhole(Digits(i.number));
    CStringWhole([TypeChar(i.kind)]);
  }

  lemma FieldsRead(i: Info)
    requires Named(i.name) && i.number > 0
    ensures ReadFields(["file", i.name, "seq", Digits(i.number), "type", [TypeChar(i.kind)]], 0, Fields(None, 0, '\0'))
            == Some(Fields(Some(i.name), i.number, TypeChar(i.kind)))
  {
    var argv := ["file", i.name, "seq", Digits(i.number), "type", [TypeChar(i.kind)]];
    StrtolDigits(Digits(i.number), i.number);
    FieldsAreCStrings(i);
    hide Strtol, Digits, BaseName, CString;
    assert Lower("file") == "file" && Lower("seq") == "seq" && Lower("type") == "type";
    var f3 := Fields(Some(i.name), i.number, TypeChar(i.kind));
    assert ReadFields(argv, 6, f3) == Some(f3);
    assert ReadFields(argv, 4, f3.(kind := '\0')) == Some(f3);
    assert ReadFields(argv, 2, Fields(Some(i.name), 0, '\0')) == Some(f3);
  }

  lemma LineRead(i: Info)
    requires Named(i.name) && i.number > 0
    ensures ReadLine(Line(i) + "\n") == Some(Fields(Some(i.name), i.number, TypeChar(i.kind)))
  {
    hide SplitArgs, Digits, ReadFields, CString, TrimLeft, TrimRight, Line;
    LineIsOneLine(i);
    TrimmedLine(Line(i));
    LineSplits(i);
    FieldsRead(i);
  }

  lemma TrimmedLine(l: string)
    requires OneLine(l) && l != "" && !Trimmed(l[0]) && !Trimmed(l[|l| - 1])
    ensures CString(l + "\n") == l + "\n" && '\n' in l + "\n"
    ensures TrimRight(TrimLeft(l + "\n")) == l
  {
    CStringWhole(l + "\n");
    assert (l + "\n")[|l|] == '\n';
    assert (l + "\n")[..|l|] == l;
  }

  // ------------------------------------------------------ reading it back

  /** A file line accepted after the ones read so far. */
  ghost predicate Fits(m: Manifest, i: Info) {
    && Named(i.name) && i.number > 0 && |Line(i)| < 1024
    && (i.kind == Base ==> m.base.None?)
    && (i.kind == Incr ==> i.number > m.incrSeq)
  }

  function Put(m: Manifest, i: Info): Manifest {
    match i.kind
    case Base => m.(base := Some(i), baseSeq := i.number)
    case History => m.(history := m.history + [i])
    case Incr => m.(incr := m.incr + [i], incrSeq := i.number)
  }

  function Collect(l: seq<Info>): Manifest {
    if l == [] then EMPTY else Put(Collect(l[..|l| - 1]), l[|l| - 1])
  }

  ghost predicate AllFit(l: seq<Info>) {
    forall k :: 0 <= k < |l| ==> Fits(Collect(l[..k]), l[k])
  }

  lemma LineParsed(f: string, pos: nat, m: Manifest, i: Info, first: bool)
    requires Fits(m, i) && AofLog.At(f, pos, Line(i) + "\n")
    ensures Parse(f, pos, m, first) == Parse(f, pos + |Line(i)| + 1, Put(m, i), false)
  {
    hide Line, ReadLine, Named;
    NamedBytes(i.name);
    var l := Line(i);
    var t := l + "\n";
    LineIsOneLine(i);
    assert f[pos..pos + |t|] == t;
    forall j | pos <= j < pos + |t|
      ensures f[j] == t[j - pos]
    {
      assert f[j] == f[pos..pos + |t|][j - pos];
    }
    AofLog.LineIs(f, pos, |l|, 1024);
    LineRead(i);
  }

  lemma NamedBytes(name: string)
    requires Named(name)
    ensures Bytes(name)
  {
  }

  lemma AllFitBytes(l: seq<Info>)
    requires AllFit(l)
    ensures forall k :: 0 <= k < |l| ==> Bytes(l[k].name)
  {
    forall k | 0 <= k < |l|
      ensures Bytes(l[k].name)
    {
      assert Fits(Collect(l[..k]), l[k]);
    }
  }

  lemma {:induction false} InfosParsed(f: string, l: seq<Info>)
    requires (forall k :: 0 <= k < |l| ==> Bytes(l[k].name)) && AllFit(l) && PrintInfos(l) <= f
    ensures Parse(f, 0, EMPTY, true) == Parse(f, |PrintInfos(l)|, Collect(l), l == [])
    decreases |l|
  {
    hide Parse, Line, Fits, Bytes;
    if l != [] {
      var n := |l| - 1;
      var before, p := PrintInfos(l[..n]), PrintInfos(l);
      assert forall k :: 0 <= k < n ==> l[..n][..k] == l[..k];
      assert before <= p <= f;
      InfosParsed(f, l[..n]);
      assert f[..|p|] == p;
      assert f[|before|..|p|] == Line(l[n]) + "\n";
      assert l[..n] == l[..n];
      FitsLine(Collect(l[..n]), l[n]);
      LineParsed(f, |before|, Collect(l[..n]), l[n], l[..n] == []);
    }
  }

  lemma FitsLine(m: Manifest, i: Info)
    requires Fits(m, i)
    ensures Bytes(i.name)
  {
  }

  /** A non-empty list of lines that fit is read back completely. */
  lemma InfosReadBack(l: seq<Info>)
    requires AllFit(l) && l != []
    ensures (forall k :: 0 <= k < |l| ==> Bytes(l[k].name)) && Parse(PrintInfos(l), 0, EMPTY, true) == Some(Collect(l))
  {
    AllFitBytes(l);
    InfosParsed(PrintInfos(l), l);
  }

  /** A file whose line the reader accepts. */
  ghost predicate Holdable(i: Info) { Named(i.name) && |Line(i)| < 1024 }

  lemma FitOneMore(l: seq<Info>, i: Info)
    requires AllFit(l) && Fits(Collect(l), i)
    ensures AllFit(l + [i]) && Collect(l + [i]) == Put(Collect(l), i)
  {
    hide Fits;
    var r := l + [i];
    assert r[..|l|] == l;
    forall k | 0 <= k < |r|
      ensures Fits(Collect(r[..k]), r[k])
    {
      assert k < |l| ==> r[..k] == l[..k];
    }
  }

  lemma {:induction false} FitHistory(l: seq<Info>, h: seq<Info>)
    requires AllFit(l) && AllOf(h, History) && forall k :: 0 <= k < |h| ==> Holdable(h[k])
    ensures AllFit(l + h) && Collect(l + h) == Collect(l).(history := Collect(l).history + h)
    decreases |h|
  {
    hide Named, Line, AllFit;
    if h == [] {
      assert l + h == l;
    } else {
      var n := |h| - 1;
      FitHistory(l, h[..n]);
      FitOneMore(l + h[..n], h[n]);
      assert l + h[..n] + [h[n]] == l + h;
      assert Collect(l).history + h[..n] + [h[n]] == Collect(l).history + h;
    }
  }

  lemma {:induction false} FitIncr(l: seq<Info>, x: seq<Info>)
    requires AllFit(l) && AllOf(x, Incr) && Increasing(x) && forall k :: 0 <= k < |x| ==> Holdable(x[k])
    requires Collect(l).incr == [] && Collect(l).incrSeq == 0
    ensures AllFit(l + x)
    ensures Collect(l + x) == Collect(l).(incr := x, incrSeq := if x == [] then 0 else x[|x| - 1].number)
    decreases |x|
  {
    hide Named, Line, AllFit;
    if x == [] {
      assert l + x == l;
    } else {
      var n := |x| - 1;
      FitIncr(l, x[..n]);
      FitOneMore(l + x[..n], x[n]);
      assert l + x[..n] + [x[n]] == l + x;
      assert x[..n] + [x[n]] == x;
    }
  }

  /** getAofManifestAsString */
  function Print(m: Manifest): string
    requires forall k :: 0 <= k < |Files(m)| ==> Bytes(Files(m)[k].name)
  {
    PrintInfos(Files(m))
  }

  /** The counters that the reader finds: those of files that are there. */
  function Reloaded(m: Manifest): Manifest {
    m.(baseSeq := if m.base.Some? then m.baseSeq else 0, incrSeq := if m.incr == [] then 0 else m.incrSeq)
  }

  /** The printed manifest loads, with the same BASE, HISTORY and INCR lists,
      exactly when it lists a file. */
  lemma ManifestRoundTrip(m: Manifest)
    requires WellFormed(m) && forall k :: 0 <= k < |Files(m)| ==> Holdable(Files(m)[k])
    ensures forall k :: 0 <= k < |Files(m)| ==> Bytes(Files(m)[k].name)
    ensures Parse(Print(m), 0, EMPTY, true) == if Files(m) == [] then None else Some(Reloaded(m))
  {
    hide Named, Line, AllFit, Parse, PrintInfos;
    CollectFiles(m);
    if Files(m) == [] {
      EmptyFails();
    } else {
      InfosReadBack(Files(m));
    }
  }

  lemma EmptyFails()
    ensures Parse(PrintInfos([]), 0, EMPTY, true) == None
  {
  }

  lemma CollectFiles(m: Manifest)
    requires WellFormed(m) && forall k :: 0 <= k < |Files(m)| ==> Holdable(Files(m)[k])
    ensures AllFit(Files(m)) && Collect(Files(m)) == Reloaded(m)
  {
    hide Holdable, AllFit, Fits, Collect;
    PartsHoldable(m);
    var b := BaseFiles(m);
    CollectBase(m);
    FitHistory(b, m.history);
    assert [] + m.history == m.history;
    FitIncr(b + m.history, m.incr);
  }

  lemma CollectBase(m: Manifest)
    requires WellFormed(m) && (m.base.Some? ==> Holdable(m.base.value))
    ensures AllFit(BaseFiles(m))
    ensures Collect(BaseFiles(m)) == EMPTY.(base := m.base, baseSeq := if m.base.Some? then m.baseSeq else 0)
  {
    hide Holdable, AllFit, Fits;
    NothingFits();
    if m.base.Some? {
      BaseFits(m.base.value);
      FitOneMore([], m.base.value);
      assert [] + [m.base.value] == BaseFiles(m);
    }
  }

  lemma BaseFits(i: Info)
    requires Holdable(i) && i.kind == Base && i.number > 0
    ensures Fits(EMPTY, i)
  {
  }

  lemma PartsHoldable(m: Manifest)
    requires forall k :: 0 <= k < |Files(m)| ==> Holdable(Files(m)[k])
    ensures m.base.Some? ==> Holdable(m.base.value)
    ensures forall k :: 0 <= k < |m.history| ==> Holdable(m.history[k])
    ensures forall k :: 0 <= k < |m.incr| ==> Holdable(m.incr[k])
  {
    hide Holdable;
    var b, files := BaseFiles(m), Files(m);
    assert m.base.Some? ==> files[0] == m.base.value;
    forall k | 0 <= k < |m.history|
      ensures Holdable(m.history[k])
    {
      assert files[|b| + k] == m.history[k];
    }
    forall k | 0 <= k < |m.incr|
      ensures Holdable(m.incr[k])
    {
      assert files[|b| + |m.history| + k] == m.incr[k];
    }
  }

  lemma NothingFits()
    ensures AllFit([]) && Collect([]) == EMPTY
  {
  }

  /** A name that needs no quoting splits back exactly when it has no single
      quote. */
  lemma PlainNameIff(name: string)
    requires name != "" && !NeedsRepr(name)
    ensures SplitArgs(name, 0) == Some([name]) <==> '\'' !in name
  {
    hide SplitArgs;
    forall k | 0 <= k < |name|
      ensures name[k] != '\0' && !Blank(name[k]) && name[k] != '"' && !Space(name[k])
    {
      assert !(name[k] == '\\' || name[k] == '"' || !(32 < name[k] as int < 127));
    }
    SplitsToItselfIff(name);
  }

  // ------------------------------------------------------------------ runs

  function IncrName(filename: string, n: int): string { filename + "." + PrintNumber(n) + ".incr" + ".aof" }

  function BaseFileName(filename: string, n: int, rdb: bool): string {
    filename + "." + PrintNumber(n) + ".base" + if rdb then ".rdb" else ".aof"
  }

  function AsHistory(l: seq<Info>): seq<Info> { seq(|l|, k requires 0 <= k < |l| => l[k].(kind := History)) }

  function NewIncr(m: Manifest, filename: string): Manifest {
    m.(incr := m.incr + [Info(IncrName(filename, m.incrSeq + 1), m.incrSeq + 1, Incr)], incrSeq := m.incrSeq + 1)
  }

  function NewBase(m: Manifest, filename: string, rdb: bool): Manifest {
    m.(
      base := Some(Info(BaseFileName(filename, m.baseSeq + 1, rdb), m.baseSeq + 1, Base)),
      baseSeq := m.baseSeq + 1,
      history := if m.base.Some? then AsHistory([m.base.value]) + m.history else m.history
    )
  }

  /** All INCR files but the open one move, in order, before the history. */
  function MarkHistory(m: Manifest, open: bool): Manifest {
    var n := if open && m.incr != [] then |m.incr| - 1 else |m.incr|;
    m.(history := AsHistory(m.incr[..n]) + m.history, incr := m.incr[n..])
  }

  /** The file is listed as BASE, HISTORY or INCR. */
  ghost predicate Listed(m: Manifest, name: string) {
    || (m.base.Some? && m.base.value.name == name)
    || (exists i :: 0 <= i < |m.incr| && m.incr[i].name == name)
    || (exists h :: 0 <= h < |m.history| && m.history[h].name == name)
  }

  /** No file is forgotten: what a change takes out of use goes to the history. */
  lemma NoneForgotten(m: Manifest, op: Op, name: string)
    requires !op.Restart? && Listed(m, name)
    ensures Listed(Do(m, op), name)
  {
    hide IncrName, BaseFileName;
    var r := Do(m, op);
    if m.base.Some? && m.base.value.name == name {
      assert op.AddBase? ==> r.history[0].name == name;
    } else if i :| 0 <= i < |m.incr| && m.incr[i].name == name {
      var n := |m.incr| - |r.incr|;
      if op.Rewritten? {
        assert if i < n then r.history[i].name == name else r.incr[i - n].name == name;
      } else {
        assert r.incr[i].name == name;
      }
    } else {
      var h :| 0 <= h < |m.history| && m.history[h].name == name;
      assert r.history[h + |r.history| - |m.history|].name == name;
    }
  }

  /** After a rewrite at most the last INCR file is in use, and it is exactly when
      it is open. */
  lemma RewrittenIncr(m: Manifest, open: bool)
    ensures MarkHistory(m, open).incr == if open && m.incr != [] then [m.incr[|m.incr| - 1]] else []
    ensures MarkHistory(m, open).base == m.base
  {
  }

  datatype Op = AddIncr(filename: string) | AddBase(filename: string, rdb: bool) | Rewritten(open: bool) | Restart

  function Do(m: Manifest, op: Op): Manifest {
    match op
    case AddIncr(filename) => NewIncr(m, filename)
    case AddBase(filename, rdb) => NewBase(m, filename, rdb)
    case Rewritten(open) => MarkHistory(m, open)
    case Restart => Reloaded(m)
  }

  function RunOps(ops: seq<Op>): Manifest {
    if ops == [] then EMPTY else Do(RunOps(ops[..|ops| - 1]), ops[|ops| - 1])
  }

  lemma StepWellFormed(m: Manifest, op: Op)
    requires WellFormed(m)
    ensures WellFormed(Do(m, op))
  {
    hide PrintNumber;
    match op
    case AddIncr(filename) => {
      var x, n := NewIncr(m, filename).incr, |m.incr|;
      forall i | 0 <= i < n
        ensures x[i].number < x[n].number
      {
        assert i < n - 1 ==> m.incr[i].number < m.incr[n - 1].number;
      }
    }
    case AddBase(_, _) =>
    case Rewritten(_) =>
    case Restart =>
  }

  /** Over every run the manifest stays well formed. */
  lemma {:induction false} RunsWellFormed(ops: seq<Op>)
    ensures WellFormed(RunOps(ops))
    decreases |ops|
  {
    hide Do;
    if ops != [] {
      RunsWellFormed(ops[..|ops| - 1]);
      StepWellFormed(RunOps(ops[..|ops| - 1]), ops[|ops| - 1]);
    }
  }

  // ------------------------------------------------------- in-place updates

  class AofManifest {
    var base: Option<Info>
    var history: seq<Info>
    var incr: seq<Info>
    var baseSeq: int
    var incrSeq: int
    var dirty: bool

    ghost function Value(): Manifest
      reads this
    {
      Manifest(base, history, incr, baseSeq, incrSeq)
    }

    /** getNewIncrAofName */
    method NewIncrName(filename: string) returns (name: string)
      requires WellFormed(Value())
      modifies this
      ensures WellFormed(Value()) && Value() == NewIncr(old(Value()), filename) && dirty
      ensures incr == old(incr) + [Info(name, old(incrSeq) + 1, Incr)] && incrSeq == old(incrSeq) + 1
      ensures name == filename + "." + PrintNumber(incrSeq) + ".incr.aof"
      ensures name == incr[|incr| - 1].name
    {
      StepWellFormed(Value(), AddIncr(filename));
      incrSeq := incrSeq + 1;
      name := filename + "." + PrintNumber(incrSeq) + ".incr" + ".aof";
      assert ".incr" + ".aof" == ".incr.aof";
      incr := incr + [Info(name, incrSeq, Incr)];
      dirty := true;
    }

    /** getLastIncrAofName */
    method LastIncrName(filename: string) returns (name: string)
      requires WellFormed(Value())
      modifies this
      ensures WellFormed(Value()) && incr != [] && name == incr[|incr| - 1].name
      ensures Value() == if old(incr) == [] then NewIncr(old(Value()), filename) else old(Value())
    {
      if incr == [] {
        name := NewIncrName(filename);
      } else {
        name := incr[|incr| - 1].name;
      }
    }

    /** getNewBaseFileNameAndMarkPreAsHistory */
    method NewBaseName(filename: string, rdb: bool) returns (name: string)
      requires WellFormed(Value())
      modifies this
      ensures WellFormed(Value()) && Value() == NewBase(old(Value()), filename, rdb) && dirty
      ensures base == Some(Info(name, old(baseSeq) + 1, Base)) && baseSeq == old(baseSeq) + 1
      ensures name == filename + "." + PrintNumber(baseSeq) + if rdb then ".base.rdb" else ".base.aof"
      ensures base.Some? && name == base.value.name
    {
      StepWellFormed(Value(), AddBase(filename, rdb));
      if base.Some? {
        assert AsHistory([base.value]) == [base.value.(kind := History)];
        history := [base.value.(kind := History)] + history;
      }
      baseSeq := baseSeq + 1;
      name := filename + "." + PrintNumber(baseSeq) + ".base" + if rdb then ".rdb" else ".aof";
      assert ".base" + ".rdb" == ".base.rdb" && ".base" + ".aof" == ".base.aof";
      base := Some(Info(name, baseSeq, Base));
      dirty := true;
    }

    /** markRewrittenIncrAofAsHistory: walks the INCR list from its tail and
        puts each file at the head of the history. */
    method MarkRewritten(open: bool)
      requires WellFormed(Value())
      modifies this
      ensures WellFormed(Value()) && Value() == MarkHistory(old(Value()), open)
    {
      hide WellFormed, AsHistory;
      StepWellFormed(Value(), Rewritten(open));
      AsHistoryNone();
      if incr == [] {
        assert [] + history == history;
        return;
      }
      ghost var all, past := incr, history;
      var k := if open then |incr| - 1 else |incr|;
      ghost var n := k;
      assert all[n..n] == [] && [] + past == past;
      while k > 0
        invariant 0 <= k <= n <= |all| && incr == all[..k] + all[n..]
        invariant history == AsHistory(all[k..n]) + past
        invariant base == old(base) && baseSeq == old(baseSeq) && incrSeq == old(incrSeq)
      {
        k := k - 1;
        AsHistoryStep(all, k, n);
        assert incr[k] == all[k];
        history := [incr[k].(kind := History)] + history;
        incr := incr[..k] + incr[k + 1..];
        assert incr == all[..k] + all[n..];
      }
      assert all[0..n] == all[..n] && all[..0] + all[n..] == all[n..];
      dirty := true;
    }
  }

  lemma AsHistoryNone()
    ensures AsHistory([]) == []
  {
  }

  lemma AsHistoryStep(l: seq<Info>, k: nat, n: nat)
    requires k < n <= |l|
    ensures forall past :: AsHistory(l[k..n]) + past == [l[k].(kind := History)] + (AsHistory(l[k + 1..n]) + past)
  {
    var a, b := AsHistory(l[k..n]), AsHistory(l[k + 1..n]);
    assert a == [l[k].(kind := History)] + b;
    forall past: seq<Info>
      ensures a + past == [l[k].(kind := History)] + (b + past)
    {
    }
  }

  /** getAofManifestAsString */
  method Format(m: Manifest) returns (buf: string)
    requires forall k :: 0 <= k < |Files(m)| ==> Bytes(Files(m)[k].name)
    ensures buf == Print(m)
  {
    hide Line;
    var files := Files(m);
    buf := "";
    var k := 0;
    while k < |files|
      invariant 0 <= k <= |files| && buf == PrintInfos(files[..k])
    {
      assert files[..k + 1][..k] == files[..k];
      buf := buf + (Line(files[k]) + "\n");
      k := k + 1;
    }
    assert files[..k] == files;
  }

  /** aofLoadManifestFromFile on the bytes of the file; None where the server
      refuses to start. */
  method LoadManifest(f: string) returns (loaded: Option<Manifest>)
    ensures loaded == Parse(f, 0, EMPTY, true)
  {
    hide ReadLine;
    var m, lines, pos := EMPTY, 0, 0;
    while true
      invariant 0 <= lines && pos <= |f|
      invariant Parse(f, pos, m, lines == 0) == Parse(f, 0, EMPTY, true)
      decreases |f| - pos
    {
      if pos == |f| {
        return if lines == 0 then None else Some(m);
      }
      lines := lines + 1;
      var e := AofLog.LineEnd(f, pos, 1024);
      var buf := f[pos..e];
      if buf[0] == '#' {
        pos := e;
        continue;
      }
      var fs := ReadLine(buf);
      if fs.None? || fs.value.name.None? {
        return None;
      }
      var next := AddFile(m, fs.value, m.incrSeq);
      if next.None? {
        return None;
      }
      m, pos := next.value, e;
    }
  }
}

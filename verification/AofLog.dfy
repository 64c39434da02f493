/** The append-only log: how commands are printed and how the loader reads
    them back, also from a cut file (src/aof.c). */
module AofLog {
  import opened Decimal

  type Cmd = seq<string>

  // ------------------------------------------------------------- printing

  /** One bulk string. */
  function PrintArg(a: string): string { "$" + Digits(|a|) + "\r\n" + a + "\r\n" }

  function PrintArgs(c: Cmd): string {
    if c == [] then "" else PrintArg(c[0]) + PrintArgs(c[1..])
  }

  /** catAppendOnlyGenericCommand */
  function PrintCommand(c: Cmd): string { "*" + Digits(|c|) + "\r\n" + PrintArgs(c) }

  // -------------------------------------------------------------- reading

  /** fgets into a buffer of AOF_ANNOTATION_LINE_MAX_LEN bytes. */
  const LINE := 1023

  function LineEnd(f: string, pos: nat, room: nat): (e: nat)
    requires pos <= |f|
    ensures pos <= e <= |f| && e <= pos + room
    ensures pos < |f| && room > 0 ==> e > pos
    decreases |f| - pos
  {
    if pos == |f| || room == 0 then pos
    else if f[pos] == '\n' then pos + 1
    else LineEnd(f, pos + 1, room - 1)
  }

  /** Whether fgets met the end of the file. */
  predicate HitEnd(f: string, pos: nat, e: nat)
    requires pos < e <= |f|
  {
    e == |f| && f[e - 1] != '\n' && e - pos < LINE
  }

  datatype Reading = Complete(cmd: Cmd, next: nat) | Annotation(next: nat) | EndOfFile | ShortRead | BadFormat

  datatype ArgRead = Arg(text: string, next: nat) | NoArg(why: Reading)

  /** One argument: its length line, its bytes and two bytes to discard. A
      negative length asks for more memory than there is. */
  function ReadArg(f: string, pos: nat): (r: ArgRead)
    requires pos <= |f|
    ensures r.Arg? ==> pos < r.next <= |f|
    ensures r.NoArg? ==> r.why == ShortRead || r.why == BadFormat
  {
    if pos == |f| then NoArg(ShortRead)
    else if f[pos] != '$' then NoArg(BadFormat)
    else
      var e := LineEnd(f, pos, LINE);
      var len := Strtol(f[pos + 1..e]);
      if len < 0 then NoArg(BadFormat)
      else if e + len > |f| then NoArg(ShortRead)
      else if e + len + 2 > |f| then NoArg(ShortRead)
      else Arg(f[e..e + len], e + len + 2)
  }

  function ReadArgs(f: string, pos: nat, n: nat, acc: Cmd): (r: Reading)
    requires pos <= |f|
    ensures r.Complete? ==> pos <= r.next <= |f| && |r.cmd| == |acc| + n
    ensures !r.EndOfFile? && !r.Annotation?
    decreases n
  {
    if n == 0 then Complete(acc, pos)
    else
      var a := ReadArg(f, pos);
      if a.NoArg? then a.why else ReadArgs(f, a.next, n - 1, acc + [a.text])
  }

  /** The next command of the file, or why there is none. */
  function ReadCommand(f: string, pos: nat): (r: Reading)
    requires pos <= |f|
    ensures r.Complete? ==> pos < r.next <= |f| && r.cmd != []
    ensures r.Annotation? ==> pos < r.next <= |f|
  {
    if pos == |f| then EndOfFile
    else
      var e := LineEnd(f, pos, LINE);
      if f[pos] == '#' then Annotation(e)
      else if f[pos] != '*' then BadFormat
      else if e == pos + 1 || (f[pos + 1] == '\0' && HitEnd(f, pos, e)) then ShortRead
      else
        var argc := Strtol(f[pos + 1..e]);
        if argc < 1 then BadFormat else ReadArgs(f, e, argc, [])
  }

  // --------------------------------------------------------- lines read

  lemma {:induction false} LineIs(f: string, pos: nat, k: nat, room: nat)
    requires pos + k < |f| && k < room && f[pos + k] == '\n'
    requires forall j :: pos <= j < pos + k ==> f[j] != '\n'
    ensures LineEnd(f, pos, room) == pos + k + 1
    decreases k
  {
    if k > 0 {
      LineIs(f, pos + 1, k - 1, room - 1);
    }
  }

  lemma {:induction false} LineToEnd(f: string, pos: nat, room: nat)
    requires pos <= |f| && |f| - pos <= room
    requires forall j :: pos <= j < |f| ==> f[j] != '\n'
    ensures LineEnd(f, pos, room) == |f|
    decreases |f| - pos
  {
    if pos < |f| {
      LineToEnd(f, pos + 1, room - 1);
    }
  }

  predicate At(f: string, pos: nat, s: string) { pos + |s| <= |f| && f[pos..pos + |s|] == s }

  /** A header line: a mark, a number, CR and LF. */
  function Header(mark: char, n: nat): string { [mark] + Digits(n) + "\r\n" }

  lemma HeaderRead(f: string, pos: nat, mark: char, n: nat)
    requires At(f, pos, Header(mark, n)) && n < 0x8000_0000_0000_0000 && mark != '\n'
    ensures f[pos] == mark
    ensures LineEnd(f, pos, LINE) == pos + |Header(mark, n)|
    ensures Strtol(f[pos + 1..pos + |Header(mark, n)|]) == n
  {
    var h, d := Header(mark, n), Digits(n);
    ShortDigits(n);
    var line := f[pos..pos + |h|];
    assert line == h;
    assert h[0] == mark && h[1 + |d|] == '\r' && h[2 + |d|] == '\n';
    assert h[1..1 + |d|] == d;
    forall j | pos <= j < pos + |h| - 1
      ensures f[j] != '\n'
    {
      assert f[j] == line[j - pos];
      assert 1 <= j - pos < 1 + |d| ==> h[j - pos] == d[j - pos - 1];
    }
    assert f[pos + |h| - 1] == line[|h| - 1];
    LineIs(f, pos, |h| - 1, LINE);
    var s := f[pos + 1..pos + |h|];
    assert s == line[1..];
    assert s[..|d|] == d && s[|d|] == '\r';
    StrtolDigits(s, n);
  }

  lemma SubAt(f: string, pos: nat, s: string, a: nat, b: nat)
    requires At(f, pos, s) && a <= b <= |s|
    ensures At(f, pos + a, s[a..b])
  {
    var t := f[pos..pos + |s|];
    forall k | 0 <= k < b - a
      ensures f[pos + a..pos + b][k] == s[a..b][k]
    {
      assert f[pos + (a + k)] == t[a + k];
    }
  }

  /** The sizes that the server's types admit. */
  ghost predicate Printable(c: Cmd) {
    c != [] && |c| < 0x8000_0000 && forall i :: 0 <= i < |c| ==> |c[i]| < 0x8000_0000_0000_0000
  }

  lemma ArgReadBack(f: string, pos: nat, a: string)
    requires At(f, pos, PrintArg(a)) && |a| < 0x8000_0000_0000_0000
    ensures ReadArg(f, pos) == Arg(a, pos + |PrintArg(a)|)
  {
    hide Strtol, LineEnd, Digits;
    var h, p := Header('$', |a|), PrintArg(a);
    assert p == h + a + "\r\n";
    assert p[0..|h|] == h && p[|h|..|h| + |a|] == a;
    SubAt(f, pos, p, 0, |h|);
    SubAt(f, pos, p, |h|, |h| + |a|);
    HeaderRead(f, pos, '$', |a|);
  }

  lemma {:induction false} ArgsReadBack(f: string, pos: nat, c: Cmd, acc: Cmd)
    requires At(f, pos, PrintArgs(c)) && forall i :: 0 <= i < |c| ==> |c[i]| < 0x8000_0000_0000_0000
    ensures ReadArgs(f, pos, |c|, acc) == Complete(acc + c, pos + |PrintArgs(c)|)
    decreases |c|
  {
    hide ReadArg, PrintArg;
    if c == [] {
      assert acc + c == acc;
    } else {
      var p, first := PrintArgs(c), PrintArg(c[0]);
      assert p[0..|first|] == first && p[|first|..|p|] == PrintArgs(c[1..]);
      SubAt(f, pos, p, 0, |first|);
      SubAt(f, pos, p, |first|, |p|);
      ArgReadBack(f, pos, c[0]);
      ArgsReadBack(f, pos + |first|, c[1..], acc + [c[0]]);
      assert acc + [c[0]] + c[1..] == acc + c;
    }
  }

  lemma CommandReadBack(f: string, pos: nat, c: Cmd)
    requires At(f, pos, PrintCommand(c)) && Printable(c)
    ensures ReadCommand(f, pos) == Complete(c, pos + |PrintCommand(c)|)
  {
    hide Strtol, LineEnd, Digits, ReadArgs, PrintArgs;
    var h, p := Header('*', |c|), PrintCommand(c);
    assert p == h + PrintArgs(c);
    assert p[0..|h|] == h && p[|h|..|p|] == PrintArgs(c);
    SubAt(f, pos, p, 0, |h|);
    SubAt(f, pos, p, |h|, |p|);
    HeaderRead(f, pos, '*', |c|);
    SecondByte(f, pos, '*', |c|);
    ArgsReadBack(f, pos + |h|, c, []);
    assert [] + c == c;
  }

  lemma SecondByte(f: string, pos: nat, mark: char, n: nat)
    requires At(f, pos, Header(mark, n))
    ensures f[pos + 1] != '\0'
  {
    var h := Header(mark, n);
    assert f[pos + 1] == f[pos..pos + |h|][1] == h[1] == Digits(n)[0];
  }

  // ------------------------------------------------------------ cut reads

  /** The file ends inside `s`. */
  predicate CutIn(f: string, pos: nat, s: string) { pos <= |f| && |f| - pos < |s| && f[pos..] == s[..|f| - pos] }

  /** A file that ends inside a header line. */
  lemma HeaderCut(f: string, pos: nat, mark: char, n: nat)
    requires CutIn(f, pos, Header(mark, n)) && n < 0x8000_0000_0000_0000 && mark != '\n' && pos < |f|
    ensures f[pos] == mark && LineEnd(f, pos, LINE) == |f|
    ensures pos + 1 < |f| ==> f[pos + 1] != '\0' && Strtol(f[pos + 1..|f|]) >= 0 && (n > 0 ==> Strtol(f[pos + 1..|f|]) >= 1)
  {
    var h, d := Header(mark, n), Digits(n);
    ShortDigits(n);
    var line := f[pos..];
    forall j | pos <= j < |f|
      ensures f[j] != '\n' && f[j] == h[j - pos]
    {
      assert f[j] == line[j - pos] == h[j - pos];
      assert 1 <= j - pos < 1 + |d| ==> h[j - pos] == d[j - pos - 1];
    }
    LineToEnd(f, pos, LINE);
    if pos + 1 < |f| {
      assert f[pos + 1] == h[1] == d[0];
      var s := f[pos + 1..|f|];
      assert s == h[1..|f| - pos];
      assert h[1..|h| - 1] == d + "\r";
      assert s == (d + "\r")[..|s|];
      StrtolPiece(s, n);
    }
  }

  lemma ArgCut(f: string, pos: nat, a: string)
    requires CutIn(f, pos, PrintArg(a)) && |a| < 0x8000_0000_0000_0000
    ensures ReadArg(f, pos) == NoArg(ShortRead)
  {
    hide Strtol, LineEnd, Digits;
    var h, p := Header('$', |a|), PrintArg(a);
    assert p == h + a + "\r\n";
    if pos < |f| {
      if |f| - pos < |h| {
        assert f[pos..] == h[..|f| - pos];
        HeaderCut(f, pos, '$', |a|);
        StrtolEmpty();
        assert f[|f|..|f|] == "";
      } else {
        assert f[pos..pos + |h|] == f[pos..][..|h|] == h;
        HeaderRead(f, pos, '$', |a|);
      }
    }
  }

  lemma StrtolEmpty()
    ensures Strtol("") == 0
  {
  }

  lemma {:induction false} ArgsCut(f: string, pos: nat, c: Cmd, acc: Cmd)
    requires CutIn(f, pos, PrintArgs(c)) && forall i :: 0 <= i < |c| ==> |c[i]| < 0x8000_0000_0000_0000
    ensures ReadArgs(f, pos, |c|, acc) == ShortRead
    decreases |c|
  {
    hide ReadArg, PrintArg;
    var p, first := PrintArgs(c), PrintArg(c[0]);
    if |f| - pos < |first| {
      assert f[pos..] == first[..|f| - pos];
      ArgCut(f, pos, c[0]);
    } else {
      assert f[pos..pos + |first|] == f[pos..][..|first|] == first;
      ArgReadBack(f, pos, c[0]);
      assert f[pos + |first|..] == f[pos..][|first|..] == PrintArgs(c[1..])[..|f| - pos - |first|];
      ArgsCut(f, pos + |first|, c[1..], acc + [c[0]]);
    }
  }

  /** Wherever the file ends inside a command, the loader meets a short read. */
  lemma CommandCut(f: string, pos: nat, c: Cmd)
    requires CutIn(f, pos, PrintCommand(c)) && Printable(c) && pos < |f|
    ensures ReadCommand(f, pos) == ShortRead
  {
    hide Strtol, LineEnd, Digits, PrintArgs;
    var h, p := Header('*', |c|), PrintCommand(c);
    assert p == h + PrintArgs(c);
    if |f| - pos < |h| {
      assert f[pos..] == h[..|f| - pos];
      HeaderCut(f, pos, '*', |c|);
    } else {
      assert f[pos..pos + |h|] == f[pos..][..|h|] == h;
      HeaderRead(f, pos, '*', |c|);
      SecondByte(f, pos, '*', |c|);
      assert f[pos + |h|..] == f[pos..][|h|..] == PrintArgs(c)[..|f| - pos - |h|];
      ArgsCut(f, pos + |h|, c, []);
    }
  }
}

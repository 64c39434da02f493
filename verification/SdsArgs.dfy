/** Splitting a line into arguments and quoting an argument (src/sds.c). A
    line is a C string: a NUL byte ends it. */
module SdsArgs {
  import opened Common
  import Seqs

  datatype Quote = Plain | Double | Single

  /** One parsed argument and the index where parsing stopped. */
  datatype Arg = Arg(token: string, next: nat)

  /** A byte string read as a C string. */
  function CString(s: string): (r: string)
    ensures r <= s && '\0' !in r && (|r| < |s| ==> s[|r|] == '\0')
  {
    if s == "" || s[0] == '\0' then "" else [s[0]] + CString(s[1..])
  }

  predicate AtEnd(s: string, i: nat) { i >= |s| || s[i] == '\0' }

  /** The blanks that end an unquoted argument. */
  predicate Blank(c: char) { c == ' ' || c == '\n' || c == '\r' || c == '\t' }

  /** isspace() */
  predicate Space(c: char) { c == ' ' || 9 <= c as int <= 13 }

  predicate Hex(c: char) { '0' <= c <= '9' || 'a' <= c <= 'f' || 'A' <= c <= 'F' }

  function HexValue(c: char): (n: nat)
    requires Hex(c)
    ensures n < 16
  {
    if c <= '9' then (c - '0') as int else if c <= 'F' then 10 + (c - 'A') as int else 10 + (c - 'a') as int
  }

  function Escape(c: char): char {
    if c == 'n' then '\n' else if c == 'r' then '\r' else if c == 't' then '\t'
    else if c == 'b' then 8 as char else if c == 'a' then 7 as char else c
  }

  function ParseArg(s: string, i: nat, q: Quote, token: string): (r: Option<Arg>)
    ensures r.Some? ==> i <= r.value.next
    decreases |s| - i
  {
    if AtEnd(s, i) then
      if q == Plain then Some(Arg(token, i)) else None
    else if q == Double then
      if s[i] == '\\' && i + 3 < |s| && s[i + 1] == 'x' && Hex(s[i + 2]) && Hex(s[i + 3]) then
        ParseArg(s, i + 4, q, token + [(16 * HexValue(s[i + 2]) + HexValue(s[i + 3])) as char])
      else if s[i] == '\\' && !AtEnd(s, i + 1) then
        ParseArg(s, i + 2, q, token + [Escape(s[i + 1])])
      else if s[i] == '"' then ParseArg(s, i + 1, Plain, token)
      else ParseArg(s, i + 1, q, token + [s[i]])
    else if q == Single then
      if s[i] == '\\' && i + 1 < |s| && s[i + 1] == '\'' then ParseArg(s, i + 2, q, token + ['\''])
      else if s[i] == '\'' then ParseArg(s, i + 1, Plain, token)
      else ParseArg(s, i + 1, q, token + [s[i]])
    else if Blank(s[i]) then Some(Arg(token, i + 1))
    else if s[i] == '"' then ParseArg(s, i + 1, Double, token)
    else if s[i] == '\'' then ParseArg(s, i + 1, Single, token)
    else ParseArg(s, i + 1, Plain, token + [s[i]])
  }

  function SkipSpaces(s: string, i: nat): (j: nat)
    ensures i <= j
    decreases |s| - i
  {
    if AtEnd(s, i) || !Space(s[i]) then i else SkipSpaces(s, i + 1)
  }

  /** sdssplitargs; None for unbalanced quotes. */
  function SplitArgs(s: string, i: nat): (r: Option<seq<string>>)
    decreases |s| - i
  {
    var j := SkipSpaces(s, i);
    if AtEnd(s, j) then Some([])
    else
      var a := ParseArg(s, j, Plain, "");
      if a.None? || a.value.next <= j then None
      else
        var rest := SplitArgs(s, a.value.next);
        if rest.None? then None else Some([a.value.token] + rest.value)
  }

  // -------------------------------------------------------- plain arguments

  /** Text that splitting leaves alone. */
  ghost predicate Verbatim(t: string) {
    forall k :: 0 <= k < |t| ==> t[k] != '\0' && !Blank(t[k]) && t[k] != '"' && t[k] != '\''
  }

  /** Parsing an unquoted run of plain text copies it. */
  lemma {:induction false} ParsePlain(s: string, i: nat, n: nat, token: string)
    requires i + n <= |s| && Verbatim(s[i..i + n])
    ensures ParseArg(s, i, Plain, token) == ParseArg(s, i + n, Plain, token + s[i..i + n])
    decreases n
  {
    if n == 0 {
      assert token + s[i..i + n] == token;
    } else {
      assert s[i..i + n][0] == s[i];
      assert s[i + 1..i + n] == s[i..i + n][1..];
      ParsePlain(s, i + 1, n - 1, token + [s[i]]);
      assert token + [s[i]] + s[i + 1..i + n] == token + s[i..i + n];
    }
  }

  /** A word that can start an argument. */
  ghost predicate Word(t: string) { t != "" && Verbatim(t) && !Space(t[0]) }

  /** Splits off one word that a blank or the end follows. */
  lemma SplitWord(s: string, i: nat, n: nat)
    requires 0 < n && i + n <= |s| && Word(s[i..i + n])
    requires i + n == |s| || s[i + n] == ' ' || s[i + n] == '\n'
    ensures var next := if i + n == |s| then i + n else i + n + 1;
            var rest := SplitArgs(s, next);
            SplitArgs(s, i) == if rest.None? then None else Some([s[i..i + n]] + rest.value)
  {
    assert s[i..i + n][0] == s[i];
    ParsePlain(s, i, n, "");
    assert "" + s[i..i + n] == s[i..i + n];
  }

  // ------------------------------------------------------------- joining

  function Join(words: seq<string>): string {
    if words == [] then "" else if |words| == 1 then words[0] else Join(words[..|words| - 1]) + " " + words[|words| - 1]
  }

  ghost predicate Words(words: seq<string>) { forall k :: 0 <= k < |words| ==> Word(words[k]) }

  /** Words joined by single spaces split back into the same words. */
  lemma {:induction false} SplitJoin(words: seq<string>)
    requires Words(words)
    ensures SplitArgs(Join(words), 0) == Some(words)
  {
    SplitTail(words, 0);
    assert words[0..] == words;
  }

  /** Where word k of a joined line starts. */
  function StartOf(words: seq<string>, k: nat): nat
    requires k <= |words|
  {
    if k == 0 then 0 else |Join(words[..k])| + (if k < |words| then 1 else 0)
  }

  lemma {:induction false} JoinPrefix(words: seq<string>, k: nat)
    requires k < |words|
    ensures StartOf(words, k) + |words[k]| <= |Join(words)|
    ensures Join(words)[StartOf(words, k)..StartOf(words, k) + |words[k]|] == words[k]
    ensures |Join(words[..k + 1])| == StartOf(words, k) + |words[k]|
    ensures k + 1 < |words| ==> |Join(words[..k + 1])| < |Join(words)| && Join(words)[|Join(words[..k + 1])|] == ' '
    ensures Join(words[..k + 1]) <= Join(words)
    decreases |words|
  {
    hide Join;
    var n := |words| - 1;
    JoinUnfold(words);
    if k == n {
      assert words[..k + 1] == words;
      if k > 0 {
        LastPart(Join(words[..n]), words[n]);
      }
    } else {
      var short := words[..n];
      JoinPrefix(short, k);
      assert short[..k] == words[..k] && short[..k + 1] == words[..k + 1];
      LastPart(Join(short), words[n]);
      var i, j := StartOf(words, k), StartOf(words, k) + |words[k]|;
      PrefixSlice(Join(short), Join(words), i, j);
      if k + 1 == n {
        assert words[..k + 1] == short;
      }
    }
  }

  lemma JoinUnfold(words: seq<string>)
    requires words != []
    ensures |words| == 1 ==> Join(words) == words[0]
    ensures |words| > 1 ==> Join(words) == Join(words[..|words| - 1]) + " " + words[|words| - 1]
  {
  }

  lemma LastPart(a: string, w: string)
    ensures var t := a + " " + w;
      |t| == |a| + 1 + |w| && t[|a| + 1..|a| + 1 + |w|] == w && t[|a|] == ' ' && a <= t
  {
  }

  lemma PrefixSlice(a: string, t: string, i: nat, j: nat)
    requires a <= t && i <= j <= |a|
    ensures t[i..j] == a[i..j]
  {
  }

  lemma {:induction false} SplitTail(words: seq<string>, k: nat)
    requires Words(words) && k <= |words|
    ensures SplitArgs(Join(words), StartOf(words, k)) == Some(words[k..])
    decreases |words| - k
  {
    hide ParseArg, SkipSpaces, Verbatim, Space;
    var s := Join(words);
    if k == |words| {
      assert words[..k] == words;
      assert StartOf(words, k) == |s|;
    } else {
      JoinPrefix(words, k);
      SplitTail(words, k + 1);
      if k + 1 == |words| {
        assert words[..k + 1] == words;
      }
      SplitWord(s, StartOf(words, k), |words[k]|);
      assert words[k..] == [words[k]] + words[k + 1..];
    }
  }

  // ------------------------------------------- text that does not survive

  predicate IsQuote(c: char) { c == '"' || c == '\'' }

  /** No quote and no NUL between two indexes. */
  ghost predicate Bare(s: string, i: nat, j: nat) {
    forall k :: i <= k < j && k < |s| ==> !IsQuote(s[k]) && s[k] != '\0'
  }

  /** An argument is no longer than the text it was parsed from, shorter when
      more text follows it, and shorter when a quote was met. */
  lemma {:induction false} ParseLength(s: string, i: nat, q: Quote, token: string)
    requires i <= |s|
    ensures var r := ParseArg(s, i, q, token);
      r.Some? ==>
        && r.value.next <= |s| && |r.value.token| <= |token| + (r.value.next - i)
        && (|r.value.token| == |token| + (r.value.next - i) ==> q == Plain && AtEnd(s, r.value.next) && Bare(s, i, r.value.next))
        && (!AtEnd(s, r.value.next) && |r.value.token| + 1 == |token| + (r.value.next - i) ==> q == Plain && Bare(s, i, r.value.next))
    decreases |s| - i
  {
    hide Escape, HexValue;
    if !AtEnd(s, i) {
      if q == Double && s[i] == '\\' && i + 3 < |s| && s[i + 1] == 'x' && Hex(s[i + 2]) && Hex(s[i + 3]) {
        ParseLength(s, i + 4, q, token + [(16 * HexValue(s[i + 2]) + HexValue(s[i + 3])) as char]);
      } else if q == Double && s[i] == '\\' && !AtEnd(s, i + 1) {
        ParseLength(s, i + 2, q, token + [Escape(s[i + 1])]);
      } else if q == Double && s[i] == '"' {
        ParseLength(s, i + 1, Plain, token);
      } else if q == Single && s[i] == '\\' && i + 1 < |s| && s[i + 1] == '\'' {
        ParseLength(s, i + 2, q, token + ['\'']);
      } else if q == Single && s[i] == '\'' {
        ParseLength(s, i + 1, Plain, token);
      } else if q == Plain && s[i] == '"' {
        ParseLength(s, i + 1, Double, token);
      } else if q == Plain && s[i] == '\'' {
        ParseLength(s, i + 1, Single, token);
      } else {
        ParseLength(s, i + 1, q, token + [s[i]]);
      }
    }
  }
  function Total(words: seq<string>): nat {
    if words == [] then 0 else |words[0]| + Total(words[1..])
  }

  /** Splitting loses a separator for every further word; it loses no more only
      where the line has no quote and no NUL. */
  lemma {:induction false} SplitLength(s: string, i: nat)
    requires i <= |s|
    ensures var r := SplitArgs(s, i);
      r.Some? && r.value != [] ==>
        && Total(r.value) + |r.value| - 1 <= |s| - i
        && (Total(r.value) + |r.value| - 1 == |s| - i ==> Bare(s, i, |s|))
    decreases |s| - i
  {
    hide ParseArg;
    var j := SkipSpaces(s, i);
    SkipBelow(s, i);
    if !AtEnd(s, j) {
      var a := ParseArg(s, j, Plain, "");
      ParseLength(s, j, Plain, "");
      if a.Some? && a.value.next > j {
        SplitLength(s, a.value.next);
        var rest := SplitArgs(s, a.value.next);
        if rest.Some? {
          assert ([a.value.token] + rest.value)[1..] == rest.value;
          if rest.value != [] {
            NotAtEnd(s, a.value.next);
          }
        }
      }
    }
  }

  lemma {:induction false} SkipBelow(s: string, i: nat)
    requires i <= |s|
    ensures SkipSpaces(s, i) <= |s|
    decreases |s| - i
  {
    if !AtEnd(s, i) && Space(s[i]) {
      SkipBelow(s, i + 1);
    }
  }

  lemma NotAtEnd(s: string, i: nat)
    requires SplitArgs(s, i).Some? && SplitArgs(s, i).value != []
    ensures !AtEnd(s, i)
  {
  }

  /** Without quotes and NUL bytes an argument is copied and holds no blank. */
  lemma {:induction false} ParseBare(s: string, i: nat, token: string)
    requires i <= |s| && Bare(s, i, |s|) && Verbatim(token)
    ensures var r := ParseArg(s, i, Plain, token); r.Some? && r.value.next <= |s| && Verbatim(r.value.token)
    decreases |s| - i
  {
    if i < |s| && !Blank(s[i]) {
      ParseBare(s, i + 1, token + [s[i]]);
    }
  }

  lemma {:induction false} SplitBare(s: string, i: nat)
    requires i <= |s| && Bare(s, i, |s|) && SplitArgs(s, i).Some?
    ensures forall k :: 0 <= k < |SplitArgs(s, i).value| ==> Verbatim(SplitArgs(s, i).value[k])
    decreases |s| - i
  {
    hide ParseArg, Verbatim;
    var j := SkipSpaces(s, i);
    SkipBelow(s, i);
    if !AtEnd(s, j) {
      NothingVerbatim();
      ParseBare(s, j, "");
      SplitBare(s, ParseArg(s, j, Plain, "").value.next);
    }
  }

  lemma NothingVerbatim()
    ensures Verbatim("")
  {
  }

  lemma {:induction false} JoinLength(words: seq<string>)
    ensures |Join(words)| == if words == [] then 0 else Total(words) + |words| - 1
    decreases |words|
  {
    if |words| > 1 {
      var n := |words| - 1;
      JoinLength(words[..n]);
      TotalLast(words[..n], words[n]);
      assert words[..n] + [words[n]] == words;
    }
  }

  lemma {:induction false} TotalLast(words: seq<string>, w: string)
    ensures Total(words + [w]) == Total(words) + |w|
    decreases |words|
  {
    if words == [] {
      assert (words + [w])[1..] == [];
    } else {
      assert (words + [w])[1..] == words[1..] + [w];
      TotalLast(words[1..], w);
    }
  }

  /** Texts that do not start with a space, joined by single spaces, split back
      into the same texts exactly when none holds a blank, a quote or a NUL. */
  lemma SplitJoinIff(words: seq<string>)
    requires forall k :: 0 <= k < |words| ==> words[k] != "" && !Space(words[k][0])
    ensures SplitArgs(Join(words), 0) == Some(words) <==> Words(words)
  {
    hide SplitArgs, Join, Verbatim;
    var s := Join(words);
    if Words(words) {
      SplitJoin(words);
    } else if SplitArgs(s, 0) == Some(words) && words != [] {
      SplitLength(s, 0);
      JoinLength(words);
      SplitBare(s, 0);
    }
  }

  /** Text that does not start with a space splits into just itself exactly
      when it holds no blank, no quote and no NUL. */
  lemma SplitsToItselfIff(t: string)
    requires t != "" && !Space(t[0])
    ensures SplitArgs(t, 0) == Some([t]) <==> Verbatim(t)
  {
    hide SplitArgs, Verbatim;
    SplitJoinIff([t]);
    assert Words([t]) <==> Word([t][0]);
  }

  // ----------------------------------------------------------- quoting

  function HexDigit(n: nat): (c: char)
    requires n < 16
    ensures Hex(c) && HexValue(c) == n
  {
    if n < 10 then '0' + n as char else 'a' + (n - 10) as char
  }

  /** One byte inside a quoted argument, as sdscatrepr writes it. */
  function ReprByte(c: char): string
    requires c as int < 256
  {
    if c == '\\' || c == '"' then ['\\', c]
    else if c == '\n' then "\\n" else if c == '\r' then "\\r" else if c == '\t' then "\\t"
    else if c == 7 as char then "\\a" else if c == 8 as char then "\\b"
    else if 32 <= c as int < 127 then [c]
    else ['\\', 'x', HexDigit(c as int / 16), HexDigit(c as int % 16)]
  }

  ghost predicate Bytes(s: string) { forall k :: 0 <= k < |s| ==> s[k] as int < 256 }

  function ReprBody(s: string): string
    requires Bytes(s)
  {
    if s == "" then "" else ReprByte(s[0]) + ReprBody(s[1..])
  }

  function Repr(s: string): string
    requires Bytes(s)
  {
    "\"" + ReprBody(s) + "\""
  }

  /** A quoted byte is read back as that byte. */
  lemma ParseReprByte(s: string, i: nat, c: char, token: string)
    requires c as int < 256 && i + |ReprByte(c)| < |s| && s[i..i + |ReprByte(c)|] == ReprByte(c)
    ensures ParseArg(s, i, Double, token) == ParseArg(s, i + |ReprByte(c)|, Double, token + [c])
  {
    var r := ReprByte(c);
    assert s[i] == r[0];
    if |r| > 1 {
      assert s[i + 1] == r[1];
    }
    if |r| == 4 {
      assert s[i + 2] == r[2] && s[i + 3] == r[3];
      assert 16 * (c as int / 16) + c as int % 16 == c as int;
    }
  }

  lemma {:induction false} ParseReprBody(s: string, i: nat, t: string, token: string)
    requires Bytes(t) && i + |ReprBody(t)| < |s| && s[i..i + |ReprBody(t)|] == ReprBody(t)
    ensures ParseArg(s, i, Double, token) == ParseArg(s, i + |ReprBody(t)|, Double, token + t)
    decreases |t|
  {
    hide ParseArg, ReprByte;
    if t == "" {
      assert token + t == token;
    } else {
      var r, rest := ReprByte(t[0]), ReprBody(t[1..]);
      assert ReprBody(t) == r + rest;
      assert s[i..i + |r|] == ReprBody(t)[..|r|] == r;
      ParseReprByte(s, i, t[0], token);
      assert s[i + |r|..i + |r| + |rest|] == ReprBody(t)[|r|..] == rest;
      ParseReprBody(s, i + |r|, t[1..], token + [t[0]]);
      assert token + [t[0]] + t[1..] == token + t;
    }
  }

  /** A quoted argument followed by a blank is read back exactly. */
  lemma SplitRepr(s: string, i: nat, t: string)
    requires Bytes(t) && i + |Repr(t)| < |s| && s[i..i + |Repr(t)|] == Repr(t) && s[i + |Repr(t)|] == ' '
    ensures var rest := SplitArgs(s, i + |Repr(t)| + 1);
            SplitArgs(s, i) == if rest.None? then None else Some([t] + rest.value)
  {
    hide ReprBody, ParseArg, SplitArgs;
    var body := ReprBody(t);
    var n, r := |body|, Repr(t);
    Seqs.Parts("\"", body, "\"");
    Seqs.Sub(s, i, i + |r|, 1, 1 + n);
    assert s[i] == s[i..i + |r|][0];
    assert s[i + 1 + n] == s[i..i + |r|][1 + n];
    ParseReprBody(s, i + 1, t, "");
    assert "" + t == t;
    SplitQuoted(s, i, i + 1 + n, t);
  }

  lemma SplitQuoted(s: string, i: nat, q: nat, t: string)
    requires i < q && q + 1 < |s| && s[i] == '"' && s[q] == '"' && s[q + 1] == ' '
    requires ParseArg(s, i + 1, Double, "") == ParseArg(s, q, Double, t)
    ensures var rest := SplitArgs(s, q + 2);
            SplitArgs(s, i) == if rest.None? then None else Some([t] + rest.value)
  {
  }
}

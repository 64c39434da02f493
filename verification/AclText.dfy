/** The text of a selector's command rules, edited in place (src/acl.c). */
module AclText {
  import Seqs
  import opened SdsArgs

  /** A rule with this body makes the stored rule `r` superfluous: the bodies
      (without the leading sign) are equal, or the stored one continues the
      new one after a '|'. */
  predicate Removes(body: string, r: string) {
    && r != ""
    && body <= r[1..]
    && (|r| - 1 == |body| || r[1..][|body|] == '|')
  }

  /** The rules that stay, in their order. */
  function Kept(rules: seq<string>, body: string): seq<string> {
    if rules == [] then []
    else (if Removes(body, rules[0]) then [] else [rules[0]]) + Kept(rules[1..], body)
  }

  lemma {:induction false} KeptExactly(rules: seq<string>, body: string, r: string)
    ensures r in Kept(rules, body) <==> r in rules && !Removes(body, r)
    decreases |rules|
  {
    hide Removes;
    if rules != [] {
      KeptExactly(rules[1..], body, r);
      assert r in rules <==> r == rules[0] || r in rules[1..];
    }
  }

  /** A rule goes exactly when, after its sign, it is the new one or continues it
      after a bar. */
  lemma KeptMeans(rules: seq<string>, body: string, r: string)
    requires r in rules && r != ""
    ensures r in Kept(rules, body) <==> r[1..] != body && !(body + "|" <= r[1..])
  {
    hide Kept;
    KeptExactly(rules, body, r);
    if body + "|" <= r[1..] {
      assert r[1..][|body|] == (body + "|")[|body|] == '|';
    }
  }

  // ------------------------------------------------------- joined text

  lemma {:induction false} JoinSplit(a: seq<string>, b: seq<string>)
    requires a != [] && b != []
    ensures Join(a + b) == Join(a) + " " + Join(b)
    decreases |b|
  {
    var n := |b| - 1;
    assert (a + b)[..|a + b| - 1] == a + b[..n];
    if n == 0 {
      assert a + b[..n] == a;
    } else {
      JoinSplit(a, b[..n]);
      assert Join(a) + " " + Join(b[..n]) + " " + b[n] == Join(a) + " " + (Join(b[..n]) + " " + b[n]);
    }
  }

  /** Where the first rule of `rest` starts in the text of kept + rest. */
  function RestAt(kept: seq<string>, rest: seq<string>): nat {
    if kept == [] then 0 else |Join(kept)| + (if rest == [] then 0 else 1)
  }

  /** The text of kept + rest, cut before the rest. */
  lemma TextShape(kept: seq<string>, rest: seq<string>)
    ensures RestAt(kept, rest) <= |Join(kept + rest)|
    ensures Join(kept + rest)[RestAt(kept, rest)..] == Join(rest)
    ensures rest != [] && kept != [] ==> RestAt(kept, rest) > 0 && Join(kept + rest)[..RestAt(kept, rest) - 1] == Join(kept)
    ensures rest != [] && kept != [] ==> Join(kept + rest)[..RestAt(kept, rest)] == Join(kept) + " "
  {
    if rest == [] {
      assert kept + rest == kept;
    } else if kept == [] {
      assert kept + rest == rest;
    } else {
      JoinSplit(kept, rest);
    }
  }

  /** The first rule of a text, and what follows its space. */
  lemma FirstRule(rest: seq<string>)
    requires rest != []
    ensures |rest[0]| <= |Join(rest)| && Join(rest)[..|rest[0]|] == rest[0]
    ensures |rest| == 1 ==> Join(rest) == rest[0]
    ensures |rest| > 1 ==> |rest[0]| < |Join(rest)| && Join(rest)[|rest[0]|] == ' ' && Join(rest)[|rest[0]| + 1..] == Join(rest[1..])
  {
    if |rest| > 1 {
      JoinSplit([rest[0]], rest[1..]);
      assert [rest[0]] + rest[1..] == rest;
    }
  }

  // -------------------------------------------------------------- pieces

  /** What the scan takes for one rule: its first character, whatever it is, and
      all up to the next space. */
  ghost predicate Piece(p: string) { '\0' !in p && forall k :: 0 < k < |p| ==> p[k] != ' ' }

  /** Only the last piece may be empty: the text then ends in a space. */
  ghost predicate Pieces(ps: seq<string>) {
    forall k :: 0 <= k < |ps| ==> Piece(ps[k]) && (ps[k] == "" ==> k == |ps| - 1)
  }

  /** The first space after the first character, or the end. */
  function FirstSpace(text: string, i: nat): (k: nat)
    requires 0 < i <= |text|
    ensures i <= k <= |text| && (k < |text| ==> text[k] == ' ') && forall j :: i <= j < k ==> text[j] != ' '
    decreases |text| - i
  {
    if i == |text| || text[i] == ' ' then i else FirstSpace(text, i + 1)
  }

  function PiecesOf(text: string): seq<string> {
    if text == "" then []
    else
      var k := FirstSpace(text, 1);
      if k == |text| then [text] else [text[..k]] + if k + 1 == |text| then [""] else PiecesOf(text[k + 1..])
  }

  /** Every text is the join of its pieces. */
  lemma {:induction false} PiecesJoin(text: string)
    requires '\0' !in text
    ensures Pieces(PiecesOf(text)) && Join(PiecesOf(text)) == text
    decreases |text|
  {
    hide Pieces, Piece, PiecesOf, Join;
    PiecesUnfold(text);
    if text == "" {
      NoPieces();
    } else {
      var k := FirstSpace(text, 1);
      FirstPiece(text, k);
      if k < |text| {
        var rest := if k + 1 == |text| then [""] else PiecesOf(text[k + 1..]);
        PiecesUnfold(text[k + 1..]);
        PiecesJoin(text[k + 1..]);
        EmptyPiece();
        MorePieces(text[..k], rest);
        assert text == text[..k] + " " + text[k + 1..];
      }
    }
  }

  lemma PiecesUnfold(text: string)
    ensures text == "" ==> PiecesOf(text) == []
    ensures text != "" ==>
      var k := FirstSpace(text, 1);
      && PiecesOf(text) != []
      && PiecesOf(text) == if k == |text| then [text]
                           else [text[..k]] + if k + 1 == |text| then [""] else PiecesOf(text[k + 1..])
  {
  }

  lemma NoPieces()
    ensures Pieces([]) && Join([]) == ""
  {
  }

  lemma EmptyPiece()
    ensures Pieces([""]) && Join([""]) == ""
  {
  }

  lemma FirstPiece(text: string, k: nat)
    requires '\0' !in text && k <= |text| && forall j :: 1 <= j < k ==> text[j] != ' '
    ensures Piece(text[..k]) && Pieces([text[..k]]) && (k == |text| ==> text[..k] == text && Join([text]) == text)
  {
  }

  lemma MorePieces(p: string, rest: seq<string>)
    requires Piece(p) && p != "" && Pieces(rest) && rest != []
    ensures Pieces([p] + rest) && Join([p] + rest) == p + " " + Join(rest)
  {
    hide Piece;
    JoinSplit([p], rest);
  }

  /** The pieces of a text of words are the words. */
  lemma {:induction false} PiecesOfWords(words: seq<string>)
    requires Words(words)
    ensures PiecesOf(Join(words)) == words && Pieces(words)
    decreases |words|
  {
    hide Join, PiecesOf, Pieces;
    var text := Join(words);
    PiecesUnfold(text);
    WordsArePieces(words);
    PiecesNonEmpty(words);
    if words != [] {
      FirstRule(words);
      FirstWordEnds(words);
      if |words| > 1 {
        PiecesOfWords(words[1..]);
        PiecesNonEmpty(words[1..]);
        assert words[1..] != [""] by { assert Word(words[1]); }
        assert words == [words[0]] + words[1..];
      } else {
        assert words == [words[0]];
      }
    } else {
      JoinEmpty();
    }
  }

  lemma WordsArePieces(words: seq<string>)
    requires Words(words)
    ensures Pieces(words)
  {
    forall k | 0 <= k < |words|
      ensures Piece(words[k]) && words[k] != ""
    {
      assert Word(words[k]);
    }
  }

  lemma FirstWordEnds(words: seq<string>)
    requires Words(words) && words != []
    ensures Join(words) != "" && FirstSpace(Join(words), 1) == |words[0]| && Join(words)[..|words[0]|] == words[0]
  {
    hide Join, FirstSpace;
    FirstRule(words);
    var text, n := Join(words), |words[0]|;
    assert Word(words[0]);
    assert forall j :: 0 <= j < n ==> text[j] == words[0][j];
    SpaceAt(text, n);
  }

  lemma SpaceAt(text: string, n: nat)
    requires 1 <= n <= |text| && (forall j :: 1 <= j < n ==> text[j] != ' ') && (n < |text| ==> text[n] == ' ')
    ensures FirstSpace(text, 1) == n
  {
    var k := FirstSpace(text, 1);
  }

  lemma {:induction false} PiecesNonEmpty(rules: seq<string>)
    requires Pieces(rules)
    ensures '\0' !in Join(rules)
    ensures Join(rules) == "" <==> rules == [] || rules == [""]
    decreases |rules|
  {
    if |rules| > 1 {
      var n := |rules| - 1;
      forall k | 0 <= k < n
        ensures Piece(rules[..n][k]) && rules[..n][k] != ""
      {
        assert Piece(rules[k]);
      }
      PiecesNonEmpty(rules[..n]);
      assert Piece(rules[n]);
    } else if |rules| == 1 {
      assert Piece(rules[0]);
    }
  }

  /** The first rule of the rest lies at `e` and ends at a space or at the
      end; no space comes earlier, but for its first character. */
  lemma RuleExtent(text: string, e: nat, rest: seq<string>)
    requires rest != [] && rest != [""] && Pieces(rest) && e <= |text| && text[e..] == Join(rest)
    ensures 0 < |rest[0]| && e + |rest[0]| <= |text| && text[e..e + |rest[0]|] == rest[0]
    ensures forall k :: e < k < e + |rest[0]| ==> text[k] != ' '
    ensures |rest| == 1 ==> e + |rest[0]| == |text|
    ensures |rest| > 1 ==> e + |rest[0]| < |text| && text[e + |rest[0]|] == ' '
  {
    hide Join;
    FirstRule(rest);
    assert Piece(rest[0]);
    var n := |rest[0]|;
    assert |rest| == 1 ==> rest == [rest[0]];
    assert text[e..e + n] == text[e..][..n];
    forall k | e < k < e + n
      ensures text[k] != ' '
    {
      assert text[k] == text[e..][k - e];
      assert text[k] == rest[0][k - e];
    }
    assert |rest| > 1 ==> text[e + n] == text[e..][n];
  }

  lemma RuleEnds(text: string, e: nat, p: string, end: nat)
    requires p != "" && e + |p| <= |text| && (e + |p| < |text| ==> text[e + |p|] == ' ')
    requires forall k :: e < k < e + |p| ==> text[k] != ' '
    requires e < end <= |text| && (end < |text| ==> text[end] == ' ') && forall k :: e < k < end ==> text[k] != ' '
    ensures end == e + |p|
  {
  }

  /** Cutting the first rule of the rest out of the text of kept + rest, with
      the space after it or, for the last rule, the space before it. */
  lemma TextWithout(kept: seq<string>, rest: seq<string>)
    requires rest != []
    ensures var text, at := Join(kept + rest), RestAt(kept, rest);
      && at + |rest[0]| <= |text|
      && (|rest| > 1 ==> at + |rest[0]| < |text| && text[..at] + text[at + |rest[0]| + 1..] == Join(kept + rest[1..]))
      && (|rest| == 1 ==> at + |rest[0]| == |text| && text[..if kept == [] then at else at - 1] == Join(kept + rest[1..]))
  {
    hide Join, RestAt;
    if |rest| > 1 {
      TextWithoutFirst(kept, rest);
    } else {
      TextWithoutLast(kept, rest);
    }
  }

  lemma TextWithoutFirst(kept: seq<string>, rest: seq<string>)
    requires |rest| > 1
    ensures var text, at := Join(kept + rest), RestAt(kept, rest);
      at + |rest[0]| < |text| && text[..at] + text[at + |rest[0]| + 1..] == Join(kept + rest[1..])
  {
    hide Join;
    var text, at := Join(kept + rest), RestAt(kept, rest);
    TextShape(kept, rest);
    FirstRule(rest);
    TextShape(kept, rest[1..]);
    var n := |rest[0]|;
    Seqs.Sub(text, at, |text|, n + 1, |text| - at);
    assert text[at..] == text[at..|text|] && text[at..][n + 1..] == text[at..|text|][n + 1..|text| - at];
    assert text[at + n + 1..] == Join(rest[1..]);
    if kept == [] {
      assert kept + rest[1..] == rest[1..];
      assert text[..at] == [];
    } else {
      var after := Join(kept + rest[1..]);
      assert RestAt(kept, rest[1..]) == at;
      assert after == after[..at] + after[at..];
    }
  }

  lemma TextWithoutLast(kept: seq<string>, rest: seq<string>)
    requires |rest| == 1
    ensures var text, at := Join(kept + rest), RestAt(kept, rest);
      at + |rest[0]| == |text| && text[..if kept == [] then at else at - 1] == Join(kept + rest[1..])
  {
    hide Join;
    TextShape(kept, rest);
    FirstRule(rest);
    assert kept + rest[1..] == kept;
    if kept == [] {
      JoinEmpty();
    }
  }

  /** The rest starts at the end of the text only when nothing is in it. */
  lemma AtEnd(kept: seq<string>, rest: seq<string>)
    requires Pieces(rest)
    ensures RestAt(kept, rest) <= |Join(kept + rest)|
    ensures RestAt(kept, rest) == |Join(kept + rest)| <==> rest == [] || rest == [""]
  {
    TextShape(kept, rest);
    PiecesNonEmpty(rest);
  }

  lemma KeptStep(kept: seq<string>, rest: seq<string>, body: string)
    requires rest != []
    ensures kept + Kept(rest, body) ==
      (if Removes(body, rest[0]) then kept else kept + [rest[0]]) + Kept(rest[1..], body)
  {
    hide Removes;
    var first, more := if Removes(body, rest[0]) then [] else [rest[0]], Kept(rest[1..], body);
    assert kept + (first + more) == (kept + first) + more;
    assert kept + [] == kept;
  }

  lemma PiecesTail(rest: seq<string>)
    requires rest != [] && Pieces(rest)
    ensures Pieces(rest[1..])
  {
    hide Piece;
    forall k | 0 <= k < |rest| - 1
      ensures Piece(rest[1..][k]) && (rest[1..][k] == "" ==> k == |rest| - 2)
    {
      assert Piece(rest[k + 1]);
    }
  }

  lemma KeptNone(kept: seq<string>, rest: seq<string>, body: string)
    requires rest == [] || rest == [""]
    ensures Join(kept + Kept(rest, body)) == Join(kept + rest)
  {
    if rest == [""] {
      assert rest[1..] == [];
      assert [""] + [] == [""];
    }
  }

  lemma RestAtFirst(rest: seq<string>)
    ensures RestAt([], rest) == 0
  {
  }

  /** Passing over the first rule of the rest. */
  lemma KeptLength(kept: seq<string>, rest: seq<string>)
    requires rest != []
    ensures RestAt(kept + [rest[0]], rest[1..]) == RestAt(kept, rest) + |rest[0]| + (if |rest| == 1 then 0 else 1)
  {
    if kept == [] {
      assert kept + [rest[0]] == [rest[0]];
    } else {
      JoinSplit(kept, [rest[0]]);
    }
  }

  lemma JoinEmpty()
    ensures Join([]) == ""
  {
  }

  // ----------------------------------------------------- in-place surgery

  /** A NUL-terminated text of length n at the start of a buffer. */
  ghost predicate Holds(buf: array<char>, n: nat, text: string)
    reads buf
  {
    n < buf.Length && buf[n] == '\0' && buf[..n] == text
  }

  /** strchr for a space, from index i on; the end of the text when absent. */
  method FindSpace(buf: array<char>, i: nat, n: nat) returns (r: nat)
    requires i <= n < buf.Length
    ensures i <= r <= n && (r == n || buf[r] == ' ')
    ensures forall k :: i <= k < r ==> buf[k] != ' '
  {
    r := i;
    while r < n && buf[r] != ' '
      invariant i <= r <= n
      invariant forall k :: i <= k < r ==> buf[k] != ' '
    {
      r := r + 1;
    }
  }

  /** memmove of a text's tail, with its terminator, to the left. */
  method MoveLeft(buf: array<char>, dst: nat, src: nat, n: nat) returns (n': nat)
    requires dst <= src <= n < buf.Length && buf[n] == '\0'
    modifies buf
    ensures n' == n - (src - dst) && buf[n'] == '\0'
    ensures buf[..n'] == old(buf[..dst]) + old(buf[src..n])
  {
    n' := n - (src - dst);
    var k := dst;
    while k <= n'
      invariant dst <= k <= n' + 1
      invariant forall j :: 0 <= j < dst ==> buf[j] == old(buf[j])
      invariant forall j :: dst <= j < k ==> buf[j] == old(buf[j + (src - dst)])
      invariant forall j :: k + (src - dst) <= j <= n ==> buf[j] == old(buf[j])
    {
      buf[k] := buf[k + (src - dst)];
      k := k + 1;
    }
    MovedText(old(buf[..]), buf[..], dst, src, n);
    assert buf[..][..n'] == buf[..n'] && old(buf[..])[..dst] == old(buf[..dst]) && old(buf[..])[src..n] == old(buf[src..n]);
  }

  lemma MovedText(was: string, now: string, dst: nat, src: nat, n: nat)
    requires dst <= src <= n < |was| && |now| == |was|
    requires forall j :: 0 <= j < dst ==> now[j] == was[j]
    requires forall j :: dst <= j < n - (src - dst) ==> now[j] == was[j + (src - dst)]
    ensures now[..n - (src - dst)] == was[..dst] + was[src..n]
  {
  }

  /** Whether the rule between two indexes is made superfluous: memcmp of the
      common length, then equal length or a '|' after it. */
  method Matches(buf: array<char>, from: nat, to: nat, body: string) returns (b: bool)
    requires 0 < from <= to < buf.Length
    ensures b == Removes(body, buf[from - 1..to])
  {
    var existingLen := to - from;
    if existingLen < |body| {
      return false;
    }
    var k := 0;
    while k < |body| && buf[from + k] == body[k]
      invariant 0 <= k <= |body|
      invariant forall j :: 0 <= j < k ==> buf[from + j] == body[j]
    {
      k := k + 1;
    }
    assert buf[from - 1..to][1..] == buf[from..to];
    return k == |body| && (existingLen == |body| || buf[from + |body|] == '|');
  }

  /** The end of the rule at `e`. */
  method FindRuleEnd(buf: array<char>, e: nat, len: nat, ghost rest: seq<string>) returns (end: nat)
    requires e <= len < buf.Length && buf[..len][e..] == Join(rest) && Pieces(rest) && rest != [] && rest != [""]
    ensures e < end <= len && end == e + |rest[0]| && buf[e..end] == rest[0]
  {
    hide Join, Pieces;
    ghost var text := buf[..len];
    RuleExtent(text, e, rest);
    end := FindSpace(buf, e + 1, len);
    assert forall k :: 0 <= k < len ==> buf[k] == text[k];
    RuleEnds(text, e, rest[0], end);
    assert text[e..end] == buf[e..end];
  }

  /** One round of the scan: the rule at `e` is cut out or passed over. */
  method RemoveStep(buf: array<char>, e: nat, len: nat, body: string, ghost kept: seq<string>, ghost rest: seq<string>)
    returns (e': nat, n: nat, ghost kept': seq<string>)
    requires Holds(buf, len, Join(kept + rest)) && Pieces(rest) && rest != [] && rest != [""] && e == RestAt(kept, rest)
    modifies buf
    ensures kept' == if Removes(body, rest[0]) then kept else kept + [rest[0]]
    ensures n <= len && Holds(buf, n, Join(kept' + rest[1..])) && e' == RestAt(kept', rest[1..])
  {
    hide Join, Removes, RestAt, Pieces;
    TextShape(kept, rest);
    ghost var text := buf[..len];
    var ruleEnd := FindRuleEnd(buf, e, len, rest);
    // Cut the space after the rule, or the one before it for the last rule.
    var copyPosition := if ruleEnd == len && e != 0 then e - 1 else e;
    var copyEnd := if ruleEnd < len then ruleEnd + 1 else ruleEnd;
    CutPlaces(kept, rest, copyPosition, copyEnd);
    var hit := Matches(buf, e + 1, ruleEnd, body);
    if hit {
      kept' := kept;
      n := MoveLeft(buf, copyPosition, copyEnd, len);
      e' := copyPosition;
      assert buf[..n] == text[..copyPosition] + text[copyEnd..];
    } else {
      kept' := kept + [rest[0]];
      n := len;
      e' := copyEnd;
      assert kept + rest == kept' + rest[1..];
    }
  }

  /** Where the surgery cuts, and where the scan goes on. */
  lemma CutPlaces(kept: seq<string>, rest: seq<string>, from: nat, to: nat)
    requires rest != []
    requires var text, at := Join(kept + rest), RestAt(kept, rest);
      && from == (if at + |rest[0]| == |text| && at != 0 then at - 1 else at)
      && to == if at + |rest[0]| < |text| then at + |rest[0]| + 1 else at + |rest[0]|
    ensures from <= to <= |Join(kept + rest)|
    ensures Join(kept + rest)[..from] + Join(kept + rest)[to..] == Join(kept + rest[1..])
    ensures from == RestAt(kept, rest[1..]) && to == RestAt(kept + [rest[0]], rest[1..])
  {
    hide Join;
    TextWithout(kept, rest);
    KeptLength(kept, rest);
    var text := Join(kept + rest);
    if |rest| == 1 {
      assert text[to..] == [];
      assert text[..from] + [] == text[..from];
      TextShape(kept, rest);
      KeptNonEmpty(kept, rest);
    }
  }

  lemma KeptNonEmpty(kept: seq<string>, rest: seq<string>)
    requires rest != []
    ensures RestAt(kept, rest) == 0 <==> kept == []
  {
  }

  /** ACLSelectorRemoveCommandRule: the surgery leaves the text of the kept
      pieces. */
  method RemoveCommandRule(buf: array<char>, len: nat, body: string) returns (n: nat)
    requires len < buf.Length && buf[len] == '\0' && '\0' !in buf[..len]
    modifies buf
    ensures n <= len && Holds(buf, n, Join(Kept(PiecesOf(old(buf[..len])), body)))
  {
    hide Join, Removes, RestAt, Pieces, Kept, PiecesOf;
    n := len;
    var e := 0;
    ghost var rules := PiecesOf(buf[..len]);
    ghost var kept, rest: seq<string> := [], rules;
    PiecesJoin(buf[..len]);
    assert kept + rest == rules && kept + Kept(rest, body) == Kept(rules, body);
    RestAtFirst(rest);
    AtEnd(kept, rest);
    while e < n
      invariant e <= n <= len && Holds(buf, n, Join(kept + rest)) && Pieces(rest)
      invariant e == RestAt(kept, rest) && (rest == [] || rest == [""] <==> e == n)
      invariant kept + Kept(rest, body) == Kept(rules, body)
      decreases |rest|
    {
      KeptStep(kept, rest, body);
      PiecesTail(rest);
      e, n, kept := RemoveStep(buf, e, n, body, kept, rest);
      rest := rest[1..];
      AtEnd(kept, rest);
    }
    KeptNone(kept, rest, body);
  }
}

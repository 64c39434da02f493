/** Hash slots of keys and of glob patterns (src/cluster.c, src/util.c).

    Keys and patterns are byte strings, one `char` per byte. The CRC is left
    uninterpreted: every result holds for an arbitrary function `crc`. */
module SlotHash {
  import opened Common

  // ------------------------------------------------------------------ keys

  /** The first position at or after `i` that holds `c`, or |s|. */
  function Find(s: string, c: char, i: nat): (r: nat)
    requires i <= |s|
    ensures i <= r <= |s|
    ensures r < |s| ==> s[r] == c
    ensures forall j :: i <= j < r ==> s[j] != c
    decreases |s| - i
  {
    if i == |s| || s[i] == c then i else Find(s, c, i + 1)
  }

  /** `c` does not occur in s[lo..hi]. */
  ghost predicate Absent(s: string, c: char, lo: int, hi: int) {
    forall j :: 0 <= lo <= j < hi <= |s| ==> s[j] != c
  }

  /** A non-empty {...} tag, opened by the first brace, spans s[open..close]. */
  ghost predicate TagAt(s: string, open: nat, close: nat) {
    && open + 1 < close < |s|
    && s[open] == '{' && Absent(s, '{', 0, open)
    && s[close] == '}' && Absent(s, '}', open + 1, close)
  }

  ghost predicate HasTag(s: string) {
    exists open: nat, close: nat :: TagAt(s, open, close)
  }

  /** The bytes of a key that are hashed: its tag, or else all of it. */
  function HashedPart(key: string): (r: string) {
    var s := Find(key, '{', 0);
    if s == |key| then key
    else
      var e := Find(key, '}', s + 1);
      if e == |key| || e == s + 1 then key else key[s + 1..e]
  }

  lemma HashedPartIsTag(key: string)
    ensures forall open: nat, close: nat :: TagAt(key, open, close) ==> HashedPart(key) == key[open + 1..close]
    ensures !HasTag(key) ==> HashedPart(key) == key
  {
    var s := Find(key, '{', 0);
    forall open: nat, close: nat | TagAt(key, open, close)
      ensures open == s && close == Find(key, '}', s + 1)
    {
    }
    if s < |key| {
      var e := Find(key, '}', s + 1);
      assert s + 1 < e < |key| ==> TagAt(key, s, e);
    }
  }

  method KeyHashSlot(crc: string -> nat, key: string) returns (slot: nat)
    ensures slot == crc(HashedPart(key)) % SLOTS
  {
    var s := 0;
    while s < |key| && key[s] != '{'
      invariant 0 <= s <= |key| && Find(key, '{', 0) == Find(key, '{', s)
    {
      s := s + 1;
    }
    if s == |key| {
      return crc(key) % SLOTS;
    }
    var e := s + 1;
    while e < |key| && key[e] != '}'
      invariant s + 1 <= e <= |key| && Find(key, '}', s + 1) == Find(key, '}', e)
    {
      e := e + 1;
    }
    if e == |key| || e == s + 1 {
      return crc(key) % SLOTS;
    }
    return crc(key[s + 1..e]) % SLOTS;
  }

  // ------------------------------------------------------------------ globs

  predicate Special(c: char) { c == '*' || c == '?' || c == '[' || c == '\\' }

  /** Result of one call of the matcher: the verdict and the value left in
      its skipLongerMatches flag. */
  datatype Verdict = Verdict(matched: bool, skip: bool)

  const MAX_NESTING := 1000

  function Glob(p: string, k: string, nesting: nat, skip: bool): (v: Verdict)
    decreases |p|, |k|, 2
  {
    if nesting > MAX_NESTING then Verdict(false, skip) else GlobLoop(p, k, nesting, skip)
  }

  /** The matcher's main loop, entered with the rests of pattern and string. */
  function GlobLoop(p: string, k: string, nesting: nat, skip: bool): (v: Verdict)
    decreases |p|, |k|, 1
  {
    if p == "" || k == "" then Verdict(p == "" && k == "", skip)
    else if p[0] == '*' then
      var q := MergeStars(p);
      if |q| == 1 then Verdict(true, skip) else GlobStar(q[1..], k, nesting, skip)
    else if p[0] == '?' then
      GlobNext(p[1..], k[1..], nesting, skip)
    else if p[0] == '[' then
      var negated := |p| > 1 && p[1] == '^';
      var c := ClassScan(if negated then p[2..] else p[1..], k[0], false);
      if c.hit == negated then Verdict(false, skip) else GlobNext(c.rest, k[1..], nesting, skip)
    else
      var q := if p[0] == '\\' && |p| >= 2 then p[1..] else p;
      if q[0] != k[0] then Verdict(false, skip) else GlobNext(q[1..], k[1..], nesting, skip)
  }

  /** After one pattern item was consumed. */
  function GlobNext(p: string, k: string, nesting: nat, skip: bool): (v: Verdict)
    decreases |p|, |k|, 3
  {
    if k == "" then Verdict(DropStars(p) == "", skip) else GlobLoop(p, k, nesting, skip)
  }

  /** '*' tries the rest of the pattern at every later start. */
  function GlobStar(q: string, k: string, nesting: nat, skip: bool): (v: Verdict)
    decreases |q|, |k|, 4
  {
    if k == "" then Verdict(false, true)
    else
      var v := Glob(q, k, nesting + 1, skip);
      if v.matched || v.skip then v else GlobStar(q, k[1..], nesting, v.skip)
  }

  function MergeStars(p: string): (r: string)
    requires p != ""
    ensures 0 < |r| <= |p|
  {
    if |p| > 1 && p[1] == '*' then MergeStars(p[1..]) else p
  }

  function DropStars(p: string): string {
    if p != "" && p[0] == '*' then DropStars(p[1..]) else p
  }

  datatype ClassResult = ClassResult(hit: bool, rest: string)

  /** Scans a character class; `rest` is what follows the closing bracket. */
  function ClassScan(p: string, c: char, hit: bool): (r: ClassResult)
    ensures |r.rest| <= |p|
  {
    if |p| >= 2 && p[0] == '\\' then ClassScan(p[2..], c, hit || p[1] == c)
    else if p == "" then ClassResult(hit, "")
    else if p[0] == ']' then ClassResult(hit, p[1..])
    else if |p| >= 3 && p[1] == '-' then
      var lo, hi := if p[0] > p[2] then p[2] else p[0], if p[0] > p[2] then p[0] else p[2];
      ClassScan(p[3..], c, hit || lo <= c <= hi)
    else ClassScan(p[1..], c, hit || p[0] == c)
  }

  /** stringmatchlen with nocase == 0. */
  predicate Matches(pattern: string, key: string) { Glob(pattern, key, 0, false).matched }

  ghost predicate Literal(p: string, n: nat) { forall i :: 0 <= i < n <= |p| ==> !Special(p[i]) }

  /** A key matched by a glob starts with every literal prefix of the glob. */
  lemma {:induction false} LiteralPrefix(p: string, k: string, n: nat, nesting: nat, skip: bool)
    requires n <= |p| && Literal(p, n)
    requires GlobLoop(p, k, nesting, skip).matched
    ensures p[..n] <= k
    ensures n == |p| ==> k == p
    decreases n
  {
    if n > 0 {
      assert k != "" && k[0] == p[0];
      if k[1..] == "" {
        assert DropStars(p[1..]) == "";
        assert n == 1;
      } else {
        LiteralPrefix(p[1..], k[1..], n - 1, nesting, skip);
        assert p[..n] == [p[0]] + p[1..][..n - 1];
        assert k == [k[0]] + k[1..];
        assert p == [p[0]] + p[1..];
      }
    }
  }

  /** What a match says about the literal part of the glob. */
  ghost predicate StartsLike(p: string, key: string) {
    forall n: nat :: n <= |p| && Literal(p, n) ==> p[..n] <= key && (n == |p| ==> key == p)
  }

  lemma MatchStartsLike(p: string, key: string)
    requires Matches(p, key)
    ensures StartsLike(p, key)
  {
    forall n: nat | n <= |p| && Literal(p, n) ensures p[..n] <= key && (n == |p| ==> key == p) {
      LiteralPrefix(p, key, n, 0, false);
    }
  }

  /** A glob without special bytes matches exactly one key: itself. */
  lemma {:induction false} LiteralMatchesItself(p: string, k: string)
    requires Literal(p, |p|)
    ensures Matches(p, k) <==> k == p
  {
    if Matches(p, k) {
      LiteralPrefix(p, k, |p|, 0, false);
    }
    LiteralSelf(p, 0, false);
  }

  lemma {:induction false} LiteralSelf(p: string, nesting: nat, skip: bool)
    requires Literal(p, |p|)
    ensures GlobLoop(p, p, nesting, skip).matched
    decreases |p|
  {
    if p != "" {
      LiteralSelf(p[1..], nesting, skip);
    }
  }

  // -------------------------------------------------------- slot inference

  /** Where the scan of a pattern stands: `open` is the index of the first
      brace, -1 before one was seen, -2 once an empty tag was seen. */
  function InferPart(p: string, i: nat, open: int): (r: Option<string>)
    requires i <= |p| && -2 <= open < i
    decreases |p| - i
  {
    if i == |p| then Some(p)
    else if Special(p[i]) then None
    else if open == -1 && p[i] == '{' then InferPart(p, i + 1, i)
    else if open >= 0 && p[i] == '}' && i == open + 1 then InferPart(p, i + 1, -2)
    else if open >= 0 && p[i] == '}' then Some(p[open + 1..i])
    else InferPart(p, i + 1, open)
  }

  ghost predicate EmptyTagBefore(s: string, i: nat) {
    exists o: nat :: o + 1 < i <= |s| && s[o] == '{' && Absent(s, '{', 0, o) && s[o + 1] == '}'
  }

  /** What the scan has established about p[..i]. */
  ghost predicate Scanned(p: string, i: nat, open: int) {
    && i <= |p| && -2 <= open < i
    && Literal(p, i)
    && (open == -1 ==> Absent(p, '{', 0, i))
    && (open == -2 ==> EmptyTagBefore(p, i))
    && (open >= 0 ==> p[open] == '{' && Absent(p, '{', 0, open) && Absent(p, '}', open + 1, i))
  }

  /** A scan that did not meet the end of a tag has not passed one. */
  lemma ScannedHasNoTag(p: string, i: nat, open: int)
    requires Scanned(p, i, open)
    ensures !HasTag(p[..i])
  {
    var q := p[..i];
    if open == -2 {
      var e: nat :| e + 1 < i <= |p| && p[e] == '{' && Absent(p, '{', 0, e) && p[e + 1] == '}';
      assert q[e] == '{' && q[e + 1] == '}';
    } else if open >= 0 {
      assert q[open] == '{';
    }
  }

  /** An inferred slot is the slot of every key the pattern can match. */
  lemma {:induction false} InferredPartSound(p: string, i: nat, open: int, key: string)
    requires Scanned(p, i, open)
    requires InferPart(p, i, open).Some?
    requires StartsLike(p, key)
    ensures HashedPart(key) == InferPart(p, i, open).value
    decreases |p| - i
  {
    if i == |p| {
      ScannedHasNoTag(p, i, open);
      assert p[..i] == p;
      HashedPartIsTag(p);
    } else if open == -1 && p[i] == '{' {
      InferredPartSound(p, i + 1, i, key);
    } else if open >= 0 && p[i] == '}' && i == open + 1 {
      InferredPartSound(p, i + 1, -2, key);
    } else if open >= 0 && p[i] == '}' {
      assert Literal(p, i + 1);
      TagOfPrefix(p, key, open, i);
      HashedPartIsTag(key);
    } else {
      InferredPartSound(p, i + 1, open, key);
    }
  }

  lemma TagOfPrefix(p: string, key: string, open: nat, close: nat)
    requires TagAt(p, open, close) && p[..close + 1] <= key
    ensures TagAt(key, open, close) && key[open + 1..close] == p[open + 1..close]
  {
    assert forall j :: 0 <= j <= close ==> key[j] == p[..close + 1][j];
  }

  /** Inference gives up exactly when a special byte comes before the end of
      the pattern's tag. */
  lemma {:induction false} InferenceGivesUpIff(p: string, i: nat, open: int)
    requires Scanned(p, i, open)
    ensures InferPart(p, i, open).None? <==> exists k :: 0 <= k < |p| && Special(p[k]) && !HasTag(p[..k])
    decreases |p| - i
  {
    if i == |p| {
    } else if Special(p[i]) {
      ScannedHasNoTag(p, i, open);
    } else if open == -1 && p[i] == '{' {
      InferenceGivesUpIff(p, i + 1, i);
    } else if open >= 0 && p[i] == '}' && i == open + 1 {
      InferenceGivesUpIff(p, i + 1, -2);
    } else if open >= 0 && p[i] == '}' {
      forall k | 0 <= k < |p| && Special(p[k]) ensures HasTag(p[..k]) {
        assert TagAt(p[..k], open, i);
      }
    } else {
      InferenceGivesUpIff(p, i + 1, open);
    }
  }

  /** patternHashSlot: -1, or the one slot that all matching keys share. */
  method PatternHashSlot(crc: string -> nat, pattern: string) returns (slot: int)
    ensures slot == -1 <==> exists i :: 0 <= i < |pattern| && Special(pattern[i]) && !HasTag(pattern[..i])
    ensures slot != -1 ==> 0 <= slot < SLOTS
    ensures slot != -1 ==> forall key :: Matches(pattern, key) ==> slot == crc(HashedPart(key)) % SLOTS
  {
    var s := -1;
    var i := 0;
    InferenceGivesUpIff(pattern, 0, -1);
    if InferPart(pattern, 0, -1).Some? {
      InferredPartForAll(pattern);
    }
    while i < |pattern|
      invariant i <= |pattern| && -2 <= s < i
      invariant InferPart(pattern, i, s) == InferPart(pattern, 0, -1)
    {
      if pattern[i] == '*' || pattern[i] == '?' || pattern[i] == '[' {
        return -1;
      } else if pattern[i] == '\\' {
        return -1;
      } else if s == -1 && pattern[i] == '{' {
        s := i;
      } else if s >= 0 && pattern[i] == '}' && i == s + 1 {
        s := -2;
      } else if s >= 0 && pattern[i] == '}' {
        return crc(pattern[s + 1..i]) % SLOTS;
      }
      i := i + 1;
    }
    return crc(pattern) % SLOTS;
  }

  lemma {:induction false} InferredPartForAll(p: string)
    requires InferPart(p, 0, -1).Some?
    ensures forall key :: Matches(p, key) ==> HashedPart(key) == InferPart(p, 0, -1).value
  {
    forall key | Matches(p, key) ensures HashedPart(key) == InferPart(p, 0, -1).value {
      MatchStartsLike(p, key);
      InferredPartSound(p, 0, -1, key);
    }
  }
}

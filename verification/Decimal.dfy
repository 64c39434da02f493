/** Decimal numbers as the server prints and reads them (ll2string, atoi and
    strtol in base ten). */
module Decimal {
  predicate IsDigit(c: char) { '0' <= c <= '9' }

  predicate IsSpace(c: char) { c == ' ' || 9 <= c as int <= 13 }

  function Digits(n: nat): (s: string)
    ensures s != "" && forall k :: 0 <= k < |s| ==> IsDigit(s[k])
    ensures n > 0 ==> s[0] != '0'
  {
    if n < 10 then ['0' + n as char] else Digits(n / 10) + ['0' + (n % 10) as char]
  }

  /** The number that the digits from `i` on append to `acc`. */
  function ReadDigits(s: string, i: nat, acc: nat): (n: nat)
    requires i <= |s|
    ensures n >= acc
    decreases |s| - i
  {
    if i == |s| || !IsDigit(s[i]) then acc else ReadDigits(s, i + 1, 10 * acc + (s[i] - '0') as int)
  }

  function SkipSpace(s: string, i: nat): (j: nat)
    requires i <= |s|
    ensures i <= j <= |s|
    decreases |s| - i
  {
    if i == |s| || !IsSpace(s[i]) then i else SkipSpace(s, i + 1)
  }

  /** strtol and atoi without overflow. */
  function Strtol(s: string): int {
    var i := SkipSpace(s, 0);
    if i < |s| && s[i] == '-' then -(ReadDigits(s, i + 1, 0) as int)
    else if i < |s| && s[i] == '+' then ReadDigits(s, i + 1, 0)
    else ReadDigits(s, i, 0)
  }

  lemma {:induction false} ReadsDigits(s: string, i: nat, n: nat)
    requires i + |Digits(n)| <= |s| && s[i..i + |Digits(n)|] == Digits(n)
    ensures ReadDigits(s, i, 0) == ReadDigits(s, i + |Digits(n)|, n)
    decreases n
  {
    var d := Digits(n);
    assert s[i] == s[i..i + |d|][0] == d[0];
    if n >= 10 {
      var p := Digits(n / 10);
      assert s[i..i + |p|] == d[..|p|];
      ReadsDigits(s, i, n / 10);
      assert s[i + |p|] == s[i..i + |d|][|p|] == d[|p|];
    }
  }

  /** A printed number followed by anything but a digit reads back. */
  lemma StrtolDigits(s: string, n: nat)
    requires Digits(n) <= s && (|s| == |Digits(n)| || !IsDigit(s[|Digits(n)|]))
    ensures Strtol(s) == n
  {
    assert s[0] == Digits(n)[0];
    assert s[0..|Digits(n)|] == Digits(n);
    ReadsDigits(s, 0, n);
  }

  /** A cut piece of a positive number still reads as a positive number. */
  lemma StrtolPiece(s: string, n: nat)
    requires s != "" && (s <= Digits(n) + "\r" || Digits(n) <= s)
    ensures Strtol(s) >= 0
    ensures n > 0 ==> Strtol(s) >= 1
  {
    assert s[0] == Digits(n)[0];
    assert n > 0 ==> ReadDigits(s, 1, (s[0] - '0') as int) >= 1;
  }

  function Pow10(k: nat): nat { if k == 0 then 1 else 10 * Pow10(k - 1) }

  lemma {:induction false} DigitsLength(n: nat, k: nat)
    requires k > 0 && n < Pow10(k)
    ensures |Digits(n)| <= k
    decreases k
  {
    if n >= 10 {
      assert k > 1;
      DigitsLength(n / 10, k - 1);
    }
  }

  /** The numbers that fit the server's lengths and counts. */
  lemma ShortDigits(n: nat)
    requires n < 0x8000_0000_0000_0000
    ensures |Digits(n)| <= 19
  {
    assert Pow10(19) == 10_000_000_000_000_000_000 by {
      assert Pow10(5) == 100_000;
      assert Pow10(10) == 10_000_000_000;
      assert Pow10(15) == 1_000_000_000_000_000;
    }
    DigitsLength(n, 19);
  }
}

/** Decimal text for integers as Python's `%d` and `%02d` conversions write it,
    and a reader that recovers the integer from the text. */
module Decimal {
  import opened Wrappers

  predicate IsDigit(c: char) {
    '0' <= c <= '9'
  }

  predicate AllDigits(s: string) {
    forall i :: 0 <= i < |s| ==> IsDigit(s[i])
  }

  function DigitChar(d: nat): (c: char)
    requires d < 10
    ensures IsDigit(c)
    ensures c as int - '0' as int == d
  {
    ('0' as int + d) as char
  }

  function DigitValue(c: char): nat
    requires IsDigit(c)
  {
    c as int - '0' as int
  }

  /** The decimal digits of `n`, most significant first, with no leading zero. */
  function Digits(n: nat): (s: string)
    ensures |s| >= 1 && AllDigits(s)
    ensures s[0] == '0' <==> n == 0
  {
    if n < 10 then [DigitChar(n)] else Digits(n / 10) + [DigitChar(n % 10)]
  }

  /** The number a string of decimal digits denotes. */
  function Value(s: string): nat
    requires AllDigits(s)
  {
    if |s| == 0 then 0 else Value(s[..|s| - 1]) * 10 + DigitValue(s[|s| - 1])
  }

  lemma {:induction false} ValueOfDigits(n: nat)
    ensures Value(Digits(n)) == n
  {
    if n >= 10 {
      var s := Digits(n);
      assert s[..|s| - 1] == Digits(n / 10);
      ValueOfDigits(n / 10);
    }
  }

  /** Python's `'%d' % n`: a minus sign for negative numbers, then the digits. */
  function FormatInt(n: int): (s: string)
    ensures |s| >= 1
    ensures n >= 0 ==> AllDigits(s)
    ensures n < 0 ==> s[0] == '-' && AllDigits(s[1..])
  {
    if n < 0 then "-" + Digits(-n) else Digits(n)
  }

  /** The text `%d` writes denotes the number: its digits, after the sign. */
  lemma FormatIntValue(n: int)
    ensures n >= 0 ==> Value(FormatInt(n)) == n
    ensures n < 0 ==> Value(FormatInt(n)[1..]) == -n
  {
    if n < 0 {
      assert FormatInt(n)[1..] == Digits(-n);
      ValueOfDigits(-n);
    } else {
      ValueOfDigits(n);
    }
  }

  /** Python's `'%02d' % n`: zero-padded on the left to two characters. */
  function Pad2(n: int): (s: string)
    ensures 0 <= n < 100 ==> |s| == 2 && AllDigits(s) && Value(s) == n
    ensures n < 0 || n >= 10 ==> s == FormatInt(n)
  {
    if 0 <= n < 10 then
      FormatIntValue(n);
      var s := "0" + FormatInt(n);
      assert s[..1] == "0";
      assert Value(s[..1]) == 0 by {
        assert s[..1][..0] == "";
      }
      s
    else if 10 <= n < 100 then
      assert Digits(n) == [DigitChar(n / 10)] + [DigitChar(n % 10)];
      FormatIntValue(n);
      FormatInt(n)
    else
      FormatInt(n)
  }

  /** The longest prefix of `s` made of digits. */
  function DigitRun(s: string): (r: string)
    ensures |r| <= |s| && r == s[..|r|]
    ensures AllDigits(r)
    ensures |r| < |s| ==> !IsDigit(s[|r|])
  {
    if |s| == 0 || !IsDigit(s[0]) then "" else [s[0]] + DigitRun(s[1..])
  }

  /** Reads an optionally negative decimal integer from the front of `s`,
      giving its value and the text after it; `None` if no digit is there. */
  function TakeInt(s: string): Option<(int, string)>
  {
    var negative := |s| > 0 && s[0] == '-';
    var body := if negative then s[1..] else s;
    var run := DigitRun(body);
    if |run| == 0 then None
    else Some((if negative then -(Value(run) as int) else Value(run), body[|run|..]))
  }

  lemma {:induction false} DigitRunOfDigits(d: string, rest: string)
    requires AllDigits(d)
    requires |rest| == 0 || !IsDigit(rest[0])
    ensures DigitRun(d + rest) == d
  {
    if |d| > 0 {
      assert (d + rest)[1..] == d[1..] + rest;
      DigitRunOfDigits(d[1..], rest);
      assert [d[0]] + d[1..] == d;
    }
  }

  /** Reading back what `%d` wrote gives the number and leaves the following text. */
  lemma TakeFormatInt(n: int, rest: string)
    requires |rest| == 0 || !IsDigit(rest[0])
    ensures TakeInt(FormatInt(n) + rest) == Some((n, rest))
  {
    if n < 0 {
      TakeNegative(-n, rest);
    } else {
      TakeDigits(n, rest);
    }
  }

  lemma TakeDigits(n: nat, rest: string)
    requires |rest| == 0 || !IsDigit(rest[0])
    ensures TakeInt(Digits(n) + rest) == Some((n, rest))
  {
    var d := Digits(n);
    DigitRunOfDigits(d, rest);
    ValueOfDigits(n);
    assert (d + rest)[|d|..] == rest;
  }

  lemma TakeNegative(n: nat, rest: string)
    requires n > 0
    requires |rest| == 0 || !IsDigit(rest[0])
    ensures TakeInt("-" + Digits(n) + rest) == Some((-(n as int), rest))
  {
    var d := Digits(n);
    var s := "-" + d + rest;
    assert s[1..] == d + rest;
    DigitRunOfDigits(d, rest);
    ValueOfDigits(n);
    assert (d + rest)[|d|..] == rest;
  }

  function Pow10(w: nat): nat {
    if w == 0 then 1 else 10 * Pow10(w - 1)
  }

  /** The last `w` decimal digits of `n`, zero-padded on the left. */
  function FixedDigits(n: nat, w: nat): (s: string)
    ensures |s| == w && AllDigits(s)
  {
    if w == 0 then "" else FixedDigits(n / 10, w - 1) + [DigitChar(n % 10)]
  }

  lemma {:induction false} ValueOfFixedDigits(n: nat, w: nat)
    requires n < Pow10(w)
    ensures Value(FixedDigits(n, w)) == n
  {
    if w > 0 {
      var s := FixedDigits(n, w);
      assert s[..|s| - 1] == FixedDigits(n / 10, w - 1);
      ValueOfFixedDigits(n / 10, w - 1);
    }
  }

  /** Reads exactly `w` digits from the front of `s` (a fixed-width date field). */
  function TakeFixed(s: string, w: nat): (r: Option<(nat, string)>)
    ensures r.Some? ==> |s| >= w && r.value.0 < Pow10(w) && r.value.1 == s[w..]
  {
    if |s| >= w && AllDigits(s[..w]) then
      ValueBelowPow10(s[..w]);
      Some((Value(s[..w]), s[w..]))
    else None
  }

  lemma {:induction false} ValueBelowPow10(s: string)
    requires AllDigits(s)
    ensures Value(s) < Pow10(|s|)
  {
    if |s| > 0 {
      ValueBelowPow10(s[..|s| - 1]);
    }
  }

  lemma TakeFixedDigits(n: nat, w: nat, rest: string)
    requires n < Pow10(w)
    ensures TakeFixed(FixedDigits(n, w) + rest, w) == Some((n, rest))
  {
    var d := FixedDigits(n, w);
    assert (d + rest)[..w] == d;
    assert (d + rest)[w..] == rest;
    ValueOfFixedDigits(n, w);
  }
}

/** `formatTime`: whole seconds shown as minutes, a colon, and the seconds
    left over padded to two digits. The number-to-text conversion is written
    out digit by digit, and a reader for the `m:ss` form proves that nothing
    is lost for non-negative inputs. */
module TimeFormat {
  import opened Types

  predicate IsDigit(c: char) {
    '0' <= c <= '9'
  }

  predicate AllDigits(s: string) {
    forall i :: 0 <= i < |s| ==> IsDigit(s[i])
  }

  function DigitChar(d: int): (c: char)
    requires 0 <= d < 10
    ensures IsDigit(c) && c as int - '0' as int == d
  {
    (d + '0' as int) as char
  }

  /** Decimal notation of a natural number, without leading zeros. */
  function NatToString(n: nat): (r: string)
    ensures |r| >= 1 && AllDigits(r)
    ensures n < 10 ==> |r| == 1
    ensures 10 <= n < 100 ==> |r| == 2
  {
    if n < 10 then [DigitChar(n)] else NatToString(n / 10) + [DigitChar(n % 10)]
  }

  /** Decimal notation of any integer: a minus sign before the magnitude. */
  function IntToString(i: int): string {
    if i < 0 then "-" + NatToString(-i) else NatToString(i)
  }

  /** `padStart(2, '0')`: left-pads with zeros up to two characters. */
  function PadStart2(s: string): (r: string)
    ensures |s| <= 2 ==> |r| == 2
    ensures |s| >= 2 ==> r == s
    decreases 2 - |s|
  {
    if |s| >= 2 then s else PadStart2("0" + s)
  }

  /** The `%` of the source: the remainder takes the sign of the dividend. */
  function TruncRem(a: int, b: int): (r: int)
    requires b > 0
    ensures a >= 0 ==> 0 <= r < b
    ensures a < 0 ==> -b < r <= 0
    ensures (a - r) % b == 0
  {
    if a >= 0 then
      DropRemainder(a, b);
      a % b
    else
      DropRemainder(-a, b);
      assert a - -((-a) % b) == -((-a) - (-a) % b);
      NegateMultiple(b, (-a) - (-a) % b);
      -((-a) % b)
  }

  /** A multiple of `b` leaves no remainder. */
  lemma MultipleMod(b: int, q: int)
    requires b > 0
    ensures (b * q) % b == 0
  {
    var x := b * q;
    var k := q - x / b;
    assert b * k == x % b;
    assert k == 0 by {
      if k >= 1 {
        MulAtLeast(b, k);
      } else if k <= -1 {
        MulAtLeast(b, -k);
      }
    }
  }

  lemma MulAtLeast(b: int, k: int)
    requires b > 0 && k >= 1
    ensures b * k >= b
  {
  }

  /** Taking away the remainder leaves a multiple of `b`. */
  lemma DropRemainder(a: int, b: int)
    requires b > 0
    ensures (a - a % b) % b == 0
  {
    assert a - a % b == b * (a / b);
    MultipleMod(b, a / b);
  }

  lemma NegateMultiple(b: int, x: int)
    requires b > 0 && x % b == 0
    ensures (-x) % b == 0
  {
    assert x == b * (x / b);
    assert -x == b * -(x / b);
    MultipleMod(b, -(x / b));
  }

  /** formatTime. `Math.floor(seconds / 60)` is Dafny's `/` by a positive
      divisor; the remainder is the sign-of-dividend `%`. */
  function FormatTime(seconds: int): string {
    IntToString(seconds / 60) + ":" + PadStart2(IntToString(TruncRem(seconds, 60)))
  }

  /** Negative input: the minutes are floored, the seconds keep their sign,
      and a two-character "-5" is not padded. */
  lemma FormatTimeNegative()
    ensures FormatTime(-5) == "-1:-5"
    ensures FormatTime(-65) == "-2:-5"
  {
  }

  /** The value of a string of decimal digits. */
  function ParseDigits(s: string): nat
    requires AllDigits(s)
  {
    if |s| == 0 then 0 else ParseDigits(s[..|s| - 1]) * 10 + (s[|s| - 1] as int - '0' as int)
  }

  /** Reads `m:ss` back into seconds: digits, a colon, two digits below 60. */
  function ParseTime(s: string): Option<int> {
    if |s| >= 4 && s[|s| - 3] == ':' && AllDigits(s[..|s| - 3]) && AllDigits(s[|s| - 2..]) then
      var secs := ParseDigits(s[|s| - 2..]);
      if secs < 60 then Some(ParseDigits(s[..|s| - 3]) * 60 + secs) else None
    else None
  }

  lemma {:induction false} NatToStringRoundTrip(n: nat)
    ensures ParseDigits(NatToString(n)) == n
  {
    if n >= 10 {
      NatToStringRoundTrip(n / 10);
      var r := NatToString(n);
      assert r[..|r| - 1] == NatToString(n / 10);
    }
  }

  /** For a non-negative number of seconds, the text is the minutes, a colon
      and exactly two seconds digits, and reading it back gives the number. */
  lemma FormatTimeRoundTrip(seconds: nat)
    ensures var r := FormatTime(seconds);
      && |r| >= 4 && r[|r| - 3] == ':'
      && AllDigits(r[..|r| - 3]) && AllDigits(r[|r| - 2..])
      && ParseTime(r) == Some(seconds)
  {
    var m := NatToString(seconds / 60);
    var ss := NatToString(seconds % 60);
    var p := PadStart2(ss);
    var r := FormatTime(seconds);
    assert r == m + ":" + p;
    assert r[..|r| - 3] == m;
    assert r[|r| - 2..] == p;
    NatToStringRoundTrip(seconds / 60);
    NatToStringRoundTrip(seconds % 60);
    if |ss| == 1 {
      assert p == "0" + ss;
      assert p[..1] == "0";
    }
    assert ParseDigits(p) == seconds % 60;
  }
}

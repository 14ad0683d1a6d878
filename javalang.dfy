/** The few pieces of the Java platform the tracking agent relies on:
    fixed-width integers, nullable references, exceptions as values and the
    decimal rendering that `String.valueOf` and `StringBuffer.append` give
    to `int` and `long` values. */
module JavaLang {

  const INT_MIN: int := -0x8000_0000
  const INT_MAX: int := 0x7FFF_FFFF
  const LONG_MIN: int := -0x8000_0000_0000_0000
  const LONG_MAX: int := 0x7FFF_FFFF_FFFF_FFFF

  /** Java `int`. */
  type int32 = x: int | INT_MIN <= x <= INT_MAX
  /** Java `long`. */
  type int64 = x: int | LONG_MIN <= x <= LONG_MAX

  /** A Java reference that may be `null`. */
  datatype Option<+T> = None | Some(value: T)

  /** A call that either returns a value or throws. */
  datatype Result<+T, +E> = Success(value: T) | Failure(error: E)

  /** The unchecked exceptions the modelled code can let escape. */
  datatype JavaException =
    | IllegalArgument(message: string)
    | NullPointer
    | StringIndexOutOfBounds

  /** Two's-complement `int` addition: the result is congruent to `x`
      modulo 2^32 and lies in the `int` range. */
  function Wrap32(x: int): (r: int32)
    ensures (x - r) % 0x1_0000_0000 == 0
    ensures INT_MIN <= x <= INT_MAX ==> r == x
  {
    (x - INT_MIN) % 0x1_0000_0000 + INT_MIN
  }

  /** Java `long` division by 1000, which truncates toward zero. */
  function MillisToSeconds(ms: int64): (s: int64)
    ensures 0 <= ms ==> 0 <= s && s * 1000 <= ms < s * 1000 + 1000
    ensures ms < 0 ==> s <= 0 && s * 1000 - 1000 < ms <= s * 1000
  {
    if ms >= 0 then ms / 1000 else -((-(ms as int)) / 1000)
  }

  /** The text a `StringBuffer` holds after appending the pieces in order. */
  function Concat(pieces: seq<string>): (r: string)
    ensures |pieces| == 1 ==> r == pieces[0]
  {
    if pieces == [] then "" else pieces[0] + Concat(pieces[1..])
  }

  /** Appending two runs of pieces appends their texts. */
  lemma {:induction false} ConcatAppend(p: seq<string>, q: seq<string>)
    ensures Concat(p + q) == Concat(p) + Concat(q)
  {
    if p == [] {
      assert p + q == q;
    } else {
      assert (p + q)[1..] == p[1..] + q;
      ConcatAppend(p[1..], q);
    }
  }

  /** What `StringBuffer.append(String)` appends for a possibly null string. */
  function NullableText(s: Option<string>): string {
    match s
    case Some(t) => t
    case None => "null"
  }

  predicate IsDigit(c: char) {
    '0' <= c <= '9'
  }

  function DigitChar(d: int): (c: char)
    requires 0 <= d < 10
    ensures IsDigit(c) && DigitValue(c) == d
  {
    ('0' as int + d) as char
  }

  function DigitValue(c: char): int
    requires IsDigit(c)
  {
    c as int - '0' as int
  }

  /** Decimal digits of a non-negative number, most significant first. */
  function NatToString(n: nat): (r: string)
    ensures |r| >= 1
    ensures forall i :: 0 <= i < |r| ==> IsDigit(r[i])
    ensures r[0] == '0' ==> n == 0
  {
    if n < 10 then [DigitChar(n)] else NatToString(n / 10) + [DigitChar(n % 10)]
  }

  /** `String.valueOf(int)` / `String.valueOf(long)`: an optional minus sign
      and the decimal digits of the magnitude. */
  function IntToString(n: int): (r: string)
    ensures |r| >= 1 && (n < 0 ==> |r| >= 2)
    ensures r[0] == '-' <==> n < 0
    ensures forall i :: (if n < 0 then 1 else 0) <= i < |r| ==> IsDigit(r[i])
    ensures ParseNat(r[(if n < 0 then 1 else 0)..]) == if n < 0 then -n else n
    ensures r[if n < 0 then 1 else 0] == '0' ==> n == 0
  {
    if n < 0 then
      var digits := NatToString(-n);
      ParseNatToString(-n);
      assert ("-" + digits)[1..] == digits;
      "-" + digits
    else
      ParseNatToString(n);
      assert NatToString(n)[0..] == NatToString(n);
      NatToString(n)
  }

  /** Reads a string of decimal digits back as a number (the collector's
      side of the decimal fields). */
  function ParseNat(s: string): nat
    requires forall i :: 0 <= i < |s| ==> IsDigit(s[i])
  {
    if s == [] then 0 else 10 * ParseNat(s[..|s| - 1]) + DigitValue(s[|s| - 1])
  }

  /** The decimal rendering is read back as the number it renders. */
  lemma {:induction false} ParseNatToString(n: nat)
    ensures ParseNat(NatToString(n)) == n
  {
    var r := NatToString(n);
    if n >= 10 {
      ParseNatToString(n / 10);
      assert r[..|r| - 1] == NatToString(n / 10);
    }
  }

  /** Different numbers have different decimal renderings. */
  lemma IntToStringInjective(m: int, n: int)
    requires IntToString(m) == IntToString(n)
    ensures m == n
  {
    var r := IntToString(m);
    // only a negative number's rendering starts with a minus sign, which is no digit
    assert r[0] == '-' <==> m < 0;
    assert r[0] == '-' <==> n < 0;
    if m < 0 && n < 0 {
      ParseNatToString(-m);
      ParseNatToString(-n);
      assert ParseNat(r[1..]) == -m == -n;
    } else if 0 <= m && 0 <= n {
      ParseNatToString(m);
      ParseNatToString(n);
      assert ParseNat(r) == m == n;
    }
  }
}

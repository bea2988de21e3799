/**
 * SI-suffixed numbers on the command line: `read_si_number` and
 * `multiply_safe`, which src/bin/rsvc.c and src/bin/ripservice.c each carry
 * an identical copy of.
 *
 * A number is read with `strtol` and may be followed by one of the letters
 * k, m, g, t, p, e in either case, scaling it by 10^3 … 10^18, or by such a
 * letter and a lowercase `i`, scaling it by 2^10 … 2^60. The scaling is
 * refused when the product does not fit in an `int64_t`.
 */
module SiNumbers {
  import opened Common
  import Tag

  const TWO_64: int := 0x1_0000_0000_0000_0000

  /** A value as 64-bit two's-complement arithmetic leaves it. */
  function Wrap64(v: int): (r: int)
    ensures INT64_MIN <= r <= INT64_MAX
    ensures (v - r) % TWO_64 == 0
    ensures INT64_MIN <= v <= INT64_MAX ==> r == v
  {
    (v - INT64_MIN) % TWO_64 + INT64_MIN
  }

  function Power(b: nat, n: nat): (r: nat)
  {
    if n == 0 then 1 else b * Power(b, n - 1)
  }

  lemma {:induction false} MulMonotone(a: int, b: int, factor: int)
    requires a <= b && factor > 0
    ensures a * factor <= b * factor
  {
    var d := b - a;
    assert b * factor == a * factor + d * factor;
    assert d * factor >= 0;
  }

  /** `m / factor` bounds exactly the multiples of `factor` that stay at or below `m`. */
  lemma {:induction false} QuotientBound(m: nat, factor: int, v: int)
    requires factor > 0
    ensures v <= m / factor <==> v * factor <= m
  {
    var q := m / factor;
    var rem := m % factor;
    assert m == q * factor + rem && 0 <= rem < factor;
    if v <= q {
      MulMonotone(v, q, factor);
    } else {
      MulMonotone(q + 1, v, factor);
      assert (q + 1) * factor == q * factor + factor;
    }
  }

  /**
   * `multiply_safe` as written: it refuses when `INT64_MAX / factor < value` and
   * otherwise multiplies in 64 bits. For a nonnegative value that is exactly
   * "the product fits"; a negative value is never refused, so a product
   * below INT64_MIN wraps around.
   */
  function MultipliedAsWritten(value: int, factor: int): (r: Option<int>)
    requires factor > 0
    ensures value >= 0 ==> (r.Some? <==> value * factor <= INT64_MAX)
    ensures value >= 0 && r.Some? ==> r.value == value * factor
    ensures value < 0 ==> r.Some?
  {
    QuotientBound(INT64_MAX, factor, value);
    if INT64_MAX / factor < value then None else Some(Wrap64(value * factor))
  }

  /**
   * `multiply_safe` checking both bounds: `-(-INT64_MIN / factor)` is
   * `INT64_MIN / factor` as C's division, which truncates toward zero, computes it.
   */
  function Multiplied(value: int, factor: int): (r: Option<int>)
    requires factor > 0
    ensures r.Some? <==> INT64_MIN <= value * factor <= INT64_MAX
    ensures r.Some? ==> r.value == value * factor
  {
    QuotientBound(INT64_MAX, factor, value);
    QuotientBound(-INT64_MIN, factor, -value);
    if INT64_MAX / factor < value || value < -(-INT64_MIN / factor) then None else Some(value * factor)
  }

  /** A negative number with a large suffix: `multiply_safe` wraps it to a positive product. */
  lemma {:induction false} MultiplyAsWrittenWraps()
    ensures MultipliedAsWritten(-10, 1_000_000_000_000_000_000) == Some(8_446_744_073_709_551_616)
    ensures Multiplied(-10, 1_000_000_000_000_000_000) == None
  {
    assert -10 * 1_000_000_000_000_000_000 - INT64_MIN == -776_627_963_145_224_192;
    assert (-776_627_963_145_224_192) % TWO_64 == 17_670_116_110_564_327_424;
  }

  /**
   * The scale of a suffix letter, in either case: 10^3 … 10^18, or with
   * `binary` (an `i` after the letter) 2^10 … 2^60; none for any other letter.
   */
  function SiFactor(c: char, binary: bool): (r: Option<int>)
    ensures r.Some? ==> r.value > 0
  {
    match Tag.Lower(c)
    case 'k' => Some(if binary then 0x400 else 1_000)
    case 'm' => Some(if binary then 0x10_0000 else 1_000_000)
    case 'g' => Some(if binary then 0x4000_0000 else 1_000_000_000)
    case 't' => Some(if binary then 0x100_0000_0000 else 1_000_000_000_000)
    case 'p' => Some(if binary then 0x4_0000_0000_0000 else 1_000_000_000_000_000)
    case 'e' => Some(if binary then 0x1000_0000_0000_0000 else 1_000_000_000_000_000_000)
    case _ => None
  }

  const Letters: string := "kmgtpe"
  const UpperLetters: string := "KMGTPE"

  /** The k-th suffix letter, in either case, scales by 1000^(k+1), or 1024^(k+1) with an `i`. */
  lemma {:induction false} SiFactorScales(k: nat)
    requires k < 6
    ensures SiFactor(Letters[k], false) == SiFactor(UpperLetters[k], false) == Some(Power(1000, k + 1))
    ensures SiFactor(Letters[k], true) == SiFactor(UpperLetters[k], true) == Some(Power(1024, k + 1))
  {
    assert Power(1000, 1) == 1_000 && Power(1024, 1) == 0x400;
    assert Power(1000, 2) == 1_000_000 && Power(1024, 2) == 0x10_0000;
    assert Power(1000, 3) == 1_000_000_000 && Power(1024, 3) == 0x4000_0000;
    assert Power(1000, 4) == 1_000_000_000_000 && Power(1024, 4) == 0x100_0000_0000;
    assert Power(1000, 5) == 1_000_000_000_000_000 && Power(1024, 5) == 0x4_0000_0000_0000;
    assert Power(1000, 6) == 1_000_000_000_000_000_000 && Power(1024, 6) == 0x1000_0000_0000_0000;
  }

  /** Only the twelve suffix letters scale. */
  lemma {:induction false} SiFactorOthers(c: char, binary: bool)
    requires c !in Letters && c !in UpperLetters
    ensures SiFactor(c, binary) == None
  {
    assert Letters == ['k', 'm', 'g', 't', 'p', 'e'];
    assert UpperLetters == ['K', 'M', 'G', 'T', 'P', 'E'];
  }

  /** The product of a scaling, as written (`checked` false) or with both bounds checked. */
  function Scaled(value: int, factor: int, checked: bool): (r: Option<int>)
    requires factor > 0
  {
    if checked then Multiplied(value, factor) else MultipliedAsWritten(value, factor)
  }

  /**
   * `read_si_number`: whether it succeeds, and what it leaves in `*out`
   * either way (the `strtol` value when the suffix is refused). After the
   * number comes nothing, a single letter, or a letter and a lowercase `i`.
   */
  function SiNumber(s: string, checked: bool): (r: (bool, int))
    ensures INT64_MIN <= r.1 <= INT64_MAX
  {
    var v := StrTol(s).0;
    var tail := s[StrTol(s).1..];
    if tail == [] then (true, v)
    else if |tail| == 1 || (|tail| == 2 && tail[1] == 'i') then
      match SiFactor(tail[0], |tail| == 2)
      case None => (false, v)
      case Some(factor) =>
        match Scaled(v, factor, checked)
        case None => (false, v)
        case Some(p) => (true, p)
    else (false, v)
  }

  lemma {:induction false} SpanStops(s: string, t: string, p: char -> bool)
    requires forall k :: 0 <= k < |s| ==> p(s[k])
    requires t == [] || !p(t[0])
    ensures Span(s + t, p) == |s|
    decreases |s|
  {
    if s == [] {
      assert s + t == t;
    } else {
      var u := s + t;
      assert u[0] == s[0] && u[1..] == s[1..] + t;
      SpanStops(s[1..], t, p);
    }
  }

  /** A run of digits followed by a non-digit: no white space, and the digit run ends where the tail starts. */
  lemma {:induction false} DigitsThenTail(d: string, t: string)
    requires d != [] && AllDigits(d)
    requires t == [] || !IsDigit(t[0])
    ensures Span(d + t, IsSpace) == 0
    ensures Span(d + t, IsDigit) == |d| && (d + t)[..|d|] == d
  {
    assert (d + t)[0] == d[0];
    SpanStops(d, t, IsDigit);
  }

  /** `strtol` on digits and a tail: the digits' value, ending where the tail starts. */
  lemma {:induction false} StrTolDigits(m: string, t: string)
    requires m != [] && AllDigits(m) && DecimalValue(m) <= INT64_MAX
    requires t == [] || !IsDigit(t[0])
    ensures StrTol(m + t) == (DecimalValue(m), |m|)
  {
    var s := m + t;
    DigitsThenTail(m, t);
    assert s[0..] == s;
    assert s[0] == m[0] && IsDigit(s[0]);
    var n: int := DecimalValue(m);
    assert Clamp(n, INT64_MIN, INT64_MAX) == n;
  }

  /** `strtol` on '-', digits and a tail: the negated value, ending where the tail starts. */
  lemma {:induction false} StrTolMinus(m: string, t: string)
    requires m != [] && AllDigits(m) && DecimalValue(m) <= -INT64_MIN
    requires t == [] || !IsDigit(t[0])
    ensures StrTol(['-'] + (m + t)).0 == -(DecimalValue(m) as int)
    ensures StrTol(['-'] + (m + t)).1 == 1 + |m|
  {
    var s := ['-'] + (m + t);
    assert s[0] == '-' && s[1..] == m + t;
    assert Span(s, IsSpace) == 0;
    var rest := s[Span(s, IsSpace)..];
    assert rest == s;
    DigitsThenTail(m, t);
    assert Span(rest[1..], IsDigit) == |m| && rest[1..][..|m|] == m;
    var n: int := DecimalValue(m);
    assert Clamp(-n, INT64_MIN, INT64_MAX) == -n;
    assert rest != [] && rest[0] == '-';
  }

  /** `strtol` reads a spelled-out 64-bit number back and stops where a non-digit follows it. */
  lemma {:induction false} StrTolStopsAtTail(v: int, t: string)
    requires INT64_MIN <= v <= INT64_MAX
    requires t == [] || !IsDigit(t[0])
    ensures StrTol(SignedDecimal(v) + t) == (v, |SignedDecimal(v)|)
  {
    var d := SignedDecimal(v);
    if v < 0 {
      var m := d[1..];
      assert d == ['-'] + m;
      assert d + t == ['-'] + (m + t);
      StrTolMinus(m, t);
    } else {
      StrTolDigits(d, t);
    }
  }

  /** A plain number reads as itself. */
  lemma {:induction false} SiNumberPlain(v: int, checked: bool)
    requires INT64_MIN <= v <= INT64_MAX
    ensures SiNumber(SignedDecimal(v), checked) == (true, v)
  {
    StrTolStopsAtTail(v, []);
    assert SignedDecimal(v) + [] == SignedDecimal(v);
  }

  /** The text of a number followed by a suffix letter, and an `i` when `binary`. */
  function Suffixed(v: int, letter: char, binary: bool): string
  {
    SignedDecimal(v) + [letter] + (if binary then "i" else "")
  }

  /** The outcome of scaling `v` by `factor`: the product, or failure leaving `v`. */
  function ScaledRead(v: int, factor: int, checked: bool): (bool, int)
    requires factor > 0
  {
    match Scaled(v, factor, checked)
    case None => (false, v)
    case Some(p) => (true, p)
  }

  lemma {:induction false} SuffixedRead(v: int, letter: char, binary: bool, checked: bool)
    requires INT64_MIN <= v <= INT64_MAX && SiFactor(letter, binary).Some?
    ensures SiNumber(Suffixed(v, letter, binary), checked) == ScaledRead(v, SiFactor(letter, binary).value, checked)
  {
    var tail := [letter] + (if binary then "i" else "");
    assert Suffixed(v, letter, binary) == SignedDecimal(v) + tail;
    StrTolStopsAtTail(v, tail);
    assert Suffixed(v, letter, binary)[|SignedDecimal(v)|..] == tail;
  }

  /**
   * A number followed by a suffix letter (and an `i` when `binary`) scales
   * by the suffix's factor when the product fits in 64 bits, and fails,
   * leaving the number, when it does not.
   */
  lemma {:induction false} SiNumberScales(v: int, letter: char, binary: bool)
    requires INT64_MIN <= v <= INT64_MAX && SiFactor(letter, binary).Some?
    ensures var factor := SiFactor(letter, binary).value;
      SiNumber(Suffixed(v, letter, binary), true) ==
        if INT64_MIN <= v * factor <= INT64_MAX then (true, v * factor) else (false, v)
  {
    SuffixedRead(v, letter, binary, true);
  }

  /** For a nonnegative number, the copies as written agree: they fail exactly when the product overflows. */
  lemma {:induction false} SiNumberScalesAsWritten(v: nat, letter: char, binary: bool)
    requires v <= INT64_MAX && SiFactor(letter, binary).Some?
    ensures var factor := SiFactor(letter, binary).value;
      SiNumber(Suffixed(v, letter, binary), false) ==
        if v * factor <= INT64_MAX then (true, v * factor) else (false, v)
  {
    SuffixedRead(v, letter, binary, false);
  }

  /**
   * Any other tail fails: more than two characters, two whose second is not
   * a lowercase `i`, or a letter that is not a suffix.
   */
  lemma {:induction false} SiNumberOtherTails(v: int, t: string, checked: bool)
    requires INT64_MIN <= v <= INT64_MAX
    requires t != [] && !IsDigit(t[0])
    requires |t| > 2 || (|t| == 2 && t[1] != 'i') || (t[0] !in Letters && t[0] !in UpperLetters)
    ensures !SiNumber(SignedDecimal(v) + t, checked).0
  {
    StrTolStopsAtTail(v, t);
    assert (SignedDecimal(v) + t)[|SignedDecimal(v)|..] == t;
    if t[0] !in Letters && t[0] !in UpperLetters {
      SiFactorOthers(t[0], |t| == 2);
    }
  }

  /**
   * "-10e" as the copies are written: -10·10^18 wraps to a positive
   * 8446744073709551616, and the read succeeds; checking both bounds refuses it.
   */
  lemma {:induction false} NegativeWrapsAsWritten(s: string)
    requires s == Suffixed(-10, 'e', false)
    ensures SiNumber(s, false) == (true, 8_446_744_073_709_551_616)
    ensures SiNumber(s, true) == (false, -10)
  {
    SuffixedRead(-10, 'e', false, false);
    SuffixedRead(-10, 'e', false, true);
    MultiplyAsWrittenWraps();
  }

  /** The text of that example. */
  lemma {:induction false} NegativeWrapsText()
    ensures Suffixed(-10, 'e', false) == "-10e"
  {
    assert SignedDecimal(-10) == "-10";
  }

  /** `multiply_safe`, with the product written back to `*value` only on success. */
  method MultiplySafe(value: int, factor: int) returns (ok: bool, out: int)
    requires factor > 0
    ensures ok <==> INT64_MIN <= value * factor <= INT64_MAX
    ensures out == if ok then value * factor else value
  {
    QuotientBound(INT64_MAX, factor, value);
    QuotientBound(-INT64_MIN, factor, -value);
    if INT64_MAX / factor < value || value < -(-INT64_MIN / factor) {
      return false, value;
    }
    return true, value * factor;
  }

  /** `read_si_number`: the success flag and the value stored through `out`. */
  method ReadSiNumber(s: string) returns (ok: bool, out: int)
    ensures (ok, out) == SiNumber(s, true)
  {
    var read := StrTol(s);
    out := read.0;
    var end := s[read.1..];
    if end == [] {
      return true, out;
    } else if |end| == 1 || (|end| == 2 && end[1] == 'i') {
      var factor := SiFactor(end[0], |end| == 2);
      if factor.Some? {
        ok, out := MultiplySafe(out, factor.value);
        return;
      }
    }
    return false, out;
  }
}

/**
 * Shared vocabulary of the Rip Service model: bytes, optional values, the
 * success-or-error result that replaces the C code's `rsvc_done_t fail`
 * callbacks, fixed-width integer encodings and decimal formatting of numbers
 * as `printf("%zu")` / `printf("%0*zu")` produce them.
 */
module Common {

  /** An unsigned 8-bit value (`uint8_t`). */
  type byte = x: int | 0 <= x < 256

  datatype Option<T> = None | Some(value: T)

  /** A successful value, or the message the C code hands to its `fail` callback. */
  datatype Result<T> = Ok(value: T) | Err(msg: string)

  /** `struct rsvc_image_info`, filled in by the image probes. */
  datatype ImageInfo = ImageInfo(width: nat, height: nat, depth: nat, paletteSize: nat)

  /** The message of a read that ends early (`rsvc_read` is not part of this model). */
  const ShortRead: string := "unexpected eof"

  /** What `%s` prints for a NUL-terminated byte string: the characters before the first NUL. */
  function CString(bytes: seq<byte>): (r: string)
    ensures |r| <= |bytes|
    ensures forall i :: 0 <= i < |r| ==> r[i] as int == bytes[i] && bytes[i] != 0
    ensures |r| < |bytes| ==> bytes[|r|] == 0
  {
    if bytes == [] || bytes[0] == 0 then [] else [bytes[0] as char] + CString(bytes[1..])
  }

  const UINT32_LIMIT: int := 0x1_0000_0000
  const INT64_MAX: int := 0x7fff_ffff_ffff_ffff
  const INT64_MIN: int := -0x8000_0000_0000_0000

  /** Reads `s` as a big-endian unsigned integer. */
  function BigEndian(s: seq<byte>): (r: nat)
    ensures r < Pow256(|s|)
  {
    if s == [] then 0 else BigEndian(s[..|s| - 1]) * 256 + s[|s| - 1]
  }

  /** Reads `s` as a little-endian unsigned integer. */
  function LittleEndian(s: seq<byte>): (r: nat)
    ensures r < Pow256(|s|)
  {
    if s == [] then 0 else s[0] + 256 * LittleEndian(s[1..])
  }

  function Pow256(n: nat): (r: nat)
    ensures r >= 1
  {
    if n == 0 then 1 else 256 * Pow256(n - 1)
  }

  /** The `n` low-order bytes of `v`, least significant first (`v & 0xff`, `(v >> 8) & 0xff`, ...). */
  function LittleEndianBytes(v: nat, n: nat): (r: seq<byte>)
    ensures |r| == n
  {
    if n == 0 then [] else [v % 256] + LittleEndianBytes(v / 256, n - 1)
  }

  /** The `n` low-order bytes of `v`, most significant first. */
  function BigEndianBytes(v: nat, n: nat): (r: seq<byte>)
    ensures |r| == n
  {
    if n == 0 then [] else BigEndianBytes(v / 256, n - 1) + [v % 256]
  }

  lemma {:induction false} LittleEndianRoundTrip(v: nat, n: nat)
    requires v < Pow256(n)
    ensures LittleEndian(LittleEndianBytes(v, n)) == v
  {
    if n > 0 {
      LittleEndianRoundTrip(v / 256, n - 1);
      assert LittleEndianBytes(v, n)[1..] == LittleEndianBytes(v / 256, n - 1);
    }
  }

  /** Writing the `n` low-order bytes keeps `v` modulo 256^n, as a store into a narrower integer does. */
  lemma {:induction false} LittleEndianTruncates(v: nat, n: nat)
    ensures LittleEndian(LittleEndianBytes(v, n)) == v % Pow256(n)
  {
    if n > 0 {
      LittleEndianTruncates(v / 256, n - 1);
      assert LittleEndianBytes(v, n)[1..] == LittleEndianBytes(v / 256, n - 1);
      ModCombine(v, Pow256(n - 1));
    }
  }

  /** The remainder modulo 256 * p splits into the low byte and the rest modulo p. */
  lemma {:induction false} ModCombine(v: nat, p: nat)
    requires p >= 1
    ensures v % (256 * p) == v % 256 + 256 * ((v / 256) % p)
  {
    var q, b := (v / 256) / p, (v / 256) % p;
    assert v / 256 == p * q + b;
    assert v == 256 * (v / 256) + v % 256;
    assert v == (256 * p) * q + (256 * b + v % 256) by {
      assert 256 * (p * q + b) == (256 * p) * q + 256 * b;
    }
    assert 256 * b + v % 256 < 256 * p by {
      assert b <= p - 1;
      assert 256 * b <= 256 * (p - 1) == 256 * p - 256;
    }
    ModUnique(v, 256 * p, q, 256 * b + v % 256);
  }

  /** Euclidean division is unique: a quotient and remainder in range are the ones `/` and `%` give. */
  lemma {:induction false} ModUnique(v: nat, m: nat, q: nat, r: nat)
    requires m > 0 && v == m * q + r && r < m
    ensures v % m == r && v / m == q
  {
    var q', r' := v / m, v % m;
    assert v == m * q' + r';
    if q' > q {
      MulGap(m, q', q);
      assert false;
    } else if q' < q {
      MulGap(m, q, q');
      assert false;
    }
  }

  lemma {:induction false} MulGap(m: nat, a: nat, b: nat)
    requires a > b
    ensures m * a >= m * b + m
  {
    var d: nat := a - b - 1;
    assert a == b + 1 + d;
    assert m * a == m * b + m * 1 + m * d by {
      assert m * (b + 1 + d) == m * b + m * 1 + m * d;
    }
    assert m * d >= 0;
  }

  lemma {:induction false} BigEndianRoundTrip(v: nat, n: nat)
    requires v < Pow256(n)
    ensures BigEndian(BigEndianBytes(v, n)) == v
  {
    if n > 0 {
      BigEndianRoundTrip(v / 256, n - 1);
      var s := BigEndianBytes(v, n);
      assert s[..|s| - 1] == BigEndianBytes(v / 256, n - 1);
    }
  }

  /** The decimal digits of a character, or -1. */
  function DigitValue(c: char): int
  {
    if '0' <= c <= '9' then c as int - '0' as int else -1
  }

  predicate IsDigit(c: char)
  {
    '0' <= c <= '9'
  }

  predicate AllDigits(s: string)
  {
    forall i :: 0 <= i < |s| ==> IsDigit(s[i])
  }

  /** `printf("%zu", n)`: the shortest decimal spelling of `n`. */
  function Decimal(n: nat): (r: string)
    ensures |r| >= 1 && AllDigits(r)
    ensures r[0] == '0' ==> n == 0
  {
    if n < 10 then [('0' as int + n) as char]
    else Decimal(n / 10) + [('0' as int + n % 10) as char]
  }

  /** Reads a string of decimal digits. */
  function DecimalValue(s: string): nat
    requires AllDigits(s)
  {
    if s == [] then 0 else DecimalValue(s[..|s| - 1]) * 10 + DigitValue(s[|s| - 1])
  }

  lemma {:induction false} DecimalRoundTrip(n: nat)
    ensures DecimalValue(Decimal(n)) == n
  {
    var r := Decimal(n);
    if n >= 10 {
      DecimalRoundTrip(n / 10);
      assert r[..|r| - 1] == Decimal(n / 10);
    }
  }

  /** `printf("%d", v)`: a '-' for negative values, then the decimal spelling of the magnitude. */
  function SignedDecimal(v: int): (r: string)
    ensures |r| >= 1 && (r[0] == '-' <==> v < 0)
    ensures v >= 0 ==> AllDigits(r) && DecimalValue(r) == v
    ensures v < 0 ==> AllDigits(r[1..]) && DecimalValue(r[1..]) == -v
  {
    if v < 0 then
      DecimalRoundTrip(-v);
      assert ("-" + Decimal(-v))[1..] == Decimal(-v);
      "-" + Decimal(-v)
    else
      DecimalRoundTrip(v);
      Decimal(v)
  }

  /** `printf("%0*zu", width, n)`: the decimal spelling, left-padded with '0' to `width`. */
  function ZeroPadded(n: nat, width: nat): (r: string)
    ensures |r| >= width && AllDigits(r)
    ensures DecimalValue(r) == n
  {
    DecimalRoundTrip(n);
    LeadingZeros(Decimal(n), width)
  }

  function LeadingZeros(s: string, width: nat): (r: string)
    requires AllDigits(s)
    ensures |r| >= width && |r| >= |s| && AllDigits(r)
    ensures DecimalValue(r) == DecimalValue(s)
    decreases width - |s|
  {
    if |s| >= width then s
    else
      ZeroPrefixValue(s);
      LeadingZeros("0" + s, width)
  }

  lemma {:induction false} ZeroPrefixValue(s: string)
    requires AllDigits(s)
    ensures AllDigits("0" + s) && DecimalValue("0" + s) == DecimalValue(s)
  {
    if s != [] {
      var t := "0" + s;
      assert t[..|t| - 1] == "0" + s[..|s| - 1];
      ZeroPrefixValue(s[..|s| - 1]);
    }
  }

  /** A lower-case hexadecimal digit. */
  function HexDigit(n: nat): (c: char)
    requires n < 16
    ensures HexDigitValue(c) == n
  {
    if n < 10 then ('0' as int + n) as char else ('a' as int + n - 10) as char
  }

  /** The value of a lower-case hexadecimal digit, or -1. */
  function HexDigitValue(c: char): int
  {
    if '0' <= c <= '9' then c as int - '0' as int
    else if 'a' <= c <= 'f' then c as int - 'a' as int + 10
    else -1
  }

  /** `printf("%02x", b)`. */
  function Hex2(b: byte): (r: string)
    ensures |r| == 2 && HexDigitValue(r[0]) * 16 + HexDigitValue(r[1]) == b
  {
    [HexDigit(b / 16), HexDigit(b % 16)]
  }

  /** Whether `p` is a prefix of `s`. */
  predicate StartsWith(s: string, p: string)
  {
    |p| <= |s| && s[..|p|] == p
  }

  /** The index of the first occurrence of `c`, as `strchr` finds it. */
  function FirstIndex(s: string, c: char): (r: Option<nat>)
    ensures r.Some? ==> r.value < |s| && s[r.value] == c && c !in s[..r.value]
    ensures r.None? ==> c !in s
  {
    if s == [] then None
    else if s[0] == c then Some(0)
    else match FirstIndex(s[1..], c)
      case None => None
      case Some(i) => Some(i + 1)
  }

  /** The index of the last occurrence of `c`, as `strrchr` finds it. */
  function LastIndex(s: string, c: char): (r: Option<nat>)
    ensures r.Some? ==> r.value < |s| && s[r.value] == c && c !in s[r.value + 1..]
    ensures r.None? ==> c !in s
  {
    if s == [] then None
    else if s[|s| - 1] == c then Some(|s| - 1)
    else
      var r := LastIndex(s[..|s| - 1], c);
      assert r.None? ==> c !in s[..|s| - 1];
      r
  }

  /** `c` at `i` and nowhere before it: `strchr` finds it there. */
  lemma {:induction false} FirstIndexIs(s: string, c: char, i: nat)
    requires i < |s| && s[i] == c && c !in s[..i]
    ensures FirstIndex(s, c) == Some(i)
  {
    assert forall k :: 0 <= k < i ==> s[k] != c by {
      forall k | 0 <= k < i
        ensures s[k] != c
      {
        assert s[k] == s[..i][k];
      }
    }
    var r := FirstIndex(s, c);
    assert r.Some?;
    assert forall k :: 0 <= k < r.value ==> s[k] != c by {
      forall k | 0 <= k < r.value
        ensures s[k] != c
      {
        assert s[k] == s[..r.value][k];
      }
    }
  }

  /** `c` at `i` and nowhere after it: `strrchr` finds it there. */
  lemma {:induction false} LastIndexIs(s: string, c: char, i: nat)
    requires i < |s| && s[i] == c && c !in s[i + 1..]
    ensures LastIndex(s, c) == Some(i)
  {
    assert forall k :: i < k < |s| ==> s[k] != c by {
      forall k | i < k < |s|
        ensures s[k] != c
      {
        assert s[k] == s[i + 1..][k - i - 1];
      }
    }
    var r := LastIndex(s, c);
    assert r.Some?;
    assert forall k :: r.value < k < |s| ==> s[k] != c by {
      forall k | r.value < k < |s|
        ensures s[k] != c
      {
        assert s[k] == s[r.value + 1..][k - r.value - 1];
      }
    }
  }

  /**
   * The elements a for-each loop hands to its block when the block calls
   * `rsvc_stop_t` on the first element for which `stops` holds: everything
   * up to and including that element.
   */
  function VisitedUntil<T>(es: seq<T>, stops: T -> bool): (r: seq<T>)
    ensures |r| <= |es| && r == es[..|r|]
    ensures forall i :: 0 <= i < |r| - 1 ==> !stops(r[i])
    ensures |r| < |es| ==> r != [] && stops(r[|r| - 1])
    ensures |r| == |es| ==> forall i :: 0 <= i < |es| - 1 ==> !stops(es[i])
  {
    if es == [] then []
    else if stops(es[0]) then [es[0]]
    else
      var rest := VisitedUntil(es[1..], stops);
      assert [es[0]] + rest == es[..|rest| + 1];
      [es[0]] + rest
  }

  /** The for-each visits up to the first entry that stops, or everything when none does. */
  lemma {:induction false} VisitedUntilAt<T>(es: seq<T>, stops: T -> bool, i: nat)
    requires i <= |es| && forall k :: 0 <= k < i ==> !stops(es[k])
    requires i < |es| ==> stops(es[i])
    ensures VisitedUntil(es, stops) == if i < |es| then es[..i + 1] else es
  {
    if i > 0 {
      VisitedUntilAt(es[1..], stops, i - 1);
      if i < |es| {
        assert es[1..][..i] == es[1..i + 1];
        assert [es[0]] + es[1..i + 1] == es[..i + 1];
      } else {
        assert [es[0]] + es[1..] == es;
      }
    } else if es != [] {
      assert es[..1] == [es[0]];
    }
  }

  /** The block stops at none of the entries: the for-each runs to the end. */
  predicate NeverStops<T>(es: seq<T>, stops: T -> bool)
  {
    forall k | 0 <= k < |es| :: !stops(es[k])
  }

  /** One more entry at which the block does not stop. */
  lemma {:induction false} NeverStopsNext<T>(es: seq<T>, e: T, stops: T -> bool)
    requires NeverStops(es, stops) && !stops(e)
    ensures NeverStops(es + [e], stops)
  {
    forall k | 0 <= k < |es| + 1
      ensures !stops((es + [e])[k])
    {
      if k < |es| {
        assert (es + [e])[k] == es[k];
      }
    }
  }

  /** The `j`-th entry of `ys`, at which the block does not stop, extends a for-each that has visited `head + ys[..j]`. */
  lemma {:induction false} NeverStopsWithin<T>(head: seq<T>, ys: seq<T>, j: nat, stops: T -> bool, visited: seq<T>)
    requires j < |ys| && !stops(ys[j])
    requires visited == head + ys[..j] && NeverStops(visited, stops)
    ensures visited + [ys[j]] == head + ys[..j + 1] && NeverStops(visited + [ys[j]], stops)
  {
    assert ys[..j + 1] == ys[..j] + [ys[j]];
    NeverStopsNext(visited, ys[j], stops);
  }

  /** A for-each whose visited entries start the list, ending at the first that stops, visits exactly those. */
  lemma {:induction false} StopsAfter<T>(es: seq<T>, before: seq<T>, last: T, stops: T -> bool)
    requires |before| < |es| && es[..|before| + 1] == before + [last]
    requires NeverStops(before, stops)
    requires stops(last)
    ensures VisitedUntil(es, stops) == before + [last] && !NeverStops(es, stops)
  {
    assert es[|before|] == es[..|before| + 1][|before|];
    forall k | 0 <= k <= |before|
      ensures es[k] == (before + [last])[k]
    {
      assert es[k] == es[..|before| + 1][k];
    }
    VisitedUntilAt(es, stops, |before|);
  }

  /** A for-each whose block never stops visits every entry. */
  lemma {:induction false} StopsNever<T>(es: seq<T>, stops: T -> bool)
    requires NeverStops(es, stops)
    ensures VisitedUntil(es, stops) == es
  {
    VisitedUntilAt(es, stops, |es|);
  }

  /**
   * A for-each over a list that starts with `head + ys` stops at the `j`-th
   * entry of `ys` when the block stops there and nowhere before.
   */
  lemma {:induction false} StopsWithin<T>(es: seq<T>, head: seq<T>, ys: seq<T>, j: nat, stops: T -> bool)
    requires |head + ys| <= |es| && es[..|head + ys|] == head + ys
    requires j < |ys| && stops(ys[j]) && NeverStops(head + ys[..j], stops)
    ensures VisitedUntil(es, stops) == head + ys[..j] + [ys[j]] && !NeverStops(es, stops)
  {
    var before := head + ys[..j];
    assert es[..|before| + 1] == before + [ys[j]] by {
      assert es[..|before| + 1] == (head + ys)[..|before| + 1];
      assert (head + ys)[..|before| + 1] == before + [ys[j]];
    }
    StopsAfter(es, before, ys[j], stops);
  }

  /** `isspace` in the C locale. */
  predicate IsSpace(c: char)
  {
    c == ' ' || c == '\t' || c == '\n' || c == '\U{000B}' || c == '\U{000C}' || c == '\r'
  }

  /** The number of leading characters of `s` that satisfy `p`. */
  function Span(s: string, p: char -> bool): (n: nat)
    ensures n <= |s| && (n < |s| ==> !p(s[n]))
    ensures forall k :: 0 <= k < n ==> p(s[k])
  {
    if s == [] || !p(s[0]) then 0 else 1 + Span(s[1..], p)
  }

  function Clamp(v: int, lo: int, hi: int): int
    requires lo <= hi
  {
    if v < lo then lo else if v > hi then hi else v
  }

  /**
   * `strtol(s, &end, 10)` on a 64-bit `long`: leading white space, an
   * optional sign and the longest run of decimal digits; an out-of-range
   * value saturates. The result pairs the value with the offset of `end`,
   * which is 0 (and the value 0) when no digit follows the sign.
   */
  function StrTol(s: string): (r: (int, nat))
    ensures r.1 <= |s| && INT64_MIN <= r.0 <= INT64_MAX
    ensures r.1 == 0 ==> r.0 == 0
    ensures r.1 > 0 ==> IsDigit(s[r.1 - 1]) && (r.1 == |s| || !IsDigit(s[r.1]))
  {
    var white := Span(s, IsSpace);
    var rest := s[white..];
    var sign := if rest != [] && (rest[0] == '+' || rest[0] == '-') then 1 else 0;
    var digits := Span(rest[sign..], IsDigit);
    if digits == 0 then (0, 0)
    else
      var magnitude: int := DecimalValue(rest[sign..][..digits]);
      var v := if sign == 1 && rest[0] == '-' then -magnitude else magnitude;
      (Clamp(v, INT64_MIN, INT64_MAX), white + sign + digits)
  }

  /** `strtol` reads back every 64-bit value that `printf("%ld")` spells. */
  lemma {:induction false} StrTolReadsSignedDecimal(v: int)
    requires INT64_MIN <= v <= INT64_MAX
    ensures StrTol(SignedDecimal(v)) == (v, |SignedDecimal(v)|)
  {
    var s := SignedDecimal(v);
    assert Span(s, IsSpace) == 0;
    if v < 0 {
      assert s[1..] == s[0..][1..];
      SpanAll(s[1..], IsDigit);
      assert s[1..][..|s| - 1] == s[1..];
    } else {
      SpanAll(s, IsDigit);
      assert s[0..][0..] == s && s[..|s|] == s;
    }
  }

  lemma {:induction false} SpanAll(s: string, p: char -> bool)
    requires forall k :: 0 <= k < |s| ==> p(s[k])
    ensures Span(s, p) == |s|
  {
  }
}

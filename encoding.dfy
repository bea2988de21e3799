/**
 * Text decoders used by the ID3 reader (src/rsvc/encoding.c): Latin-1,
 * UTF-16 (with and without a byte-order mark) and the UTF-8 check. Each
 * decoder produces UTF-8 bytes; errors carry the message "invalid UTF-16
 * data" or "invalid UTF-8 data".
 *
 * The decoders write into a buffer through an advancing output index, so they
 * are methods over an `array`, each proved against a function that defines its result.
 * Three places where the source departs from RFC 3629 / RFC 2781 are modelled
 * twice: the code as written (functions suffixed `AsWritten`, with the input
 * that shows the difference) and the intended behaviour, which the methods and
 * the rest of the model use.
 */
module Encoding {
  import opened Common

  // ---------------------------------------------------------------------
  // Writing one code point as UTF-8 (utf8_out)
  // ---------------------------------------------------------------------

  /** `utf8_out` as written: the lead byte takes the LOW-order bits of the rune. */
  function Utf8OutAsWritten(rune: nat): (r: seq<byte>)
  {
    if rune < 0x80 then [rune]
    else if rune < 0x800 then [0xc0 + rune % 0x20, 0x80 + (rune / 64) % 64]
    else if rune < 0x10000 then
      [0xe0 + rune % 0x10, 0x80 + (rune / 64) % 64, 0x80 + (rune / 4096) % 64]
    else if rune < 0x110000 then
      [0xf0 + rune % 8, 0x80 + (rune / 64) % 64, 0x80 + (rune / 4096) % 64,
       0x80 + (rune / 262144) % 64]
    else []
  }

  /** The number of bytes `utf8_out` writes for a rune: 1, 2, 3, 4, or none above U+10FFFF. */
  function Utf8Length(rune: nat): nat
  {
    if rune < 0x80 then 1
    else if rune < 0x800 then 2
    else if rune < 0x10000 then 3
    else if rune < 0x110000 then 4
    else 0
  }

  /** UTF-8 as section 3 of RFC 3629 lays it out: the lead byte carries the high-order bits. */
  function Utf8Encode(rune: nat): (r: seq<byte>)
    ensures |r| == Utf8Length(rune)
  {
    if rune < 0x80 then [rune]
    else if rune < 0x800 then [0xc0 + rune / 64, 0x80 + rune % 64]
    else if rune < 0x10000 then
      [0xe0 + rune / 4096, 0x80 + (rune / 64) % 64, 0x80 + rune % 64]
    else if rune < 0x110000 then
      [0xf0 + rune / 262144, 0x80 + (rune / 4096) % 64, 0x80 + (rune / 64) % 64,
       0x80 + rune % 64]
    else []
  }

  /** The code point an encoded sequence stands for, read back per section 3 of RFC 3629. */
  function Utf8Value(enc: seq<byte>): int
  {
    if |enc| == 1 then enc[0]
    else if |enc| == 2 then (enc[0] as int - 0xc0) * 64 + (enc[1] as int - 0x80)
    else if |enc| == 3 then
      (enc[0] as int - 0xe0) * 4096 + (enc[1] as int - 0x80) * 64 + (enc[2] as int - 0x80)
    else if |enc| == 4 then
      (enc[0] as int - 0xf0) * 262144 + (enc[1] as int - 0x80) * 4096
      + (enc[2] as int - 0x80) * 64 + (enc[3] as int - 0x80)
    else -1
  }

  /** The intended encoding is invertible: every code point below 0x110000 reads back as itself. */
  lemma {:induction false} Utf8EncodeRoundTrip(rune: nat)
    requires rune < 0x110000
    ensures Utf8Value(Utf8Encode(rune)) == rune
  {
    var a, b, c := rune / 262144, (rune / 4096) % 64, (rune / 64) % 64;
    if rune >= 0x10000 {
      assert rune / 64 == (rune / 4096) * 64 + c;
      assert rune / 4096 == a * 64 + b;
    } else if rune >= 0x800 {
      assert rune / 64 == (rune / 4096) * 64 + c;
    }
  }

  /** Finding: as written, U+00C9 and U+00E9 are written as the same two bytes. */
  lemma {:induction false} Utf8OutAsWrittenCollides()
    ensures Utf8OutAsWritten(0xc9) == Utf8OutAsWritten(0xe9) == [0xc9, 0x83]
    ensures Utf8Encode(0xe9) == [0xc3, 0xa9] && Utf8Value(Utf8Encode(0xe9)) == 0xe9
    ensures Utf8Value(Utf8OutAsWritten(0xe9)) != 0xe9
  {
  }

  /**
   * Writes the UTF-8 form of `rune` at `buf[out..]`, as `utf8_out` advances
   * its output pointer, and returns the new output index.
   */
  method PutRune(buf: array<byte>, out: nat, rune: nat) returns (next: nat)
    requires out + Utf8Length(rune) <= buf.Length
    modifies buf
    ensures next == out + Utf8Length(rune)
    ensures buf[..next] == old(buf[..out]) + Utf8Encode(rune)
  {
    var enc := Utf8Encode(rune);
    next := out;
    while next < out + |enc|
      invariant out <= next <= out + |enc|
      invariant buf[..next] == old(buf[..out]) + enc[..next - out]
    {
      buf[next] := enc[next - out];
      next := next + 1;
    }
  }

  // ---------------------------------------------------------------------
  // Latin-1 (rsvc_decode_latin1)
  // ---------------------------------------------------------------------

  /** The UTF-8 text of a Latin-1 string: each byte is its own code point. */
  function Latin1Text(data: seq<byte>): seq<byte>
  {
    if data == [] then [] else Latin1Text(data[..|data| - 1]) + Utf8Encode(data[|data| - 1])
  }

  /** The number of bytes with the high bit set. */
  function CountHigh(data: seq<byte>): nat
  {
    if data == [] then 0 else CountHigh(data[..|data| - 1]) + (if data[|data| - 1] >= 0x80 then 1 else 0)
  }

  lemma {:induction false} Latin1Length(data: seq<byte>)
    ensures |Latin1Text(data)| == |data| + CountHigh(data) <= 2 * |data|
  {
    if data != [] {
      Latin1Length(data[..|data| - 1]);
    }
  }

  /** The capacity `rsvc_decode_latin1` allocates for its output, as written. */
  function Latin1CapacityAsWritten(size: nat): int
  {
    2 * size - 1
  }

  /** Finding: one byte with its high bit set already needs more than the allocated capacity. */
  lemma {:induction false} Latin1CapacityAsWrittenOverflows()
    ensures |Latin1Text([0xe9])| == 2 > Latin1CapacityAsWritten(1)
  {
    assert Latin1Text([0xe9]) == Latin1Text([]) + Utf8Encode(0xe9);
  }

  /**
   * Latin-1 decoding never fails; the output buffer holds 2·size bytes, which
   * is always enough (the allocation as written is one byte short).
   */
  method DecodeLatin1(data: seq<byte>) returns (text: seq<byte>)
    ensures text == Latin1Text(data)
    ensures |text| == |data| + CountHigh(data)
  {
    var buf := new byte[2 * |data|];
    var out := 0;
    var i := 0;
    while i < |data|
      invariant 0 <= i <= |data|
      invariant out == |Latin1Text(data[..i])| <= 2 * i
      invariant buf[..out] == Latin1Text(data[..i])
    {
      assert data[..i + 1][..i] == data[..i];
      Latin1Length(data[..i + 1]);
      out := PutRune(buf, out, data[i]);
      i := i + 1;
    }
    assert data[..i] == data;
    text := buf[..out];
    Latin1Length(data);
  }

  // ---------------------------------------------------------------------
  // UTF-16 (rsvc_decode_utf16, _be, _le, _bom)
  // ---------------------------------------------------------------------

  predicate IsHighSurrogate(u: nat) { 0xd800 <= u < 0xdc00 }
  predicate IsLowSurrogate(u: nat) { 0xdc00 <= u < 0xe000 }

  /** The 16-bit code units of an even-length buffer, in the given byte order. */
  function Units(data: seq<byte>, bigEndian: bool): (r: seq<nat>)
    requires |data| % 2 == 0
    ensures |r| == |data| / 2
    ensures forall k :: 0 <= k < |r| ==> r[k] < 0x10000
  {
    if data == [] then []
    else
      [if bigEndian then data[0] as int * 256 + data[1] else data[1] as int * 256 + data[0]]
      + Units(data[2..], bigEndian)
  }

  /** Prefixes successful output with `p`; an error stays an error. */
  function Prepend(p: seq<byte>, r: Result<seq<byte>>): Result<seq<byte>>
  {
    if r.Ok? then Ok(p + r.value) else r
  }

  lemma {:induction false} PrependEmpty(r: Result<seq<byte>>)
    ensures Prepend([], r) == r
  {
    if r.Ok? { assert [] + r.value == r.value; }
  }

  lemma {:induction false} PrependTwice(a: seq<byte>, b: seq<byte>, r: Result<seq<byte>>)
    ensures Prepend(a, Prepend(b, r)) == Prepend(a + b, r)
  {
    if r.Ok? { assert a + (b + r.value) == (a + b) + r.value; }
  }

  const Utf16Error := "invalid UTF-16 data"

  /**
   * The UTF-16 decoding loop as written. `pending` is the saved high
   * surrogate. A pair is combined as ((hi & 0x3ff) << 10) | lo, without
   * adding 0x10000; an ordinary unit after a high surrogate is emitted and the
   * surrogate stays pending.
   */
  function Utf16TextAsWritten(units: seq<nat>, pending: Option<nat>): Result<seq<byte>>
  {
    if units == [] then
      if pending.Some? then Err(Utf16Error) else Ok([])
    else
      var u := units[0];
      match pending
      case Some(h) =>
        if IsHighSurrogate(u) then Err(Utf16Error)
        else if IsLowSurrogate(u) then
          Prepend(Utf8Encode(OrAsWritten((h % 1024) * 1024, u)),
                  Utf16TextAsWritten(units[1..], None))
        else Prepend(Utf8Encode(u), Utf16TextAsWritten(units[1..], pending))
      case None =>
        if IsHighSurrogate(u) then Utf16TextAsWritten(units[1..], Some(u))
        else if IsLowSurrogate(u) then Err(Utf16Error)
        else Prepend(Utf8Encode(u), Utf16TextAsWritten(units[1..], None))
  }

  /** `head | rune` on 32-bit values, as the as-written pair combination computes it. */
  function OrAsWritten(head: nat, lo: nat): nat
    requires head < UINT32_LIMIT && lo < UINT32_LIMIT
  {
    ((head as bv32) | (lo as bv32)) as int
  }

  /** The code point of a surrogate pair, per section 2.2 of RFC 2781. */
  function SurrogatePair(hi: nat, lo: nat): nat
  {
    0x10000 + (hi % 1024) * 1024 + lo % 1024
  }

  /**
   * UTF-16 decoding per section 2.2 of RFC 2781: a high surrogate must be
   * followed by a low one; a lone low surrogate, two high surrogates, a high
   * surrogate followed by anything else and a trailing high surrogate are all
   * errors.
   */
  function Utf16Text(units: seq<nat>, pending: Option<nat>): Result<seq<byte>>
  {
    if units == [] then
      if pending.Some? then Err(Utf16Error) else Ok([])
    else
      var u := units[0];
      match pending
      case Some(h) =>
        if IsLowSurrogate(u) then Prepend(Utf8Encode(SurrogatePair(h, u)), Utf16Text(units[1..], None))
        else Err(Utf16Error)
      case None =>
        if IsHighSurrogate(u) then Utf16Text(units[1..], Some(u))
        else if IsLowSurrogate(u) then Err(Utf16Error)
        else Prepend(Utf8Encode(u), Utf16Text(units[1..], None))
  }

  /** Finding: the pair D83D DE00 (U+1F600) decodes to U+FE00 as written. */
  lemma {:induction false} Utf16PairAsWrittenDiffers()
    ensures Utf16TextAsWritten([0xd83d, 0xde00], None) == Ok(Utf8Encode(0xfe00))
    ensures Utf16Text([0xd83d, 0xde00], None) == Ok(Utf8Encode(0x1f600))
  {
    var s := [0xd83d, 0xde00];
    assert s[1..] == [0xde00] && [0xde00][1..] == [];
    OrPairExample();
    assert (0xd83d % 1024) * 1024 == 0xf400;
    var e := Utf8Encode(0xfe00);
    assert Utf16TextAsWritten([], None) == Ok([]);
    assert Utf16TextAsWritten([0xde00], Some(0xd83d)) == Prepend(e, Ok([]));
    assert e + [] == e;
    assert SurrogatePair(0xd83d, 0xde00) == 0x1f600;
    assert Utf16Text([0xde00], Some(0xd83d)) == Prepend(Utf8Encode(0x1f600), Ok([]));
    assert Utf8Encode(0x1f600) + [] == Utf8Encode(0x1f600);
  }

  lemma {:induction false} OrPairExample()
    ensures OrAsWritten(0xf400, 0xde00) == 0xfe00
  {
    assert (0xf400 as bv32) | (0xde00 as bv32) == 0xfe00;
  }

  /** Finding: as written, a high surrogate followed by 'A' is not an error. */
  lemma {:induction false} Utf16UnpairedAsWrittenAccepted()
    ensures Utf16TextAsWritten([0xd800, 0x41, 0xdc00], None).Ok?
    ensures Utf16Text([0xd800, 0x41, 0xdc00], None).Err?
  {
    var s := [0xd800, 0x41, 0xdc00];
    assert s[1..] == [0x41, 0xdc00] && s[1..][1..] == [0xdc00];
  }

  /** A Unicode scalar value: below 0x110000 and not a surrogate. */
  predicate IsScalar(r: nat)
  {
    r < 0x110000 && !(0xd800 <= r < 0xe000)
  }

  /** UTF-16 encoding of one scalar value, per section 2.1 of RFC 2781. */
  function Utf16EncodeRune(r: nat): (u: seq<nat>)
    requires IsScalar(r)
  {
    if r < 0x10000 then [r]
    else [0xd800 + (r - 0x10000) / 1024, 0xdc00 + (r - 0x10000) % 1024]
  }

  function Utf16Encode(runes: seq<nat>): seq<nat>
    requires forall k :: 0 <= k < |runes| ==> IsScalar(runes[k])
  {
    if runes == [] then [] else Utf16EncodeRune(runes[0]) + Utf16Encode(runes[1..])
  }

  function Utf8Encoded(runes: seq<nat>): seq<byte>
  {
    if runes == [] then [] else Utf8Encode(runes[0]) + Utf8Encoded(runes[1..])
  }

  /** Decoding is the inverse of RFC 2781 encoding: any scalar text comes back as its UTF-8 form. */
  lemma {:induction false} Utf16RoundTrip(runes: seq<nat>)
    requires forall k :: 0 <= k < |runes| ==> IsScalar(runes[k])
    ensures Utf16Text(Utf16Encode(runes), None) == Ok(Utf8Encoded(runes))
  {
    if runes != [] {
      var r := runes[0];
      var rest := Utf16Encode(runes[1..]);
      Utf16RoundTrip(runes[1..]);
      var u := Utf16EncodeRune(r) + rest;
      if r < 0x10000 {
        assert u[1..] == rest;
      } else {
        assert u[1..][1..] == rest;
        assert SurrogatePair(u[0], u[1]) == r;
      }
    }
  }

  /** The surrogate errors of section 2.2 of RFC 2781. */
  lemma {:induction false} Utf16SurrogateErrors(lo: nat, hi: nat, hi2: nat, rest: seq<nat>)
    requires IsLowSurrogate(lo) && IsHighSurrogate(hi) && IsHighSurrogate(hi2)
    ensures Utf16Text([lo] + rest, None).Err?
    ensures Utf16Text([hi, hi2] + rest, None).Err?
    ensures Utf16Text([hi], None).Err?
  {
    assert ([hi, hi2] + rest)[1..] == [hi2] + rest;
    assert [hi][1..] == [];
  }

  /**
   * Decodes UTF-16 in the given byte order, one code unit per iteration,
   * keeping the pending high surrogate as the loop state.
   */
  method DecodeUtf16(data: seq<byte>, bigEndian: bool) returns (r: Result<seq<byte>>)
    ensures |data| % 2 == 1 ==> r == Err(Utf16Error)
    ensures |data| % 2 == 0 ==> r == Utf16Text(Units(data, bigEndian), None)
  {
    if |data| % 2 == 1 {
      return Err(Utf16Error);
    }
    var units := Units(data, bigEndian);
    var buf := new byte[2 * |data|];
    var out: nat := 0;
    var pending: Option<nat> := None;
    var i := 0;
    assert buf.Length == 4 * |units|;
    assert units[0..] == units;
    PrependEmpty(Utf16Text(units, None));
    while i < |units|
      invariant 0 <= i <= |units| && buf.Length == 4 * |units|
      invariant pending.Some? ==> out + 4 <= 4 * i
      invariant pending.None? ==> out <= 4 * i
      invariant Utf16Text(units, None) == Prepend(buf[..out], Utf16Text(units[i..], pending))
    {
      var u := units[i];
      assert units[i..][1..] == units[i + 1..];
      match pending {
        case Some(h) =>
          if IsLowSurrogate(u) {
            PrependTwice(buf[..out], Utf8Encode(SurrogatePair(h, u)), Utf16Text(units[i + 1..], None));
            out := PutRune(buf, out, SurrogatePair(h, u));
            pending := None;
          } else {
            return Err(Utf16Error);
          }
        case None =>
          if IsHighSurrogate(u) {
            pending := Some(u);
          } else if IsLowSurrogate(u) {
            return Err(Utf16Error);
          } else {
            PrependTwice(buf[..out], Utf8Encode(u), Utf16Text(units[i + 1..], None));
            out := PutRune(buf, out, u);
          }
      }
      i := i + 1;
    }
    assert units[i..] == [];
    if pending.Some? {
      return Err(Utf16Error);
    }
    assert buf[..out] + [] == buf[..out];
    r := Ok(buf[..out]);
  }

  /**
   * `rsvc_decode_utf16bom`: FE FF selects big-endian and FF FE little-endian
   * decoding of the remaining bytes; anything else is an error.
   */
  method DecodeUtf16Bom(data: seq<byte>) returns (r: Result<seq<byte>>)
    ensures |data| >= 2 && data[0] == 0xfe && data[1] == 0xff ==> r == Utf16Bytes(data[2..], true)
    ensures |data| >= 2 && data[0] == 0xff && data[1] == 0xfe ==> r == Utf16Bytes(data[2..], false)
    ensures !(|data| >= 2 && ((data[0] == 0xfe && data[1] == 0xff) || (data[0] == 0xff && data[1] == 0xfe)))
      ==> r == Err(Utf16Error)
  {
    if |data| >= 2 && data[0] == 0xfe && data[1] == 0xff {
      r := DecodeUtf16(data[2..], true);
    } else if |data| >= 2 && data[0] == 0xff && data[1] == 0xfe {
      r := DecodeUtf16(data[2..], false);
    } else {
      r := Err(Utf16Error);
    }
  }

  /** What `DecodeUtf16` returns, as a function for the callers that cannot call a method. */
  function Utf16Bytes(data: seq<byte>, bigEndian: bool): Result<seq<byte>>
  {
    if |data| % 2 == 1 then Err(Utf16Error) else Utf16Text(Units(data, bigEndian), None)
  }

  /** The byte-order-mark dispatch as a function. */
  function Utf16BomBytes(data: seq<byte>): Result<seq<byte>>
  {
    if |data| >= 2 && data[0] == 0xfe && data[1] == 0xff then Utf16Bytes(data[2..], true)
    else if |data| >= 2 && data[0] == 0xff && data[1] == 0xfe then Utf16Bytes(data[2..], false)
    else Err(Utf16Error)
  }

  // ---------------------------------------------------------------------
  // UTF-8 (rsvc_decode_utf8)
  // ---------------------------------------------------------------------

  const Utf8Error := "invalid UTF-8 data"

  /** The number of continuation bytes a lead byte announces, as written: 4-byte leads are checked with `(b & 0xf1) == 0xf0`; -1 rejects. */
  function LeadAsWritten(b: byte): int
  {
    if b < 0x80 then 0
    else if (b as bv8) & 0xe0 == 0xc0 then 1
    else if (b as bv8) & 0xf0 == 0xe0 then 2
    else if (b as bv8) & 0xf1 == 0xf0 then 3
    else -1
  }

  /** The intended classification of section 3 of RFC 3629: 4-byte leads are 11110xxx. */
  function Lead(b: byte): int
  {
    if b < 0x80 then 0
    else if (b as bv8) & 0xe0 == 0xc0 then 1
    else if (b as bv8) & 0xf0 == 0xe0 then 2
    else if (b as bv8) & 0xf8 == 0xf0 then 3
    else -1
  }

  predicate IsContinuation(b: byte) { (b as bv8) & 0xc0 == 0x80 }

  /**
   * Whether `data` has the byte shape the check accepts, given the number of
   * continuation bytes still owed and the lead classification to use.
   */
  predicate Shaped(data: seq<byte>, owed: nat, lead: byte -> int)
  {
    if data == [] then owed == 0
    else if owed > 0 then IsContinuation(data[0]) && Shaped(data[1..], owed - 1, lead)
    else lead(data[0]) >= 0 && Shaped(data[1..], lead(data[0]) as nat, lead)
  }

  /** Finding: the valid encoding of U+40000 is rejected as written, and F8 80 80 80 accepted. */
  lemma {:induction false} Utf8LeadAsWrittenDiffers()
    ensures Utf8Encode(0x40000) == [0xf1, 0x80, 0x80, 0x80]
    ensures !Shaped([0xf1, 0x80, 0x80, 0x80], 0, LeadAsWritten)
    ensures Shaped([0xf1, 0x80, 0x80, 0x80], 0, Lead)
    ensures Shaped([0xf8, 0x80, 0x80, 0x80], 0, LeadAsWritten)
    ensures !Shaped([0xf8, 0x80, 0x80, 0x80], 0, Lead)
  {
    assert (0xf1 as bv8) & 0xf1 == 0xf1 && (0xf1 as bv8) & 0xf8 == 0xf0;
    assert (0xf8 as bv8) & 0xf1 == 0xf0 && (0xf8 as bv8) & 0xf8 == 0xf8;
    assert (0xf1 as bv8) & 0xe0 == 0xe0 && (0xf1 as bv8) & 0xf0 == 0xf0;
    assert (0xf8 as bv8) & 0xe0 == 0xe0 && (0xf8 as bv8) & 0xf0 == 0xf0;
    assert LeadAsWritten(0xf1) == -1 && Lead(0xf1) == 3;
    assert LeadAsWritten(0xf8) == 3 && Lead(0xf8) == -1;
    ContinuationRange(0x80);
    ContinuationsShaped([0x80, 0x80, 0x80], [], Lead);
    ContinuationsShaped([0x80, 0x80, 0x80], [], LeadAsWritten);
    assert [0xf1, 0x80, 0x80, 0x80][1..] == [0x80, 0x80, 0x80] + [];
    assert [0xf8, 0x80, 0x80, 0x80][1..] == [0x80, 0x80, 0x80] + [];
  }

  /** Every intended encoding passes the intended check, whatever follows it. */
  lemma {:induction false} Utf8EncodeShaped(rune: nat, rest: seq<byte>)
    requires rune < 0x110000
    ensures Shaped(Utf8Encode(rune) + rest, 0, Lead) == Shaped(rest, 0, Lead)
  {
    var e := Utf8Encode(rune);
    forall k | 1 <= k < |e| ensures IsContinuation(e[k]) {
      ContinuationRange(e[k]);
    }
    LeadRange(e[0], |e| - 1);
    ContinuationsShaped(e[1..], rest, Lead);
    assert (e + rest)[1..] == e[1..] + rest;
  }

  lemma {:induction false} ContinuationsShaped(c: seq<byte>, rest: seq<byte>, lead: byte -> int)
    requires forall k :: 0 <= k < |c| ==> IsContinuation(c[k])
    ensures Shaped(c + rest, |c|, lead) == Shaped(rest, 0, lead)
  {
    if c == [] {
      assert c + rest == rest;
    } else {
      ContinuationsShaped(c[1..], rest, lead);
      assert (c + rest)[1..] == c[1..] + rest;
      assert (c + rest)[0] == c[0] && IsContinuation(c[0]);
      assert Shaped(c + rest, |c|, lead) == Shaped(c[1..] + rest, |c| - 1, lead);
    }
  }

  lemma {:induction false} ContinuationRange(b: byte)
    requires 0x80 <= b < 0xc0
    ensures IsContinuation(b)
  {
    var x := b as bv8;
    assert 0x80 <= x < 0xc0;
  }

  lemma {:induction false} LeadRange(b: byte, n: nat)
    requires n == 0 ==> b < 0x80
    requires n == 1 ==> 0xc0 <= b < 0xe0
    requires n == 2 ==> 0xe0 <= b < 0xf0
    requires n == 3 ==> 0xf0 <= b < 0xf8
    requires n <= 3
    ensures Lead(b) == n
  {
    var x := b as bv8;
    assert x as int == b;
  }

  /**
   * `rsvc_decode_utf8`: checks the byte shape and, on success, returns the
   * input unchanged.
   */
  method DecodeUtf8(data: seq<byte>) returns (r: Result<seq<byte>>)
    ensures r.Ok? <==> Shaped(data, 0, Lead)
    ensures r.Ok? ==> r.value == data
    ensures r.Err? ==> r.msg == Utf8Error
  {
    var owed: nat := 0;
    var i := 0;
    while i < |data|
      invariant 0 <= i <= |data|
      invariant Shaped(data, 0, Lead) == Shaped(data[i..], owed, Lead)
    {
      var b := data[i];
      assert data[i..][1..] == data[i + 1..];
      if owed > 0 {
        if !IsContinuation(b) {
          return Err(Utf8Error);
        }
        owed := owed - 1;
      } else if b >= 0x80 {
        if Lead(b) < 0 {
          return Err(Utf8Error);
        }
        owed := Lead(b);
      }
      i := i + 1;
    }
    if owed > 0 {
      return Err(Utf8Error);
    }
    r := Ok(data);
  }

  /** The UTF-8 check as a function, for callers that cannot call a method. */
  function Utf8Bytes(data: seq<byte>): Result<seq<byte>>
  {
    if Shaped(data, 0, Lead) then Ok(data) else Err(Utf8Error)
  }

  /** The Latin-1 decoder as a function never fails. */
  function Latin1Bytes(data: seq<byte>): Result<seq<byte>>
  {
    Ok(Latin1Text(data))
  }
}

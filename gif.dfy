/**
 * The GIF probe of src/rsvc/gif.c: the logical screen descriptor that
 * follows the six-byte signature (section 18 of GIF89a)
 * gives the canvas width and height, little-endian, and the packed byte
 * whose low three bits size the global colour table.
 */
module Gif {
  import opened Common

  function Pow2(n: nat): (r: nat)
    ensures r >= 1
  {
    if n == 0 then 1 else 2 * Pow2(n - 1)
  }

  /** The palette size as written, `2 << (packed & 0x08)`: the shift is by 0 or by 8. */
  function PaletteAsWritten(packed: byte): nat
  {
    2 * Pow2((packed / 8) % 2 * 8)
  }

  /** The size of the global colour table, 2^(N+1) for N the low three bits of the packed byte. */
  function Palette(packed: byte): (r: nat)
    ensures 2 <= r <= 256
  {
    PowBounds(packed % 8);
    2 * Pow2(packed % 8)
  }

  lemma {:induction false} PowBounds(n: nat)
    requires n < 8
    ensures Pow2(n) <= 128
  {
    PowMonotone(n, 7);
    assert Pow2(7) == 128;
  }

  lemma {:induction false} PowMonotone(a: nat, b: nat)
    requires a <= b
    ensures Pow2(a) <= Pow2(b)
  {
    if a < b {
      PowMonotone(a, b - 1);
    }
  }

  /** `gif_info` as written. */
  function InfoAsWritten(path: string, data: seq<byte>): Result<ImageInfo>
  {
    if |data| < 11 then Err(path + ": unexpected eof")
    else Ok(ImageInfo(data[7] as int * 256 + data[6], data[9] as int * 256 + data[8], 8, PaletteAsWritten(data[10])))
  }

  /** `gif_info` with the colour-table size taken from the low three bits of the packed byte. */
  function Info(path: string, data: seq<byte>): (r: Result<ImageInfo>)
    ensures r.Err? <==> |data| < 11
    ensures r.Err? ==> r.msg == path + ": unexpected eof"
    ensures r.Ok? ==> r.value.width == LittleEndian(data[6..8]) && r.value.height == LittleEndian(data[8..10])
    ensures r.Ok? ==> r.value.depth == 8 && 2 <= r.value.paletteSize <= 256
  {
    if |data| < 11 then Err(path + ": unexpected eof")
    else
      assert data[6..8][1..] == [data[7]] && data[8..10][1..] == [data[9]];
      Ok(ImageInfo(data[7] as int * 256 + data[6], data[9] as int * 256 + data[8], 8, Palette(data[10])))
  }

  /** A GIF89a file's first eleven bytes: signature, width, height and packed byte. */
  function Header(width: nat, height: nat, packed: byte): (r: seq<byte>)
    requires width < 0x10000 && height < 0x10000
    ensures |r| == 11
  {
    ['G' as byte, 'I' as byte, 'F' as byte, '8' as byte, '9' as byte, 'a' as byte]
      + LittleEndianBytes(width, 2) + LittleEndianBytes(height, 2) + [packed]
  }

  /** The probe reads back the dimensions and table size that the header holds. */
  lemma {:induction false} HeaderRoundTrip(path: string, width: nat, height: nat, packed: byte, rest: seq<byte>)
    requires width < 0x10000 && height < 0x10000
    ensures Info(path, Header(width, height, packed) + rest) == Ok(ImageInfo(width, height, 8, Palette(packed)))
  {
    var d := Header(width, height, packed) + rest;
    assert d[6..8] == LittleEndianBytes(width, 2);
    assert d[8..10] == LittleEndianBytes(height, 2);
    LittleEndianRoundTrip(width, 2);
    LittleEndianRoundTrip(height, 2);
  }

  /**
   * A 256-entry global colour table (packed byte 0xf7) is reported as 2
   * entries as written; a packed byte with bit 3 set is reported as 512.
   */
  lemma {:induction false} PaletteAsWrittenDiffers()
    ensures PaletteAsWritten(0xf7) == 2 && Palette(0xf7) == 256
    ensures PaletteAsWritten(0x08) == 512 && Palette(0x08) == 2
  {
    assert Pow2(8) == 256;
    assert Pow2(7) == 128;
  }
}

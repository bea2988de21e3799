/**
 * The PNG probe of src/rsvc/png.c: a walk over the chunks that follow the
 * 8-byte signature (section 5.3 of the PNG standard: length, type, data,
 * CRC), which reads the image size from IHDR (section 11.2.2) and, for
 * palette images, the palette size from PLTE (section 11.2.3). The file is
 * a byte sequence; `pread` at an offset returns what is left of it, up to
 * the requested count.
 */
module Png {
  import opened Common

  const HeaderSize: nat := 8
  const ChecksumSize: nat := 4
  const IhdrSize: nat := 13

  const IHDR: seq<byte> := [0x49, 0x48, 0x44, 0x52]
  const PLTE: seq<byte> := [0x50, 0x4c, 0x54, 0x45]

  /** `read_size`: a 32-bit big-endian length. */
  function ReadSize(file: seq<byte>, at: nat): (r: nat)
    requires at + 4 <= |file|
    ensures r == BigEndian(file[at..at + 4]) && r < UINT32_LIMIT
  {
    BigEndianFour(file[at..at + 4]);
    file[at] as int * 0x100_0000 + file[at + 1] as int * 0x1_0000 + file[at + 2] as int * 0x100 + file[at + 3]
  }

  lemma BigEndianFour(s: seq<byte>)
    requires |s| == 4
    ensures BigEndian(s) == s[0] as int * 0x100_0000 + s[1] as int * 0x1_0000 + s[2] as int * 0x100 + s[3]
  {
    assert s[..3][..2][..1][..0] == [];
    assert s[..3][..2][..1] == [s[0]];
    assert s[..3][..2] == [s[0], s[1]];
    assert s[..3] == [s[0], s[1], s[2]];
  }

  /**
   * The walk from the chunk at `offset`. `ihdr` holds the size read from
   * IHDR once it has been seen (a palette image keeps walking to PLTE).
   */
  function Walk(path: string, file: seq<byte>, offset: nat, ihdr: Option<ImageInfo>): (r: Result<ImageInfo>)
    requires ihdr.Some? ==> ihdr.value.width < UINT32_LIMIT && ihdr.value.height < UINT32_LIMIT
    ensures r.Ok? ==> r.value.width < UINT32_LIMIT && r.value.height < UINT32_LIMIT
    ensures ihdr.Some? && r.Ok? ==>
      r.value.width == ihdr.value.width && r.value.height == ihdr.value.height && r.value.depth == 8
    decreases if offset <= |file| then |file| - offset else 0
  {
    if offset >= |file| then
      Err(if ihdr.Some? then path + ": invalid png (missing PLTE)" else path + ": invalid png (missing IHDR)")
    else if |file| - offset < HeaderSize then Err(path + ": unexpected eof")
    else
      var size := ReadSize(file, offset);
      var kind := file[offset + 4..offset + 8];
      var next := offset + HeaderSize + size + ChecksumSize;
      if ihdr.None? then
        if kind != IHDR then Err(path + ": invalid png (IHDR not first)")
        else if size != IhdrSize then Err(path + ": invalid png (bad IHDR size)")
        else if |file| - (offset + HeaderSize) < IhdrSize then Err(path + ": unexpected eof")
        else
          var at := offset + HeaderSize;
          var width, height := ReadSize(file, at), ReadSize(file, at + 4);
          if file[at + 9] % 2 == 1 then Walk(path, file, next, Some(ImageInfo(width, height, 8, 0)))
          else Ok(ImageInfo(width, height, file[at + 8], 0))
      else if kind == PLTE then
        if size % 3 != 0 then Err(path + ": invalid png (bad PLTE size)")
        else Ok(ihdr.value.(depth := 8, paletteSize := size / 3))
      else Walk(path, file, next, ihdr)
  }

  /** `png_info`: the loop advances `offset` chunk by chunk. */
  method Info(path: string, file: seq<byte>) returns (r: Result<ImageInfo>)
    ensures r == Walk(path, file, HeaderSize, None)
  {
    var offset := HeaderSize;
    var ihdr: Option<ImageInfo> := None;
    while true
      invariant ihdr.Some? ==> ihdr.value.width < UINT32_LIMIT && ihdr.value.height < UINT32_LIMIT
      invariant Walk(path, file, offset, ihdr) == Walk(path, file, HeaderSize, None)
      decreases if offset <= |file| then |file| - offset else 0
    {
      if offset >= |file| {
        break;
      } else if |file| - offset < HeaderSize {
        return Err(path + ": unexpected eof");
      }
      ghost var offset0, ihdr0 := offset, ihdr;
      var size := ReadSize(file, offset);
      var kind := file[offset + 4..offset + 8];
      if ihdr.None? {
        if kind != IHDR {
          return Err(path + ": invalid png (IHDR not first)");
        }
        if size != IhdrSize {
          return Err(path + ": invalid png (bad IHDR size)");
        }
        var at := offset + HeaderSize;
        if |file| - at < IhdrSize {
          return Err(path + ": unexpected eof");
        }
        var width, height := ReadSize(file, at), ReadSize(file, at + 4);
        if file[at + 9] % 2 == 1 {
          ihdr := Some(ImageInfo(width, height, 8, 0));
        } else {
          return Ok(ImageInfo(width, height, file[at + 8], 0));
        }
      } else if kind == PLTE {
        if size % 3 != 0 {
          return Err(path + ": invalid png (bad PLTE size)");
        }
        return Ok(ihdr.value.(depth := 8, paletteSize := size / 3));
      }
      offset := offset + HeaderSize + size + ChecksumSize;
      if ihdr0.None? {
        PaletteIhdrStep(path, file, offset0, ihdr.value.width, ihdr.value.height, offset);
      } else {
        OtherStep(path, file, offset0, ihdr.value, offset);
      }
    }
    if ihdr.Some? {
      r := Err(path + ": invalid png (missing PLTE)");
    } else {
      r := Err(path + ": invalid png (missing IHDR)");
    }
  }

  /** An IHDR chunk of a palette image is read and stepped over; the walk goes on with its size recorded. */
  lemma {:induction false} PaletteIhdrStep(path: string, file: seq<byte>, offset: nat, width: nat, height: nat, next: nat)
    requires offset < |file| && |file| - offset >= HeaderSize
    requires file[offset + 4..offset + 8] == IHDR && ReadSize(file, offset) == IhdrSize
    requires |file| - (offset + HeaderSize) >= IhdrSize && file[offset + HeaderSize + 9] % 2 == 1
    requires width == ReadSize(file, offset + HeaderSize) && height == ReadSize(file, offset + HeaderSize + 4)
    requires next == offset + HeaderSize + IhdrSize + ChecksumSize
    ensures Walk(path, file, offset, None) == Walk(path, file, next, Some(ImageInfo(width, height, 8, 0)))
  {
  }

  /** After IHDR, a chunk that is not PLTE is stepped over by its recorded length. */
  lemma {:induction false} OtherStep(path: string, file: seq<byte>, offset: nat, info: ImageInfo, next: nat)
    requires info.width < UINT32_LIMIT && info.height < UINT32_LIMIT
    requires offset < |file| && |file| - offset >= HeaderSize && file[offset + 4..offset + 8] != PLTE
    requires next == offset + HeaderSize + ReadSize(file, offset) + ChecksumSize
    ensures Walk(path, file, offset, Some(info)) == Walk(path, file, next, Some(info))
  {
  }

  /** A chunk: length, type, data and a (here arbitrary) CRC. */
  function Chunk(kind: seq<byte>, body: seq<byte>, crc: seq<byte>): (r: seq<byte>)
    requires |kind| == 4 && |crc| == 4 && |body| < UINT32_LIMIT
    ensures |r| == HeaderSize + |body| + ChecksumSize
  {
    BigEndianBytes(|body|, 4) + kind + body + crc
  }

  /** The 13 bytes of IHDR: width, height, bit depth, colour type and three method bytes. */
  function IhdrBody(width: nat, height: nat, depth: byte, colorType: byte): (r: seq<byte>)
    requires width < UINT32_LIMIT && height < UINT32_LIMIT
    ensures |r| == IhdrSize
  {
    BigEndianBytes(width, 4) + BigEndianBytes(height, 4) + [depth, colorType, 0, 0, 0]
  }

  lemma {:induction false} ChunkFields(file: seq<byte>, offset: nat, kind: seq<byte>, body: seq<byte>, crc: seq<byte>)
    requires |kind| == 4 && |crc| == 4 && |body| < UINT32_LIMIT
    requires offset + |Chunk(kind, body, crc)| <= |file|
    requires file[offset..offset + |Chunk(kind, body, crc)|] == Chunk(kind, body, crc)
    ensures ReadSize(file, offset) == |body|
    ensures file[offset + 4..offset + 8] == kind
    ensures file[offset + 8..offset + 8 + |body|] == body
  {
    var c := Chunk(kind, body, crc);
    var f := file[offset..offset + |c|];
    assert c[..4] == BigEndianBytes(|body|, 4) && c[4..8] == kind && c[8..8 + |body|] == body;
    assert file[offset..offset + 4] == f[..4];
    SliceOfSlice(file, offset, offset + |c|, 4, 8);
    assert file[offset + 8..offset + 8 + |body|] == f[8..8 + |body|];
    assert Pow256(4) == UINT32_LIMIT;
    BigEndianRoundTrip(|body|, 4);
  }

  lemma {:induction false} SliceOfSlice(s: seq<byte>, a: nat, b: nat, i: nat, j: nat)
    requires a <= b <= |s| && i <= j <= b - a
    ensures s[a..b][i..j] == s[a + i..a + j]
  {
    assert forall k :: 0 <= k < j - i ==> s[a..b][i..j][k] == s[a + i + k];
  }

  /** The IHDR chunk first: a non-palette image ends the walk; a palette image goes on to the next chunk. */
  lemma {:induction false} IhdrStep(path: string, file: seq<byte>, offset: nat, width: nat, height: nat, depth: byte, colorType: byte,
                 crc: seq<byte>)
    requires |crc| == 4 && width < UINT32_LIMIT && height < UINT32_LIMIT
    requires offset + 25 <= |file|
    requires file[offset..offset + 25] == Chunk(IHDR, IhdrBody(width, height, depth, colorType), crc)
    ensures colorType % 2 == 0 ==> Walk(path, file, offset, None) == Ok(ImageInfo(width, height, depth, 0))
    ensures colorType % 2 == 1 ==>
      Walk(path, file, offset, None) == Walk(path, file, offset + 25, Some(ImageInfo(width, height, 8, 0)))
  {
    var body := IhdrBody(width, height, depth, colorType);
    ChunkFields(file, offset, IHDR, body, crc);
    var b := file[offset + 8..offset + 21];
    assert b[..4] == BigEndianBytes(width, 4) && b[4..8] == BigEndianBytes(height, 4);
    assert file[offset + 8..offset + 12] == b[..4] && file[offset + 12..offset + 16] == b[4..8];
    BigEndianRoundTrip(width, 4);
    BigEndianRoundTrip(height, 4);
    assert file[offset + 17] == b[9] == colorType && file[offset + 16] == b[8] == depth;
  }

  /** A PLTE chunk after IHDR ends the walk with one palette entry per three bytes. */
  lemma {:induction false} PlteStep(path: string, file: seq<byte>, offset: nat, info: ImageInfo, palette: seq<byte>, crc: seq<byte>)
    requires |crc| == 4 && |palette| < UINT32_LIMIT
    requires info.width < UINT32_LIMIT && info.height < UINT32_LIMIT
    requires offset + |Chunk(PLTE, palette, crc)| <= |file|
    requires file[offset..offset + |Chunk(PLTE, palette, crc)|] == Chunk(PLTE, palette, crc)
    ensures |palette| % 3 == 0 ==> Walk(path, file, offset, Some(info)) == Ok(info.(depth := 8, paletteSize := |palette| / 3))
    ensures |palette| % 3 != 0 ==> Walk(path, file, offset, Some(info)) == Err(path + ": invalid png (bad PLTE size)")
  {
    ChunkFields(file, offset, PLTE, palette, crc);
  }

  /** After IHDR, a chunk of any type but PLTE is stepped over whole. */
  lemma {:induction false} OtherChunkSkipped(path: string, file: seq<byte>, offset: nat, info: ImageInfo, kind: seq<byte>,
                          body: seq<byte>, crc: seq<byte>)
    requires |kind| == 4 && kind != PLTE && |crc| == 4 && |body| < UINT32_LIMIT
    requires info.width < UINT32_LIMIT && info.height < UINT32_LIMIT
    requires offset + |Chunk(kind, body, crc)| <= |file|
    requires file[offset..offset + |Chunk(kind, body, crc)|] == Chunk(kind, body, crc)
    ensures Walk(path, file, offset, Some(info)) == Walk(path, file, offset + |Chunk(kind, body, crc)|, Some(info))
  {
    ChunkFields(file, offset, kind, body, crc);
  }

  /** A non-palette image reports the size and bit depth of its IHDR. */
  lemma {:induction false} IhdrRoundTrip(path: string, signature: seq<byte>, width: nat, height: nat, depth: byte, colorType: byte,
                      crc: seq<byte>, rest: seq<byte>)
    requires |signature| == HeaderSize && |crc| == 4 && colorType % 2 == 0
    requires width < UINT32_LIMIT && height < UINT32_LIMIT
    ensures Walk(path, signature + Chunk(IHDR, IhdrBody(width, height, depth, colorType), crc) + rest, HeaderSize, None)
      == Ok(ImageInfo(width, height, depth, 0))
  {
    var c := Chunk(IHDR, IhdrBody(width, height, depth, colorType), crc);
    var file := signature + c + rest;
    assert file[8..8 + 25] == c;
    IhdrStep(path, file, 8, width, height, depth, colorType, crc);
  }

  /** A palette image reports depth 8 and one palette entry per three PLTE bytes. */
  lemma {:induction false} PaletteRoundTrip(path: string, signature: seq<byte>, width: nat, height: nat, depth: byte, colorType: byte,
                         crc: seq<byte>, palette: seq<byte>, rest: seq<byte>)
    requires |signature| == HeaderSize && |crc| == 4 && colorType % 2 == 1
    requires width < UINT32_LIMIT && height < UINT32_LIMIT
    requires |palette| % 3 == 0 && |palette| < UINT32_LIMIT
    ensures Walk(path, signature + Chunk(IHDR, IhdrBody(width, height, depth, colorType), crc) +
                 Chunk(PLTE, palette, crc) + rest, HeaderSize, None)
      == Ok(ImageInfo(width, height, 8, |palette| / 3))
  {
    var c := Chunk(IHDR, IhdrBody(width, height, depth, colorType), crc);
    var p := Chunk(PLTE, palette, crc);
    var file := signature + c + p + rest;
    assert file[8..8 + 25] == c;
    IhdrStep(path, file, 8, width, height, depth, colorType, crc);
    assert file[33..33 + |p|] == p;
    PlteStep(path, file, 33, ImageInfo(width, height, 8, 0), palette, crc);
  }

  /** A first chunk other than IHDR is refused. */
  lemma {:induction false} IhdrFirst(path: string, file: seq<byte>)
    requires |file| >= 16 && file[12..16] != IHDR
    ensures Walk(path, file, HeaderSize, None) == Err(path + ": invalid png (IHDR not first)")
  {
  }
}

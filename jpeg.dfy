/**
 * The JPEG probe of src/rsvc/jpeg.c: a walk over the markers of an
 * interchange-format file (ITU-T T.81, Annex B) that stops at the first
 * baseline or progressive frame header (SOF0, SOF2) and reads the sample
 * precision and frame size from it.
 */
module Jpeg {
  import opened Common

  const SOI: byte := 0xd8
  const EOI: byte := 0xd9
  const SOF0: byte := 0xc0
  const SOF2: byte := 0xc2

  /** `read_short`: two bytes, most significant first. */
  function ReadShort(data: seq<byte>, at: nat): (r: nat)
    requires at + 2 <= |data|
    ensures r < 0x10000
  {
    data[at] as int * 256 + data[at + 1]
  }

  /** `read_short` is the big-endian reading of its two bytes. */
  lemma {:induction false} ReadShortValue(data: seq<byte>, at: nat)
    requires at + 2 <= |data|
    ensures ReadShort(data, at) == BigEndian(data[at..at + 2])
  {
    assert data[at..at + 2][..1] == [data[at]];
  }

  /** The markers that stand alone, without a length (TEM and RST0-RST7). */
  predicate Standalone(code: byte)
  {
    code == 0x01 || 0xd0 <= code <= 0xd7
  }

  function Eof(path: string): string { path + ": unexpected eof" }

  function BadMarker(path: string, m0: byte, m1: byte): string
  {
    path + ": invalid jpeg (bad marker 0x" + Hex2(m0) + Hex2(m1) + ")"
  }

  /**
   * `jpeg_info` as written, from byte `pos` on. After the marker FF FF it
   * skips one further byte, and after a standalone marker two further
   * bytes; neither skip, nor the skip over a segment, checks the bytes
   * left. `None` stands for a skip past the end, after which the unsigned
   * `size` has wrapped and the next marker is read beyond the buffer. The
   * frame header's first 16-bit field is reported as the width and the
   * second as the height.
   */
  function WalkAsWritten(path: string, data: seq<byte>, pos: nat, gotSoi: bool): Option<Result<ImageInfo>>
    requires pos <= |data|
    decreases |data| - pos
  {
    if |data| - pos < 2 then Some(Err(Eof(path)))
    else
      var m0, m1, p := data[pos], data[pos + 1], pos + 2;
      if m0 != 0xff then Some(Err(BadMarker(path, m0, m1)))
      else if !gotSoi then
        if m1 != SOI then Some(Err(path + ": invalid jpeg (SOI not first)")) else WalkAsWritten(path, data, p, true)
      else if m1 == 0xff then
        if p + 1 > |data| then None else WalkAsWritten(path, data, p + 1, true)
      else if Standalone(m1) then
        if p + 2 > |data| then None else WalkAsWritten(path, data, p + 2, true)
      else if m1 == SOI then Some(Err(path + ": invalid jpeg (unexpected SOI)"))
      else if m1 == EOI then Some(Err(path + ": invalid jpeg (unexpected EOI)"))
      else if |data| - p < 2 then Some(Err(Eof(path)))
      else
        var segment, q := ReadShort(data, p), p + 2;
        if m1 == SOF0 || m1 == SOF2 then
          if segment < 5 then Some(Err(path + ": invalid png (bad SOFn size)"))
          else if |data| - q < segment then Some(Err(Eof(path)))
          else Some(Ok(ImageInfo(ReadShort(data, q + 1), ReadShort(data, q + 3), data[q], 0)))
        else if q + segment - 2 > |data| then None
        else WalkAsWritten(path, data, q + segment - 2, true)
  }

  /**
   * The walk with the marker syntax of T.81 section B.1.1.2: a fill byte
   * 0xFF is followed directly by the next marker (so the second 0xFF of
   * FF FF begins it), a standalone marker has no payload, and a skip that
   * would pass the end of the data is an "unexpected eof". The frame
   * header (section B.2.2) is P, then Y (number of lines: the height), then
   * X (samples per line: the width).
   */
  function Walk(path: string, data: seq<byte>, pos: nat, gotSoi: bool): (r: Result<ImageInfo>)
    requires pos <= |data|
    ensures r.Ok? ==> r.value.paletteSize == 0 && r.value.width < 0x10000 && r.value.height < 0x10000
    decreases |data| - pos
  {
    if |data| - pos < 2 then Err(Eof(path))
    else
      var m0, m1, p := data[pos], data[pos + 1], pos + 2;
      if m0 != 0xff then Err(BadMarker(path, m0, m1))
      else if !gotSoi then
        if m1 != SOI then Err(path + ": invalid jpeg (SOI not first)") else Walk(path, data, p, true)
      else if m1 == 0xff then Walk(path, data, pos + 1, true)
      else if Standalone(m1) then Walk(path, data, p, true)
      else if m1 == SOI then Err(path + ": invalid jpeg (unexpected SOI)")
      else if m1 == EOI then Err(path + ": invalid jpeg (unexpected EOI)")
      else if |data| - p < 2 then Err(Eof(path))
      else
        var segment, q := ReadShort(data, p), p + 2;
        if m1 == SOF0 || m1 == SOF2 then
          if segment < 5 then Err(path + ": invalid png (bad SOFn size)")
          else if |data| - q < segment then Err(Eof(path))
          else Ok(ImageInfo(ReadShort(data, q + 3), ReadShort(data, q + 1), data[q], 0))
        else if q + segment - 2 > |data| then Err(Eof(path))
        else Walk(path, data, q + segment - 2, true)
  }

  /**
   * `jpeg_info`, corrected as `Walk` describes: the loop advances a cursor
   * through the data until a frame header or an error.
   */
  method Info(path: string, data: seq<byte>) returns (r: Result<ImageInfo>)
    ensures r == Walk(path, data, 0, false)
  {
    var pos: nat := 0;
    var gotSoi := false;
    while true
      invariant pos <= |data|
      invariant Walk(path, data, pos, gotSoi) == Walk(path, data, 0, false)
      decreases |data| - pos
    {
      if |data| - pos < 2 {
        return Err(Eof(path));
      }
      var m0, m1 := data[pos], data[pos + 1];
      if m0 != 0xff {
        return Err(BadMarker(path, m0, m1));
      }
      if !gotSoi {
        if m1 != SOI {
          return Err(path + ": invalid jpeg (SOI not first)");
        }
        gotSoi := true;
        pos := pos + 2;
        continue;
      }
      if m1 == 0xff {
        pos := pos + 1;
        continue;
      } else if Standalone(m1) {
        pos := pos + 2;
        continue;
      } else if m1 == SOI {
        return Err(path + ": invalid jpeg (unexpected SOI)");
      } else if m1 == EOI {
        return Err(path + ": invalid jpeg (unexpected EOI)");
      }
      if |data| - (pos + 2) < 2 {
        return Err(Eof(path));
      }
      var segment := ReadShort(data, pos + 2);
      var q := pos + 4;
      if m1 == SOF0 || m1 == SOF2 {
        if segment < 5 {
          return Err(path + ": invalid png (bad SOFn size)");
        }
        if |data| - q < segment {
          return Err(Eof(path));
        }
        return Ok(ImageInfo(ReadShort(data, q + 3), ReadShort(data, q + 1), data[q], 0));
      }
      if q + segment - 2 > |data| {
        return Err(Eof(path));
      }
      pos := q + segment - 2;
    }
  }

  /** A file must open with the SOI marker FF D8. */
  lemma {:induction false} SoiFirst(path: string, data: seq<byte>)
    requires |data| >= 2 && (data[0] != 0xff || data[1] != SOI)
    ensures Walk(path, data, 0, false).Err?
  {
  }

  /** SOI, then a baseline frame header: P, Y, X and the component count, padded to the declared length. */
  function MinimalJpeg(width: nat, height: nat, depth: byte, rest: seq<byte>): (r: seq<byte>)
    requires width < 0x10000 && height < 0x10000 && |rest| >= 12
  {
    [0xff, SOI, 0xff, SOF0, 0x00, 0x11, depth] + BigEndianBytes(height, 2) + BigEndianBytes(width, 2) + rest
  }

  /** The probe reports the size and precision that the frame header carries. */
  lemma {:induction false} MinimalJpegRoundTrip(path: string, width: nat, height: nat, depth: byte, rest: seq<byte>)
    requires width < 0x10000 && height < 0x10000 && |rest| >= 12
    ensures Walk(path, MinimalJpeg(width, height, depth, rest), 0, false) == Ok(ImageInfo(width, height, depth, 0))
  {
    var d := MinimalJpeg(width, height, depth, rest);
    BigEndianRoundTrip(height, 2);
    BigEndianRoundTrip(width, 2);
    assert d[7..9] == BigEndianBytes(height, 2);
    assert d[9..11] == BigEndianBytes(width, 2);
    ReadShortValue(d, 7);
    ReadShortValue(d, 9);
    assert ReadShort(d, 4) == 0x11 by {
      assert d[4] == 0 && d[5] == 0x11;
    }
    assert Walk(path, d, 2, true) == Ok(ImageInfo(width, height, depth, 0));
  }

  /** Fill bytes in front of the frame-header marker do not change what is read. */
  lemma {:induction false} FilledJpegRoundTrip(path: string, width: nat, height: nat, depth: byte, rest: seq<byte>)
    requires width < 0x10000 && height < 0x10000 && |rest| >= 12
    ensures Walk(path, [0xff, SOI, 0xff] + MinimalJpeg(width, height, depth, rest)[2..], 0, false) ==
            Ok(ImageInfo(width, height, depth, 0))
  {
    var m := MinimalJpeg(width, height, depth, rest);
    var d := [0xff, SOI, 0xff] + m[2..];
    MinimalJpegRoundTrip(path, width, height, depth, rest);
    assert d[3..] == m[2..];
    WalkShift(path, m, d, 2, 3);
    assert Walk(path, d, 0, false) == Walk(path, d, 2, true) == Walk(path, d, 3, true);
  }

  /** The walk depends only on the bytes from the cursor on. */
  lemma {:induction false} WalkShift(path: string, a: seq<byte>, b: seq<byte>, i: nat, j: nat)
    requires i <= |a| && j <= |b| && a[i..] == b[j..]
    ensures Walk(path, a, i, true) == Walk(path, b, j, true)
    decreases |a| - i
  {
    if |a| - i >= 2 {
      SameByte(a, b, i, j, 0);
      SameByte(a, b, i, j, 1);
      if a[i] == 0xff && a[i + 1] == 0xff {
        SameTail(a, b, i, j, 1);
        WalkShift(path, a, b, i + 1, j + 1);
      } else if a[i] == 0xff && Standalone(a[i + 1]) {
        SameTail(a, b, i, j, 2);
        WalkShift(path, a, b, i + 2, j + 2);
      } else if |a| - i >= 4 {
        SameByte(a, b, i, j, 2);
        SameByte(a, b, i, j, 3);
        var segment := ReadShort(a, i + 2);
        if a[i] == 0xff && !(a[i + 1] in {SOI, EOI, SOF0, SOF2}) && i + 4 + segment - 2 <= |a| {
          SameTail(a, b, i, j, segment + 2);
          WalkShift(path, a, b, i + segment + 2, j + segment + 2);
        } else if a[i] == 0xff && (a[i + 1] == SOF0 || a[i + 1] == SOF2) && segment >= 5 && |a| - (i + 4) >= segment {
          FrameShift(path, a, b, i, j);
        }
      }
    }
  }

  /** A frame header read at the cursor is the same wherever the bytes sit. */
  lemma {:induction false} FrameShift(path: string, a: seq<byte>, b: seq<byte>, i: nat, j: nat)
    requires i <= |a| && j <= |b| && a[i..] == b[j..] && |a| - i >= 4
    requires a[i] == 0xff && (a[i + 1] == SOF0 || a[i + 1] == SOF2)
    requires ReadShort(a, i + 2) >= 5 && |a| - (i + 4) >= ReadShort(a, i + 2)
    ensures Walk(path, a, i, true) == Walk(path, b, j, true)
  {
    SameByte(a, b, i, j, 0);
    SameByte(a, b, i, j, 1);
    SameByte(a, b, i, j, 2);
    SameByte(a, b, i, j, 3);
    SameByte(a, b, i, j, 4);
    SameByte(a, b, i, j, 5);
    SameByte(a, b, i, j, 6);
    SameByte(a, b, i, j, 7);
    SameByte(a, b, i, j, 8);
  }

  lemma {:induction false} SameByte(a: seq<byte>, b: seq<byte>, i: nat, j: nat, k: nat)
    requires i <= |a| && j <= |b| && a[i..] == b[j..] && i + k < |a|
    ensures j + k < |b| && a[i + k] == b[j + k]
  {
    assert a[i + k] == a[i..][k];
    assert b[j + k] == b[j..][k];
  }

  lemma {:induction false} SameTail(a: seq<byte>, b: seq<byte>, i: nat, j: nat, k: nat)
    requires i <= |a| && j <= |b| && a[i..] == b[j..] && i + k <= |a|
    ensures j + k <= |b| && a[i + k..] == b[j + k..]
  {
    assert a[i + k..] == a[i..][k..];
    assert b[j + k..] == b[j..][k..];
  }

  /**
   * Finding: with one fill byte before SOF0 (FF D8 FF FF C0 ...), the
   * written walk skips the C0 and fails on the next two bytes; the walk of
   * T.81 reads the frame header.
   */
  lemma {:induction false} FillAsWrittenMisreads()
    ensures WalkAsWritten("p", FillExample(), 0, false) == Some(Err(BadMarker("p", 0x00, 0x11)))
    ensures Walk("p", FillExample(), 0, false) == Ok(ImageInfo(32, 16, 8, 0))
  {
    var d := FillExample();
    assert ReadShort(d, 5) == 0x11;
    assert ReadShort(d, 8) == 16 && ReadShort(d, 10) == 32;
  }

  function FillExample(): seq<byte>
  {
    [0xff, SOI, 0xff, 0xff, SOF0, 0x00, 0x11, 0x08, 0x00, 0x10, 0x00, 0x20] + seq(12, _ => 0)
  }

  /**
   * Finding: a 32-sample-wide, 16-line frame (Y = 16, X = 32) is reported
   * as written with width 16 and height 32.
   */
  lemma {:induction false} SofAsWrittenSwapsAxes()
    ensures WalkAsWritten("p", SofExample(), 0, false) == Some(Ok(ImageInfo(16, 32, 8, 0)))
    ensures Walk("p", SofExample(), 0, false) == Ok(ImageInfo(32, 16, 8, 0))
  {
    var d := SofExample();
    assert ReadShort(d, 4) == 0x11;
    assert ReadShort(d, 7) == 16 && ReadShort(d, 9) == 32;
  }

  function SofExample(): seq<byte>
  {
    [0xff, SOI, 0xff, SOF0, 0x00, 0x11, 0x08, 0x00, 0x10, 0x00, 0x20] + seq(12, _ => 0)
  }

  /**
   * Finding: a file that ends right after a restart marker or a fill byte
   * makes the written walk skip past its end (the unsigned size wraps);
   * the checked walk reports the end of file.
   */
  lemma {:induction false} SkipAsWrittenOverruns()
    ensures WalkAsWritten("p", [0xff, SOI, 0xff, 0xd0], 0, false) == None
    ensures WalkAsWritten("p", [0xff, SOI, 0xff, 0xff], 0, false) == None
    ensures Walk("p", [0xff, SOI, 0xff, 0xd0], 0, false) == Err(Eof("p"))
    ensures Walk("p", [0xff, SOI, 0xff, 0xff], 0, false) == Err(Eof("p"))
  {
    var r: seq<byte> := [0xff, SOI, 0xff, 0xd0];
    var f: seq<byte> := [0xff, SOI, 0xff, 0xff];
    assert Walk("p", r, 4, true) == Err(Eof("p"));
    assert Walk("p", r, 2, true) == Walk("p", r, 4, true);
    assert Walk("p", f, 3, true) == Err(Eof("p"));
    assert Walk("p", f, 2, true) == Walk("p", f, 3, true);
  }
}

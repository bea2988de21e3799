/**
 * The WAVE reader and header writer of src/rsvc/wav.c. A RIFF file is the
 * tag "RIFF", a 32-bit little-endian size, the form type "WAVE" and a run of
 * chunks, each an 8-byte header (tag, size) followed by its body. The reader
 * walks the chunks until it reaches `data`, having checked `fmt ` on the
 * way; the writer emits the canonical 44-byte header.
 *
 * The file is a byte sequence read from a position `pos`. A seek on a
 * regular file always succeeds; on a pipe it fails with ESPIPE, which is
 * what `seekable` chooses.
 */
module Wav {
  import opened Common

  const RIFF: nat := 0x46464952
  const WAVE: nat := 0x45564157
  const FMT: nat := 0x20746d66
  const DATA: nat := 0x61746164

  const RiffHeaderSize: nat := 8
  const WaveSize: nat := 4
  const FmtSize: nat := 16
  const HeaderSize: nat := 44

  const UINT16_LIMIT: nat := 0x1_0000

  /** `strerror(ESPIPE)`, reported when a seek fails. */
  const IllegalSeek: string := "Illegal seek"

  /** `u32le`. */
  function U32le(s: seq<byte>): (r: nat)
    requires |s| == 4
    ensures r < UINT32_LIMIT
  {
    s[0] as int + s[1] as int * 0x100 + s[2] as int * 0x1_0000 + s[3] as int * 0x100_0000
  }

  /** `u16le`. */
  function U16le(s: seq<byte>): (r: nat)
    requires |s| == 2
    ensures r < UINT16_LIMIT
  {
    s[0] as int + s[1] as int * 0x100
  }

  /** `u32le` is the little-endian reading of its four bytes. */
  lemma {:induction false} U32leValue(s: seq<byte>)
    requires |s| == 4
    ensures U32le(s) == LittleEndian(s)
  {
    assert s[1..][1..][1..][1..] == [];
    assert LittleEndian(s[1..][1..][1..]) == s[3] as int;
    assert LittleEndian(s[1..][1..]) == s[2] as int + s[3] as int * 0x100;
  }

  /** `u16le` is the little-endian reading of its two bytes. */
  lemma {:induction false} U16leValue(s: seq<byte>)
    requires |s| == 2
    ensures U16le(s) == LittleEndian(s)
  {
    assert s[1..][1..] == [];
  }

  /** Reading back what `u32le_out` stored gives the value modulo 2^32 (the `uint32_t` parameter). */
  lemma {:induction false} U32RoundTrip(s: seq<byte>, v: nat)
    requires s == LittleEndianBytes(v, 4)
    ensures U32le(s) == v % UINT32_LIMIT
  {
    U32leValue(s);
    LittleEndianTruncates(v, 4);
    assert Pow256(4) == UINT32_LIMIT;
  }

  /** Four bytes stored for a value that fits in 32 bits read back as that value. */
  lemma {:induction false} U32ReadBack(s: seq<byte>, v: nat)
    requires v < UINT32_LIMIT && s == LittleEndianBytes(v, 4)
    ensures U32le(s) == v
  {
    U32leValue(s);
    LittleEndianRoundTrip(v, 4);
  }

  /** Two bytes stored for a value that fits in 16 bits read back as that value. */
  lemma {:induction false} U16ReadBack(s: seq<byte>, v: nat)
    requires v < UINT16_LIMIT && s == LittleEndianBytes(v, 2)
    ensures U16le(s) == v
  {
    U16leValue(s);
    LittleEndianRoundTrip(v, 2);
  }

  /** Reading back what `u16le_out` stored gives the value modulo 2^16. */
  lemma {:induction false} U16RoundTrip(s: seq<byte>, v: nat)
    requires s == LittleEndianBytes(v, 2)
    ensures U16le(s) == v % UINT16_LIMIT
  {
    U16leValue(s);
    LittleEndianTruncates(v, 2);
    assert Pow256(2) == UINT16_LIMIT;
  }

  /** `u32le_out`: the four low-order bytes of `v`, least significant first. */
  method U32leOut(data: array<byte>, at: nat, v: nat)
    requires at + 4 <= data.Length
    modifies data
    ensures data[..at + 4] == old(data[..at]) + LittleEndianBytes(v, 4)
  {
    data[at] := v % 256;
    data[at + 1] := v / 256 % 256;
    data[at + 2] := v / 256 / 256 % 256;
    data[at + 3] := v / 256 / 256 / 256 % 256;
    assert LittleEndianBytes(v / 256 / 256 / 256, 1) == [v / 256 / 256 / 256 % 256];
    assert LittleEndianBytes(v / 256 / 256, 2) == [v / 256 / 256 % 256, v / 256 / 256 / 256 % 256];
    assert LittleEndianBytes(v / 256, 3) == [v / 256 % 256, v / 256 / 256 % 256, v / 256 / 256 / 256 % 256];
  }

  /** `u16le_out`: the two low-order bytes of `v`, least significant first. */
  method U16leOut(data: array<byte>, at: nat, v: nat)
    requires at + 2 <= data.Length
    modifies data
    ensures data[..at + 2] == old(data[..at]) + LittleEndianBytes(v, 2)
  {
    data[at] := v % 256;
    data[at + 1] := v / 256 % 256;
    assert LittleEndianBytes(v / 256, 1) == [v / 256 % 256];
  }

  /** `struct wav_fmt`: the sixteen bytes of a `fmt ` chunk. */
  datatype Fmt = Fmt(audioFormat: nat, channels: nat, sampleRate: nat, byteRate: nat,
                     blockAlign: nat, bitsPerSample: nat)

  /** `struct rsvc_audio_info`. */
  datatype AudioInfo = AudioInfo(sampleRate: nat, channels: nat, bitsPerSample: nat, blockAlign: nat,
                                 samplesPerChannel: nat)

  /** The field layout `read_wav_fmt` decodes. */
  function ParseFmt(data: seq<byte>): (f: Fmt)
    requires |data| == FmtSize
    ensures f.audioFormat < UINT16_LIMIT && f.channels < UINT16_LIMIT && f.blockAlign < UINT16_LIMIT
    ensures f.bitsPerSample < UINT16_LIMIT && f.sampleRate < UINT32_LIMIT && f.byteRate < UINT32_LIMIT
  {
    Fmt(U16le(data[0..2]), U16le(data[2..4]), U32le(data[4..8]), U32le(data[8..12]),
        U16le(data[12..14]), U16le(data[14..16]))
  }

  /**
   * The external `rsvc_audio_info_validate` is a parameter. Whatever else it
   * checks, the data chunk's `size % block_align` relies on it refusing a
   * zero block alignment.
   */
  ghost predicate RejectsZeroBlock(validate: AudioInfo -> Result<()>)
  {
    forall i: AudioInfo :: i.blockAlign == 0 ==> validate(i).Err?
  }

  /** The sample layout a `fmt ` chunk announces, with no samples counted yet. */
  function FmtInfo(f: Fmt): AudioInfo
  {
    AudioInfo(f.sampleRate, f.channels, f.bitsPerSample, f.blockAlign, 0)
  }

  /**
   * `wav_fmt_validate`: PCM only, and a byte rate equal to block alignment
   * times sample rate. The product is computed in 32-bit `unsigned` and so
   * wraps modulo 2^32.
   */
  function FmtValidate(f: Fmt, validate: AudioInfo -> Result<()>): (r: Result<()>)
    ensures r.Ok? <==> f.audioFormat == 1 && f.byteRate == (f.blockAlign * f.sampleRate) % UINT32_LIMIT &&
                       validate(FmtInfo(f)).Ok?
    ensures f.audioFormat != 1 ==> r == Err("unsupported audio format: " + Decimal(f.audioFormat))
  {
    if f.audioFormat != 1 then Err("unsupported audio format: " + Decimal(f.audioFormat))
    else if f.byteRate != (f.blockAlign * f.sampleRate) % UINT32_LIMIT then
      Err("unsupported byte rate: " + Decimal(f.byteRate))
    else validate(FmtInfo(f))
  }

  /** How the chunk walk tests the result of the seek that skips an unknown chunk. */
  datatype SkipTest =
    | ZeroFails      // `if (!lseek(...))`: only a result of 0 counts as failure
    | NegativeFails  // `if (lseek(...) < 0)`: the test `read_wav_fmt` uses

  /** What `lseek` returns when moving to `target`: the new offset, or -1 on a pipe. */
  function Seek(seekable: bool, target: nat): int
  {
    if seekable then target else -1
  }

  function SkipFails(test: SkipTest, result: int): bool
  {
    match test
    case ZeroFails => result == 0
    case NegativeFails => result < 0
  }

  /**
   * `wav_audio_info` from the chunk header at `pos`: `at` is where the walk
   * believes the next chunk starts, `end` is 8 plus the RIFF size, and `fmt`
   * the `fmt ` chunk once seen.
   */
  function Walk(file: seq<byte>, seekable: bool, test: SkipTest, validate: AudioInfo -> Result<()>,
                pos: nat, at: nat, end: nat, fmt: Option<Fmt>): (r: Result<AudioInfo>)
    requires RejectsZeroBlock(validate)
    requires fmt.Some? ==> validate(FmtInfo(fmt.value)).Ok?
    ensures r.Ok? ==> r.value.blockAlign > 0 && validate(r.value.(samplesPerChannel := 0)).Ok?
    ensures r.Ok? && fmt.Some? ==> r.value == FmtInfo(fmt.value).(samplesPerChannel := r.value.samplesPerChannel)
    decreases |file| - pos
  {
    if |file| < pos + RiffHeaderSize then Err(ShortRead)
    else
      var code, size := U32le(file[pos..pos + 4]), U32le(file[pos + 4..pos + 8]);
      var body := pos + RiffHeaderSize;
      var at' := at + RiffHeaderSize + size;
      if at' > end then Err("riff chunk points past end of container")
      else if code == FMT then
        if fmt.Some? then Err("duplicate wav fmt chunk")
        else if size < FmtSize then Err("malformed wav fmt chunk")
        else if |file| < body + FmtSize then Err(ShortRead)
        else
          var f := ParseFmt(file[body..body + FmtSize]);
          var valid := FmtValidate(f, validate);
          if valid.Err? then Err(valid.msg)
          else if Seek(seekable, body + size) < 0 then Err(IllegalSeek)
          else Walk(file, seekable, test, validate, body + size, at', end, Some(f))
      else if code == DATA then
        if fmt.None? then Err("missing wav fmt chunk")
        else if size % fmt.value.blockAlign != 0 then Err("trailing bytes in wav data")
        else Ok(FmtInfo(fmt.value).(samplesPerChannel := size / fmt.value.blockAlign))
      else
        var result := Seek(seekable, body + size);
        if SkipFails(test, result) then Err(IllegalSeek)
        else Walk(file, seekable, test, validate, if result < 0 then body else body + size, at', end, fmt)
  }

  /** The RIFF header and form type, then the chunk walk. */
  function Read(file: seq<byte>, seekable: bool, test: SkipTest, validate: AudioInfo -> Result<()>): (r: Result<AudioInfo>)
    requires RejectsZeroBlock(validate)
    ensures r.Ok? ==> r.value.blockAlign > 0 && validate(r.value.(samplesPerChannel := 0)).Ok?
    ensures |file| >= 12 && (U32le(file[0..4]) != RIFF || U32le(file[8..12]) != WAVE) ==> r == Err("not a wav file")
  {
    if |file| < RiffHeaderSize then Err(ShortRead)
    else if U32le(file[0..4]) != RIFF then Err("not a wav file")
    else if |file| < RiffHeaderSize + WaveSize then Err(ShortRead)
    else if U32le(file[8..12]) != WAVE then Err("not a wav file")
    else
      var end := RiffHeaderSize + U32le(file[4..8]);
      var r := Walk(file, seekable, test, validate, 12, 12, end, None);
      r
  }

  /** `wav_audio_info`, with the seek test of `read_wav_fmt` applied to skipped chunks too. */
  method Info(file: seq<byte>, seekable: bool, validate: AudioInfo -> Result<()>) returns (r: Result<AudioInfo>)
    requires RejectsZeroBlock(validate)
    ensures r == Read(file, seekable, NegativeFails, validate)
  {
    if |file| < RiffHeaderSize {
      return Err(ShortRead);
    } else if U32le(file[0..4]) != RIFF {
      return Err("not a wav file");
    } else if |file| < RiffHeaderSize + WaveSize {
      return Err(ShortRead);
    } else if U32le(file[8..12]) != WAVE {
      return Err("not a wav file");
    }
    r := WalkChunks(file, seekable, validate, RiffHeaderSize + U32le(file[4..8]));
  }

  /** The chunk loop of `wav_audio_info`, from the first chunk after "WAVE". */
  method WalkChunks(file: seq<byte>, seekable: bool, validate: AudioInfo -> Result<()>, end: nat)
    returns (r: Result<AudioInfo>)
    requires RejectsZeroBlock(validate)
    ensures r == Walk(file, seekable, NegativeFails, validate, 12, 12, end, None)
  {
    var at: nat := RiffHeaderSize + WaveSize;
    var pos: nat := at;
    var fmt: Option<Fmt> := None;
    while true
      invariant fmt.Some? ==> validate(FmtInfo(fmt.value)).Ok?
      invariant Walk(file, seekable, NegativeFails, validate, pos, at, end, fmt) ==
                Walk(file, seekable, NegativeFails, validate, 12, 12, end, None)
      decreases |file| - pos
    {
      if |file| < pos + RiffHeaderSize {
        return Err(ShortRead);
      }
      ghost var pos0, at0, fmt0 := pos, at, fmt;
      var code, size := U32le(file[pos..pos + 4]), U32le(file[pos + 4..pos + 8]);
      pos := pos + RiffHeaderSize;
      at := at + RiffHeaderSize + size;
      if at > end {
        return Err("riff chunk points past end of container");
      }
      if code == FMT {
        if fmt.Some? {
          return Err("duplicate wav fmt chunk");
        } else if size < FmtSize {
          return Err("malformed wav fmt chunk");
        } else if |file| < pos + FmtSize {
          return Err(ShortRead);
        }
        var f := ParseFmt(file[pos..pos + FmtSize]);
        var valid := FmtValidate(f, validate);
        if valid.Err? {
          return Err(valid.msg);
        } else if Seek(seekable, pos + size) < 0 {
          return Err(IllegalSeek);
        }
        pos := pos + size;
        fmt := Some(f);
        FmtStep(file, NegativeFails, validate, pos0, at0, end, size, f, pos, at);
      } else if code == DATA {
        if fmt.None? {
          return Err("missing wav fmt chunk");
        } else if size % fmt.value.blockAlign != 0 {
          return Err("trailing bytes in wav data");
        }
        return Ok(FmtInfo(fmt.value).(samplesPerChannel := size / fmt.value.blockAlign));
      } else {
        if Seek(seekable, pos + size) < 0 {
          return Err(IllegalSeek);
        }
        pos := pos + size;
        SkipStep(file, NegativeFails, validate, pos0, at0, end, fmt, code, size, pos, at);
      }
    }
  }

  /** The RIFF size `wav_audio_encode` writes: the 44-byte header less 4, plus the data. */
  function RiffSizeAsWritten(dataSize: nat): nat
  {
    HeaderSize - 4 + dataSize
  }

  /** The RIFF size the RIFF format asks for: everything after the size field. */
  function RiffSize(dataSize: nat): nat
  {
    HeaderSize - RiffHeaderSize + dataSize
  }

  /** "RIFF", the RIFF size and "WAVE". */
  function Preamble(riffSize: nat): (p: seq<byte>)
    ensures |p| == RiffHeaderSize + WaveSize
  {
    LittleEndianBytes(RIFF, 4) + LittleEndianBytes(riffSize, 4) + LittleEndianBytes(WAVE, 4)
  }

  /** The sixteen bytes of a PCM `fmt ` chunk body for `info`. */
  function FmtBody(info: AudioInfo): (b: seq<byte>)
    ensures |b| == FmtSize
  {
    LittleEndianBytes(1, 2) + LittleEndianBytes(info.channels, 2) +
    LittleEndianBytes(info.sampleRate, 4) + LittleEndianBytes(info.blockAlign * info.sampleRate, 4) +
    LittleEndianBytes(info.blockAlign, 2) + LittleEndianBytes(info.bitsPerSample, 2)
  }

  /** A chunk header: tag and size. */
  function ChunkHeader(code: nat, size: nat): (h: seq<byte>)
    ensures |h| == RiffHeaderSize
  {
    LittleEndianBytes(code, 4) + LittleEndianBytes(size, 4)
  }

  /** The 44-byte canonical header for `info`, given the RIFF size to record, field by field. */
  function Header(info: AudioInfo, riffSize: nat): (h: seq<byte>)
    ensures |h| == HeaderSize
  {
    var block := info.blockAlign;
    LittleEndianBytes(RIFF, 4) + LittleEndianBytes(riffSize, 4) + LittleEndianBytes(WAVE, 4) +
    LittleEndianBytes(FMT, 4) + LittleEndianBytes(FmtSize, 4) + LittleEndianBytes(1, 2) +
    LittleEndianBytes(info.channels, 2) + LittleEndianBytes(info.sampleRate, 4) +
    LittleEndianBytes(block * info.sampleRate, 4) + LittleEndianBytes(block, 2) +
    LittleEndianBytes(info.bitsPerSample, 2) + LittleEndianBytes(DATA, 4) +
    LittleEndianBytes(info.samplesPerChannel * block, 4)
  }

  /** The header read as its preamble, the `fmt ` chunk and the `data` chunk header. */
  lemma {:induction false} HeaderParts(info: AudioInfo, riffSize: nat)
    ensures Header(info, riffSize) == Preamble(riffSize) + ChunkHeader(FMT, FmtSize) + FmtBody(info) +
                                      ChunkHeader(DATA, info.samplesPerChannel * info.blockAlign)
  {
    var block := info.blockAlign;
    Regroup(LittleEndianBytes(RIFF, 4), LittleEndianBytes(riffSize, 4), LittleEndianBytes(WAVE, 4),
            LittleEndianBytes(FMT, 4), LittleEndianBytes(FmtSize, 4), LittleEndianBytes(1, 2),
            LittleEndianBytes(info.channels, 2), LittleEndianBytes(info.sampleRate, 4),
            LittleEndianBytes(block * info.sampleRate, 4), LittleEndianBytes(block, 2),
            LittleEndianBytes(info.bitsPerSample, 2), LittleEndianBytes(DATA, 4),
            LittleEndianBytes(info.samplesPerChannel * block, 4));
  }

  lemma {:induction false} Regroup(a: seq<byte>, b: seq<byte>, c: seq<byte>, d: seq<byte>, e: seq<byte>, f: seq<byte>, g: seq<byte>,
                h: seq<byte>, i: seq<byte>, j: seq<byte>, k: seq<byte>, l: seq<byte>, m: seq<byte>)
    ensures a + b + c + d + e + f + g + h + i + j + k + l + m ==
            (a + b + c) + (d + e) + (f + g + h + i + j + k) + (l + m)
  {
  }

  /** `wav_audio_encode`'s header: refused by the validator, or written field by field. */
  method EncodeHeader(info: AudioInfo, validate: AudioInfo -> Result<()>) returns (r: Result<seq<byte>>)
    ensures validate(info).Err? ==> r == Err(validate(info).msg)
    ensures validate(info).Ok? ==> r == Ok(Header(info, RiffSize(info.samplesPerChannel * info.blockAlign)))
  {
    if validate(info).Err? {
      return Err(validate(info).msg);
    }
    var header := new byte[HeaderSize];
    var block := info.blockAlign;
    var dataSize := info.samplesPerChannel * block;
    U32leOut(header, 0, RIFF);
    ghost var written := LittleEndianBytes(RIFF, 4);
    assert header[..4] == written;
    U32leOut(header, 4, RiffSize(dataSize));
    written := written + LittleEndianBytes(RiffSize(dataSize), 4);
    assert header[..8] == written;
    U32leOut(header, 8, WAVE);
    written := written + LittleEndianBytes(WAVE, 4);
    assert header[..12] == written;
    U32leOut(header, 12, FMT);
    written := written + LittleEndianBytes(FMT, 4);
    assert header[..16] == written;
    U32leOut(header, 16, FmtSize);
    written := written + LittleEndianBytes(FmtSize, 4);
    assert header[..20] == written;
    U16leOut(header, 20, 1);
    written := written + LittleEndianBytes(1, 2);
    assert header[..22] == written;
    U16leOut(header, 22, info.channels);
    written := written + LittleEndianBytes(info.channels, 2);
    assert header[..24] == written;
    U32leOut(header, 24, info.sampleRate);
    written := written + LittleEndianBytes(info.sampleRate, 4);
    assert header[..28] == written;
    U32leOut(header, 28, block * info.sampleRate);
    written := written + LittleEndianBytes(block * info.sampleRate, 4);
    assert header[..32] == written;
    U16leOut(header, 32, block);
    written := written + LittleEndianBytes(block, 2);
    assert header[..34] == written;
    U16leOut(header, 34, info.bitsPerSample);
    written := written + LittleEndianBytes(info.bitsPerSample, 2);
    assert header[..36] == written;
    U32leOut(header, 36, DATA);
    written := written + LittleEndianBytes(DATA, 4);
    assert header[..40] == written;
    U32leOut(header, 40, dataSize);
    written := written + LittleEndianBytes(dataSize, 4);
    assert header[..44] == written;
    assert header[..] == header[..HeaderSize];
    assert written == Header(info, RiffSize(dataSize));
    return Ok(header[..]);
  }

  /** The chunk header at `pos` has tag `code` and size `size`. */
  predicate ChunkAt(file: seq<byte>, pos: nat, code: nat, size: nat)
  {
    pos + RiffHeaderSize <= |file| && U32le(file[pos..pos + 4]) == code && U32le(file[pos + 4..pos + 8]) == size
  }

  lemma {:induction false} ChunkHeaderAt(file: seq<byte>, pos: nat, code: nat, size: nat)
    requires code < UINT32_LIMIT && size < UINT32_LIMIT
    requires pos + RiffHeaderSize <= |file| && file[pos..pos + RiffHeaderSize] == ChunkHeader(code, size)
    ensures ChunkAt(file, pos, code, size)
  {
    Window(file, pos);
    Split2(file[pos..pos + RiffHeaderSize], LittleEndianBytes(code, 4), LittleEndianBytes(size, 4));
    U32ReadBack(file[pos..pos + 4], code);
    U32ReadBack(file[pos + 4..pos + 8], size);
  }

  /** The two halves of an 8-byte window. */
  lemma {:induction false} Window(file: seq<byte>, pos: nat)
    requires pos + RiffHeaderSize <= |file|
    ensures file[pos..pos + RiffHeaderSize][..4] == file[pos..pos + 4]
    ensures file[pos..pos + RiffHeaderSize][4..] == file[pos + 4..pos + 8]
  {
  }

  lemma {:induction false} Split2(h: seq<byte>, x: seq<byte>, y: seq<byte>)
    requires |x| == 4 && |y| == 4 && h == x + y
    ensures h[..4] == x && h[4..] == y
  {
  }

  /** Past "RIFF", the size and "WAVE", the walk starts at offset 12 with the end the size sets. */
  lemma {:induction false} ReadStarts(file: seq<byte>, seekable: bool, test: SkipTest, validate: AudioInfo -> Result<()>)
    requires RejectsZeroBlock(validate)
    requires |file| >= 12 && U32le(file[0..4]) == RIFF && U32le(file[8..12]) == WAVE
    ensures Read(file, seekable, test, validate) ==
            Walk(file, seekable, test, validate, 12, 12, RiffHeaderSize + U32le(file[4..8]), None)
  {
  }

  /** On a seekable file a valid `fmt ` chunk is read and stepped over; the walk goes on with it recorded. */
  lemma {:induction false} FmtStep(file: seq<byte>, test: SkipTest, validate: AudioInfo -> Result<()>,
                pos: nat, at: nat, end: nat, size: nat, f: Fmt, next: nat, atNext: nat)
    requires RejectsZeroBlock(validate)
    requires ChunkAt(file, pos, FMT, size) && size >= FmtSize && pos + RiffHeaderSize + FmtSize <= |file|
    requires at + RiffHeaderSize + size <= end
    requires f == ParseFmt(file[pos + RiffHeaderSize..pos + RiffHeaderSize + FmtSize]) && FmtValidate(f, validate).Ok?
    requires next == pos + RiffHeaderSize + size && atNext == at + RiffHeaderSize + size
    ensures Walk(file, true, test, validate, pos, at, end, None) == Walk(file, true, test, validate, next, atNext, end, Some(f))
  {
  }

  /** On a seekable file a chunk that is neither `fmt ` nor `data` is stepped over whole, whichever seek test is used. */
  lemma {:induction false} SkipStep(file: seq<byte>, test: SkipTest, validate: AudioInfo -> Result<()>,
                 pos: nat, at: nat, end: nat, fmt: Option<Fmt>, code: nat, size: nat, next: nat, atNext: nat)
    requires RejectsZeroBlock(validate) && (fmt.Some? ==> validate(FmtInfo(fmt.value)).Ok?)
    requires ChunkAt(file, pos, code, size) && code != FMT && code != DATA
    requires at + RiffHeaderSize + size <= end
    requires next == pos + RiffHeaderSize + size && atNext == at + RiffHeaderSize + size
    ensures Walk(file, true, test, validate, pos, at, end, fmt) == Walk(file, true, test, validate, next, atNext, end, fmt)
  {
  }

  /** A `data` chunk after `fmt ` ends the walk with its size counted in blocks. */
  lemma {:induction false} DataStep(file: seq<byte>, seekable: bool, test: SkipTest, validate: AudioInfo -> Result<()>,
                 pos: nat, at: nat, end: nat, fmt: Fmt, size: nat)
    requires RejectsZeroBlock(validate) && validate(FmtInfo(fmt)).Ok?
    requires ChunkAt(file, pos, DATA, size) && at + RiffHeaderSize + size <= end
    ensures size % fmt.blockAlign == 0 ==>
      Walk(file, seekable, test, validate, pos, at, end, Some(fmt)) ==
      Ok(FmtInfo(fmt).(samplesPerChannel := size / fmt.blockAlign))
    ensures size % fmt.blockAlign != 0 ==>
      Walk(file, seekable, test, validate, pos, at, end, Some(fmt)) == Err("trailing bytes in wav data")
  {
  }

  /** The sixteen bytes of a `fmt ` chunk written for `info` parse back to it. */
  lemma {:induction false} FmtRoundTrip(info: AudioInfo)
    requires info.channels < UINT16_LIMIT && info.blockAlign < UINT16_LIMIT && info.bitsPerSample < UINT16_LIMIT
    requires info.sampleRate < UINT32_LIMIT
    ensures ParseFmt(FmtBody(info)) == Fmt(1, info.channels, info.sampleRate,
                                           (info.blockAlign * info.sampleRate) % UINT32_LIMIT,
                                           info.blockAlign, info.bitsPerSample)
  {
    var body := FmtBody(info);
    FmtPieces(LittleEndianBytes(1, 2), LittleEndianBytes(info.channels, 2),
              LittleEndianBytes(info.sampleRate, 4), LittleEndianBytes(info.blockAlign * info.sampleRate, 4),
              LittleEndianBytes(info.blockAlign, 2), LittleEndianBytes(info.bitsPerSample, 2));
    U16ReadBack(body[0..2], 1);
    U16ReadBack(body[2..4], info.channels);
    U32ReadBack(body[4..8], info.sampleRate);
    U32RoundTrip(body[8..12], info.blockAlign * info.sampleRate);
    U16ReadBack(body[12..14], info.blockAlign);
    U16ReadBack(body[14..16], info.bitsPerSample);
  }

  /**
   * The header `wav_audio_encode` writes is accepted by `wav_audio_info`,
   * which recovers the same layout and sample count, whatever follows it.
   * The file must be seekable: stepping past the `fmt ` chunk seeks, even by
   * zero bytes.
   */
  lemma {:induction false} HeaderRoundTrip(info: AudioInfo, riffSize: nat, rest: seq<byte>, test: SkipTest,
                        validate: AudioInfo -> Result<()>)
    requires RejectsZeroBlock(validate) && validate(info.(samplesPerChannel := 0)).Ok?
    requires info.channels < UINT16_LIMIT && info.blockAlign < UINT16_LIMIT && info.bitsPerSample < UINT16_LIMIT
    requires info.sampleRate < UINT32_LIMIT
    requires RiffSize(info.samplesPerChannel * info.blockAlign) <= riffSize < UINT32_LIMIT
    ensures Read(Header(info, riffSize) + rest, true, test, validate) == Ok(info)
  {
    var dataSize := info.samplesPerChannel * info.blockAlign;
    var file := Header(info, riffSize) + rest;
    HeaderParts(info, riffSize);
    Pieces(Preamble(riffSize), ChunkHeader(FMT, FmtSize), FmtBody(info), ChunkHeader(DATA, dataSize), rest);
    PreambleFields(file, riffSize);
    ChunkHeaderAt(file, 12, FMT, FmtSize);
    ChunkHeaderAt(file, 36, DATA, dataSize);
    FmtRoundTrip(info);
    LayoutRead(file, info, test, validate);
  }

  /** A file whose first chunks are a `fmt ` for `info` and a `data` of its size reads back as `info`. */
  lemma {:induction false} LayoutRead(file: seq<byte>, info: AudioInfo, test: SkipTest, validate: AudioInfo -> Result<()>)
    requires RejectsZeroBlock(validate) && validate(info.(samplesPerChannel := 0)).Ok?
    requires |file| >= HeaderSize && U32le(file[0..4]) == RIFF && U32le(file[8..12]) == WAVE
    requires U32le(file[4..8]) >= RiffSize(info.samplesPerChannel * info.blockAlign)
    requires ChunkAt(file, 12, FMT, FmtSize) && ChunkAt(file, 36, DATA, info.samplesPerChannel * info.blockAlign)
    requires ParseFmt(file[20..36]) == Fmt(1, info.channels, info.sampleRate,
                                           (info.blockAlign * info.sampleRate) % UINT32_LIMIT,
                                           info.blockAlign, info.bitsPerSample)
    ensures Read(file, true, test, validate) == Ok(info)
  {
    var dataSize := info.samplesPerChannel * info.blockAlign;
    var end := RiffHeaderSize + U32le(file[4..8]);
    var f := ParseFmt(file[20..36]);
    ReadStarts(file, true, test, validate);
    assert FmtInfo(f) == info.(samplesPerChannel := 0);
    assert Walk(file, true, test, validate, 12, 12, end, None) == Walk(file, true, test, validate, 36, 36, end, Some(f)) by {
      FmtStep(file, test, validate, 12, 12, end, FmtSize, f, 36, 36);
    }
    DataRead(file, test, validate, end, f, info);
  }

  /** A `data` chunk holding whole blocks after the `fmt ` for `info` ends the walk with `info`. */
  lemma {:induction false} DataRead(file: seq<byte>, test: SkipTest, validate: AudioInfo -> Result<()>, end: nat, f: Fmt, info: AudioInfo)
    requires RejectsZeroBlock(validate) && validate(FmtInfo(f)).Ok? && FmtInfo(f) == info.(samplesPerChannel := 0)
    requires ChunkAt(file, 36, DATA, info.samplesPerChannel * info.blockAlign)
    requires HeaderSize + info.samplesPerChannel * info.blockAlign <= end
    ensures Walk(file, true, test, validate, 36, 36, end, Some(f)) == Ok(info)
  {
    var dataSize, block := info.samplesPerChannel * info.blockAlign, info.blockAlign;
    assert block == f.blockAlign && block > 0 by {
      assert FmtInfo(f).blockAlign == block;
    }
    assert dataSize % block == 0 && dataSize / block == info.samplesPerChannel by {
      assert dataSize == block * info.samplesPerChannel + 0;
      ModUnique(dataSize, block, info.samplesPerChannel, 0);
    }
    DataStep(file, true, test, validate, 36, 36, end, f, dataSize);
    assert FmtInfo(f).(samplesPerChannel := dataSize / block) == info;
  }

  lemma {:induction false} FmtPieces(a: seq<byte>, b: seq<byte>, c: seq<byte>, d: seq<byte>, e: seq<byte>, f: seq<byte>)
    requires |a| == 2 && |b| == 2 && |c| == 4 && |d| == 4 && |e| == 2 && |f| == 2
    ensures var s := a + b + c + d + e + f;
      s[0..2] == a && s[2..4] == b && s[4..8] == c && s[8..12] == d && s[12..14] == e && s[14..16] == f
  {
  }

  lemma {:induction false} Pieces(p: seq<byte>, q: seq<byte>, r: seq<byte>, t: seq<byte>, rest: seq<byte>)
    requires |p| == 12 && |q| == 8 && |r| == 16 && |t| == 8
    ensures var f := p + q + r + t + rest;
      f[..12] == p && f[12..20] == q && f[20..36] == r && f[36..44] == t
  {
  }

  lemma {:induction false} PreambleFields(file: seq<byte>, riffSize: nat)
    requires riffSize < UINT32_LIMIT && |file| >= 12 && file[..12] == Preamble(riffSize)
    ensures U32le(file[0..4]) == RIFF && U32le(file[4..8]) == riffSize && U32le(file[8..12]) == WAVE
  {
    ThreeWords(file, RIFF, riffSize, WAVE);
  }

  /** Twelve bytes written as three 32-bit words read back as those words. */
  lemma {:induction false} ThreeWords(file: seq<byte>, a: nat, b: nat, c: nat)
    requires a < UINT32_LIMIT && b < UINT32_LIMIT && c < UINT32_LIMIT
    requires |file| >= 12 && file[..12] == LittleEndianBytes(a, 4) + LittleEndianBytes(b, 4) + LittleEndianBytes(c, 4)
    ensures U32le(file[0..4]) == a && U32le(file[4..8]) == b && U32le(file[8..12]) == c
  {
    var x, y, z := LittleEndianBytes(a, 4), LittleEndianBytes(b, 4), LittleEndianBytes(c, 4);
    Split3(file, x, y, z);
    U32ReadBack(file[0..4], a);
    U32ReadBack(file[4..8], b);
    U32ReadBack(file[8..12], c);
  }

  lemma {:induction false} Split3(file: seq<byte>, x: seq<byte>, y: seq<byte>, z: seq<byte>)
    requires |x| == 4 && |y| == 4 && |z| == 4 && |file| >= 12 && file[..12] == x + y + z
    ensures file[0..4] == x && file[4..8] == y && file[8..12] == z
  {
    assert file[0..4] == file[..12][0..4] && file[4..8] == file[..12][4..8] && file[8..12] == file[..12][8..12];
  }


  /**
   * The RIFF size `wav_audio_encode` records claims four bytes more than the
   * file holds (8 + RIFF size should be the file length); the reader, which
   * only checks that chunks end within the claimed size, accepts it anyway.
   */
  lemma {:induction false} RiffSizeAsWrittenOverstates(info: AudioInfo, samples: seq<byte>)
    requires |samples| == info.samplesPerChannel * info.blockAlign
    requires RiffSizeAsWritten(|samples|) < UINT32_LIMIT
    ensures var file := Header(info, RiffSizeAsWritten(|samples|)) + samples;
      RiffHeaderSize + U32le(file[4..8]) == |file| + 4
    ensures var file := Header(info, RiffSize(|samples|)) + samples;
      RiffHeaderSize + U32le(file[4..8]) == |file|
  {
    var dataSize := |samples|;
    forall riffSize: nat | riffSize < UINT32_LIMIT
      ensures U32le((Header(info, riffSize) + samples)[4..8]) == riffSize
    {
      var file := Header(info, riffSize) + samples;
      HeaderParts(info, riffSize);
      Pieces(Preamble(riffSize), ChunkHeader(FMT, FmtSize), FmtBody(info), ChunkHeader(DATA, dataSize), samples);
      PreambleFields(file, riffSize);
    }
  }

  /**
   * On a pipe, where every seek fails, the walk as written steps over an
   * unknown chunk's header only and reads its body as the next chunk
   * header, where the corrected test reports the failure.
   */
  lemma {:induction false} SkipAsWrittenIgnoresSeekError(file: seq<byte>, validate: AudioInfo -> Result<()>, pos: nat, at: nat, end: nat,
                                      fmt: Option<Fmt>, code: nat, size: nat)
    requires RejectsZeroBlock(validate) && (fmt.Some? ==> validate(FmtInfo(fmt.value)).Ok?)
    requires ChunkAt(file, pos, code, size) && code != FMT && code != DATA && at + RiffHeaderSize + size <= end
    ensures Walk(file, false, ZeroFails, validate, pos, at, end, fmt) ==
            Walk(file, false, ZeroFails, validate, pos + RiffHeaderSize, at + RiffHeaderSize + size, end, fmt)
    ensures Walk(file, false, NegativeFails, validate, pos, at, end, fmt) == Err(IllegalSeek)
  {
  }

  /** On a seekable file the seek result is a positive offset, so the two tests agree. */
  lemma {:induction false} SkipTestsAgreeWhenSeekable(file: seq<byte>, validate: AudioInfo -> Result<()>,
                                                      pos: nat, at: nat, end: nat, fmt: Option<Fmt>)
    requires RejectsZeroBlock(validate) && (fmt.Some? ==> validate(FmtInfo(fmt.value)).Ok?)
    ensures Walk(file, true, ZeroFails, validate, pos, at, end, fmt) ==
            Walk(file, true, NegativeFails, validate, pos, at, end, fmt)
    decreases |file| - pos
  {
    if pos + RiffHeaderSize <= |file| {
      var code, size := U32le(file[pos..pos + 4]), U32le(file[pos + 4..pos + 8]);
      var body := pos + RiffHeaderSize;
      if at + RiffHeaderSize + size <= end {
        if code == FMT && fmt.None? && size >= FmtSize && body + FmtSize <= |file| {
          var f := ParseFmt(file[body..body + FmtSize]);
          if FmtValidate(f, validate).Ok? {
            var next, atNext := body + size, at + RiffHeaderSize + size;
            FmtStep(file, ZeroFails, validate, pos, at, end, size, f, next, atNext);
            FmtStep(file, NegativeFails, validate, pos, at, end, size, f, next, atNext);
            SkipTestsAgreeWhenSeekable(file, validate, next, atNext, end, Some(f));
          }
        } else if code != FMT && code != DATA {
          var next, atNext := body + size, at + RiffHeaderSize + size;
          SkipStep(file, ZeroFails, validate, pos, at, end, fmt, code, size, next, atNext);
          SkipStep(file, NegativeFails, validate, pos, at, end, fmt, code, size, next, atNext);
          SkipTestsAgreeWhenSeekable(file, validate, next, atNext, end, fmt);
        }
      }
    }
  }

  /** On a seekable file the corrected walk equals the one as written. */
  lemma {:induction false} ReadAgreesWhenSeekable(file: seq<byte>, validate: AudioInfo -> Result<()>)
    requires RejectsZeroBlock(validate)
    ensures Read(file, true, ZeroFails, validate) == Read(file, true, NegativeFails, validate)
  {
    if |file| >= 12 {
      SkipTestsAgreeWhenSeekable(file, validate, 12, 12, RiffHeaderSize + U32le(file[4..8]), None);
    }
  }
}

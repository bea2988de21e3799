/**
 * MP3 decoding through libmad, src/rsvc/mad.c: the callbacks the decoder
 * calls. `mad_input` refills the 4096-byte input buffer, carrying over the
 * bytes of the frame not yet decoded; `mad_header` and `mad_count` gather
 * the audio information; `mad_output` converts each decoded frame to
 * interleaved 16-bit samples with `mad_scale`; `mad_error` names the file
 * offset of the frame that failed.
 *
 * libmad itself is not part of this model: its fixed-point format is
 * taken to be a signed 32-bit `mad_fixed_t` with 28 fractional bits, the
 * decoder's frames are given as values, and its stream pointers as
 * indices into the buffer.
 */
module Mad {
  import opened Common
  import Wav

  /** `MAD_F_ONE`: 1.0 in libmad's fixed point, with `MAD_F_FRACBITS` = 28. */
  const ONE: int := 0x1000_0000
  /** `1L << (MAD_F_FRACBITS - 16)`: half of the quantum, added to round. */
  const ROUND: int := 0x1000
  /** `1 << (MAD_F_FRACBITS + 1 - 16)`: one step of the 16-bit output. */
  const QUANTUM: int := 0x2000

  const BUFFER_SIZE: nat := 4096

  /** How a callback tells the decoder to go on (`enum mad_flow`). */
  datatype Flow = Continue | Stop | Break

  // ---------------------------------------------------------------------
  // Scaling samples

  /** A value of `mad_fixed_t`, a signed 32-bit integer. */
  predicate IsFixed(x: int)
  {
    -0x8000_0000 <= x < 0x8000_0000
  }

  /** A 16-bit sample (`int16_t`). */
  predicate IsSample(x: int)
  {
    -0x8000 <= x < 0x8000
  }

  /** The two's-complement value of `x` in 32 bits, as storing it in a `mad_fixed_t` gives. */
  function Wrap32(x: int): (r: int)
    ensures IsFixed(r) && (r - x) % 0x1_0000_0000 == 0
    ensures IsFixed(x) ==> r == x
  {
    (x + 0x8000_0000) % 0x1_0000_0000 - 0x8000_0000
  }

  /** Clipping to the fixed-point range [-1.0, 1.0). */
  function Clip(x: int): (r: int)
    ensures -ONE <= r < ONE
    ensures -ONE <= x < ONE ==> r == x
    ensures x >= ONE ==> r == ONE - 1
    ensures x < -ONE ==> r == -ONE
  {
    if x >= ONE then ONE - 1 else if x < -ONE then -ONE else x
  }

  /** The quantum that holds `x`: the arithmetic right shift by 13 bits. */
  function Quantize(x: int): (r: int)
    requires -ONE <= x < ONE
    ensures IsSample(r)
    ensures r * QUANTUM <= x < r * QUANTUM + QUANTUM
  {
    x / QUANTUM
  }

  /**
   * `mad_scale` as written: the rounding is added in `long` but stored back
   * in the 32-bit `mad_fixed_t` before clipping.
   */
  function ScaleAsWritten(sample: int): (r: int)
    requires IsFixed(sample)
  {
    Quantize(Clip(Wrap32(sample + ROUND)))
  }

  /** `mad_scale` as evidently intended: round, clip to [-1.0, 1.0), quantize. */
  function Scale(sample: int): (r: int)
    ensures IsSample(r)
  {
    Quantize(Clip(sample + ROUND))
  }

  /**
   * As written, a sample within 4096 of the largest `mad_fixed_t` wraps
   * round when rounded and comes out as the most negative 16-bit sample
   * instead of the most positive one.
   */
  lemma {:induction false} ScaleWrapsAsWritten(sample: int)
    requires sample == 0x7fff_ffff
    ensures ScaleAsWritten(sample) == -0x8000
    ensures Scale(sample) == 0x7fff
  {
  }

  /** Where the rounding cannot leave 32 bits, the code as written does what is intended. */
  lemma {:induction false} ScaleAgrees(sample: int)
    requires IsFixed(sample) && sample < 0x8000_0000 - ROUND
    ensures ScaleAsWritten(sample) == Scale(sample)
  {
  }

  /** Inside the clipping range, a sample goes to the nearest 16-bit step (halves up). */
  lemma {:induction false} ScaleRounds(sample: int)
    requires -ONE - ROUND <= sample < ONE - ROUND
    ensures Scale(sample) * QUANTUM - ROUND <= sample < Scale(sample) * QUANTUM + ROUND
  {
  }

  /** A louder sample never scales to a quieter output. */
  lemma {:induction false} ScaleMonotone(a: int, b: int)
    requires a <= b
    ensures Scale(a) <= Scale(b)
  {
    var x, y := Clip(a + ROUND), Clip(b + ROUND);
    assert x <= y;
  }

  // ---------------------------------------------------------------------
  // Interleaving

  /** The `i`-th sample of the first `channels` channels, scaled, in channel order. */
  function Frame(samples: seq<seq<int>>, i: nat, channels: nat): (r: seq<int>)
    requires channels <= |samples| && forall c :: 0 <= c < channels ==> i < |samples[c]|
    ensures |r| == channels
  {
    if channels == 0 then [] else Frame(samples, i, channels - 1) + [Scale(samples[channels - 1][i])]
  }

  /** The first `length` samples of each channel, interleaved: frame after frame. */
  function Interleaved(samples: seq<seq<int>>, length: nat, channels: nat): (r: seq<int>)
    requires channels <= |samples| && forall c :: 0 <= c < channels ==> length <= |samples[c]|
    ensures |r| == length * channels
  {
    if length == 0 then [] else Interleaved(samples, length - 1, channels) + Frame(samples, length - 1, channels)
  }

  /** The channel `c` sample of the `i`-th frame. */
  lemma {:induction false} FrameAt(samples: seq<seq<int>>, i: nat, channels: nat, c: nat)
    requires channels <= |samples| && forall k :: 0 <= k < channels ==> i < |samples[k]|
    requires c < channels
    ensures Frame(samples, i, channels)[c] == Scale(samples[c][i])
    decreases channels
  {
    if c < channels - 1 {
      FrameAt(samples, i, channels - 1, c);
    }
  }

  /**
   * The output holds, at position i·channels + c, the `i`-th sample of
   * channel `c`, scaled; every output value is a 16-bit sample.
   */
  lemma {:induction false} InterleavedAt(samples: seq<seq<int>>, length: nat, channels: nat, i: nat, c: nat)
    requires channels <= |samples| && forall k :: 0 <= k < channels ==> length <= |samples[k]|
    requires i < length && c < channels
    ensures i * channels + c < length * channels
    ensures Interleaved(samples, length, channels)[i * channels + c] == Scale(samples[c][i])
    ensures IsSample(Interleaved(samples, length, channels)[i * channels + c])
    decreases length
  {
    var before := Interleaved(samples, length - 1, channels);
    assert |before| == (length - 1) * channels;
    if i < length - 1 {
      InterleavedAt(samples, length - 1, channels, i, c);
      assert i * channels + c < |before|;
    } else {
      assert i * channels == |before|;
      FrameAt(samples, i, channels, c);
    }
  }

  /** The inner loop of `mad_output`: the channels of one frame. */
  method OutputFrame(samples: seq<seq<int>>, i: nat, channels: nat) returns (out: seq<int>)
    requires channels <= |samples| && forall c :: 0 <= c < channels ==> i < |samples[c]|
    ensures out == Frame(samples, i, channels)
  {
    out := [];
    var chan := 0;
    while chan < channels
      invariant chan <= channels && out == Frame(samples, i, chan)
    {
      out := out + [Scale(samples[chan][i])];
      chan := chan + 1;
    }
  }

  /** `mad_output`: the decoded frame's samples, interleaved and scaled to 16 bits. */
  method Output(samples: seq<seq<int>>, length: nat, channels: nat) returns (out: seq<int>)
    requires channels <= |samples| && forall c :: 0 <= c < channels ==> length <= |samples[c]|
    ensures out == Interleaved(samples, length, channels)
  {
    out := [];
    var i := 0;
    while i < length
      invariant i <= length && out == Interleaved(samples, i, channels)
    {
      var frame := OutputFrame(samples, i, channels);
      out := out + frame;
      i := i + 1;
    }
  }

  // ---------------------------------------------------------------------
  // Audio information

  /** `header->mode`. */
  datatype Mode = SingleChannel | DualChannel | Stereo | JointStereo

  /** What `mad_header` reads of a frame header. */
  datatype Header = Header(mode: Mode, sampleRate: nat)

  /** One frame as the decoder reports it: its header and the length of its output per channel. */
  datatype DecodedFrame = DecodedFrame(header: Header, length: nat)

  /** One channel for single-channel frames, two for every other mode. */
  function Channels(mode: Mode): (r: nat)
    ensures 1 <= r <= 2 && (r == 1 <==> mode == SingleChannel)
  {
    if mode == SingleChannel then 1 else 2
  }

  /** What `mad_header` and then `mad_count` make of the information for one more frame. */
  function Gathered(info: Wav.AudioInfo, f: DecodedFrame): (r: Wav.AudioInfo)
  {
    var channels := Channels(f.header.mode);
    Wav.AudioInfo(f.header.sampleRate, channels, 16, 2 * channels, info.samplesPerChannel + f.length)
  }

  /** The information gathered after the frames `fs`, starting from zero as `struct mad_userdata` does. */
  function FramesInfo(fs: seq<DecodedFrame>): (r: Wav.AudioInfo)
  {
    if fs == [] then Wav.AudioInfo(0, 0, 0, 0, 0) else Gathered(FramesInfo(fs[..|fs| - 1]), fs[|fs| - 1])
  }

  /** The lengths of the frames, added up. */
  function TotalLength(fs: seq<DecodedFrame>): nat
  {
    if fs == [] then 0 else TotalLength(fs[..|fs| - 1]) + fs[|fs| - 1].length
  }

  /**
   * After at least one frame, the rate and channel count are those of the
   * last frame's header, samples are 16-bit with two bytes per channel,
   * and the samples per channel are those of all frames together.
   */
  lemma {:induction false} FramesInfoFields(fs: seq<DecodedFrame>)
    ensures var info := FramesInfo(fs);
      info.samplesPerChannel == TotalLength(fs) &&
      (fs != [] ==> var h := fs[|fs| - 1].header;
        info.sampleRate == h.sampleRate && info.channels == Channels(h.mode) &&
        info.bitsPerSample == 16 && info.blockAlign == 2 * info.channels)
  {
    if fs != [] {
      FramesInfoFields(fs[..|fs| - 1]);
    }
  }

  // ---------------------------------------------------------------------
  // The callbacks' shared state

  /** A decoding error: whether libmad can recover from it, and its description (`mad_stream_errorstr`). */
  datatype StreamError = StreamError(recoverable: bool, description: string)

  /** The digits of `n` in lower-case hexadecimal, at least `width` of them (`%0*lx`). */
  function HexPadded(n: nat, width: nat): (r: string)
    ensures |r| >= width && |r| >= 1 && HexValue(r) == n
    decreases n, width
  {
    if n < 16 && width <= 1 then [HexDigit(n)]
    else
      var high := HexPadded(n / 16, if width > 0 then width - 1 else 0);
      var r := high + [HexDigit(n % 16)];
      assert r[..|r| - 1] == high;
      r
  }

  /** The value of a string of hexadecimal digits. */
  function HexValue(s: string): int
  {
    if s == [] then 0 else HexValue(s[..|s| - 1]) * 16 + HexDigitValue(s[|s| - 1])
  }

  /** The file offset `mad_error` reports for the frame starting at buffer index `thisFrame`. */
  function ErrorPosition(endPosition: nat, end: nat, thisFrame: nat): int
  {
    endPosition - (end - thisFrame)
  }

  /**
   * `struct mad_userdata`: the input buffer, the index just past the bytes
   * in it, the number of bytes read from the file so far, and the audio
   * information gathered. `consumed` is every byte read so far.
   */
  class Userdata {
    const data: array<byte>
    var end: nat
    var endPosition: nat
    var info: Wav.AudioInfo
    ghost var consumed: seq<byte>

    /** The buffer holds, up to `end`, the last bytes read from the file. */
    ghost predicate Valid()
      reads this, data
    {
      data.Length == BUFFER_SIZE && end <= BUFFER_SIZE && endPosition == |consumed| &&
      end <= |consumed| && data[..end] == consumed[|consumed| - end..]
    }

    constructor ()
      ensures Valid() && fresh(data) && end == 0 && endPosition == 0 && consumed == []
      ensures info == Wav.AudioInfo(0, 0, 0, 0, 0)
    {
      data := new byte[BUFFER_SIZE];
      end, endPosition := 0, 0;
      info := Wav.AudioInfo(0, 0, 0, 0, 0);
      consumed := [];
    }

    /** `mad_header`: channels, sample size and rate from the frame header; the sample count is kept. */
    method OnHeader(h: Header)
      modifies this
      ensures info == Wav.AudioInfo(h.sampleRate, Channels(h.mode), 16, 2 * Channels(h.mode), old(info).samplesPerChannel)
      ensures end == old(end) && endPosition == old(endPosition) && consumed == old(consumed)
    {
      var channels := Channels(h.mode);
      info := info.(channels := channels, bitsPerSample := 16, blockAlign := 2 * channels, sampleRate := h.sampleRate);
    }

    /** `mad_count`: adds the frame's length to the samples per channel. */
    method OnCount(length: nat)
      modifies this
      ensures info == old(info).(samplesPerChannel := old(info).samplesPerChannel + length)
      ensures end == old(end) && endPosition == old(endPosition) && consumed == old(consumed)
    {
      info := info.(samplesPerChannel := info.samplesPerChannel + length);
    }

    /**
     * `mad_error`: a recoverable error lets decoding go on; any other fails
     * with its description and the file offset, in at least eight
     * hexadecimal digits, of the frame it happened in.
     */
    method OnError(error: StreamError, thisFrame: nat) returns (flow: Flow, failure: Option<string>)
      requires Valid() && thisFrame <= end
      ensures error.recoverable ==> flow == Continue && failure == None
      ensures !error.recoverable ==> (flow == Break &&
        failure == Some("decoding error: " + error.description + " at " + HexPadded(ErrorPosition(endPosition, end, thisFrame), 8)))
    {
      var position := endPosition - (end - thisFrame);
      if error.recoverable {
        return Continue, None;
      }
      return Break, Some("decoding error: " + error.description + " at " + HexPadded(position, 8));
    }

    /** Moves the `prefix` bytes from `from` to the front of the buffer (`memmove`). */
    method MoveLeftover(from: nat, prefix: nat)
      requires data.Length == BUFFER_SIZE && from + prefix <= BUFFER_SIZE
      modifies data
      ensures data[..prefix] == old(data[from..from + prefix])
    {
      var k := 0;
      while k < prefix
        invariant k <= prefix
        invariant data[..k] == old(data[from..from + k])
        invariant forall j :: k <= j < data.Length ==> data[j] == old(data[j])
      {
        data[k] := data[from + k];
        k := k + 1;
      }
    }

    /** Copies the bytes read in after the first `prefix` bytes of the buffer. */
    method Fill(prefix: nat, bytes: seq<byte>)
      requires data.Length == BUFFER_SIZE && prefix + |bytes| <= BUFFER_SIZE
      modifies data
      ensures data[..prefix + |bytes|] == old(data[..prefix]) + bytes
    {
      var k := 0;
      while k < |bytes|
        invariant k <= |bytes|
        invariant data[..prefix + k] == old(data[..prefix]) + bytes[..k]
      {
        data[prefix + k] := bytes[k];
        k := k + 1;
        assert data[..prefix + k] == data[..prefix + k - 1] + [bytes[k - 1]];
        assert bytes[..k] == bytes[..k - 1] + [bytes[k - 1]];
      }
      assert bytes[..k] == bytes;
    }

    /**
     * `mad_input`: the bytes from the next undecoded frame (`nextFrame`, an
     * index into the buffer; none before the first call) to the end move
     * to the front, and the bytes `read` returns fill the rest. A failed
     * read breaks decoding and an empty one (end of file) stops it;
     * otherwise the buffer again holds the last bytes read from the file,
     * the undecoded ones first.
     */
    method Input(nextFrame: Option<nat>, read: Result<seq<byte>>) returns (flow: Flow)
      requires Valid() && (nextFrame.Some? ==> nextFrame.value <= end)
      requires read.Ok? ==> |read.value| <= BUFFER_SIZE - Leftover(nextFrame, end)
      modifies this, data
      ensures read.Err? ==> flow == Break
      ensures read.Ok? && read.value == [] ==> flow == Stop
      ensures read.Ok? && read.value != [] ==> flow == Continue
      ensures flow != Continue ==> end == old(end) && endPosition == old(endPosition) && consumed == old(consumed)
      ensures flow == Continue ==> (Valid() && consumed == old(consumed) + read.value &&
        endPosition == old(endPosition) + |read.value| && end == Leftover(nextFrame, old(end)) + |read.value| &&
        data[..end] == old(data[..end])[old(end) - Leftover(nextFrame, old(end))..] + read.value)
    {
      var prefix := Leftover(nextFrame, end);
      ghost var window := data[..end];
      if nextFrame.Some? {
        MoveLeftover(nextFrame.value, prefix);
      }
      KeptWindow(consumed, window, end, prefix);
      match read {
        case Err(_) =>
          return Break;
        case Ok(bytes) =>
          if bytes == [] {
            return Stop;
          }
          Refill(prefix, bytes);
          return Continue;
      }
    }

    /**
     * The read part of `mad_input`: with the last `prefix` bytes read at
     * the front of the buffer, the new bytes go after them.
     */
    method Refill(prefix: nat, bytes: seq<byte>)
      requires data.Length == BUFFER_SIZE && prefix + |bytes| <= BUFFER_SIZE
      requires prefix <= |consumed| && endPosition == |consumed|
      requires data[..prefix] == consumed[|consumed| - prefix..]
      modifies this, data
      ensures Valid() && consumed == old(consumed) + bytes
      ensures endPosition == old(endPosition) + |bytes| && end == prefix + |bytes|
      ensures data[..end] == old(data[..prefix]) + bytes
    {
      Fill(prefix, bytes);
      WindowMoves(consumed, prefix, bytes);
      end := prefix + |bytes|;
      endPosition := endPosition + |bytes|;
      consumed := consumed + bytes;
    }
  }

  /** After the move, the front of the buffer holds the last `prefix` bytes read. */
  lemma {:induction false} KeptWindow(consumed: seq<byte>, window: seq<byte>, end: nat, prefix: nat)
    requires end == |window| && prefix <= end <= |consumed| && window == consumed[|consumed| - end..]
    ensures window[end - prefix..] == consumed[|consumed| - prefix..]
  {
  }

  /** How many bytes `mad_input` carries over: those from the next frame to the end, or none before the first frame. */
  function Leftover(nextFrame: Option<nat>, end: nat): (r: nat)
    requires nextFrame.Some? ==> nextFrame.value <= end
    ensures r <= end
  {
    match nextFrame case None => 0 case Some(f) => end - f
  }

  /** The last `prefix` bytes read, then the new bytes, are the last bytes of all read. */
  lemma {:induction false} WindowMoves(consumed: seq<byte>, prefix: nat, bytes: seq<byte>)
    requires prefix <= |consumed|
    ensures consumed[|consumed| - prefix..] + bytes == (consumed + bytes)[|consumed + bytes| - (prefix + |bytes|)..]
  {
  }

  /**
   * The offset `mad_error` reports is that of the frame in the file: the
   * byte at `thisFrame` in the buffer is the byte read at that offset.
   */
  lemma {:induction false} ErrorPositionIsOffset(u: Userdata, thisFrame: nat)
    requires u.Valid() && thisFrame < u.end
    ensures var p := ErrorPosition(u.endPosition, u.end, thisFrame);
      0 <= p < |u.consumed| && u.consumed[p] == u.data[thisFrame]
  {
    assert u.data[thisFrame] == u.data[..u.end][thisFrame];
  }

  /** One frame more: its header sets the format and its length adds to the count. */
  lemma {:induction false} FramesInfoNext(fs: seq<DecodedFrame>, k: nat)
    requires k < |fs|
    ensures FramesInfo(fs[..k + 1]) == Gathered(FramesInfo(fs[..k]), fs[k])
  {
    assert fs[..k + 1][..k] == fs[..k];
  }

  /** The callbacks for one frame: `mad_header`, then `mad_count`. */
  method OnFrame(u: Userdata, f: DecodedFrame)
    modifies u
    ensures u.info == Gathered(old(u.info), f)
  {
    u.OnHeader(f.header);
    u.OnCount(f.length);
  }

  /** The callbacks for every frame in order, starting from zeroed information. */
  method OnFrames(u: Userdata, fs: seq<DecodedFrame>)
    requires u.info == Wav.AudioInfo(0, 0, 0, 0, 0)
    modifies u
    ensures u.info == FramesInfo(fs)
  {
    var k := 0;
    while k < |fs|
      invariant k <= |fs| && u.info == FramesInfo(fs[..k])
    {
      FramesInfoNext(fs, k);
      OnFrame(u, fs[k]);
      k := k + 1;
    }
    assert fs[..k] == fs;
  }

  /**
   * `mad_get_audio_info` over the frames the decoder reports: `mad_header`
   * then `mad_count` for each, from zeroed information.
   */
  method GetAudioInfo(fs: seq<DecodedFrame>) returns (info: Wav.AudioInfo)
    ensures info == FramesInfo(fs)
  {
    var u := new Userdata();
    OnFrames(u, fs);
    return u.info;
  }
}

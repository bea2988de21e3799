/**
 * Reading an ID3v2 tag, as src/rsvc/id3.c does: the ten-byte tag header
 * (section 3.1 of the ID3v2.4.0 structure document), sync-safe sizes
 * (section 6.2), the frames with their ten-byte headers (section 4), the
 * padding after them (section 3.3), and the frame bodies by the type the
 * frame table gives them: text with its encoding byte (section 4 of the
 * frames document), ID3v2.3 text re-keyed by its Vorbis name, pictures
 * (section 4.14), frames passed through unread, and frames discarded.
 *
 * The file is a byte sequence; `rsvc_read` of a file that ends early fails
 * with `ShortRead`.
 */
module Id3Read {
  import opened Common
  import opened Encoding
  import opened Id3Table
  import opened Id3Frames

  // ---------------------------------------------------------------------
  // Sync-safe sizes
  // ---------------------------------------------------------------------

  const HighBitError: string := "high bit set in ID3 size"

  /** The largest sync-safe size plus one: four 7-bit groups. */
  const SyncSafeLimit: nat := 0x1000_0000

  /** The bytes read as base-128 digits, most significant first. */
  function SevenBits(s: seq<byte>): nat
  {
    if s == [] then 0 else SevenBits(s[..|s| - 1]) * 128 + s[|s| - 1]
  }

  /**
   * `read_sync_safe_size`: fails when any of the four bytes has its high bit
   * set, and otherwise is the sum of each byte times 128 to the power of
   * its distance from the end.
   */
  function SyncSafe(data: seq<byte>): (r: Result<nat>)
    requires |data| == 4
    ensures r.Err? <==> exists i | 0 <= i < 4 :: data[i] >= 0x80
    ensures r.Err? ==> r.msg == HighBitError
    ensures r.Ok? ==> r.value == data[0] as int * 0x20_0000 + data[1] as int * 0x4000 + data[2] as int * 0x80 + data[3] as int
    ensures r.Ok? ==> r.value < SyncSafeLimit
  {
    if exists i | 0 <= i < 4 :: data[i] >= 0x80 then Err(HighBitError)
    else
      SevenBitsOfFour(data);
      Ok(SevenBits(data))
  }

  /** Four base-128 digits, written out. */
  lemma {:induction false} SevenBitsOfFour(data: seq<byte>)
    requires |data| == 4
    ensures SevenBits(data) == data[0] as int * 0x20_0000 + data[1] as int * 0x4000 + data[2] as int * 0x80 + data[3] as int
  {
    assert data[..3][..2] == data[..2] && data[..2][..1] == data[..1] && data[..1][..0] == [];
    assert SevenBits(data[..1]) == data[0];
    assert SevenBits(data[..2]) == data[0] as int * 128 + data[1];
    assert SevenBits(data[..3]) == (data[0] as int * 128 + data[1]) * 128 + data[2];
  }

  /** The loop of `read_sync_safe_size`. */
  method ReadSyncSafe(data: seq<byte>) returns (r: Result<nat>)
    requires |data| == 4
    ensures r == SyncSafe(data)
  {
    var out: nat := 0;
    for i := 0 to 4
      invariant out == SevenBits(data[..i])
      invariant forall k | 0 <= k < i :: data[k] < 0x80
    {
      if data[i] >= 0x80 {
        return Err(HighBitError);
      }
      assert data[..i + 1][..i] == data[..i];
      out := out * 128 + data[i];
    }
    assert data[..4] == data;
    r := Ok(out);
  }

  /** `read_sync_unsafe_size`: the ID3v2.3 frame size, four bytes big-endian. */
  function SyncUnsafe(data: seq<byte>): (r: nat)
    requires |data| == 4
    ensures r == data[0] as int * 0x100_0000 + data[1] as int * 0x1_0000 + data[2] as int * 0x100 + data[3] as int
  {
    assert data[..3][..2] == data[..2] && data[..2][..1] == data[..1] && data[..1][..0] == [];
    assert BigEndian(data[..1]) == data[0];
    assert BigEndian(data[..2]) == data[0] as int * 256 + data[1];
    assert BigEndian(data[..3]) == (data[0] as int * 256 + data[1]) * 256 + data[2];
    BigEndian(data)
  }

  // ---------------------------------------------------------------------
  // The tag header
  // ---------------------------------------------------------------------

  /** The header fields `struct rsvc_id3_tags` keeps; version 0 means the file has no tag. */
  datatype Header = Header(version: nat, revision: nat, size: nat)

  /** "ID3". */
  const Magic: seq<byte> := [0x49, 0x44, 0x33]

  /**
   * `read_id3_header` as written: `memcpy` copies the two version bytes into
   * the first of two `int`s, so on a little-endian machine the major
   * version reads as `data[3] + 256 * data[4]` and the revision as 0.
   */
  function ReadHeaderAsWritten(file: seq<byte>): Result<Header>
  {
    if |file| < 10 then Err(ShortRead)
    else if file[..3] != Magic then Ok(Header(0, 0, 0))
    else
      var version := file[3] as int + 256 * file[4] as int;
      if version < 3 || version > 4 then Err("unsupported ID3 version 2." + Decimal(version) + ".0")
      else if file[5] != 0 then Err("ID3 flags not supported")
      else match SyncSafe(file[6..10])
        case Err(m) => Err(m)
        case Ok(size) => Ok(Header(version, 0, size))
  }

  /**
   * `read_id3_header` with the version read byte by byte: a file without
   * "ID3" has no tag; a tag must be version 2.3 or 2.4 (any revision), have
   * no flags set and a sync-safe size.
   */
  function ReadHeader(file: seq<byte>): (r: Result<Header>)
    ensures |file| < 10 ==> r == Err(ShortRead)
    ensures |file| >= 10 && file[..3] != Magic ==> r == Ok(Header(0, 0, 0))
    ensures |file| >= 10 && file[..3] == Magic ==>
      (r.Ok? <==> 3 <= file[3] <= 4 && file[5] == 0 && forall i | 6 <= i < 10 :: file[i] < 0x80)
    ensures |file| >= 10 && file[..3] == Magic && !(3 <= file[3] <= 4) ==>
      r == Err("unsupported ID3 version 2." + Decimal(file[3]) + "." + Decimal(file[4]))
    ensures r.Ok? && r.value.version != 0 ==>
      |file| >= 10 && r.value.version in {3, 4} && r.value == Header(file[3], file[4], SyncSafe(file[6..10]).value)
  {
    if |file| < 10 then Err(ShortRead)
    else if file[..3] != Magic then Ok(Header(0, 0, 0))
    else if file[3] < 3 || file[3] > 4 then Err("unsupported ID3 version 2." + Decimal(file[3]) + "." + Decimal(file[4]))
    else if file[5] != 0 then Err("ID3 flags not supported")
    else match SyncSafe(file[6..10])
      case Err(m) => Err(m)
      case Ok(size) => Ok(Header(file[3], file[4], size))
  }

  /** An ID3v2.4.1 header is refused as written, with a version no file carries, and read as intended. */
  lemma {:induction false} HeaderRevisionAsWritten(file: seq<byte>)
    requires file == [0x49, 0x44, 0x33, 4, 1, 0, 0, 0, 0, 0]
    ensures ReadHeaderAsWritten(file) == Err("unsupported ID3 version 2.260.0")
    ensures ReadHeader(file) == Ok(Header(4, 1, 0))
  {
    assert file[..3] == Magic;
    assert Decimal(260) == "260" by {
      assert Decimal(26) == "26" by {
        assert Decimal(2) == "2";
      }
    }
    assert file[6..10] == [0, 0, 0, 0];
    assert SyncSafe(file[6..10]) == Ok(0);
  }

  /** With a zero revision byte, the header as written and as intended agree. */
  lemma {:induction false} HeaderAgreesWithoutRevision(file: seq<byte>)
    requires |file| >= 10 && file[4] == 0
    ensures ReadHeaderAsWritten(file) == ReadHeader(file)
  {
    if file[..3] == Magic && (file[3] < 3 || file[3] > 4) {
      assert Decimal(0) == "0";
    }
  }

  // ---------------------------------------------------------------------
  // Encodings and text
  // ---------------------------------------------------------------------

  /** The decoder an encoding byte selects: Latin-1, UTF-16 with a byte-order mark, UTF-16BE, UTF-8. */
  function Decode(encoding: byte, data: seq<byte>): Result<seq<byte>>
    requires encoding <= 3
  {
    if encoding == 0 then Latin1Bytes(data)
    else if encoding == 1 then Utf16BomBytes(data)
    else if encoding == 2 then Utf16Bytes(data, true)
    else Utf8Bytes(data)
  }

  /**
   * `read_encoding`: the first body byte names the encoding, which must be
   * at most `max` (3 for ID3v2.4, 1 for ID3v2.3 text); the rest is the text.
   */
  function ReadEncoding(body: seq<byte>, max: byte): (r: Result<(byte, seq<byte>)>)
    requires max <= 3
    ensures body == [] ==> r == Err("unexpected end of frame")
    ensures body != [] ==> (r.Ok? <==> body[0] <= max)
    ensures body != [] && r.Err? ==> r.msg == "unknown encoding"
    ensures r.Ok? ==> r.value == (body[0], body[1..]) && r.value.0 <= max
  {
    if body == [] then Err("unexpected end of frame")
    else if body[0] <= max then Ok((body[0], body[1..]))
    else Err("unknown encoding")
  }

  /** The bytes before the first NUL, as `strlen` and `strndup` see them. */
  function UntilNul(data: seq<byte>): (r: seq<byte>)
    ensures 0 !in r && |r| <= |data| && r == data[..|r|]
    ensures |r| < |data| ==> data[|r|] == 0
  {
    if data == [] || data[0] == 0 then []
    else
      var rest := UntilNul(data[1..]);
      assert [data[0]] + rest == data[..|rest| + 1];
      [data[0]] + rest
  }

  /**
   * `id3_text_read`: the decoded text must end with its only NUL; the
   * value before it is added as a text frame.
   */
  function TextRead(frames: seq<Frame>, spec: nat, body: seq<byte>): (r: Result<seq<Frame>>)
    requires spec < Count
    ensures r.Ok? ==> |r.value| == |frames| + 1 && r.value[..|frames|] == frames
    ensures r.Ok? ==> r.value[|frames|].spec == spec && r.value[|frames|].body.Bytes? && 0 !in TextOf(r.value[|frames|].body)
  {
    match ReadEncoding(body, 3)
    case Err(m) => Err(m)
    case Ok((encoding, rest)) =>
      match Decode(encoding, rest)
      case Err(m) => Err(m)
      case Ok(text) =>
        if 0 !in text then Err("missing null terminator")
        else if 0 in text[..|text| - 1] then Err("more than one tag value")
        else TextAdd(frames, spec, text[..|text| - 1])
  }

  /** A UTF-8 text frame body reads back as its value. */
  lemma {:induction false} TextReadBack(frames: seq<Frame>, spec: nat, value: seq<byte>)
    requires spec < Count && 0 !in value && Shaped(value, 0, Lead)
    ensures TextRead(frames, spec, [3] + value + [0]) == TextAdd(frames, spec, value)
  {
    var body := [3] + value + [0];
    assert body[1..] == value + [0];
    ShapedNul(value);
    assert (value + [0])[..|value|] == value;
  }

  /** Appending a NUL keeps a valid UTF-8 text valid. */
  lemma {:induction false} ShapedNul(value: seq<byte>)
    requires Shaped(value, 0, Lead)
    ensures Shaped(value + [0], 0, Lead)
  {
    ShapedAppend(value, [0], 0);
    assert Shaped([0][1..], 0, Lead);
  }

  /** A text whose last sequence is complete can be followed by any valid text. */
  lemma {:induction false} ShapedAppend(a: seq<byte>, b: seq<byte>, owed: nat)
    requires Shaped(a, owed, Lead) && Shaped(b, 0, Lead)
    ensures Shaped(a + b, owed, Lead)
    decreases |a|
  {
    if a != [] {
      assert (a + b)[0] == a[0] && (a + b)[1..] == a[1..] + b;
      if owed > 0 {
        ShapedAppend(a[1..], b, owed - 1);
      } else {
        ShapedAppend(a[1..], b, Lead(a[0]) as nat);
      }
    } else {
      assert a + b == b;
    }
  }

  /** The entry an ID3v2.3 text frame is stored under: the one its Vorbis name finds, which is editable. */
  function Text23Target(spec: nat): (t: nat)
    requires spec < Count && Entry(spec).v3 == Some(Text23)
    ensures Entry(spec).vorbis.Some? && VorbisSpec(Entry(spec).vorbis.value) == Ok(t)
    ensures t <= spec && Editable(Entry(t).v4)
  {
    Text23Rekeys(spec);
    VorbisSpec(Entry(spec).vorbis.value).value
  }

  /**
   * `id3_text_read_2_3`: the frame is stored under the entry its Vorbis
   * name finds; Latin-1 or UTF-16 with a byte-order mark only; a NUL before
   * the last decoded byte is refused, and the value ends at the first NUL.
   */
  function Text23Read(frames: seq<Frame>, spec: nat, body: seq<byte>): (r: Result<seq<Frame>>)
    requires spec < Count && Entry(spec).v3 == Some(Text23)
    ensures r.Ok? ==> |r.value| == |frames| + 1 && r.value[..|frames|] == frames
    ensures r.Ok? ==> (r.value[|frames|].spec == Text23Target(spec)
      && r.value[|frames|].body.Bytes? && 0 !in TextOf(r.value[|frames|].body))
  {
    var target := Text23Target(spec);
    match ReadEncoding(body, 1)
    case Err(m) => Err(m)
    case Ok((encoding, rest)) =>
      match Decode(encoding, rest)
      case Err(m) => Err(m)
      case Ok(text) =>
        if text != [] && 0 in text[..|text| - 1] then Err("tag value has embedded NUL character")
        else
          var value := UntilNul(text);
          TextAdd(frames, target, value)
  }

  // ---------------------------------------------------------------------
  // Pictures
  // ---------------------------------------------------------------------

  /** `memchr(data, '\0', size)`: the position of the first NUL. */
  function ZeroAt(data: seq<byte>): (r: Option<nat>)
    ensures r.Some? ==> r.value < |data| && data[r.value] == 0 && 0 !in data[..r.value]
    ensures r.None? ==> 0 !in data
  {
    if data == [] then None
    else if data[0] == 0 then Some(0)
    else
      match ZeroAt(data[1..])
      case None => None
      case Some(z) =>
        assert data[..z + 1] == [data[0]] + data[1..][..z];
        Some(z + 1)
  }

  /** Unit `i` of `data` (bytes `2i` and `2i + 1`) is a whole zero unit. */
  predicate NulUnit(data: seq<byte>, i: nat)
  {
    2 * i + 2 <= |data| && data[2 * i] == 0 && data[2 * i + 1] == 0
  }

  /** The first zero unit at or after unit `i`, scanning the `|data| / 2` whole units. */
  function ZeroUnit(data: seq<byte>, i: nat): (r: Option<nat>)
    requires i <= |data| / 2
    ensures r.Some? ==> i <= r.value < |data| / 2 && NulUnit(data, r.value)
    ensures r.Some? ==> forall k | i <= k < r.value :: !NulUnit(data, k)
    ensures r.None? ==> forall k | i <= k < |data| / 2 :: !NulUnit(data, k)
    decreases |data| / 2 - i
  {
    if i == |data| / 2 then None
    else if NulUnit(data, i) then Some(i)
    else ZeroUnit(data, i + 1)
  }

  /**
   * `decode_nul_terminated`: the text up to and including the first NUL
   * (a NUL byte for Latin-1 and UTF-8, a NUL unit for UTF-16), decoded, and
   * the bytes after it.
   */
  function NulTerminated(encoding: byte, data: seq<byte>): (r: Result<(seq<byte>, seq<byte>)>)
    requires encoding <= 3
    ensures encoding in {0, 3} && 0 !in data ==> r == Err("mussing null terminator")
    ensures r.Ok? ==> |r.value.1| < |data|
  {
    var end := if encoding == 0 || encoding == 3 then
                 (match ZeroAt(data) case Some(z) => Some(z + 1) case None => None)
               else
                 (match ZeroUnit(data, 0) case Some(i) => Some(2 * i + 2) case None => None);
    match end
    case None => Err("mussing null terminator")
    case Some(e) =>
      match Decode(encoding, data[..e])
      case Err(m) => Err(m)
      case Ok(text) => Ok((text, data[e..]))
  }

  /**
   * `id3_image_read` as written: when the MIME type's NUL is the last byte
   * of the frame, the picture type is read past the end of the frame and
   * the rest of the frame is taken to be `(size_t)-1` bytes long, which
   * this model cannot give a value to (None).
   */
  function ImageReadAsWritten(frames: seq<Frame>, spec: nat, body: seq<byte>): Option<Result<seq<Frame>>>
  {
    match ReadEncoding(body, 3)
    case Err(m) => Some(Err(m))
    case Ok((encoding, rest)) =>
      match ZeroAt(rest)
      case None => Some(Err("missing null terminator on APIC MIME type"))
      case Some(z) =>
        if z + 1 == |rest| then None
        else Some(ImageRead(frames, spec, body))
  }

  /**
   * `id3_image_read`, refusing a frame that ends with the MIME type: the
   * encoding byte, the MIME type up to its NUL, the picture type byte, the
   * description up to its NUL in the frame's encoding, and the payload.
   */
  function ImageRead(frames: seq<Frame>, spec: nat, body: seq<byte>): (r: Result<seq<Frame>>)
    ensures r.Ok? ==> |r.value| == |frames| + 1 && r.value[..|frames|] == frames
    ensures r.Ok? ==> r.value[|frames|].spec == spec && r.value[|frames|].body.Picture?
    ensures r.Ok? ==> 0 !in r.value[|frames|].body.mime && 0 !in r.value[|frames|].body.description
  {
    match ReadEncoding(body, 3)
    case Err(m) => Err(m)
    case Ok((encoding, rest)) =>
      match ZeroAt(rest)
      case None => Err("missing null terminator on APIC MIME type")
      case Some(z) =>
        var after := rest[z + 1..];
        if after == [] then Err("unexpected end of frame")
        else
          match NulTerminated(encoding, after[1..])
          case Err(m) => Err(m)
          case Ok((text, payload)) => Ok(ImageAdd(frames, spec, after[0], rest[..z], UntilNul(text), payload))
  }

  /** A frame that ends right after the MIME type's NUL: read past its end as written, refused as intended. */
  lemma {:induction false} ImageReadAsWrittenOverruns()
    ensures ImageReadAsWritten([], 66, [3, 0x78, 0]) == None
    ensures ImageRead([], 66, [3, 0x78, 0]) == Err("unexpected end of frame")
  {
    var rest: seq<byte> := [0x78, 0];
    assert ZeroAt(rest) == Some(1) by {
      assert 0 in rest;
      assert UntilNul(rest[1..]) == [];
    }
  }

  /** Whenever the MIME type's NUL is not the frame's last byte, both read the same. */
  lemma {:induction false} ImageReadAgrees(frames: seq<Frame>, spec: nat, body: seq<byte>)
    requires |body| >= 1 && body[0] <= 3
    requires ZeroAt(body[1..]).Some? ==> ZeroAt(body[1..]).value + 1 < |body[1..]|
    ensures ImageReadAsWritten(frames, spec, body) == Some(ImageRead(frames, spec, body))
  {
  }

  /** A UTF-8 picture frame written as `id3_image_write` lays it out reads back as the same picture. */
  lemma {:induction false} ImageReadBack(frames: seq<Frame>, spec: nat, kind: byte, mime: seq<byte>, description: seq<byte>, payload: seq<byte>)
    requires 0 !in mime && 0 !in description && Shaped(description, 0, Lead)
    ensures ImageRead(frames, spec, [3] + mime + [0] + [kind] + description + [0] + payload)
      == Ok(ImageAdd(frames, spec, kind, mime, description, payload))
  {
    var tail := description + ([0] + payload);
    var rest := mime + ([0] + ([kind] + tail));
    var body := [3] + mime + [0] + [kind] + description + [0] + payload;
    PictureLayout([3], mime, [0], [kind], description, [0], payload);
    assert body[1..] == rest;
    assert ReadEncoding(body, 3) == Ok((3, rest));
    ZeroAfter(mime, [kind] + tail);
    var after := rest[|mime| + 1..];
    assert after[0] == kind && after[1..] == tail;
    DescriptionReadBack(description, payload);
    assert NulTerminated(3, after[1..]) == Ok((description + [0], payload));
  }

  /** Regrouping seven pieces to the right. */
  lemma {:induction false} PictureLayout<T>(a: seq<T>, b: seq<T>, c: seq<T>, d: seq<T>, e: seq<T>, f: seq<T>, g: seq<T>)
    ensures a + b + c + d + e + f + g == a + (b + (c + (d + (e + (f + g)))))
  {
  }

  /** The description and payload of a UTF-8 picture frame. */
  lemma {:induction false} DescriptionReadBack(description: seq<byte>, payload: seq<byte>)
    requires 0 !in description && Shaped(description, 0, Lead)
    ensures NulTerminated(3, description + ([0] + payload)) == Ok((description + [0], payload))
    ensures UntilNul(description + [0]) == description
  {
    DescriptionDecoded(description, payload);
    UntilNulOf(description, []);
    assert description + [0] + [] == description + [0];
  }

  /** The description of a UTF-8 picture frame is decoded with its NUL, and the payload follows it. */
  lemma {:induction false} DescriptionDecoded(description: seq<byte>, payload: seq<byte>)
    requires 0 !in description && Shaped(description, 0, Lead)
    ensures NulTerminated(3, description + ([0] + payload)) == Ok((description + [0], payload))
  {
    var data := description + ([0] + payload);
    ZeroAfter(description, payload);
    assert data[..|description| + 1] == description + [0];
    ShapedNul(description);
  }

  /** The first NUL of `a + [0] + b` is the one after `a`, when `a` has none. */
  lemma {:induction false} ZeroAfter(a: seq<byte>, b: seq<byte>)
    requires 0 !in a
    ensures ZeroAt(a + ([0] + b)) == Some(|a|)
    ensures (a + ([0] + b))[..|a|] == a && (a + ([0] + b))[|a| + 1..] == b
  {
    if a != [] {
      assert (a + ([0] + b))[1..] == a[1..] + ([0] + b);
      ZeroAfter(a[1..], b);
    }
  }

  /** `strlen` of a NUL-free text followed by a NUL is the text. */
  lemma {:induction false} UntilNulOf(a: seq<byte>, b: seq<byte>)
    requires 0 !in a
    ensures UntilNul(a + [0] + b) == a
  {
    if a != [] {
      assert (a + [0] + b)[1..] == a[1..] + [0] + b;
      UntilNulOf(a[1..], b);
    } else {
      assert (a + [0] + b)[0] == 0;
    }
  }

  // ---------------------------------------------------------------------
  // Frames
  // ---------------------------------------------------------------------

  /** Reading a body by the type the table gives the frame for the tag's version. */
  function ReadBody(version: int, frames: seq<Frame>, spec: nat, body: seq<byte>): (r: Result<seq<Frame>>)
    requires spec < Count && TypeFor(version, spec).Some?
  {
    match TypeFor(version, spec).value
    case Text => TextRead(frames, spec, body)
    case Bool => TextRead(frames, spec, body)
    case SequenceNumber => TextRead(frames, spec, body)
    case SequenceTotal => TextRead(frames, spec, body)
    case Text23 => Text23OnlyV3(version, spec); Text23Read(frames, spec, body)
    case Image => ImageRead(frames, spec, body)
    case Passthru => Ok(frames + [Frame(spec, Bytes(body))])
    case Discard => Ok(frames)
  }

  /** The size field of a frame header: plain big-endian for ID3v2.3, sync-safe for ID3v2.4. */
  function FrameSize(version: nat, data: seq<byte>): Result<nat>
    requires |data| == 4
  {
    if version == 3 then Ok(SyncUnsafe(data)) else SyncSafe(data)
  }

  /**
   * The checks `read_id3_frame` makes of a frame header once the frame's
   * entry is known: its size must be readable, its flags zero and its body
   * within what is left. The result is the number of bytes the frame takes.
   */
  function FrameExtent(version: nat, data: seq<byte>): (r: Result<nat>)
    requires version in {3, 4} && |data| >= 10
    ensures r.Ok? <==> (FrameSize(version, data[4..8]).Ok? && data[8] == 0 && data[9] == 0
      && FrameSize(version, data[4..8]).value <= |data| - 10)
    ensures r.Ok? ==> r.value == 10 + FrameSize(version, data[4..8]).value && r.value <= |data|
  {
    match FrameSize(version, data[4..8])
    case Err(m) => Err(m)
    case Ok(size) =>
      if data[8] != 0 || data[9] != 0 then Err("ID3 frame flags not supported")
      else if size > |data| - 10 then Err(Decimal(size) + ": invalid ID3 frame size")
      else Ok(10 + size)
  }

  /** A frame header with a readable size, no flags and a body within the data passes the checks. */
  lemma {:induction false} FrameExtentOk(version: nat, data: seq<byte>, size: nat)
    requires version in {3, 4} && |data| >= 10
    requires FrameSize(version, data[4..8]) == Ok(size) && data[8] == 0 && data[9] == 0 && size <= |data| - 10
    ensures FrameExtent(version, data) == Ok(10 + size)
  {
  }

  /**
   * `read_id3_frame` once the frame's entry is known: the header checks,
   * then the body read by the entry's type for the tag's version. The
   * result holds the frames and the number of bytes the frame takes.
   */
  function FrameContent(frames: seq<Frame>, version: nat, spec: nat, data: seq<byte>): (r: Result<(seq<Frame>, nat)>)
    requires version in {3, 4} && |data| >= 10 && spec < Count && TypeFor(version, spec).Some?
    ensures r.Ok? ==> FrameExtent(version, data) == Ok(r.value.1) && 10 <= r.value.1 <= |data|
    ensures r.Ok? ==> ReadBody(version, frames, spec, data[10..r.value.1]) == Ok(r.value.0)
  {
    match FrameExtent(version, data)
    case Err(m) => Err(m)
    case Ok(n) =>
      match ReadBody(version, frames, spec, data[10..n])
      case Err(m) => Err(m)
      case Ok(read) => Ok((read, n))
  }

  /** A frame whose header passes the checks and whose body reads is read. */
  lemma {:induction false} FrameContentOk(frames: seq<Frame>, version: nat, spec: nat, data: seq<byte>, n: nat, read: seq<Frame>)
    requires version in {3, 4} && |data| >= 10 && spec < Count && TypeFor(version, spec).Some?
    requires FrameExtent(version, data) == Ok(n) && 10 <= n <= |data|
    requires ReadBody(version, frames, spec, data[10..n]) == Ok(read)
    ensures FrameContent(frames, version, spec, data) == Ok((read, n))
  {
  }

  /**
   * `read_id3_frame`: the frame's name must be in the table for the tag's
   * version, and errors after the lookup carry the entry's name.
   */
  function FrameStep(frames: seq<Frame>, version: nat, data: seq<byte>): (r: Result<(seq<Frame>, nat)>)
    requires version in {3, 4} && |data| >= 10
    ensures Id3Spec(version, data[..4]).Err? ==> r == Err(Id3Spec(version, data[..4]).msg)
    ensures Id3Spec(version, data[..4]).Ok? ==>
      var spec := Id3Spec(version, data[..4]).value;
      var content := FrameContent(frames, version, spec, data);
      r == if content.Ok? then content else Err(Entry(spec).name + ": " + content.msg)
  {
    match Id3Spec(version, data[..4])
    case Err(m) => Err(m)
    case Ok(spec) =>
      match FrameContent(frames, version, spec, data)
      case Err(m) => Err(Entry(spec).name + ": " + m)
      case Ok(step) => Ok(step)
  }

  /** A frame takes at least its header and no more than the data. */
  lemma {:induction false} FrameStepBounds(frames: seq<Frame>, version: nat, data: seq<byte>)
    requires version in {3, 4} && |data| >= 10 && FrameStep(frames, version, data).Ok?
    ensures 10 <= FrameStep(frames, version, data).value.1 <= |data|
  {
  }

  /** Bytes that are all zero. */
  predicate Padding(data: seq<byte>)
  {
    forall i | 0 <= i < |data| :: data[i] == 0
  }

  /**
   * `read_id3_frames`: frames are read until the data runs out or what is
   * left is shorter than a frame header or starts with a zero byte; what
   * is left then must be all zeros.
   */
  function Walk(frames: seq<Frame>, version: nat, data: seq<byte>): (r: Result<seq<Frame>>)
    requires version in {3, 4}
    decreases |data|
  {
    if data == [] then Ok(frames)
    else if |data| < 10 || data[0] == 0 then
      if Padding(data) then Ok(frames) else Err("junk data after last ID3 tag")
    else
      match FrameStep(frames, version, data)
      case Err(m) => Err(m)
      case Ok((read, n)) => Walk(read, version, data[n..])
  }

  /** Padding reads as no frames, and anything else that cannot be a frame as junk. */
  lemma {:induction false} WalkStops(frames: seq<Frame>, version: nat, data: seq<byte>)
    requires version in {3, 4} && (|data| < 10 || (data != [] && data[0] == 0))
    ensures Walk(frames, version, data) == if Padding(data) then Ok(frames) else Err("junk data after last ID3 tag")
  {
  }

  /** One frame of the walk. */
  lemma {:induction false} WalkStep(frames: seq<Frame>, version: nat, data: seq<byte>, step: Result<(seq<Frame>, nat)>)
    requires version in {3, 4} && |data| >= 10 && data[0] != 0
    requires step == FrameStep(frames, version, data)
    ensures step.Ok? ==> 10 <= step.value.1 <= |data| && Walk(frames, version, data) == Walk(step.value.0, version, data[step.value.1..])
    ensures step.Err? ==> Walk(frames, version, data) == Err(step.msg)
  {
    if step.Ok? {
      FrameStepBounds(frames, version, data);
    }
  }

  /** The loops of `read_id3_frames`: one reading frames, then one checking the padding. */
  method ReadFrames(version: nat, data: seq<byte>) returns (r: Result<seq<Frame>>)
    requires version in {3, 4}
    ensures r == Walk([], version, data)
  {
    ghost var goal := Walk([], version, data);
    var frames: seq<Frame> := [];
    var at := 0;
    while at < |data|
      invariant at <= |data|
      invariant goal == Walk(frames, version, data[at..])
      decreases |data| - at
    {
      if |data| - at < 10 || data[at] == 0 {
        break;
      }
      var rest := data[at..];
      var step := FrameStep(frames, version, rest);
      WalkStep(frames, version, rest, step);
      if step.Err? {
        return Err(step.msg);
      }
      var next := at + step.value.1;
      assert rest[step.value.1..] == data[next..];
      frames, at := step.value.0, next;
    }
    WalkPadding(frames, version, data, at);
    var zeros := Zeros(data, at);
    r := if zeros then Ok(frames) else Err("junk data after last ID3 tag");
  }

  /** The junk loop of `read_id3_frames`: whether every byte from `from` on is zero. */
  method Zeros(data: seq<byte>, from: nat) returns (zeros: bool)
    requires from <= |data|
    ensures zeros <==> forall k | from <= k < |data| :: data[k] == 0
  {
    var at := from;
    while at < |data|
      invariant from <= at <= |data|
      invariant forall k | from <= k < at :: data[k] == 0
    {
      if data[at] != 0 {
        return false;
      }
      at := at + 1;
    }
    return true;
  }

  /** Where the frames stop, the rest must be zeros. */
  lemma {:induction false} WalkPadding(frames: seq<Frame>, version: nat, data: seq<byte>, stop: nat)
    requires version in {3, 4} && stop <= |data|
    requires stop == |data| || |data| - stop < 10 || data[stop] == 0
    ensures Walk(frames, version, data[stop..]) ==
      if forall k | stop <= k < |data| :: data[k] == 0 then Ok(frames) else Err("junk data after last ID3 tag")
  {
    var rest := data[stop..];
    assert Padding(rest) <==> forall k | stop <= k < |data| :: data[k] == 0 by {
      if Padding(rest) {
        forall k | stop <= k < |data| ensures data[k] == 0 {
          assert rest[k - stop] == data[k];
        }
      }
    }
  }

  /**
   * `rsvc_id3_open_tags` after opening the file: the header, then the
   * frames of the tag's body when there is a tag.
   */
  function ReadTags(file: seq<byte>): (r: Result<(Header, seq<Frame>)>)
    ensures r.Ok? ==> ReadHeader(file) == Ok(r.value.0)
    ensures r.Ok? && r.value.0.version == 0 ==> r.value.1 == []
    ensures r.Ok? && r.value.0.version != 0 ==> (10 + r.value.0.size <= |file|
      && Walk([], r.value.0.version, file[10..10 + r.value.0.size]) == Ok(r.value.1))
  {
    match ReadHeader(file)
    case Err(m) => Err(m)
    case Ok(header) =>
      if header.version == 0 then Ok((header, []))
      else if |file| < 10 + header.size then Err(ShortRead)
      else
        match Walk([], header.version, file[10..10 + header.size])
        case Err(m) => Err(m)
        case Ok(frames) => Ok((header, frames))
  }

  /** A tag whose header and frames read is read. */
  lemma {:induction false} ReadTagsOk(file: seq<byte>, header: Header, frames: seq<Frame>)
    requires ReadHeader(file) == Ok(header) && header.version != 0 && 10 + header.size <= |file|
    requires Walk([], header.version, file[10..10 + header.size]) == Ok(frames)
    ensures ReadTags(file) == Ok((header, frames))
  {
  }
}

/**
 * Writing an ID3v2.4 tag, as `id3_write_tags` in src/rsvc/id3.c lays it
 * out: the ten-byte header "ID3", version 4.0, no flags and a sync-safe
 * body size (sections 3.1 and 6.2 of the ID3v2.4.0 structure document),
 * then each frame with its ten-byte header (section 4) and its body as the
 * frame's ID3v2.4 type writes it, then zero padding (section 3.3) up to
 * the size of the tag that was read, never shrinking it.
 *
 * The buffer-filling loops are methods over an `array`; what they fill is
 * given by functions, and the functions are shown to read back through
 * the reader of Id3Read.
 */
module Id3Write {
  import opened Common
  import opened Encoding
  import opened Id3Table
  import opened Id3Frames
  import opened Id3Read

  // ---------------------------------------------------------------------
  // Sync-safe sizes
  // ---------------------------------------------------------------------

  /** `in` after `i` rounds of `in >>= 7`. */
  function Shifted(n: nat, i: nat): nat
  {
    if i == 0 then n else Shifted(n, i - 1) / 128
  }

  /** `write_sync_safe_size`: the low seven bits of each shift, last one first. */
  function SyncSafeBytes(n: nat): (r: seq<byte>)
    ensures |r| == 4 && forall k | 0 <= k < 4 :: r[k] < 0x80
  {
    [Shifted(n, 3) % 128, Shifted(n, 2) % 128, Shifted(n, 1) % 128, n % 128]
  }

  /** Reading a written sync-safe size gives the size's low 28 bits: the size itself below 2^28. */
  lemma {:induction false} SyncSafeRoundTrip(n: nat)
    ensures SyncSafe(SyncSafeBytes(n)) == Ok(n % SyncSafeLimit)
  {
    var n1 := n / 128;
    var n2 := n1 / 128;
    var n3 := n2 / 128;
    assert Shifted(n, 1) == n1 && Shifted(n, 2) == n2 && Shifted(n, 3) == n3;
    var low := n3 % 128 * 0x20_0000 + n2 % 128 * 0x4000 + n1 % 128 * 128 + n % 128;
    assert SyncSafe(SyncSafeBytes(n)) == Ok(low);
    assert n == n1 * 128 + n % 128;
    assert n1 == n2 * 128 + n1 % 128;
    assert n2 == n3 * 128 + n2 % 128;
    assert n3 == n3 / 128 * 128 + n3 % 128;
    assert n == n3 / 128 * SyncSafeLimit + low;
    ModOf(n, n3 / 128, low);
  }

  /** The remainder is the part below the divisor. */
  lemma {:induction false} ModOf(n: nat, q: nat, r: nat)
    requires 0 <= r < SyncSafeLimit && n == q * SyncSafeLimit + r
    ensures n % SyncSafeLimit == r
  {
  }

  /** Below 2^28, sizes survive the round trip. */
  lemma {:induction false} SyncSafeReadBack(n: nat)
    requires n < SyncSafeLimit
    ensures SyncSafe(SyncSafeBytes(n)) == Ok(n)
  {
    SyncSafeRoundTrip(n);
  }

  /**
   * `after` is `before` with `bytes` written over it from position `at`,
   * and nothing else changed.
   */
  predicate Placed(before: seq<byte>, after: seq<byte>, at: nat, bytes: seq<byte>)
  {
    at + |bytes| <= |before| && after == before[..at] + bytes + before[at + |bytes|..]
  }

  /** A placement, position by position, as the copying loops establish it. */
  lemma {:induction false} PlacedFrom(before: seq<byte>, after: seq<byte>, at: nat, bytes: seq<byte>)
    requires |after| == |before| && at + |bytes| <= |before|
    requires forall j | 0 <= j < |before| :: after[j] == if at <= j < at + |bytes| then bytes[j - at] else before[j]
    ensures Placed(before, after, at, bytes)
  {
    var joined := before[..at] + bytes + before[at + |bytes|..];
    assert |joined| == |after|;
    forall j | 0 <= j < |after| ensures after[j] == joined[j] {
      if j < at {
      } else if j < at + |bytes| {
        assert joined[j] == bytes[j - at];
      } else {
        assert joined[j] == before[at + |bytes|..][j - at - |bytes|];
      }
    }
  }

  /** Two placements side by side are one placement of both. */
  lemma {:induction false} PlacedThen(a: seq<byte>, b: seq<byte>, c: seq<byte>, at: nat, x: seq<byte>, y: seq<byte>)
    requires Placed(a, b, at, x) && Placed(b, c, at + |x|, y)
    ensures Placed(a, c, at, x + y)
  {
    assert b[..at + |x|] == a[..at] + x;
    assert b[at + |x| + |y|..] == a[at + |x| + |y|..];
  }

  /** The loop of `write_sync_safe_size`, writing into `data` at `at`. */
  method WriteSyncSafe(data: array<byte>, at: nat, n: nat)
    requires at + 4 <= data.Length
    modifies data
    ensures Placed(old(data[..]), data[..], at, SyncSafeBytes(n))
  {
    var rest := n;
    for i := 0 to 4
      invariant rest == Shifted(n, i)
      invariant forall j | 0 <= j < data.Length ::
        data[j] == if at + 4 - i <= j < at + 4 then SyncSafeBytes(n)[j - at] else old(data[j])
    {
      data[at + 3 - i] := rest % 128;
      rest := rest / 128;
    }
    PlacedFrom(old(data[..]), data[..], at, SyncSafeBytes(n));
  }

  /** `memcpy(data + at, bytes, |bytes|)`. */
  method CopyInto(data: array<byte>, at: nat, bytes: seq<byte>)
    requires at + |bytes| <= data.Length
    modifies data
    ensures Placed(old(data[..]), data[..], at, bytes)
  {
    for k := 0 to |bytes|
      invariant forall j | 0 <= j < data.Length ::
        data[j] == if at <= j < at + k then bytes[j - at] else old(data[j])
    {
      data[at + k] := bytes[k];
    }
    PlacedFrom(old(data[..]), data[..], at, bytes);
  }

  // ---------------------------------------------------------------------
  // Frames
  // ---------------------------------------------------------------------

  /**
   * A frame the writer can lay out: its entry has an ID3v2.4 type with a
   * writer, and the body holds what that type stores (a picture for the
   * image type, bytes otherwise).
   */
  predicate Writable(f: Frame)
  {
    f.spec < Count && Entry(f.spec).v4.Some? && Entry(f.spec).v4 != Some(Discard) && Entry(f.spec).v4 != Some(Text23)
    && (f.body.Picture? <==> Entry(f.spec).v4 == Some(Image))
  }

  /** The bytes a frame's ID3v2.4 type writes after the frame header. */
  function BodyOf(f: Frame): (r: seq<byte>)
    requires f.spec < Count
  {
    match f.body
    case Picture(kind, mime, description, payload) => [3] + mime + [0] + [kind] + description + [0] + payload
    case Bytes(data) => if Entry(f.spec).v4 == Some(Passthru) then data else [3] + data + [0]
  }

  /**
   * The frame type's `size`: text stores its value with the NUL, so text
   * is one more than that; a picture is two more than its MIME type,
   * description (each with their NULs) and payload; passed-through bytes
   * are their own size.
   */
  function BodySize(f: Frame): nat
    requires f.spec < Count
  {
    match f.body
    case Picture(_, mime, description, payload) => 2 + (|mime| + 1 + |description| + 1 + |payload|)
    case Bytes(data) => if Entry(f.spec).v4 == Some(Passthru) then |data| else 1 + (|data| + 1)
  }

  /** The size a frame type reports is the length of what it writes. */
  lemma {:induction false} BodySizeIs(f: Frame)
    requires f.spec < Count
    ensures BodySize(f) == |BodyOf(f)|
  {
  }

  /** A text frame is 0x03 (UTF-8), the value and its NUL. */
  lemma {:induction false} TextLayout(f: Frame)
    requires Writable(f) && Editable(Entry(f.spec).v4)
    ensures f.body.Bytes? && BodyOf(f) == [3] + f.body.data + [0] && BodySize(f) == 2 + |f.body.data|
  {
  }

  /** `write_id3_tags` for one frame: name, sync-safe size, two zero flag bytes, body. */
  function FrameBytes(f: Frame): (r: seq<byte>)
    requires f.spec < Count
    ensures |r| == 10 + BodySize(f)
  {
    BodySizeIs(f);
    NameBytes(f.spec) + SyncSafeBytes(BodySize(f)) + [0, 0] + BodyOf(f)
  }

  /** The frames one after another. */
  function FramesBytes(frames: seq<Frame>): (r: seq<byte>)
    requires forall k | 0 <= k < |frames| :: frames[k].spec < Count
  {
    if frames == [] then [] else FramesBytes(frames[..|frames| - 1]) + FrameBytes(frames[|frames| - 1])
  }

  /** The sum `id3_write_tags` computes: ten header bytes and the body of each frame. */
  function FramesSize(frames: seq<Frame>): nat
    requires forall k | 0 <= k < |frames| :: frames[k].spec < Count
  {
    if frames == [] then 0 else FramesSize(frames[..|frames| - 1]) + 10 + BodySize(frames[|frames| - 1])
  }

  /** The frames take exactly the summed size. */
  lemma {:induction false} FramesBytesSize(frames: seq<Frame>)
    requires forall k | 0 <= k < |frames| :: frames[k].spec < Count
    ensures |FramesBytes(frames)| == FramesSize(frames)
  {
    if frames != [] {
      FramesBytesSize(frames[..|frames| - 1]);
    }
  }

  /** The first frame, then the others. */
  lemma {:induction false} FramesBytesFront(frames: seq<Frame>)
    requires frames != [] && forall k | 0 <= k < |frames| :: frames[k].spec < Count
    ensures FramesBytes(frames) == FrameBytes(frames[0]) + FramesBytes(frames[1..])
  {
    if |frames| > 1 {
      var init := frames[..|frames| - 1];
      var last := frames[|frames| - 1];
      FramesBytesFront(init);
      assert init[0] == frames[0];
      assert frames[1..][..|frames[1..]| - 1] == init[1..];
      assert FramesBytes(frames[1..]) == FramesBytes(init[1..]) + FrameBytes(last);
      Regroup(FrameBytes(frames[0]), FramesBytes(init[1..]), FrameBytes(last));
    } else {
      assert frames[..0] == [] && frames[1..] == [];
      assert FramesBytes(frames) == [] + FrameBytes(frames[0]);
    }
  }

  /** Concatenation regroups. */
  lemma {:induction false} Regroup<T>(a: seq<T>, b: seq<T>, c: seq<T>)
    ensures a + b + c == a + (b + c)
  {
  }

  /** The body size `id3_write_tags` settles on: the frames' size, or the size read if that is larger. */
  function TagSize(frames: seq<Frame>, readSize: nat): (r: nat)
    requires forall k | 0 <= k < |frames| :: frames[k].spec < Count
    ensures r >= readSize && r >= FramesSize(frames)
    ensures r == readSize || r == FramesSize(frames)
  {
    if FramesSize(frames) < readSize then readSize else FramesSize(frames)
  }

  /** The loop of `id3_write_tags` that sums the frame sizes. */
  method ComputeTagSize(frames: seq<Frame>, readSize: nat) returns (size: nat)
    requires forall k | 0 <= k < |frames| :: frames[k].spec < Count && Writable(frames[k])
    ensures size == TagSize(frames, readSize)
  {
    size := 0;
    for i := 0 to |frames|
      invariant size == FramesSize(frames[..i])
    {
      assert frames[..i + 1][..i] == frames[..i];
      size := size + 10 + BodySize(frames[i]);
    }
    assert frames[..|frames|] == frames;
    if size < readSize {
      size := readSize;
    }
  }

  /** Zero bytes, as `memset` leaves them. */
  function Zeros(n: nat): (r: seq<byte>)
    ensures |r| == n && Padding(r)
  {
    seq(n, _ => 0)
  }

  /** The tag body: the frames, then zero padding up to the tag size. */
  function TagBody(frames: seq<Frame>, readSize: nat): (r: seq<byte>)
    requires forall k | 0 <= k < |frames| :: frames[k].spec < Count
    ensures |r| == TagSize(frames, readSize)
  {
    FramesBytesSize(frames);
    FramesBytes(frames) + Zeros(TagSize(frames, readSize) - FramesSize(frames))
  }

  /** `write_id3_header`: "ID3", version 4.0, no flags, the sync-safe body size. */
  function HeaderBytes(size: nat): (r: seq<byte>)
    ensures |r| == 10
  {
    Magic + [4, 0, 0] + SyncSafeBytes(size)
  }

  /** A written header reads back as version 4.0 with its size. */
  lemma {:induction false} HeaderReadBack(size: nat, rest: seq<byte>)
    requires size < SyncSafeLimit
    ensures ReadHeader(HeaderBytes(size) + rest) == Ok(Header(4, 0, size))
  {
    var file := HeaderBytes(size) + rest;
    assert file[..3] == Magic;
    assert file[6..10] == SyncSafeBytes(size);
    SyncSafeReadBack(size);
  }

  /** `write_id3_tags` for one frame: the ten header bytes, then the type's `write`. */
  method WriteFrame(f: Frame, data: array<byte>, at: nat)
    requires Writable(f) && at + 10 + BodySize(f) <= data.Length
    modifies data
    ensures Placed(old(data[..]), data[..], at, FrameBytes(f))
  {
    ghost var d0 := data[..];
    CopyInto(data, at, NameBytes(f.spec));
    ghost var d1 := data[..];
    WriteSyncSafe(data, at + 4, BodySize(f));
    ghost var d2 := data[..];
    PlacedThen(d0, d1, d2, at, NameBytes(f.spec), SyncSafeBytes(BodySize(f)));
    CopyInto(data, at + 8, [0, 0]);
    ghost var d3 := data[..];
    PlacedThen(d0, d2, d3, at, NameBytes(f.spec) + SyncSafeBytes(BodySize(f)), [0, 0]);
    CopyInto(data, at + 10, BodyOf(f));
    PlacedThen(d0, d3, data[..], at, NameBytes(f.spec) + SyncSafeBytes(BodySize(f)) + [0, 0], BodyOf(f));
  }

  /** The frame loop of `write_id3_tags`, writing each frame after the one before. */
  method WriteFrames(frames: seq<Frame>, data: array<byte>)
    requires forall k | 0 <= k < |frames| :: frames[k].spec < Count && Writable(frames[k])
    requires FramesSize(frames) <= data.Length
    modifies data
    ensures Placed(old(data[..]), data[..], 0, FramesBytes(frames))
  {
    ghost var start := data[..];
    var at := 0;
    for i := 0 to |frames|
      invariant at == FramesSize(frames[..i]) && at <= data.Length
      invariant Placed(start, data[..], 0, FramesBytes(frames[..i]))
    {
      FramesNext(frames, i);
      at := WriteNext(frames[..i], frames[i], data, at, start);
    }
    assert frames[..|frames|] == frames;
  }

  /** What one turn of the frame loop needs: the next frame, the first frames and the room for both. */
  lemma {:induction false} FramesNext(frames: seq<Frame>, i: nat)
    requires i < |frames| && forall k | 0 <= k < |frames| :: frames[k].spec < Count && Writable(frames[k])
    ensures frames[..i + 1] == frames[..i] + [frames[i]]
    ensures Writable(frames[i]) && forall k | 0 <= k < i :: frames[..i][k].spec < Count && Writable(frames[..i][k])
    ensures FramesSize(frames[..i] + [frames[i]]) <= FramesSize(frames)
  {
    assert frames[..i + 1] == frames[..i] + [frames[i]];
    FramesSizeGrows(frames, i + 1);
  }

  /** One turn of the frame loop: the frame `f` goes right after the frames `done`. */
  method WriteNext(done: seq<Frame>, f: Frame, data: array<byte>, at: nat, ghost start: seq<byte>) returns (next: nat)
    requires Writable(f) && forall k | 0 <= k < |done| :: done[k].spec < Count && Writable(done[k])
    requires FramesSize(done + [f]) <= data.Length && at == FramesSize(done)
    requires Placed(start, data[..], 0, FramesBytes(done))
    modifies data
    ensures next == FramesSize(done + [f])
    ensures Placed(start, data[..], 0, FramesBytes(done + [f]))
  {
    FramesAppend(done, f);
    FramesBytesSize(done);
    ghost var mid := data[..];
    WriteFrame(f, data, at);
    PlacedThen(start, mid, data[..], 0, FramesBytes(done), FrameBytes(f));
    next := at + 10 + BodySize(f);
  }

  /** One frame more adds its header and body to the size and the bytes of the frames before it. */
  lemma {:induction false} FramesAppend(done: seq<Frame>, f: Frame)
    requires f.spec < Count && forall k | 0 <= k < |done| :: done[k].spec < Count
    ensures FramesSize(done + [f]) == FramesSize(done) + 10 + BodySize(f)
    ensures FramesBytes(done + [f]) == FramesBytes(done) + FrameBytes(f)
  {
    assert (done + [f])[..|done|] == done;
  }

  /** The size of the first frames is at most that of all of them. */
  lemma {:induction false} FramesSizeGrows(frames: seq<Frame>, i: nat)
    requires i <= |frames| && forall k | 0 <= k < |frames| :: frames[k].spec < Count
    ensures FramesSize(frames[..i]) <= FramesSize(frames)
    decreases |frames| - i
  {
    if i < |frames| {
      FramesSizeGrows(frames, i + 1);
      assert frames[..i + 1][..i] == frames[..i];
    } else {
      assert frames[..i] == frames;
    }
  }

  /**
   * The buffers `id3_write_tags` fills before copying them out: the header
   * and a zeroed body of the tag size with the frames written into it.
   */
  method WriteTags(frames: seq<Frame>, readSize: nat) returns (header: seq<byte>, body: array<byte>)
    requires forall k | 0 <= k < |frames| :: frames[k].spec < Count && Writable(frames[k])
    ensures fresh(body)
    ensures header == HeaderBytes(TagSize(frames, readSize)) && body[..] == TagBody(frames, readSize)
  {
    var size := ComputeTagSize(frames, readSize);
    body := new byte[size](_ => 0);
    ghost var zeros := body[..];
    assert zeros == Zeros(size);
    WriteFrames(frames, body);
    ZeroedBody(frames, readSize, zeros, body[..]);
    header := HeaderBytes(size);
  }

  /** The frames written over a zeroed buffer of the tag size leave the tag body. */
  lemma {:induction false} ZeroedBody(frames: seq<Frame>, readSize: nat, zeros: seq<byte>, written: seq<byte>)
    requires forall k | 0 <= k < |frames| :: frames[k].spec < Count
    requires zeros == Zeros(TagSize(frames, readSize)) && Placed(zeros, written, 0, FramesBytes(frames))
    ensures written == TagBody(frames, readSize)
  {
    var fb := FramesBytes(frames);
    FramesBytesSize(frames);
    ZerosDrop(TagSize(frames, readSize), |fb|);
    assert zeros[..0] + fb == fb;
  }

  /** What is left of zero bytes after the first `m` is zero bytes. */
  lemma {:induction false} ZerosDrop(n: nat, m: nat)
    requires m <= n
    ensures Zeros(n)[m..] == Zeros(n - m)
  {
  }

  /**
   * The file `id3_write_tags` leaves: the new tag, then what followed the
   * old tag (everything, when there was none).
   */
  function NewFile(frames: seq<Frame>, previous: Header, file: seq<byte>): (r: seq<byte>)
    requires forall k | 0 <= k < |frames| :: frames[k].spec < Count
    requires previous.version != 0 ==> 10 + previous.size <= |file|
    ensures |r| >= 10 + TagSize(frames, previous.size)
  {
    var offset := if previous.version != 0 then 10 + previous.size else 0;
    HeaderBytes(TagSize(frames, previous.size)) + TagBody(frames, previous.size) + file[offset..]
  }

  // ---------------------------------------------------------------------
  // Reading back
  // ---------------------------------------------------------------------

  /** A text-like kind: read by `id3_text_read` and written by `id3_text_write`. */
  predicate TextLike(f: Frame)
    requires f.spec < Count
  {
    Editable(Entry(f.spec).v4)
  }

  /**
   * A frame that reads back as itself: it is written under a name that
   * finds its own entry, its text is valid UTF-8 without NULs, and a
   * picture's MIME type and description have no NULs either.
   */
  predicate Readable(f: Frame)
  {
    Writable(f) && Id3Spec(4, NameBytes(f.spec)) == Ok(f.spec) && BodySize(f) < SyncSafeLimit
    && match f.body
       case Bytes(data) => Entry(f.spec).v4 == Some(Passthru) || (0 !in data && Shaped(data, 0, Lead))
       case Picture(_, mime, description, _) => 0 !in mime && 0 !in description && Shaped(description, 0, Lead)
  }

  /** No two text-like frames share an entry, as `id3_text_add` demands. */
  predicate OncePerEntry(frames: seq<Frame>)
  {
    forall i, j | 0 <= i < j < |frames| && frames[j].spec < Count && TextLike(frames[j]) :: frames[i].spec != frames[j].spec
  }

  /** A written body reads back as the frame it came from. */
  lemma {:induction false} ReadBodyBack(frames: seq<Frame>, f: Frame)
    requires Readable(f)
    requires TextLike(f) ==> Find(frames, f.spec).None?
    ensures ReadBody(4, frames, f.spec, BodyOf(f)) == Ok(frames + [f])
  {
    var kind := Entry(f.spec).v4.value;
    assert TypeFor(4, f.spec) == Some(kind);
    if kind == Image {
      var Picture(image, mime, description, payload) := f.body;
      assert ReadBody(4, frames, f.spec, BodyOf(f)) == ImageRead(frames, f.spec, BodyOf(f));
      ImageReadBack(frames, f.spec, image, mime, description, payload);
    } else if kind == Passthru {
      assert ReadBody(4, frames, f.spec, BodyOf(f)) == Ok(frames + [Frame(f.spec, Bytes(f.body.data))]);
    } else {
      assert TextLike(f);
      assert ReadBody(4, frames, f.spec, BodyOf(f)) == TextRead(frames, f.spec, BodyOf(f));
      TextReadBack(frames, f.spec, f.body.data);
    }
  }

  /** The pieces of a frame. */
  lemma {:induction false} FrameLayout(name: seq<byte>, size: seq<byte>, flags: seq<byte>, body: seq<byte>, rest: seq<byte>)
    requires |name| == 4 && |size| == 4 && |flags| == 2
    ensures var data := name + size + flags + body + rest;
      data[..4] == name && data[4..8] == size && data[8..10] == flags && data[10..10 + |body|] == body
      && data[10 + |body|..] == rest
  {
    var data := name + size + flags + body + rest;
    assert data[..4] == name;
    assert data[4..8] == size;
    assert data[8..10] == flags;
    assert data[10..10 + |body|] == body;
    assert data[10 + |body|..] == rest;
  }

  /** A written frame header carries the frame's name and passes the checks, and its body follows it. */
  lemma {:induction false} FrameHeaderBack(f: Frame, rest: seq<byte>)
    requires Writable(f) && BodySize(f) < SyncSafeLimit
    ensures var data := FrameBytes(f) + rest;
      && data[..4] == NameBytes(f.spec)
      && FrameExtent(4, data) == Ok(10 + BodySize(f))
      && data[10..10 + BodySize(f)] == BodyOf(f)
      && data[10 + BodySize(f)..] == rest
  {
    var data := FrameBytes(f) + rest;
    BodySizeIs(f);
    FrameLayout(NameBytes(f.spec), SyncSafeBytes(BodySize(f)), [0, 0], BodyOf(f), rest);
    SyncSafeReadBack(BodySize(f));
    assert FrameSize(4, data[4..8]) == Ok(BodySize(f));
    assert data[8] == 0 && data[9] == 0 by {
      assert data[8..10] == [0, 0];
    }
    FrameExtentOk(4, data, BodySize(f));
  }

  /** A written frame reads back as itself and takes exactly its bytes. */
  lemma {:induction false} FrameReadBack(frames: seq<Frame>, f: Frame, rest: seq<byte>)
    requires Readable(f)
    requires TextLike(f) ==> Find(frames, f.spec).None?
    ensures FrameStep(frames, 4, FrameBytes(f) + rest) == Ok((frames + [f], |FrameBytes(f)|))
    ensures (FrameBytes(f) + rest)[|FrameBytes(f)|..] == rest
  {
    var data := FrameBytes(f) + rest;
    var n := 10 + BodySize(f);
    FrameHeaderBack(f, rest);
    ReadBodyBack(frames, f);
    assert ReadBody(4, frames, f.spec, data[10..n]) == Ok(frames + [f]);
    FrameContentOk(frames, 4, f.spec, data, n, frames + [f]);
    assert Id3Spec(4, data[..4]) == Ok(f.spec);
  }

  /** Frame names start with a letter, so a frame never reads as padding. */
  lemma {:induction false} NameStarts(f: Frame)
    requires Readable(f)
    ensures FrameBytes(f)[0] != 0
  {
    NamesFour(f.spec);
    assert FrameBytes(f)[0] == NameBytes(f.spec)[0];
    NameLetter(f.spec);
  }

  /** One written frame is read, and the walk goes on after it. */
  lemma {:induction false} WalkOneBack(read: seq<Frame>, f: Frame, tail: seq<byte>)
    requires Readable(f)
    requires TextLike(f) ==> Find(read, f.spec).None?
    ensures Walk(read, 4, FrameBytes(f) + tail) == Walk(read + [f], 4, tail)
  {
    FrameReadBack(read, f, tail);
    NameStarts(f);
    WalkStep(read, 4, FrameBytes(f) + tail, FrameStep(read, 4, FrameBytes(f) + tail));
  }

  /** The frames written one after another, then padding, read back as those frames. */
  lemma {:induction false} WalkReadBack(read: seq<Frame>, frames: seq<Frame>, padding: seq<byte>)
    requires forall k | 0 <= k < |frames| :: frames[k].spec < Count && Writable(frames[k]) && Readable(frames[k])
    requires OncePerEntry(read + frames) && Padding(padding)
    ensures Walk(read, 4, FramesBytes(frames) + padding) == Ok(read + frames)
    decreases |frames|
  {
    if frames == [] {
      assert FramesBytes(frames) + padding == padding;
      assert read + frames == read;
    } else {
      WalkFirstBack(read, frames, padding);
      OnceShifted(read, frames);
      WalkReadBack(read + [frames[0]], frames[1..], padding);
    }
  }

  /** The first of the written frames is read, and the walk goes on with the others. */
  lemma {:induction false} WalkFirstBack(read: seq<Frame>, frames: seq<Frame>, padding: seq<byte>)
    requires frames != [] && forall k | 0 <= k < |frames| :: frames[k].spec < Count && Writable(frames[k]) && Readable(frames[k])
    requires OncePerEntry(read + frames)
    ensures Walk(read, 4, FramesBytes(frames) + padding) == Walk(read + [frames[0]], 4, FramesBytes(frames[1..]) + padding)
  {
    var f := frames[0];
    assert Readable(f);
    FramesBytesFront(frames);
    Regroup(FrameBytes(f), FramesBytes(frames[1..]), padding);
    if TextLike(f) {
      var all := read + frames;
      assert all[|read|] == f;
      forall k | 0 <= k < |read| ensures read[k].spec != f.spec {
        assert all[k] == read[k];
      }
    }
    WalkOneBack(read, f, FramesBytes(frames[1..]) + padding);
  }

  /** Moving the first frame over to the frames read keeps each text-like entry once. */
  lemma {:induction false} OnceShifted(read: seq<Frame>, frames: seq<Frame>)
    requires frames != [] && OncePerEntry(read + frames)
    ensures read + [frames[0]] + frames[1..] == read + frames
    ensures OncePerEntry(read + [frames[0]] + frames[1..])
  {
    assert read + [frames[0]] + frames[1..] == read + frames;
  }

  /**
   * A written tag reads back as version 4.0 with the tag size and exactly
   * the frames written, whatever follows it in the file.
   */
  lemma {:induction false} TagReadBack(frames: seq<Frame>, previous: Header, file: seq<byte>)
    requires forall k | 0 <= k < |frames| :: frames[k].spec < Count && Writable(frames[k]) && Readable(frames[k])
    requires OncePerEntry(frames) && TagSize(frames, previous.size) < SyncSafeLimit
    requires previous.version != 0 ==> 10 + previous.size <= |file|
    ensures ReadTags(NewFile(frames, previous, file)) == Ok((Header(4, 0, TagSize(frames, previous.size)), frames))
  {
    var size := TagSize(frames, previous.size);
    var body := TagBody(frames, previous.size);
    var offset := if previous.version != 0 then 10 + previous.size else 0;
    var written := NewFile(frames, previous, file);
    assert written == HeaderBytes(size) + body + file[offset..];
    Regroup(HeaderBytes(size), body, file[offset..]);
    HeaderReadBack(size, body + file[offset..]);
    assert written[10..10 + size] == body;
    FramesBytesSize(frames);
    var padding := Zeros(size - FramesSize(frames));
    assert body == FramesBytes(frames) + padding;
    assert [] + frames == frames;
    WalkReadBack([], frames, padding);
    assert Walk([], 4, written[10..10 + size]) == Ok(frames);
    ReadTagsOk(written, Header(4, 0, size), frames);
  }
}

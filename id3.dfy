/**
 * The ID3 tag object of `src/rsvc/id3.c`: opening a file reads its tag
 * header and frames, the Vorbis-named add/remove/each operations and the
 * picture operations edit the frame list in place, and saving writes a
 * new ID3v2.4 tag in front of the file's remaining data.
 *
 * The file's bytes stand for what `fd` reads; the path, the descriptor,
 * the temporary file and the rename are not part of this model.
 */
module Id3 {
  import opened Common
  import opened Id3Table
  import opened Id3Frames
  import opened Id3Read
  import opened Id3Write

  /** A name/value pair `rsvc_tags_each` hands to its block. */
  type Pair = (string, seq<byte>)

  /** A MIME type and payload `rsvc_tags_image_each` hands to its block. */
  type Shown = (seq<byte>, seq<byte>)

  /** The frame name of attached pictures. */
  const ApicName: seq<byte> := [0x41, 0x50, 0x49, 0x43]

  /** Every frame can be written by its entry's ID3v2.4 type. */
  predicate AllWritable(frames: seq<Frame>)
  {
    forall k | 0 <= k < |frames| :: Writable(frames[k])
  }

  // ---------------------------------------------------------------------
  // Frames read from a file can be written
  // ---------------------------------------------------------------------

  /** The ID3v2.3 types: text is re-keyed, and the rest are shared with ID3v2.4 or discarded. */
  lemma {:induction false} V3Kinds(j: nat)
    requires j < Count
    ensures Entry(j).v3 in {None, Some(Text23), Some(Bool), Some(Passthru), Some(Image), Some(Discard)}
  {
  }

  /** A frame body read under either version is one its ID3v2.4 type writes. */
  lemma {:induction false} ReadBodyWritable(version: int, frames: seq<Frame>, spec: nat, body: seq<byte>)
    requires version in {3, 4} && spec < Count && TypeFor(version, spec).Some? && AllWritable(frames)
    requires ReadBody(version, frames, spec, body).Ok?
    ensures AllWritable(ReadBody(version, frames, spec, body).value)
  {
    var kind := TypeFor(version, spec).value;
    if kind == Text23 {
      Text23BodyWritable(version, frames, spec, body);
    } else if kind == Image {
      ImageBodyWritable(version, frames, spec, body);
    } else if kind in {Text, Bool, SequenceNumber, SequenceTotal} {
      TextBodyWritable(version, frames, spec, body);
    } else {
      OtherBodyWritable(version, frames, spec, body);
    }
  }

  /** `ReadBodyWritable` for ID3v2.3 text, which is re-keyed to an ID3v2.4 entry. */
  lemma {:induction false} Text23BodyWritable(version: int, frames: seq<Frame>, spec: nat, body: seq<byte>)
    requires version in {3, 4} && spec < Count && TypeFor(version, spec).Some? && AllWritable(frames)
    requires ReadBody(version, frames, spec, body).Ok?
    requires TypeFor(version, spec) == Some(Text23)
    ensures AllWritable(ReadBody(version, frames, spec, body).value)
  {
    Text23OnlyV3(version, spec);
    assert ReadBody(version, frames, spec, body) == Text23Read(frames, spec, body);
  }

  /** `ReadBodyWritable` for attached pictures. */
  lemma {:induction false} ImageBodyWritable(version: int, frames: seq<Frame>, spec: nat, body: seq<byte>)
    requires version in {3, 4} && spec < Count && TypeFor(version, spec).Some? && AllWritable(frames)
    requires ReadBody(version, frames, spec, body).Ok?
    requires TypeFor(version, spec) == Some(Image)
    ensures AllWritable(ReadBody(version, frames, spec, body).value)
  {
    if version == 3 {
      V3KindsWritable(spec);
    }
    assert ReadBody(version, frames, spec, body) == ImageRead(frames, spec, body);
  }

  /** `ReadBodyWritable` for text, flag and "n/t" frames. */
  lemma {:induction false} TextBodyWritable(version: int, frames: seq<Frame>, spec: nat, body: seq<byte>)
    requires version in {3, 4} && spec < Count && TypeFor(version, spec).Some? && AllWritable(frames)
    requires ReadBody(version, frames, spec, body).Ok?
    requires TypeFor(version, spec).value in {Text, Bool, SequenceNumber, SequenceTotal}
    ensures AllWritable(ReadBody(version, frames, spec, body).value)
  {
    if version == 3 {
      V3Kinds(spec);
      V3KindsWritable(spec);
    }
    assert ReadBody(version, frames, spec, body) == TextRead(frames, spec, body);
  }

  /** `ReadBodyWritable` for frames passed through or discarded. */
  lemma {:induction false} OtherBodyWritable(version: int, frames: seq<Frame>, spec: nat, body: seq<byte>)
    requires version in {3, 4} && spec < Count && TypeFor(version, spec).Some? && AllWritable(frames)
    requires ReadBody(version, frames, spec, body).Ok?
    requires TypeFor(version, spec).value in {Passthru, Discard}
    ensures AllWritable(ReadBody(version, frames, spec, body).value)
  {
    if version == 3 {
      V3Kinds(spec);
      if TypeFor(version, spec) == Some(Passthru) {
        V3KindsWritable(spec);
      }
    }
  }

  /** Walking the frames of a tag keeps every frame writable. */
  lemma {:induction false} WalkWritable(frames: seq<Frame>, version: nat, data: seq<byte>)
    requires version in {3, 4} && AllWritable(frames) && Walk(frames, version, data).Ok?
    ensures AllWritable(Walk(frames, version, data).value)
    decreases |data|
  {
    if data != [] && |data| >= 10 && data[0] != 0 {
      var spec := Id3Spec(version, data[..4]).value;
      var step := FrameStep(frames, version, data).value;
      assert FrameContent(frames, version, spec, data) == Ok(step);
      ReadBodyWritable(version, frames, spec, data[10..step.1]);
      WalkWritable(step.0, version, data[step.1..]);
    }
  }

  // ---------------------------------------------------------------------
  // Adding and removing by Vorbis name
  // ---------------------------------------------------------------------

  /** `rsvc_id3_tags_add`: the entry the Vorbis name finds, then its ID3v2.4 type's adder. */
  function AddNamed(frames: seq<Frame>, name: string, value: seq<byte>): (r: Result<seq<Frame>>)
    requires 0 !in value
    ensures VorbisSpec(name).Err? ==> r == Err(VorbisSpec(name).msg)
  {
    match VorbisSpec(name)
    case Err(m) => Err(m)
    case Ok(spec) => VorbisSpecEditable(name); Add(frames, spec, value)
  }

  /** `rsvc_id3_tags_remove`: the entry the Vorbis name finds, then its ID3v2.4 type's remover. */
  function RemoveNamed(frames: seq<Frame>, name: string): (r: Result<seq<Frame>>)
    ensures VorbisSpec(name).Err? ==> r == Err(VorbisSpec(name).msg)
    ensures VorbisSpec(name).Ok? ==> r.Ok? && |r.value| <= |frames| + 1
  {
    match VorbisSpec(name)
    case Err(m) => Err(m)
    case Ok(spec) =>
      VorbisSpecEditable(name);
      var r := Remove(frames, spec);
      RemoveShape(frames, spec);
      Ok(r)
  }

  /** The frames an "n/t" add leaves come from the list or are the merged frame of the number entry. */
  lemma {:induction false} SequenceAddFrom(frames: seq<Frame>, numberSpec: nat, numberValue: Option<seq<byte>>,
                        totalSpec: nat, totalValue: Option<seq<byte>>)
    requires numberSpec < Count && totalSpec < Count
    requires SequenceBothAdd(frames, numberSpec, numberValue, totalSpec, totalValue).Ok?
    ensures var r := SequenceBothAdd(frames, numberSpec, numberValue, totalSpec, totalValue).value;
      forall k | 0 <= k < |r| :: r[k] in frames || (r[k].spec == numberSpec && r[k].body.Bytes?)
  {
  }

  /** The frames an "n/t" remove leaves come from the list or are the reduced frame of the number entry. */
  lemma {:induction false} SequenceRemoveFrom(frames: seq<Frame>, numberSpec: nat, removeNumber: bool, removeTotal: bool)
    ensures var r := SequenceBothRemove(frames, numberSpec, removeNumber, removeTotal);
      && |r| <= |frames| + 1
      && forall k | 0 <= k < |r| :: r[k] in frames || (r[k].spec == numberSpec && r[k].body.Bytes?)
  {
  }

  /** The frames a remove leaves come from the list or are a text frame of the paired "n/t" entry. */
  lemma {:induction false} RemoveShape(frames: seq<Frame>, spec: nat)
    requires spec < Count && Editable(Entry(spec).v4)
    ensures var r := Remove(frames, spec);
      && |r| <= |frames| + 1
      && forall k | 0 <= k < |r| :: r[k] in frames || (r[k].body.Bytes? && r[k].spec < Count && Editable(Entry(r[k].spec).v4))
  {
    var kind := Entry(spec).v4.value;
    if kind == SequenceNumber {
      RemoveNumberShape(frames, spec);
    } else if kind == SequenceTotal {
      RemoveTotalShape(frames, spec);
    } else {
      RemoveTextShape(frames, spec);
    }
  }

  /** `RemoveShape` for the number of an "n/t" pair. */
  lemma {:induction false} RemoveNumberShape(frames: seq<Frame>, spec: nat)
    requires spec < Count && Entry(spec).v4 == Some(SequenceNumber)
    ensures var r := Remove(frames, spec);
      && |r| <= |frames| + 1
      && forall k | 0 <= k < |r| :: r[k] in frames || (r[k].body.Bytes? && r[k].spec < Count && Editable(Entry(r[k].spec).v4))
  {
    assert Remove(frames, spec) == SequenceBothRemove(frames, spec, true, false);
    SequenceRemoveFrom(frames, spec, true, false);
  }

  /** `RemoveShape` for the total of an "n/t" pair, which edits its partner's frame. */
  lemma {:induction false} RemoveTotalShape(frames: seq<Frame>, spec: nat)
    requires spec < Count && Entry(spec).v4 == Some(SequenceTotal)
    ensures var r := Remove(frames, spec);
      && |r| <= |frames| + 1
      && forall k | 0 <= k < |r| :: r[k] in frames || (r[k].body.Bytes? && r[k].spec < Count && Editable(Entry(r[k].spec).v4))
  {
    SequencePaired(spec);
    var r := Remove(frames, spec);
    assert r == SequenceBothRemove(frames, spec - 1, false, true);
    SequenceRemoveEditable(frames, spec - 1, false, true, r);
  }

  /** `SequenceRemoveFrom` for the number entry of an "n/t" pair, which has an adder. */
  lemma {:induction false} SequenceRemoveEditable(frames: seq<Frame>, numberSpec: nat, removeNumber: bool, removeTotal: bool, r: seq<Frame>)
    requires numberSpec < Count && Entry(numberSpec).v4 == Some(SequenceNumber)
    requires r == SequenceBothRemove(frames, numberSpec, removeNumber, removeTotal)
    ensures |r| <= |frames| + 1
    ensures forall k | 0 <= k < |r| :: r[k] in frames || (r[k].body.Bytes? && r[k].spec < Count && Editable(Entry(r[k].spec).v4))
  {
    SequenceRemoveFrom(frames, numberSpec, removeNumber, removeTotal);
  }

  /** `RemoveShape` for a text or flag entry. */
  lemma {:induction false} RemoveTextShape(frames: seq<Frame>, spec: nat)
    requires spec < Count && Entry(spec).v4 in {Some(Text), Some(Bool)}
    ensures var r := Remove(frames, spec);
      && |r| <= |frames| + 1
      && forall k | 0 <= k < |r| :: r[k] in frames || (r[k].body.Bytes? && r[k].spec < Count && Editable(Entry(r[k].spec).v4))
  {
    assert Remove(frames, spec) == TextRemove(frames, spec);
  }

  /** A text frame of an entry with an adder is writable. */
  lemma {:induction false} TextFrameWritable(f: Frame)
    requires f.body.Bytes? && f.spec < Count && Editable(Entry(f.spec).v4)
    ensures Writable(f)
  {
  }

  /** Adding keeps every frame writable. */
  lemma {:induction false} AddWritable(frames: seq<Frame>, spec: nat, value: seq<byte>)
    requires spec < Count && Editable(Entry(spec).v4) && 0 !in value && AllWritable(frames)
    requires Add(frames, spec, value).Ok?
    ensures AllWritable(Add(frames, spec, value).value)
  {
    var kind := Entry(spec).v4.value;
    var r := Add(frames, spec, value).value;
    if kind == SequenceNumber {
      SequencePaired(spec);
      SequenceAddFrom(frames, spec, Some(value), spec + 1, None);
    } else if kind == SequenceTotal {
      SequencePaired(spec);
      SequenceAddFrom(frames, spec - 1, None, spec, Some(value));
    } else {
      assert r == TextAdd(frames, spec, value).value;
    }
    forall k | 0 <= k < |r|
      ensures Writable(r[k])
    {
      if r[k] !in frames {
        TextFrameWritable(r[k]);
      }
    }
  }

  /** A successful add by Vorbis name keeps every frame writable. */
  lemma {:induction false} AddNamedWritable(frames: seq<Frame>, name: string, value: seq<byte>)
    requires 0 !in value && AllWritable(frames) && AddNamed(frames, name, value).Ok?
    ensures AllWritable(AddNamed(frames, name, value).value)
  {
    VorbisSpecEditable(name);
    AddWritable(frames, VorbisSpec(name).value, value);
  }

  /** A remove by Vorbis name keeps every frame writable. */
  lemma {:induction false} RemoveNamedWritable(frames: seq<Frame>, name: string)
    requires AllWritable(frames) && RemoveNamed(frames, name).Ok?
    ensures AllWritable(RemoveNamed(frames, name).value)
  {
    VorbisSpecEditable(name);
    var spec := VorbisSpec(name).value;
    RemoveShape(frames, spec);
    var r := RemoveNamed(frames, name).value;
    forall k | 0 <= k < |r|
      ensures Writable(r[k])
    {
      if r[k] !in frames {
        TextFrameWritable(r[k]);
      }
    }
  }

  /** After a successful add, `rsvc_tags_each` hands back the value under the name it was added under. */
  lemma {:induction false} AddNamedYields(frames: seq<Frame>, name: string, value: seq<byte>)
    requires 0 !in value && AllWritable(frames) && AddNamed(frames, name, value).Ok?
    ensures AllWritable(AddNamed(frames, name, value).value)
    ensures (name, value) in Pairs(AddNamed(frames, name, value).value)
  {
    VorbisSpecEditable(name);
    var spec := VorbisSpec(name).value;
    AddWritable(frames, spec, value);
    AddYields(frames, spec, value);
    var r := AddNamed(frames, name, value).value;
    assert VorbisText(spec) == name;
    assert Pairs(r) == Pairs(r[..|r| - 1]) + Yield(r[|r| - 1]);
  }

  /** A text value added by name and removed by the same name leaves the list as it was. */
  lemma {:induction false} AddNamedRemoveNamed(frames: seq<Frame>, name: string, value: seq<byte>)
    requires 0 !in value && VorbisSpec(name).Ok? && Entry(VorbisSpec(name).value).v4 == Some(Text)
    requires Find(frames, VorbisSpec(name).value).None?
    ensures AddNamed(frames, name, value).Ok?
    ensures RemoveNamed(AddNamed(frames, name, value).value, name) == Ok(frames)
  {
    var spec := VorbisSpec(name).value;
    TextAddRemove(frames, spec, value);
    assert AddNamed(frames, name, value) == TextAdd(frames, spec, value);
  }

  // ---------------------------------------------------------------------
  // For-each loops
  // ---------------------------------------------------------------------

  /** What starts with `a + y` starts with `a`. */
  lemma {:induction false} PrefixOfPrefix<T>(x: seq<T>, a: seq<T>, y: seq<T>)
    requires |a + y| <= |x| && x[..|a + y|] == a + y
    ensures |a| <= |x| && x[..|a|] == a
  {
    assert x[..|a|] == (a + y)[..|a|];
  }

  /** The pairs of a prefix of the list start the pairs of the list. */
  lemma {:induction false} PairsPrefix(frames: seq<Frame>, i: nat)
    requires i <= |frames| && forall f <- frames :: f.spec < Count
    ensures |Pairs(frames[..i])| <= |Pairs(frames)| && Pairs(frames)[..|Pairs(frames[..i])|] == Pairs(frames[..i])
    decreases |frames| - i
  {
    if i == |frames| {
      assert frames[..i] == frames;
    } else {
      PairsPrefix(frames, i + 1);
      assert frames[..i + 1][..i] == frames[..i];
      assert Pairs(frames[..i + 1]) == Pairs(frames[..i]) + Yield(frames[i]);
      PrefixOfPrefix(Pairs(frames), Pairs(frames[..i]), Yield(frames[i]));
    }
  }

  /** The images of a prefix of the list start the images of the list. */
  lemma {:induction false} ImagesPrefix(frames: seq<Frame>, i: nat, hasImageFormat: seq<byte> -> bool)
    requires i <= |frames| && forall f <- frames :: f.spec < Count
    ensures var p := Images(frames[..i], hasImageFormat);
      |p| <= |Images(frames, hasImageFormat)| && Images(frames, hasImageFormat)[..|p|] == p
    decreases |frames| - i
  {
    if i == |frames| {
      assert frames[..i] == frames;
    } else {
      ImagesPrefix(frames, i + 1, hasImageFormat);
      assert frames[..i + 1][..i] == frames[..i];
      var f := frames[i];
      var y := if ShowsImage(f, hasImageFormat)
        then [(f.body.mime, f.body.payload)] else [];
      assert Images(frames[..i + 1], hasImageFormat) == Images(frames[..i], hasImageFormat) + y;
      PrefixOfPrefix(Images(frames, hasImageFormat), Images(frames[..i], hasImageFormat), y);
    }
  }

  /** One more frame adds its pairs. */
  lemma {:induction false} PairsNext(frames: seq<Frame>, i: nat)
    requires i < |frames| && forall f <- frames :: f.spec < Count
    ensures Pairs(frames[..i + 1]) == Pairs(frames[..i]) + Yield(frames[i])
  {
    assert frames[..i + 1][..i] == frames[..i];
  }

  /** All the pairs of the `i`-th frame handed over: the pairs of the frames up to it. */
  lemma {:induction false} PairsDone(frames: seq<Frame>, i: nat, visited: seq<Pair>)
    requires i < |frames| && forall f <- frames :: f.spec < Count
    requires visited == Pairs(frames[..i]) + Yield(frames[i])[..|Yield(frames[i])|]
    ensures visited == Pairs(frames[..i + 1])
  {
    PairsNext(frames, i);
    assert Yield(frames[i])[..|Yield(frames[i])|] == Yield(frames[i]);
  }

  /** The loop stops at the `j`-th pair of the `i`-th frame when the block stops there and nowhere before. */
  lemma {:induction false} PairsStop(frames: seq<Frame>, i: nat, j: nat, stops: Pair -> bool)
    requires i < |frames| && forall f <- frames :: f.spec < Count
    requires j < |Yield(frames[i])| && stops(Yield(frames[i])[j])
    requires NeverStops(Pairs(frames[..i]) + Yield(frames[i])[..j], stops)
    ensures VisitedUntil(Pairs(frames), stops) == Pairs(frames[..i]) + Yield(frames[i])[..j] + [Yield(frames[i])[j]]
    ensures !NeverStops(Pairs(frames), stops)
  {
    PairsNext(frames, i);
    PairsPrefix(frames, i + 1);
    StopsWithin(Pairs(frames), Pairs(frames[..i]), Yield(frames[i]), j, stops);
  }

  /** The loop runs to the end when the block never stops. */
  lemma {:induction false} PairsAll(frames: seq<Frame>, stops: Pair -> bool)
    requires forall f <- frames :: f.spec < Count
    requires NeverStops(Pairs(frames[..|frames|]), stops)
    ensures VisitedUntil(Pairs(frames), stops) == Pairs(frames[..|frames|]) && NeverStops(Pairs(frames), stops)
  {
    assert frames[..|frames|] == frames;
    StopsNever(Pairs(frames), stops);
  }

  /** A picture at which the block does not stop extends the pictures handed over. */
  lemma {:induction false} ImagesShown(frames: seq<Frame>, i: nat, hasImageFormat: seq<byte> -> bool, stops: Shown -> bool, visited: seq<Shown>)
    requires i < |frames| && forall f <- frames :: f.spec < Count
    requires visited == Images(frames[..i], hasImageFormat) && NeverStops(visited, stops)
    requires var f := frames[i];
      ShowsImage(f, hasImageFormat) && !stops((f.body.mime, f.body.payload))
    ensures var f := frames[i];
      visited + [(f.body.mime, f.body.payload)] == Images(frames[..i + 1], hasImageFormat)
      && NeverStops(visited + [(f.body.mime, f.body.payload)], stops)
  {
    ImagesNext(frames, i, hasImageFormat);
    NeverStopsNext(visited, (frames[i].body.mime, frames[i].body.payload), stops);
  }

  /** A frame that shows no picture hands nothing over. */
  lemma {:induction false} ImagesHidden(frames: seq<Frame>, i: nat, hasImageFormat: seq<byte> -> bool, stops: Shown -> bool, visited: seq<Shown>)
    requires i < |frames| && forall f <- frames :: f.spec < Count
    requires visited == Images(frames[..i], hasImageFormat) && NeverStops(visited, stops)
    requires !ShowsImage(frames[i], hasImageFormat)
    ensures visited == Images(frames[..i + 1], hasImageFormat) && NeverStops(visited, stops)
  {
    ImagesNext(frames, i, hasImageFormat);
  }

  /** One more frame adds its picture when it shows one. */
  lemma {:induction false} ImagesNext(frames: seq<Frame>, i: nat, hasImageFormat: seq<byte> -> bool)
    requires i < |frames| && forall f <- frames :: f.spec < Count
    ensures var f := frames[i];
      Images(frames[..i + 1], hasImageFormat) == Images(frames[..i], hasImageFormat)
        + if ShowsImage(f, hasImageFormat)
          then [(f.body.mime, f.body.payload)] else []
  {
    assert frames[..i + 1][..i] == frames[..i];
  }

  /** The loop stops at the picture of the `i`-th frame when the block stops there and nowhere before. */
  lemma {:induction false} ImagesStop(frames: seq<Frame>, i: nat, hasImageFormat: seq<byte> -> bool, stops: Shown -> bool)
    requires i < |frames| && forall f <- frames :: f.spec < Count
    requires var f := frames[i];
      ShowsImage(f, hasImageFormat) && stops((f.body.mime, f.body.payload))
    requires NeverStops(Images(frames[..i], hasImageFormat), stops)
    ensures var f := frames[i];
      VisitedUntil(Images(frames, hasImageFormat), stops)
        == Images(frames[..i], hasImageFormat) + [(f.body.mime, f.body.payload)]
    ensures !NeverStops(Images(frames, hasImageFormat), stops)
  {
    ImagesNext(frames, i, hasImageFormat);
    ImagesPrefix(frames, i + 1, hasImageFormat);
    var f := frames[i];
    StopsWithin(Images(frames, hasImageFormat), Images(frames[..i], hasImageFormat), [(f.body.mime, f.body.payload)], 0, stops);
  }

  /** The picture loop runs to the end when the block never stops. */
  lemma {:induction false} ImagesAll(frames: seq<Frame>, hasImageFormat: seq<byte> -> bool, stops: Shown -> bool)
    requires forall f <- frames :: f.spec < Count
    requires NeverStops(Images(frames[..|frames|], hasImageFormat), stops)
    ensures VisitedUntil(Images(frames, hasImageFormat), stops) == Images(frames[..|frames|], hasImageFormat)
    ensures NeverStops(Images(frames, hasImageFormat), stops)
  {
    assert frames[..|frames|] == frames;
    StopsNever(Images(frames, hasImageFormat), stops);
  }

  /**
   * `rsvc_id3_tags_each` as written: a frame's type hands all of its pairs
   * to the block before the loop looks at the stop flag, so a stop on the
   * number of an "n/t" frame still hands over its total.
   */
  function EachAsWritten(frames: seq<Frame>, stops: Pair -> bool): seq<Pair>
    requires forall f <- frames :: f.spec < Count
  {
    if frames == [] then []
    else
      var ys := Yield(frames[0]);
      if exists k | 0 <= k < |ys| :: stops(ys[k]) then ys
      else ys + EachAsWritten(frames[1..], stops)
  }

  /** The bytes of the text "3/12". */
  const ThreeOfTwelve: seq<byte> := [0x33, 0x2f, 0x31, 0x32]

  /**
   * A track "3/12" and a block that stops at once: the loop as written
   * hands over two pairs, where stopping should end it after the first.
   */
  lemma {:induction false} EachAsWrittenPastStop()
    ensures var frames := [Frame(5, Bytes(ThreeOfTwelve))];
      var stops := (p: Pair) => true;
      |EachAsWritten(frames, stops)| == 2 && VisitedUntil(Pairs(frames), stops) == [("TRACKNUMBER", [0x33])]
  {
    var frames := [Frame(5, Bytes(ThreeOfTwelve))];
    var stops := (p: Pair) => true;
    assert SequenceJoin(Some([0x33]), Some([0x31, 0x32])) == ThreeOfTwelve;
    SplitJoin(Some([0x33]), Some([0x31, 0x32]));
    assert Components(ThreeOfTwelve) == (Some([0x33]), Some([0x31, 0x32]));
    var ys := Yield(frames[0]);
    assert ys == [("TRACKNUMBER", [0x33]), (PairedText(5), [0x31, 0x32])];
    assert stops(ys[0]);
    assert EachAsWritten(frames, stops) == ys;
    assert frames[..0] == [];
    assert Pairs(frames) == ys;
  }

  // ---------------------------------------------------------------------
  // Saving
  // ---------------------------------------------------------------------

  /** What `id3_write_tags` leaves as the tag's version and size: the ones read at open, whatever was written. */
  function SavedHeaderAsWritten(frames: seq<Frame>, previous: Header): (r: Header)
    requires AllWritable(frames)
    ensures r == previous
  {
    previous
  }

  /** The header of the tag just written: version 4.0 and the body size. */
  function SavedHeader(frames: seq<Frame>, previous: Header): (r: Header)
    requires AllWritable(frames)
    ensures r.version == 4 && r.revision == 0 && r.size >= previous.size && r.size >= FramesSize(frames)
  {
    Header(4, 0, TagSize(frames, previous.size))
  }

  /** The header a save leaves describes the tag at the front of the saved file. */
  lemma {:induction false} SavedHeaderFits(frames: seq<Frame>, previous: Header, file: seq<byte>)
    requires AllWritable(frames) && (previous.version != 0 ==> 10 + previous.size <= |file|)
    ensures var saved := NewFile(frames, previous, file);
      var h := SavedHeader(frames, previous);
      10 + h.size <= |saved| && saved[..10] == HeaderBytes(h.size)
  {
    var size := TagSize(frames, previous.size);
    var offset := if previous.version != 0 then 10 + previous.size else 0;
    Regroup(HeaderBytes(size), TagBody(frames, previous.size), file[offset..]);
  }

  /**
   * Saving again with the header the save leaves rewrites the same file:
   * the second save finds the old tag's end right after the first tag.
   */
  lemma {:induction false} SaveTwice(frames: seq<Frame>, previous: Header, file: seq<byte>)
    requires AllWritable(frames) && (previous.version != 0 ==> 10 + previous.size <= |file|)
    ensures var once := NewFile(frames, previous, file);
      NewFile(frames, SavedHeader(frames, previous), once) == once
  {
    var size := TagSize(frames, previous.size);
    var offset := if previous.version != 0 then 10 + previous.size else 0;
    var once := NewFile(frames, previous, file);
    SavedHeaderFits(frames, previous, file);
    assert TagSize(frames, size) == size;
    Regroup(HeaderBytes(size), TagBody(frames, previous.size), file[offset..]);
    assert once[10 + size..] == file[offset..];
  }

  /** A file of ten bytes with no ID3 tag. */
  const Untagged: seq<byte> := [0xff, 0xfb, 0x90, 0x64, 0, 0, 0, 0, 0, 0]

  /**
   * With the header left as read, a second save of a file that had no tag
   * copies the first saved file whole, old tag included, after the new
   * tag; with the header the save leaves it rewrites the same file.
   */
  lemma {:induction false} SaveTwiceAsWrittenDuplicates()
    ensures var previous := Header(0, 0, 0);
      var once := NewFile([], previous, Untagged);
      var twice := NewFile([], SavedHeaderAsWritten([], previous), once);
      && once == HeaderBytes(0) + Untagged
      && twice == HeaderBytes(0) + HeaderBytes(0) + Untagged
      && NewFile([], SavedHeader([], previous), once) == once
  {
    var previous := Header(0, 0, 0);
    assert TagSize([], 0) == 0;
    assert TagBody([], 0) == [];
    SaveTwice([], previous, Untagged);
  }

  // ---------------------------------------------------------------------
  // Skipping a tag
  // ---------------------------------------------------------------------

  /**
   * `rsvc_id3_skip_tags` as written: the read position it leaves. The
   * header's ten bytes are consumed (fewer on a short file), and a tag's
   * body is skipped; a file without a tag keeps its first ten bytes
   * consumed.
   */
  function SkipTagsAsWritten(file: seq<byte>): (r: nat)
    ensures r <= 10 || ReadHeader(file).Ok?
  {
    match ReadHeader(file)
    case Err(_) => if |file| < 10 then |file| else 10
    case Ok(header) => if header.version != 0 then 10 + header.size else 10
  }

  /** `rsvc_id3_skip_tags` with a file without a tag read from its start. */
  function SkipTags(file: seq<byte>): (r: nat)
    ensures |file| >= 10 && file[..3] != Magic ==> r == 0
    ensures ReadHeader(file).Ok? && ReadHeader(file).value.version != 0 ==> r == 10 + ReadHeader(file).value.size
    ensures ReadHeader(file).Err? ==> r == SkipTagsAsWritten(file)
  {
    match ReadHeader(file)
    case Err(_) => if |file| < 10 then |file| else 10
    case Ok(header) => if header.version != 0 then 10 + header.size else 0
  }

  /** An untagged MP3 frame start: as written its first ten bytes are skipped. */
  lemma {:induction false} SkipTagsAsWrittenLosesAudio()
    ensures SkipTagsAsWritten(Untagged) == 10 && SkipTags(Untagged) == 0
  {
    assert Untagged[..3][0] != Magic[0];
  }

  /** Skipping the tag of a saved file lands where the data after the old tag begins. */
  lemma {:induction false} SkipSavedTag(frames: seq<Frame>, previous: Header, file: seq<byte>)
    requires AllWritable(frames) && (previous.version != 0 ==> 10 + previous.size <= |file|)
    requires TagSize(frames, previous.size) < SyncSafeLimit
    ensures var saved := NewFile(frames, previous, file);
      var offset := if previous.version != 0 then 10 + previous.size else 0;
      SkipTags(saved) <= |saved| && saved[SkipTags(saved)..] == file[offset..]
  {
    var size := TagSize(frames, previous.size);
    var offset := if previous.version != 0 then 10 + previous.size else 0;
    var body := TagBody(frames, previous.size);
    Regroup(HeaderBytes(size), body, file[offset..]);
    HeaderReadBack(size, body + file[offset..]);
  }

  // ---------------------------------------------------------------------
  // The tag object
  // ---------------------------------------------------------------------

  /** `struct rsvc_id3_tags`: the frame list, the header read at open, and the file's bytes. */
  class Tags {
    var frames: seq<Frame>
    var header: Header
    var file: seq<byte>

    /** The frames can be written, and a tag that was read lies within the file. */
    ghost predicate Valid()
      reads this
    {
      AllWritable(frames) && (header.version != 0 ==> 10 + header.size <= |file|)
    }

    constructor (frames: seq<Frame>, header: Header, file: seq<byte>)
      requires AllWritable(frames) && (header.version != 0 ==> 10 + header.size <= |file|)
      ensures Valid() && this.frames == frames && this.header == header && this.file == file
    {
      this.frames := frames;
      this.header := header;
      this.file := file;
    }

    /** `rsvc_id3_tags_add`: on failure the list is unchanged. */
    method Add(name: string, value: seq<byte>) returns (r: Result<()>)
      requires Valid() && 0 !in value
      modifies this
      ensures Valid() && header == old(header) && file == old(file)
      ensures r.Ok? ==> AddNamed(old(frames), name, value) == Ok(frames)
      ensures r.Err? ==> AddNamed(old(frames), name, value) == Err(r.msg) && frames == old(frames)
    {
      var added := AddNamed(frames, name, value);
      if added.Err? {
        return Err(added.msg);
      }
      AddNamedWritable(frames, name, value);
      frames := added.value;
      r := Ok(());
    }

    /** `rsvc_id3_tags_remove`: fails only on a name with no entry. */
    method Remove(name: string) returns (r: Result<()>)
      requires Valid()
      modifies this
      ensures Valid() && header == old(header) && file == old(file)
      ensures r.Ok? ==> RemoveNamed(old(frames), name) == Ok(frames)
      ensures r.Err? ==> VorbisSpec(name).Err? && r.msg == VorbisSpec(name).msg && frames == old(frames)
    {
      var removed := RemoveNamed(frames, name);
      if removed.Err? {
        return Err(removed.msg);
      }
      RemoveNamedWritable(frames, name);
      frames := removed.value;
      r := Ok(());
    }

    /**
     * `rsvc_id3_tags_each` with the stop honoured at once: the pairs of the
     * frames in order, up to the one at which the block stops. `completed`
     * is the result: whether the loop ran to the end.
     */
    method Each(stops: Pair -> bool) returns (visited: seq<Pair>, completed: bool)
      requires Valid()
      ensures visited == VisitedUntil(Pairs(frames), stops)
      ensures completed <==> NeverStops(Pairs(frames), stops)
    {
      visited := [];
      var i := 0;
      while i < |frames|
        invariant 0 <= i <= |frames|
        invariant visited == Pairs(frames[..i]) && NeverStops(visited, stops)
      {
        var ys := Yield(frames[i]);
        var j := 0;
        while j < |ys|
          invariant 0 <= j <= |ys|
          invariant visited == Pairs(frames[..i]) + ys[..j] && NeverStops(visited, stops)
        {
          if stops(ys[j]) {
            PairsStop(frames, i, j, stops);
            return visited + [ys[j]], false;
          }
          NeverStopsWithin(Pairs(frames[..i]), ys, j, stops, visited);
          visited := visited + [ys[j]];
          j := j + 1;
        }
        PairsDone(frames, i, visited);
        i := i + 1;
      }
      PairsAll(frames, stops);
      completed := true;
    }

    /**
     * `rsvc_id3_tags_image_each`: the pictures whose MIME type names an
     * image format, in order, up to the one at which the block stops.
     */
    method ImageEach(hasImageFormat: seq<byte> -> bool, stops: Shown -> bool) returns (visited: seq<Shown>, completed: bool)
      requires Valid()
      ensures visited == VisitedUntil(Images(frames, hasImageFormat), stops)
      ensures completed <==> NeverStops(Images(frames, hasImageFormat), stops)
    {
      visited := [];
      var i := 0;
      while i < |frames|
        invariant 0 <= i <= |frames|
        invariant visited == Images(frames[..i], hasImageFormat) && NeverStops(visited, stops)
      {
        var f := frames[i];
        if ShowsImage(f, hasImageFormat) {
          var shown := (f.body.mime, f.body.payload);
          if stops(shown) {
            ImagesStop(frames, i, hasImageFormat, stops);
            return visited + [shown], false;
          }
          ImagesShown(frames, i, hasImageFormat, stops, visited);
          visited := visited + [shown];
        } else {
          ImagesHidden(frames, i, hasImageFormat, stops, visited);
        }
        i := i + 1;
      }
      ImagesAll(frames, hasImageFormat, stops);
      completed := true;
    }

    /**
     * `rsvc_id3_tags_image_remove`: removing one picture by index is not
     * implemented; otherwise the first picture frame is erased until none
     * is left.
     */
    method ImageRemove(index: Option<nat>) returns (r: Result<()>)
      requires Valid()
      modifies this
      ensures Valid() && header == old(header) && file == old(file)
      ensures index.Some? ==> r == Err("not implemented") && frames == old(frames)
      ensures index.None? ==> (r == Ok(()) && Id3Spec(4, ApicName).Ok?
        && frames == Without(old(frames), Id3Spec(4, ApicName).value))
    {
      if index.Some? {
        return Err("not implemented");
      }
      ApicFrame();
      var spec := Id3Spec(4, ApicName).value;
      ghost var goal := Without(frames, spec);
      while Find(frames, spec).Some?
        invariant Valid() && header == old(header) && file == old(file)
        invariant Without(frames, spec) == goal
        decreases |frames|
      {
        var at := Find(frames, spec).value;
        WithoutErase(frames, spec, at);
        frames := Erase(frames, at);
      }
      WithoutNone(frames, spec);
      r := Ok(());
    }

    /** `rsvc_id3_tags_image_add`: a picture of kind 0 with an empty description, at the end of the list. */
    method ImageAdd(mime: seq<byte>, payload: seq<byte>)
      requires Valid()
      modifies this
      ensures Valid() && header == old(header) && file == old(file)
      ensures Id3Spec(4, ApicName).Ok?
        && frames == Id3Frames.ImageAdd(old(frames), Id3Spec(4, ApicName).value, 0, mime, [], payload)
    {
      ApicFrame();
      var spec := Id3Spec(4, ApicName).value;
      frames := Id3Frames.ImageAdd(frames, spec, 0, mime, [], payload);
    }

    /**
     * `rsvc_id3_tags_save`: the new tag, then the data after the old tag;
     * the header then describes the tag just written, so that saving
     * again finds the data where it now is.
     */
    method Save()
      requires Valid()
      modifies this
      ensures Valid() && frames == old(frames)
      ensures file == NewFile(old(frames), old(header), old(file))
      ensures header == SavedHeader(old(frames), old(header))
    {
      var head, body := WriteTags(frames, header.size);
      var offset := if header.version != 0 then 10 + header.size else 0;
      SavedHeaderFits(frames, header, file);
      file := head + body[..] + file[offset..];
      header := SavedHeader(frames, header);
    }
  }

  /**
   * `rsvc_id3_open_tags`: the header and, for a file with a tag, its
   * frames; any error of either is the open's error.
   */
  method Open(file: seq<byte>) returns (r: Result<Tags>)
    ensures r.Ok? <==> ReadTags(file).Ok?
    ensures r.Err? ==> r.msg == ReadTags(file).msg
    ensures r.Ok? ==> (fresh(r.value) && r.value.Valid() && r.value.file == file
      && (r.value.header, r.value.frames) == ReadTags(file).value)
  {
    var read := ReadHeader(file);
    if read.Err? {
      return Err(read.msg);
    }
    var header := read.value;
    var frames: seq<Frame> := [];
    if header.version != 0 {
      if |file| < 10 + header.size {
        return Err(ShortRead);
      }
      var walked := ReadFrames(header.version, file[10..10 + header.size]);
      if walked.Err? {
        return Err(walked.msg);
      }
      WalkWritable([], header.version, file[10..10 + header.size]);
      frames := walked.value;
    }
    var tags := new Tags(frames, header, file);
    r := Ok(tags);
  }
}

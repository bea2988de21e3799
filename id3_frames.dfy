/**
 * The frame list of src/rsvc/id3.c and the operations that add to it and
 * remove from it: text and flag frames (at most one per entry), the "n/t"
 * frames that hold a number and a total (section 4.2.1 of the ID3v2.4.0
 * frames document), pictures (section 4.14), and the name/value pairs each
 * frame hands to `rsvc_tags_each`.
 *
 * A frame keeps what `struct id3_frame_node` keeps: the table entry it was
 * read or added under, and either bytes (a text value without its NUL, or
 * the body of a frame passed through unread) or the parts of a picture.
 * The operations here are functions from the old list to the added one; the
 * `Id3.Tags` class applies them to its list in place.
 */
module Id3Frames {
  import opened Common
  import opened Id3Table

  datatype Body =
    | Bytes(data: seq<byte>)
    | Picture(kind: byte, mime: seq<byte>, description: seq<byte>, payload: seq<byte>)

  datatype Frame = Frame(spec: nat, body: Body)

  /** The byte '/', which separates the number from the total. */
  const Slash: byte := 0x2f

  /** What `%s` prints for an entry's Vorbis name; C libraries print a NULL string as "(null)". */
  function VorbisText(spec: nat): string
    requires spec < Count
  {
    match Entry(spec).vorbis
    case Some(name) => name
    case None => "(null)"
  }

  /** `find_by_spec`: the position of the first frame read or added under `spec`. */
  function Find(frames: seq<Frame>, spec: nat): (r: Option<nat>)
    ensures r.Some? ==> r.value < |frames| && frames[r.value].spec == spec
    ensures r.Some? ==> forall k | 0 <= k < r.value :: frames[k].spec != spec
    ensures r.None? <==> forall k | 0 <= k < |frames| :: frames[k].spec != spec
  {
    if frames == [] then None
    else if frames[0].spec == spec then Some(0)
    else
      match Find(frames[1..], spec)
      case None => None
      case Some(i) => Some(i + 1)
  }

  /** The first frame of `spec` is the one at `j` when no earlier frame has it. */
  lemma {:induction false} FindIs(frames: seq<Frame>, spec: nat, j: nat)
    requires j < |frames| && frames[j].spec == spec
    requires forall k | 0 <= k < j :: frames[k].spec != spec
    ensures Find(frames, spec) == Some(j)
  {
  }

  /** `RSVC_LIST_ERASE`: the list without its `i`-th node, the others in order. */
  function Erase(frames: seq<Frame>, i: nat): (r: seq<Frame>)
    requires i < |frames|
    ensures |r| == |frames| - 1
  {
    frames[..i] + frames[i + 1..]
  }

  /** At most one frame of the list was read or added under `spec`. */
  predicate Single(frames: seq<Frame>, spec: nat)
  {
    forall i, j | 0 <= i < |frames| && 0 <= j < |frames| && frames[i].spec == spec && frames[j].spec == spec :: i == j
  }

  /**
   * `id3_text_add`: a second frame of the same entry is refused, and
   * otherwise the value is stored at the end of the list.
   */
  function TextAdd(frames: seq<Frame>, spec: nat, value: seq<byte>): (r: Result<seq<Frame>>)
    requires spec < Count
    ensures r.Err? <==> Find(frames, spec).Some?
    ensures r.Err? ==> r.msg == "only one ID3 " + VorbisText(spec) + " tag permitted"
    ensures r.Ok? ==> |r.value| == |frames| + 1 && r.value[..|frames|] == frames
    ensures r.Ok? ==> Find(r.value, spec) == Some(|frames|) && r.value[|frames|].body == Bytes(value)
  {
    if Find(frames, spec).Some? then Err("only one ID3 " + VorbisText(spec) + " tag permitted")
    else
      var added := frames + [Frame(spec, Bytes(value))];
      FindIs(added, spec, |frames|);
      Ok(added)
  }

  /** `id3_text_remove`: the first frame of the entry goes, if there is one; removing always succeeds. */
  function TextRemove(frames: seq<Frame>, spec: nat): (r: seq<Frame>)
    ensures Find(frames, spec).None? ==> r == frames
    ensures Find(frames, spec).Some? ==> |r| == |frames| - 1
    ensures forall k | 0 <= k < |r| :: r[k] in frames
  {
    match Find(frames, spec)
    case None => frames
    case Some(i) => Erase(frames, i)
  }

  /** Adding a text value and removing it again gives back the list. */
  lemma {:induction false} TextAddRemove(frames: seq<Frame>, spec: nat, value: seq<byte>)
    requires spec < Count && Find(frames, spec).None?
    ensures TextAdd(frames, spec, value).Ok?
    ensures TextRemove(TextAdd(frames, spec, value).value, spec) == frames
  {
    var added := TextAdd(frames, spec, value).value;
    assert Find(added, spec) == Some(|frames|);
    assert Erase(added, |frames|) == frames;
  }

  /** Removing from a list with at most one frame of the entry leaves none. */
  lemma {:induction false} TextRemoveLeavesNone(frames: seq<Frame>, spec: nat)
    requires Single(frames, spec)
    ensures Find(TextRemove(frames, spec), spec).None?
  {
    match Find(frames, spec)
    case None =>
    case Some(i) =>
      var r := Erase(frames, i);
      forall k | 0 <= k < |r|
        ensures r[k].spec != spec
      {
        if k >= i {
          assert frames[k + 1].spec != spec;
        }
      }
  }

  /** The two flag values `id3_bool_add` accepts: "0" and "1". */
  predicate IsFlag(value: seq<byte>)
  {
    value == [0x30] || value == [0x31]
  }

  /** `id3_bool_add`: only "0" or "1", then as a text value. */
  function BoolAdd(frames: seq<Frame>, spec: nat, value: seq<byte>): (r: Result<seq<Frame>>)
    requires spec < Count && 0 !in value
    ensures r.Ok? <==> IsFlag(value) && Find(frames, spec).None?
    ensures !IsFlag(value) ==> r == Err("ID3 " + VorbisText(spec) + " tag must be 0 or 1")
    ensures IsFlag(value) ==> r == TextAdd(frames, spec, value)
  {
    if |value| != 1 || (value[0] != 0x30 && value[0] != 0x31) then
      Err("ID3 " + VorbisText(spec) + " tag must be 0 or 1")
    else
      TextAdd(frames, spec, value)
  }

  /** The text stored in a frame, as its C string. */
  function TextOf(body: Body): seq<byte>
  {
    match body
    case Bytes(data) => data
    case Picture(_, _, _, _) => []
  }

  /** The position of the first '/' (`strcspn(text, "/")` when there is one). */
  function SlashAt(text: seq<byte>): (r: Option<nat>)
    ensures r.Some? ==> r.value < |text| && text[r.value] == Slash && Slash !in text[..r.value]
    ensures r.None? ==> Slash !in text
  {
    if text == [] then None
    else if text[0] == Slash then Some(0)
    else
      match SlashAt(text[1..])
      case None => None
      case Some(i) =>
        assert text[..i + 1] == [text[0]] + text[1..][..i];
        Some(i + 1)
  }

  /** `id3_sequence_add`'s format: "n/t", "/t" when there is no number, "n" when there is no total. */
  function SequenceJoin(number: Option<seq<byte>>, total: Option<seq<byte>>): seq<byte>
  {
    (if number.Some? then number.value else []) + (if total.Some? then [Slash] + total.value else [])
  }

  /**
   * `sequence_split`: the number before the first '/' (none when the text
   * starts with it) and the total after it; a text without '/' is a number
   * only, and the empty text calls nothing (None).
   */
  function SequenceSplit(text: seq<byte>): (r: Option<(Option<seq<byte>>, Option<seq<byte>>)>)
    ensures r.None? <==> text == []
    ensures r.Some? ==> SequenceJoin(r.value.0, r.value.1) == text
    ensures r.Some? ==> r.value.0.Some? || r.value.1.Some?
    ensures r.Some? && r.value.0.Some? ==> r.value.0.value != [] && Slash !in r.value.0.value
    ensures r.Some? ==> (r.value.1.None? <==> Slash !in text)
  {
    match SlashAt(text)
    case Some(p) =>
      assert text == text[..p] + [Slash] + text[p + 1..];
      if p == 0 then Some((None, Some(text[1..])))
      else Some((Some(text[..p]), Some(text[p + 1..])))
    case None =>
      if text == [] then None else Some((Some(text), None))
  }

  /** Splitting what `id3_sequence_add` wrote gives back its two parts. */
  lemma {:induction false} SplitJoin(number: Option<seq<byte>>, total: Option<seq<byte>>)
    requires number.Some? || total.Some?
    requires number.Some? ==> number.value != [] && Slash !in number.value
    ensures SequenceSplit(SequenceJoin(number, total)) == Some((number, total))
  {
    var text := SequenceJoin(number, total);
    var n := if number.Some? then number.value else [];
    if total.Some? {
      assert text[|n|] == Slash && text[..|n|] == n && text[|n| + 1..] == total.value;
      assert SlashAt(text) == Some(|n|);
    } else {
      assert text == n;
    }
  }

  /** The number and total held by a stored text; none at all for the empty text. */
  function Components(text: seq<byte>): (Option<seq<byte>>, Option<seq<byte>>)
  {
    match SequenceSplit(text)
    case Some(parts) => parts
    case None => (None, None)
  }

  function Or(a: Option<seq<byte>>, b: Option<seq<byte>>): Option<seq<byte>>
  {
    if a.Some? then a else b
  }

  /** `check_seq`: a number or total that is given must be non-empty and free of '/'. */
  function CheckSeq(spec: nat, value: Option<seq<byte>>): (r: Option<string>)
    requires spec < Count
    ensures r.None? <==> value.None? || (value.value != [] && Slash !in value.value)
  {
    if value.Some? && (value.value == [] || Slash in value.value) then
      Some("invalid ID3 " + VorbisText(spec) + " " + Chars(value.value))
    else
      None
  }

  /**
   * `id3_sequence_both_add` as written: when the stored "n/t" frame holds
   * the empty text, `sequence_split` calls nothing, and the add returns
   * false without reporting any error (None here).
   */
  function SequenceBothAddAsWritten(frames: seq<Frame>, numberSpec: nat, numberValue: Option<seq<byte>>,
                                    totalSpec: nat, totalValue: Option<seq<byte>>): Option<Result<seq<Frame>>>
    requires numberSpec < Count && totalSpec < Count
  {
    match Find(frames, numberSpec)
    case Some(i) =>
      if CheckSeq(numberSpec, numberValue).None? && CheckSeq(totalSpec, totalValue).None?
         && SequenceSplit(TextOf(frames[i].body)).None?
      then None
      else Some(SequenceBothAdd(frames, numberSpec, numberValue, totalSpec, totalValue))
    case None => Some(SequenceBothAdd(frames, numberSpec, numberValue, totalSpec, totalValue))
  }

  /**
   * `id3_sequence_both_add`, with a stored empty text read as holding
   * neither part: each given part is checked, a part already stored is
   * refused, and otherwise the merged "n/t" frame is pushed at the end and
   * the old one erased.
   */
  function SequenceBothAdd(frames: seq<Frame>, numberSpec: nat, numberValue: Option<seq<byte>>,
                           totalSpec: nat, totalValue: Option<seq<byte>>): (r: Result<seq<Frame>>)
    requires numberSpec < Count && totalSpec < Count
    ensures CheckSeq(numberSpec, numberValue).Some? ==> r == Err(CheckSeq(numberSpec, numberValue).value)
    ensures CheckSeq(numberSpec, numberValue).None? && CheckSeq(totalSpec, totalValue).Some? ==>
      r == Err(CheckSeq(totalSpec, totalValue).value)
  {
    if CheckSeq(numberSpec, numberValue).Some? then Err(CheckSeq(numberSpec, numberValue).value)
    else if CheckSeq(totalSpec, totalValue).Some? then Err(CheckSeq(totalSpec, totalValue).value)
    else
      match Find(frames, numberSpec)
      case None => Ok(frames + [Frame(numberSpec, Bytes(SequenceJoin(numberValue, totalValue)))])
      case Some(i) =>
        var (number, total) := Components(TextOf(frames[i].body));
        if numberValue.Some? && number.Some? then
          Err("only one ID3 " + VorbisText(numberSpec) + " tag permitted")
        else if totalValue.Some? && total.Some? then
          Err("only one ID3 " + VorbisText(totalSpec) + " tag permitted")
        else
          Ok(Erase(frames + [Frame(numberSpec, Bytes(SequenceJoin(Or(number, numberValue), Or(total, totalValue))))], i))
  }

  /**
   * `id3_sequence_both_remove`: the stored frame is replaced by one
   * without the removed part, or dropped once neither part is left; a
   * stored empty text is left in place, as `sequence_split` calls nothing.
   */
  function SequenceBothRemove(frames: seq<Frame>, numberSpec: nat, removeNumber: bool, removeTotal: bool): seq<Frame>
  {
    match Find(frames, numberSpec)
    case None => frames
    case Some(i) =>
      match SequenceSplit(TextOf(frames[i].body))
      case None => frames
      case Some((number, total)) =>
        var n := if removeNumber then None else number;
        var t := if removeTotal then None else total;
        if n.Some? || t.Some? then Erase(frames + [Frame(numberSpec, Bytes(SequenceJoin(n, t)))], i)
        else Erase(frames, i)
  }

  /** The list with its `i`-th frame erased after `added` was pushed is the erased list followed by `added`. */
  lemma {:induction false} ErasePushed(frames: seq<Frame>, added: Frame, i: nat)
    requires i < |frames|
    ensures Erase(frames + [added], i) == Erase(frames, i) + [added]
  {
  }

  /** Erasing the only frame of `spec` leaves none. */
  lemma {:induction false} ErasedSingle(frames: seq<Frame>, spec: nat, i: nat)
    requires Single(frames, spec) && i < |frames| && frames[i].spec == spec
    ensures Single(Erase(frames, i), spec) && Find(Erase(frames, i), spec).None?
  {
    var r := Erase(frames, i);
    forall k | 0 <= k < |r|
      ensures r[k].spec != spec
    {
      if k >= i {
        assert frames[k + 1].spec != spec;
      }
    }
  }

  /** The parts of the "n/t" frame of `numberSpec` in the list, none when there is no such frame. */
  function StoredParts(frames: seq<Frame>, numberSpec: nat): (Option<seq<byte>>, Option<seq<byte>>)
  {
    match Find(frames, numberSpec)
    case Some(i) => Components(TextOf(frames[i].body))
    case None => (None, None)
  }

  /** A number that `check_seq` accepts, or none. */
  predicate Part(number: Option<seq<byte>>)
  {
    number.Some? ==> number.value != [] && Slash !in number.value
  }

  /** Replacing the only "n/t" frame by one for the parts `n` and `t` stores exactly those parts. */
  lemma {:induction false} Restored(frames: seq<Frame>, numberSpec: nat, i: nat, n: Option<seq<byte>>, t: Option<seq<byte>>)
    requires Single(frames, numberSpec) && i < |frames| && frames[i].spec == numberSpec
    requires (n.Some? || t.Some?) && Part(n)
    ensures var r := Erase(frames, i) + [Frame(numberSpec, Bytes(SequenceJoin(n, t)))];
      Single(r, numberSpec) && Find(r, numberSpec) == Some(|r| - 1)
      && StoredParts(r, numberSpec) == (n, t) && r[..|r| - 1] == Erase(frames, i)
  {
    ErasedSingle(frames, numberSpec, i);
    Pushed(Erase(frames, i), numberSpec, n, t);
  }

  /** Pushing the first "n/t" frame for the parts `n` and `t` stores exactly those parts. */
  lemma {:induction false} Pushed(frames: seq<Frame>, numberSpec: nat, n: Option<seq<byte>>, t: Option<seq<byte>>)
    requires Find(frames, numberSpec).None?
    requires (n.Some? || t.Some?) && Part(n)
    ensures var r := frames + [Frame(numberSpec, Bytes(SequenceJoin(n, t)))];
      Single(r, numberSpec) && Find(r, numberSpec) == Some(|r| - 1)
      && StoredParts(r, numberSpec) == (n, t) && r[..|r| - 1] == frames
  {
    var r := frames + [Frame(numberSpec, Bytes(SequenceJoin(n, t)))];
    FindIs(r, numberSpec, |frames|);
    SplitJoin(n, t);
  }

  /** The parts read back from a stored text are parts `check_seq` accepts. */
  lemma {:induction false} StoredPart(frames: seq<Frame>, numberSpec: nat)
    ensures Part(StoredParts(frames, numberSpec).0)
  {
  }

  /**
   * What an add to an "n/t" frame promises once the given parts pass
   * `check_seq`: it fails exactly when a part being given is already
   * stored, and otherwise the list holds one frame for the pair, at the
   * end, whose parts are the stored ones completed by the given ones;
   * every other frame stays, in order.
   */
  ghost predicate AddMerged(frames: seq<Frame>, numberSpec: nat, numberValue: Option<seq<byte>>,
                            totalSpec: nat, totalValue: Option<seq<byte>>)
    requires numberSpec < Count && totalSpec < Count
  {
    var stored := StoredParts(frames, numberSpec);
    var r := SequenceBothAdd(frames, numberSpec, numberValue, totalSpec, totalValue);
    && (r.Ok? <==> !(numberValue.Some? && stored.0.Some?) && !(totalValue.Some? && stored.1.Some?))
    && (r.Ok? ==> Single(r.value, numberSpec) && Find(r.value, numberSpec) == Some(|r.value| - 1))
    && (r.Ok? ==> StoredParts(r.value, numberSpec) == (Or(stored.0, numberValue), Or(stored.1, totalValue)))
    && (r.Ok? ==> r.value[..|r.value| - 1] == match Find(frames, numberSpec)
                                             case Some(i) => Erase(frames, i)
                                             case None => frames)
  }

  /** Adding to an "n/t" frame merges the given parts into the stored ones. */
  lemma {:induction false} SequenceAddMerges(frames: seq<Frame>, numberSpec: nat, numberValue: Option<seq<byte>>,
                          totalSpec: nat, totalValue: Option<seq<byte>>)
    requires numberSpec < Count && totalSpec < Count && Single(frames, numberSpec)
    requires numberValue.Some? || totalValue.Some?
    requires CheckSeq(numberSpec, numberValue).None? && CheckSeq(totalSpec, totalValue).None?
    ensures AddMerged(frames, numberSpec, numberValue, totalSpec, totalValue)
  {
    if Find(frames, numberSpec).None? {
      FirstAddMerges(frames, numberSpec, numberValue, totalSpec, totalValue);
    } else {
      StoredAddMerges(frames, numberSpec, numberValue, totalSpec, totalValue);
    }
  }

  /** With no "n/t" frame stored, the add pushes one holding the given parts. */
  lemma {:induction false} FirstAddMerges(frames: seq<Frame>, numberSpec: nat, numberValue: Option<seq<byte>>,
                       totalSpec: nat, totalValue: Option<seq<byte>>)
    requires numberSpec < Count && totalSpec < Count && Find(frames, numberSpec).None?
    requires numberValue.Some? || totalValue.Some?
    requires CheckSeq(numberSpec, numberValue).None? && CheckSeq(totalSpec, totalValue).None?
    ensures AddMerged(frames, numberSpec, numberValue, totalSpec, totalValue)
  {
    FirstAddPushes(frames, numberSpec, numberValue, totalSpec, totalValue);
    Pushed(frames, numberSpec, numberValue, totalValue);
  }

  /** With no "n/t" frame stored and both parts accepted, the add pushes the joined parts. */
  lemma {:induction false} FirstAddPushes(frames: seq<Frame>, numberSpec: nat, numberValue: Option<seq<byte>>,
                       totalSpec: nat, totalValue: Option<seq<byte>>)
    requires numberSpec < Count && totalSpec < Count && Find(frames, numberSpec).None?
    requires CheckSeq(numberSpec, numberValue).None? && CheckSeq(totalSpec, totalValue).None?
    ensures SequenceBothAdd(frames, numberSpec, numberValue, totalSpec, totalValue)
      == Ok(frames + [Frame(numberSpec, Bytes(SequenceJoin(numberValue, totalValue)))])
    ensures StoredParts(frames, numberSpec) == (None, None)
  {
  }

  /** With an "n/t" frame stored, the add replaces it by the merged one unless a given part is already there. */
  lemma {:induction false} StoredAddMerges(frames: seq<Frame>, numberSpec: nat, numberValue: Option<seq<byte>>,
                        totalSpec: nat, totalValue: Option<seq<byte>>)
    requires numberSpec < Count && totalSpec < Count && Single(frames, numberSpec)
    requires Find(frames, numberSpec).Some?
    requires numberValue.Some? || totalValue.Some?
    requires CheckSeq(numberSpec, numberValue).None? && CheckSeq(totalSpec, totalValue).None?
    ensures AddMerged(frames, numberSpec, numberValue, totalSpec, totalValue)
  {
    StoredPart(frames, numberSpec);
    var stored := StoredParts(frames, numberSpec);
    var i := Find(frames, numberSpec).value;
    StoredAddReplaces(frames, numberSpec, numberValue, totalSpec, totalValue, i);
    if !(numberValue.Some? && stored.0.Some?) && !(totalValue.Some? && stored.1.Some?) {
      var n, t := Or(stored.0, numberValue), Or(stored.1, totalValue);
      Restored(frames, numberSpec, i, n, t);
      StoredAddRestores(frames, numberSpec, numberValue, totalSpec, totalValue, i, n, t);
    }
  }

  /** The merge holds once the add is known to replace the stored frame at `i` by one for the merged parts `n` and `t`, pushed at the end. */
  lemma {:induction false} StoredAddRestores(frames: seq<Frame>, numberSpec: nat, numberValue: Option<seq<byte>>,
                          totalSpec: nat, totalValue: Option<seq<byte>>, i: nat, n: Option<seq<byte>>, t: Option<seq<byte>>)
    requires numberSpec < Count && totalSpec < Count && Find(frames, numberSpec) == Some(i)
    requires var stored := StoredParts(frames, numberSpec);
      && !(numberValue.Some? && stored.0.Some?) && !(totalValue.Some? && stored.1.Some?)
      && n == Or(stored.0, numberValue) && t == Or(stored.1, totalValue)
    requires var r := Erase(frames, i) + [Frame(numberSpec, Bytes(SequenceJoin(n, t)))];
      && SequenceBothAdd(frames, numberSpec, numberValue, totalSpec, totalValue) == Ok(r)
      && Single(r, numberSpec) && Find(r, numberSpec) == Some(|r| - 1)
      && StoredParts(r, numberSpec) == (n, t) && r[..|r| - 1] == Erase(frames, i)
    ensures AddMerged(frames, numberSpec, numberValue, totalSpec, totalValue)
  {
  }

  /** With the "n/t" frame stored at `i` and both parts accepted, the add refuses a part already there and otherwise replaces the frame. */
  lemma {:induction false} StoredAddReplaces(frames: seq<Frame>, numberSpec: nat, numberValue: Option<seq<byte>>,
                          totalSpec: nat, totalValue: Option<seq<byte>>, i: nat)
    requires numberSpec < Count && totalSpec < Count && Find(frames, numberSpec) == Some(i)
    requires CheckSeq(numberSpec, numberValue).None? && CheckSeq(totalSpec, totalValue).None?
    ensures var stored := StoredParts(frames, numberSpec);
      var r := SequenceBothAdd(frames, numberSpec, numberValue, totalSpec, totalValue);
      if (numberValue.Some? && stored.0.Some?) || (totalValue.Some? && stored.1.Some?) then r.Err?
      else r == Ok(Erase(frames, i) + [Frame(numberSpec, Bytes(SequenceJoin(Or(stored.0, numberValue), Or(stored.1, totalValue))))])
  {
    var stored := StoredParts(frames, numberSpec);
    ErasePushed(frames, Frame(numberSpec, Bytes(SequenceJoin(Or(stored.0, numberValue), Or(stored.1, totalValue)))), i);
  }

  /**
   * Removing a part of a stored "n/t" frame: the frame left holds the
   * other part, and once neither part is left the list holds no frame for
   * the pair.
   */
  lemma {:induction false} SequenceRemoveParts(frames: seq<Frame>, numberSpec: nat, i: nat, removeNumber: bool, removeTotal: bool)
    requires Single(frames, numberSpec) && Find(frames, numberSpec) == Some(i) && TextOf(frames[i].body) != []
    ensures var stored := Components(TextOf(frames[i].body));
      var left := (if removeNumber then None else stored.0, if removeTotal then None else stored.1);
      var r := SequenceBothRemove(frames, numberSpec, removeNumber, removeTotal);
      && Single(r, numberSpec)
      && StoredParts(r, numberSpec) == left
      && (Find(r, numberSpec).None? <==> left.0.None? && left.1.None?)
  {
    StoredPart(frames, numberSpec);
    var stored := Components(TextOf(frames[i].body));
    var n := if removeNumber then None else stored.0;
    var t := if removeTotal then None else stored.1;
    if n.Some? || t.Some? {
      ErasePushed(frames, Frame(numberSpec, Bytes(SequenceJoin(n, t))), i);
      Restored(frames, numberSpec, i, n, t);
    } else {
      ErasedSingle(frames, numberSpec, i);
    }
  }

  /** With no "n/t" frame stored, or one holding the empty text, removing changes nothing. */
  lemma {:induction false} SequenceRemoveKeepsEmpty(frames: seq<Frame>, numberSpec: nat, removeNumber: bool, removeTotal: bool)
    requires Find(frames, numberSpec).Some? ==> TextOf(frames[Find(frames, numberSpec).value].body) == []
    ensures SequenceBothRemove(frames, numberSpec, removeNumber, removeTotal) == frames
  {
  }

  /** A stored empty "n/t" text makes the add as written return false with no message, where a value is expected to be stored. */
  lemma {:induction false} SequenceAddAsWrittenSilent()
    ensures SequenceBothAddAsWritten([Frame(5, Bytes([]))], 5, Some([0x31]), 6, None) == None
    ensures SequenceBothAdd([Frame(5, Bytes([]))], 5, Some([0x31]), 6, None) == Ok([Frame(5, Bytes([0x31]))])
  {
    var frames := [Frame(5, Bytes([]))];
    assert Find(frames, 5) == Some(0);
    assert Components([]) == (None, None);
    assert SequenceJoin(Some([0x31]), None) == [0x31];
    assert Erase(frames + [Frame(5, Bytes([0x31]))], 0) == [Frame(5, Bytes([0x31]))];
  }

  /** Apart from a stored empty text, the add as written and the corrected add agree. */
  lemma {:induction false} SequenceAddAsWrittenAgrees(frames: seq<Frame>, numberSpec: nat, numberValue: Option<seq<byte>>,
                                   totalSpec: nat, totalValue: Option<seq<byte>>)
    requires numberSpec < Count && totalSpec < Count
    requires Find(frames, numberSpec).Some? ==> TextOf(frames[Find(frames, numberSpec).value].body) != []
    ensures SequenceBothAddAsWritten(frames, numberSpec, numberValue, totalSpec, totalValue)
      == Some(SequenceBothAdd(frames, numberSpec, numberValue, totalSpec, totalValue))
  {
  }

  /**
   * The adder of an entry's ID3v2.4 type (`id3_2_4_type->add`): text and
   * flag frames, or the number or total of an "n/t" frame, which is found
   * and stored under the number entry.
   */
  function Add(frames: seq<Frame>, spec: nat, value: seq<byte>): (r: Result<seq<Frame>>)
    requires spec < Count && Editable(Entry(spec).v4) && 0 !in value
  {
    var kind := Entry(spec).v4.value;
    if kind == SequenceNumber then
      SequencePaired(spec);
      SequenceBothAdd(frames, spec, Some(value), spec + 1, None)
    else if kind == SequenceTotal then
      SequencePaired(spec);
      SequenceBothAdd(frames, spec - 1, None, spec, Some(value))
    else if kind == Bool then BoolAdd(frames, spec, value)
    else TextAdd(frames, spec, value)
  }

  /** The remover of an entry's ID3v2.4 type (`id3_2_4_type->remove`); removing always succeeds. */
  function Remove(frames: seq<Frame>, spec: nat): (r: seq<Frame>)
    requires spec < Count && Editable(Entry(spec).v4)
  {
    var kind := Entry(spec).v4.value;
    if kind == SequenceNumber then SequenceBothRemove(frames, spec, true, false)
    else if kind == SequenceTotal then
      SequencePaired(spec);
      SequenceBothRemove(frames, spec - 1, false, true)
    else TextRemove(frames, spec)
  }

  /** The name `get_paired_frame_spec` gives the total of an "n/t" frame. */
  function PairedText(spec: nat): string
    requires spec < Count
  {
    match Paired(spec)
    case Some(k) => VorbisText(k)
    case None => "(null)"
  }

  /**
   * The name/value pairs a frame hands to the block of `rsvc_tags_each`,
   * by its entry's ID3v2.4 type: a text or flag frame its value under its
   * entry's name, an "n/t" frame its number under its own name and its
   * total under its partner's, and pictures and frames passed through
   * nothing.
   */
  function Yield(frame: Frame): (r: seq<(string, seq<byte>)>)
    requires frame.spec < Count
    ensures |r| <= 2
  {
    var text := TextOf(frame.body);
    match Entry(frame.spec).v4
    case Some(Text) => [(VorbisText(frame.spec), text)]
    case Some(Bool) => [(VorbisText(frame.spec), text)]
    case Some(SequenceNumber) => SequencePairs(frame.spec, text)
    case Some(SequenceTotal) => SequencePairs(frame.spec, text)
    case _ => []
  }

  /** `id3_sequence_yield`: the number, then the total, of those the text holds. */
  function SequencePairs(spec: nat, text: seq<byte>): (r: seq<(string, seq<byte>)>)
    requires spec < Count
    ensures |r| <= 2
  {
    var (number, total) := Components(text);
    (if number.Some? then [(VorbisText(spec), number.value)] else [])
      + (if total.Some? then [(PairedText(spec), total.value)] else [])
  }

  /** All the pairs of a list of frames, in order. */
  function Pairs(frames: seq<Frame>): seq<(string, seq<byte>)>
    requires forall f <- frames :: f.spec < Count
  {
    if frames == [] then [] else Pairs(frames[..|frames| - 1]) + Yield(frames[|frames| - 1])
  }

  /**
   * A successful add makes `rsvc_tags_each` hand back the value under the
   * name it was added under: the last frame of the new list yields it.
   */
  lemma {:induction false} AddYields(frames: seq<Frame>, spec: nat, value: seq<byte>)
    requires spec < Count && Editable(Entry(spec).v4) && 0 !in value
    requires Add(frames, spec, value).Ok?
    ensures var r := Add(frames, spec, value).value;
      && r != [] && r[|r| - 1].spec < Count
      && (VorbisText(spec), value) in Yield(r[|r| - 1])
  {
    var kind := Entry(spec).v4.value;
    if kind == SequenceNumber {
      NumberEntryAddYields(frames, spec, value);
    } else if kind == SequenceTotal {
      TotalEntryAddYields(frames, spec, value);
    } else {
      TextEntryAddYields(frames, spec, value);
    }
  }

  /** `AddYields` for the number entry of an "n/t" pair. */
  lemma {:induction false} NumberEntryAddYields(frames: seq<Frame>, spec: nat, value: seq<byte>)
    requires spec < Count && Entry(spec).v4 == Some(SequenceNumber) && 0 !in value
    requires Add(frames, spec, value).Ok?
    ensures var r := Add(frames, spec, value).value;
      && r != [] && r[|r| - 1].spec < Count
      && (VorbisText(spec), value) in Yield(r[|r| - 1])
  {
    SequencePaired(spec);
    assert Add(frames, spec, value) == SequenceBothAdd(frames, spec, Some(value), spec + 1, None);
    NumberAddYields(frames, spec, value);
  }

  /** `AddYields` for the total entry of an "n/t" pair, stored in the frame of the number entry before it. */
  lemma {:induction false} TotalEntryAddYields(frames: seq<Frame>, spec: nat, value: seq<byte>)
    requires spec < Count && Entry(spec).v4 == Some(SequenceTotal) && 0 !in value
    requires Add(frames, spec, value).Ok?
    ensures var r := Add(frames, spec, value).value;
      && r != [] && r[|r| - 1].spec < Count
      && (VorbisText(spec), value) in Yield(r[|r| - 1])
  {
    SequencePaired(spec);
    var numberSpec: nat := spec - 1;
    SequencePaired(numberSpec);
    assert numberSpec + 1 == spec;
    assert Add(frames, spec, value) == SequenceBothAdd(frames, numberSpec, None, numberSpec + 1, Some(value));
    TotalAddYields(frames, numberSpec, value);
  }

  /** `AddYields` for a text or flag entry. */
  lemma {:induction false} TextEntryAddYields(frames: seq<Frame>, spec: nat, value: seq<byte>)
    requires spec < Count && Entry(spec).v4 in {Some(Text), Some(Bool)} && 0 !in value
    requires Add(frames, spec, value).Ok?
    ensures var r := Add(frames, spec, value).value;
      && r != [] && r[|r| - 1].spec < Count
      && (VorbisText(spec), value) in Yield(r[|r| - 1])
  {
    var kind := Entry(spec).v4.value;
    assert Add(frames, spec, value) == if kind == Bool then BoolAdd(frames, spec, value) else TextAdd(frames, spec, value);
  }

  /** An "n/t" frame holding the number `n` yields it under its own name. */
  lemma {:induction false} NumberYields(spec: nat, n: seq<byte>, t: Option<seq<byte>>)
    requires spec < Count && Entry(spec).v4 == Some(SequenceNumber) && Part(Some(n))
    ensures (VorbisText(spec), n) in Yield(Frame(spec, Bytes(SequenceJoin(Some(n), t))))
  {
    SplitJoin(Some(n), t);
    var pairs := SequencePairs(spec, SequenceJoin(Some(n), t));
    assert pairs[0] == (VorbisText(spec), n);
  }

  /** An "n/t" frame holding the total `t` yields it under its partner's name. */
  lemma {:induction false} TotalYields(spec: nat, n: Option<seq<byte>>, t: seq<byte>)
    requires spec < Count && Entry(spec).v4 == Some(SequenceNumber) && Part(n)
    ensures (PairedText(spec), t) in Yield(Frame(spec, Bytes(SequenceJoin(n, Some(t)))))
  {
    SplitJoin(n, Some(t));
    var pairs := SequencePairs(spec, SequenceJoin(n, Some(t)));
    assert pairs[|pairs| - 1] == (PairedText(spec), t);
  }

  /** Adding a number stores it in the last frame, which yields it under the number entry's name. */
  lemma {:induction false} NumberAddYields(frames: seq<Frame>, numberSpec: nat, value: seq<byte>)
    requires numberSpec + 1 < Count && Entry(numberSpec).v4 == Some(SequenceNumber)
    requires SequenceBothAdd(frames, numberSpec, Some(value), numberSpec + 1, None).Ok?
    ensures var r := SequenceBothAdd(frames, numberSpec, Some(value), numberSpec + 1, None).value;
      r != [] && r[|r| - 1].spec == numberSpec && (VorbisText(numberSpec), value) in Yield(r[|r| - 1])
  {
    var stored := StoredParts(frames, numberSpec);
    PushedLast(frames, numberSpec, Some(value), numberSpec + 1, None);
    NumberYields(numberSpec, value, stored.1);
  }

  /** Adding a total stores it in the last frame, which yields it under the partner of the number entry. */
  lemma {:induction false} TotalAddYields(frames: seq<Frame>, numberSpec: nat, value: seq<byte>)
    requires numberSpec + 1 < Count && Entry(numberSpec).v4 == Some(SequenceNumber)
    requires Paired(numberSpec) == Some(numberSpec + 1)
    requires SequenceBothAdd(frames, numberSpec, None, numberSpec + 1, Some(value)).Ok?
    ensures var r := SequenceBothAdd(frames, numberSpec, None, numberSpec + 1, Some(value)).value;
      r != [] && r[|r| - 1].spec == numberSpec && (VorbisText(numberSpec + 1), value) in Yield(r[|r| - 1])
  {
    var stored := StoredParts(frames, numberSpec);
    PushedLast(frames, numberSpec, None, numberSpec + 1, Some(value));
    TotalYields(numberSpec, stored.0, value);
  }

  /**
   * A successful add of either part leaves, at the end of the list, the
   * "n/t" frame of the number entry holding the stored parts completed by
   * the given ones; a part that is given was not stored.
   */
  lemma {:induction false} PushedLast(frames: seq<Frame>, numberSpec: nat, numberValue: Option<seq<byte>>,
                   totalSpec: nat, totalValue: Option<seq<byte>>)
    requires numberSpec < Count && totalSpec < Count
    requires SequenceBothAdd(frames, numberSpec, numberValue, totalSpec, totalValue).Ok?
    ensures var stored := StoredParts(frames, numberSpec);
      var r := SequenceBothAdd(frames, numberSpec, numberValue, totalSpec, totalValue).value;
      && r != [] && r[|r| - 1] == Frame(numberSpec, Bytes(SequenceJoin(Or(stored.0, numberValue), Or(stored.1, totalValue))))
      && (numberValue.Some? ==> stored.0.None?) && (totalValue.Some? ==> stored.1.None?)
      && Part(Or(stored.0, numberValue))
  {
    var stored := StoredParts(frames, numberSpec);
    StoredPart(frames, numberSpec);
    var n := Or(stored.0, numberValue);
    var t := Or(stored.1, totalValue);
    match Find(frames, numberSpec)
    case None =>
    case Some(i) =>
      ErasePushed(frames, Frame(numberSpec, Bytes(SequenceJoin(n, t))), i);
  }

  /** `id3_image_add`: a picture frame pushed at the end of the list; pictures are never refused. */
  function ImageAdd(frames: seq<Frame>, spec: nat, kind: byte, mime: seq<byte>, description: seq<byte>,
                    payload: seq<byte>): (r: seq<Frame>)
    ensures |r| == |frames| + 1 && r[..|frames|] == frames
    ensures r[|frames|] == Frame(spec, Picture(kind, mime, description, payload))
  {
    var r := frames + [Frame(spec, Picture(kind, mime, description, payload))];
    assert r[..|frames|] == frames;
    r
  }

  /** The frames not under `spec`, in order: what erasing each frame under it one at a time leaves. */
  function Without(frames: seq<Frame>, spec: nat): (r: seq<Frame>)
    ensures |r| <= |frames| && forall k | 0 <= k < |r| :: r[k].spec != spec
  {
    if frames == [] then []
    else (if frames[0].spec == spec then [] else [frames[0]]) + Without(frames[1..], spec)
  }

  lemma {:induction false} WithoutConcat(a: seq<Frame>, b: seq<Frame>, spec: nat)
    ensures Without(a + b, spec) == Without(a, spec) + Without(b, spec)
  {
    if a != [] {
      WithoutConcat(a[1..], b, spec);
      assert (a + b)[1..] == a[1..] + b;
    } else {
      assert a + b == b;
    }
  }

  /** Erasing the first frame under `spec` leaves the same frames without `spec`. */
  lemma {:induction false} WithoutErase(frames: seq<Frame>, spec: nat, i: nat)
    requires i < |frames| && frames[i].spec == spec
    ensures Without(Erase(frames, i), spec) == Without(frames, spec)
  {
    WithoutConcat(frames[..i], frames[i + 1..], spec);
    assert frames == frames[..i] + ([frames[i]] + frames[i + 1..]);
    WithoutConcat(frames[..i], [frames[i]] + frames[i + 1..], spec);
    WithoutConcat([frames[i]], frames[i + 1..], spec);
  }

  /** With no frame under `spec`, nothing is removed. */
  lemma {:induction false} WithoutNone(frames: seq<Frame>, spec: nat)
    requires Find(frames, spec).None?
    ensures Without(frames, spec) == frames
  {
    if frames != [] {
      assert frames[0].spec != spec;
      WithoutNone(frames[1..], spec);
      assert frames == [frames[0]] + frames[1..];
    }
  }

  /**
   * The pictures `rsvc_tags_image_each` hands to its block: the MIME type
   * and payload of each frame whose entry's ID3v2.4 type yields images,
   * skipping those whose MIME type names no image format (`hasImageFormat`
   * stands for `rsvc_format_with_mime` and the format's `image_info`).
   */
  /** Whether `rsvc_tags_image_each` hands the frame's picture to its block. */
  predicate ShowsImage(f: Frame, hasImageFormat: seq<byte> -> bool)
    requires f.spec < Count
  {
    Entry(f.spec).v4 == Some(Image) && f.body.Picture? && hasImageFormat(f.body.mime)
  }

  function Images(frames: seq<Frame>, hasImageFormat: seq<byte> -> bool): (r: seq<(seq<byte>, seq<byte>)>)
    requires forall f <- frames :: f.spec < Count
    ensures |r| <= |frames|
    ensures forall p <- r :: hasImageFormat(p.0)
  {
    if frames == [] then []
    else
      var rest := Images(frames[..|frames| - 1], hasImageFormat);
      var f := frames[|frames| - 1];
      if ShowsImage(f, hasImageFormat) then rest + [(f.body.mime, f.body.payload)]
      else rest
  }

  /** A picture added under the picture entry is the last one `rsvc_tags_image_each` hands back, when its MIME type names an image format. */
  lemma {:induction false} ImageAddYields(frames: seq<Frame>, kind: byte, mime: seq<byte>, description: seq<byte>, payload: seq<byte>,
                       hasImageFormat: seq<byte> -> bool)
    requires forall f <- frames :: f.spec < Count
    ensures var r := ImageAdd(frames, 66, kind, mime, description, payload);
      && (forall f <- r :: f.spec < Count)
      && Images(r, hasImageFormat) == Images(frames, hasImageFormat) + if hasImageFormat(mime) then [(mime, payload)] else []
  {
    ApicFrame();
    var r := ImageAdd(frames, 66, kind, mime, description, payload);
    assert r[..|r| - 1] == frames;
  }
}

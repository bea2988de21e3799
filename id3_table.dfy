/**
 * The frame table of src/rsvc/id3.c (`id3_frame_specs`) and its three
 * lookups: by four-letter frame name for a given ID3 version, by Vorbis
 * comment name, and the other entry sharing a frame name (the "n/t" pairs
 * TRACKNUMBER/TRACKTOTAL and DISCNUMBER/DISCTOTAL).
 *
 * An entry is identified by its index, as the C code identifies it by its
 * address. The table is written as ten blocks of rows so that a fact about
 * a range of entries only has to look at the rows of that range.
 */
module Id3Table {
  import opened Common

  /**
   * The frame types (`struct id3_frame_type`): which reader, adder,
   * remover, sizer and writer a frame uses. `Text23` only reads (an
   * ID3v2.3 text frame, re-keyed on reading), `Discard` only skips.
   */
  datatype Kind = Text | Bool | SequenceNumber | SequenceTotal | Image | Text23 | Passthru | Discard

  /**
   * `struct id3_frame_spec`: the Vorbis comment name (None where the C
   * table has NULL), the four-letter frame name, and the type used for
   * ID3v2.3 and for ID3v2.4 (None where the C table has NULL).
   */
  datatype Spec = Spec(vorbis: Option<string>, name: string, v3: Option<Kind>, v4: Option<Kind>)

  /** `ID3_FRAME_SPECS_SIZE`. */
  const Count: nat := 73

  /** `id3_frame_specs[i]`. */
  function Entry(i: nat): Spec
    requires i < Count
  {
    if i < 8 then Rows0(i)
    else if i < 16 then Rows1(i)
    else if i < 24 then Rows2(i)
    else if i < 32 then Rows3(i)
    else if i < 40 then Rows4(i)
    else if i < 48 then Rows5(i)
    else if i < 56 then Rows6(i)
    else if i < 64 then Rows7(i)
    else if i < 72 then Rows8(i)
    else Rows9(i)
  }

  function Rows0(i: nat): Spec
    requires 0 <= i < 8
  {
    match i
    case 0 => Spec(Some("GROUPING"), "TIT1", Some(Text23), Some(Text))
    case 1 => Spec(Some("TITLE"), "TIT2", Some(Text23), Some(Text))
    case 2 => Spec(Some("SUBTITLE"), "TIT3", Some(Text23), Some(Text))
    case 3 => Spec(Some("ALBUM"), "TALB", Some(Text23), Some(Text))
    case 4 => Spec(Some("ORIGINALALBUM"), "TOAL", Some(Text23), Some(Text))
    case 5 => Spec(Some("TRACKNUMBER"), "TRCK", Some(Text23), Some(SequenceNumber))
    case 6 => Spec(Some("TRACKTOTAL"), "TRCK", Some(Text23), Some(SequenceTotal))
    case _ => Spec(Some("DISCNUMBER"), "TPOS", Some(Text23), Some(SequenceNumber))
  }

  function Rows1(i: nat): Spec
    requires 8 <= i < 16
  {
    match i
    case 8 => Spec(Some("DISCTOTAL"), "TPOS", Some(Text23), Some(SequenceTotal))
    case 9 => Spec(Some("DISCSUBTITLE"), "TSST", None, Some(Text))
    case 10 => Spec(Some("ISRC"), "TSRC", Some(Text23), Some(Text))
    case 11 => Spec(Some("ARTIST"), "TPE1", Some(Text23), Some(Text))
    case 12 => Spec(Some("ALBUMARTIST"), "TPE2", Some(Text23), Some(Text))
    case 13 => Spec(Some("CONDUCTOR"), "TPE3", Some(Text23), Some(Text))
    case 14 => Spec(Some("REMIXER"), "TPE4", Some(Text23), Some(Text))
    case _ => Spec(Some("ORIGINALARTIST"), "TOPE", Some(Text23), Some(Text))
  }

  function Rows2(i: nat): Spec
    requires 16 <= i < 24
  {
    match i
    case 16 => Spec(Some("LYRICIST"), "TEXT", Some(Text23), Some(Text))
    case 17 => Spec(Some("ORIGINALLYRICIST"), "TOLY", Some(Text23), Some(Text))
    case 18 => Spec(Some("COMPOSER"), "TCOM", Some(Text23), Some(Text))
    case 19 => Spec(None, "TMCL", None, Some(Passthru))
    case 20 => Spec(None, "TIPL", None, Some(Passthru))
    case 21 => Spec(Some("ENCODEDBY"), "TENC", Some(Text23), Some(Text))
    case 22 => Spec(Some("BPM"), "TBPM", Some(Text23), Some(Text))
    case _ => Spec(None, "TLEN", Some(Passthru), Some(Passthru))
  }

  function Rows3(i: nat): Spec
    requires 24 <= i < 32
  {
    match i
    case 24 => Spec(None, "TKEY", Some(Passthru), Some(Passthru))
    case 25 => Spec(None, "TLAN", Some(Passthru), Some(Passthru))
    case 26 => Spec(Some("GENRE"), "TCON", Some(Text23), Some(Text))
    case 27 => Spec(None, "TFLT", Some(Passthru), Some(Passthru))
    case 28 => Spec(None, "TMED", Some(Passthru), Some(Passthru))
    case 29 => Spec(Some("MOOD"), "TMOO", None, Some(Text))
    case 30 => Spec(Some("COPYRIGHT"), "TCOP", Some(Text23), Some(Text))
    case _ => Spec(Some("PRODUCED"), "TPRO", None, Some(Text))
  }

  function Rows4(i: nat): Spec
    requires 32 <= i < 40
  {
    match i
    case 32 => Spec(Some("LABEL"), "TPUB", Some(Text23), Some(Text))
    case 33 => Spec(None, "TOWN", Some(Passthru), Some(Passthru))
    case 34 => Spec(None, "TRSN", Some(Passthru), Some(Passthru))
    case 35 => Spec(None, "TRSO", Some(Passthru), Some(Passthru))
    case 36 => Spec(None, "TOFN", Some(Passthru), Some(Passthru))
    case 37 => Spec(None, "TDLY", Some(Passthru), Some(Passthru))
    case 38 => Spec(None, "TDEN", None, Some(Passthru))
    case _ => Spec(Some("ORIGINALDATE"), "TDOR", None, Some(Text))
  }

  function Rows5(i: nat): Spec
    requires 40 <= i < 48
  {
    match i
    case 40 => Spec(Some("DATE"), "TDRC", None, Some(Text))
    case 41 => Spec(None, "TDRL", None, Some(Passthru))
    case 42 => Spec(None, "TDTG", None, Some(Passthru))
    case 43 => Spec(Some("ENCODER"), "TSSE", Some(Text23), Some(Text))
    case 44 => Spec(Some("ALBUMSORT"), "TSOA", None, Some(Text))
    case 45 => Spec(Some("ARTISTSORT"), "TSOP", None, Some(Text))
    case 46 => Spec(Some("TITLESORT"), "TSOT", None, Some(Text))
    case _ => Spec(Some("ORIGINALDATE"), "TORY", Some(Text23), None)
  }

  function Rows6(i: nat): Spec
    requires 48 <= i < 56
  {
    match i
    case 48 => Spec(Some("DATE"), "TYER", Some(Text23), None)
    case 49 => Spec(None, "TRDA", Some(Discard), None)
    case 50 => Spec(None, "TSIZ", Some(Discard), None)
    case 51 => Spec(Some("ALBUMSORT"), "XSOA", Some(Text23), None)
    case 52 => Spec(Some("ARTISTSORT"), "XSOP", Some(Text23), None)
    case 53 => Spec(Some("TITLESORT"), "XSOT", Some(Text23), None)
    case 54 => Spec(Some("DATE"), "TDAT", Some(Discard), None)
    case _ => Spec(Some("DATE"), "TIME", Some(Discard), None)
  }

  function Rows7(i: nat): Spec
    requires 56 <= i < 64
  {
    match i
    case 56 => Spec(None, "TXXX", Some(Passthru), Some(Passthru))
    case 57 => Spec(None, "WCOM", Some(Passthru), Some(Passthru))
    case 58 => Spec(None, "WCOP", Some(Passthru), Some(Passthru))
    case 59 => Spec(None, "WOAF", Some(Passthru), Some(Passthru))
    case 60 => Spec(None, "WOAR", Some(Passthru), Some(Passthru))
    case 61 => Spec(None, "WOAS", Some(Passthru), Some(Passthru))
    case 62 => Spec(None, "WORS", Some(Passthru), Some(Passthru))
    case _ => Spec(None, "WPAY", Some(Passthru), Some(Passthru))
  }

  function Rows8(i: nat): Spec
    requires 64 <= i < 72
  {
    match i
    case 64 => Spec(None, "WPUB", Some(Passthru), Some(Passthru))
    case 65 => Spec(None, "WXXX", Some(Passthru), Some(Passthru))
    case 66 => Spec(None, "APIC", Some(Image), Some(Image))
    case 67 => Spec(None, "USLT", Some(Passthru), Some(Passthru))
    case 68 => Spec(None, "COMM", Some(Passthru), Some(Passthru))
    case 69 => Spec(None, "USER", Some(Passthru), Some(Passthru))
    case 70 => Spec(None, "PRIV", Some(Passthru), Some(Passthru))
    case _ => Spec(None, "TSIZ", Some(Passthru), Some(Passthru))
  }

  function Rows9(i: nat): Spec
    requires 72 <= i < 73
  {
    match i
    case _ => Spec(Some("COMPILATION"), "TCMP", Some(Bool), Some(Bool))
  }

  /** The type an entry has for an ID3 major version; versions other than 3 and 4 have none. */
  function TypeFor(version: int, i: nat): Option<Kind>
    requires i < Count
  {
    if version == 3 then Entry(i).v3 else if version == 4 then Entry(i).v4 else None
  }

  /** The kinds whose type has an adder and a remover. */
  predicate Editable(k: Option<Kind>)
  {
    k == Some(Text) || k == Some(Bool) || k == Some(SequenceNumber) || k == Some(SequenceTotal)
  }

  /** The first index in `[i, n)` satisfying `p`: the C lookups scan the table from the front. */
  function FirstFrom(p: nat -> bool, n: nat, i: nat): (r: Option<nat>)
    requires i <= n
    ensures r.Some? ==> i <= r.value < n && p(r.value)
    ensures r.Some? ==> forall k: nat | i <= k < r.value :: !p(k)
    ensures r.None? ==> forall k: nat | i <= k < n :: !p(k)
    decreases n - i
  {
    if i == n then None else if p(i) then Some(i) else FirstFrom(p, n, i + 1)
  }

  /** A scan finds the index `j` when nothing before it qualifies. */
  lemma {:induction false} FirstFromIs(p: nat -> bool, n: nat, i: nat, j: nat)
    requires i <= j < n && p(j)
    requires forall k: nat | i <= k < j :: !p(k)
    ensures FirstFrom(p, n, i) == Some(j)
    decreases j - i
  {
    if i < j {
      FirstFromIs(p, n, i + 1, j);
    }
  }

  /** The characters of a byte string, as `memcmp` and `%s` see them. */
  function Chars(bytes: seq<byte>): (r: string)
    ensures |r| == |bytes| && forall k :: 0 <= k < |bytes| ==> r[k] as int == bytes[k]
  {
    seq(|bytes|, k requires 0 <= k < |bytes| => bytes[k] as char)
  }

  /** Whether entry `i` is a candidate of `get_id3_frame_spec`: it has a type for the version and the name matches. */
  predicate Id3Matches(version: int, name: string, i: nat)
  {
    i < Count && TypeFor(version, i).Some? && Entry(i).name == name
  }

  /** The test `get_id3_frame_spec` applies to each entry. */
  function Id3Query(version: int, name: string): nat -> bool
  {
    (k: nat) => Id3Matches(version, name, k)
  }

  /**
   * `get_id3_frame_spec`: the first entry with a type for `version` whose
   * frame name is `name`; otherwise the error names the frame as `%.4s`
   * prints it.
   */
  function Id3Spec(version: int, name: seq<byte>): (r: Result<nat>)
    requires |name| == 4
    ensures r.Ok? ==> r.value < Count && TypeFor(version, r.value).Some? && Entry(r.value).name == Chars(name)
    ensures r.Err? ==> r.msg == CString(name) + ": invalid ID3 frame type"
  {
    match FirstFrom(Id3Query(version, Chars(name)), Count, 0)
    case Some(i) => Ok(i)
    case None => Err(CString(name) + ": invalid ID3 frame type")
  }

  /** Whether entry `i` carries the Vorbis comment name `name`. */
  predicate HasVorbis(name: string, i: nat)
  {
    i < Count && Entry(i).vorbis == Some(name)
  }

  /** The test `get_vorbis_frame_spec` applies to each entry. */
  function VorbisQuery(name: string): nat -> bool
  {
    (k: nat) => HasVorbis(name, k)
  }

  /** `get_vorbis_frame_spec`: the first entry with Vorbis name `name`. */
  function VorbisSpec(name: string): (r: Result<nat>)
    ensures r.Ok? ==> r.value < Count && Entry(r.value).vorbis == Some(name)
    ensures r.Err? ==> r.msg == "no such ID3 tag: " + name
  {
    match FirstFrom(VorbisQuery(name), Count, 0)
    case Some(i) => Ok(i)
    case None => Err("no such ID3 tag: " + name)
  }

  /** Whether entry `i` is another entry with the frame name of `spec`. */
  predicate SharesName(spec: nat, i: nat)
    requires spec < Count
  {
    i < Count && i != spec && Entry(i).name == Entry(spec).name
  }

  /** The test `get_paired_frame_spec` applies to each entry. */
  function PairQuery(spec: nat): nat -> bool
    requires spec < Count
  {
    (k: nat) => SharesName(spec, k)
  }

  /** `get_paired_frame_spec`: the first other entry with the same frame name, if any. */
  function Paired(spec: nat): (r: Option<nat>)
    requires spec < Count
    ensures r.Some? ==> r.value < Count && r.value != spec && Entry(r.value).name == Entry(spec).name
  {
    FirstFrom(PairQuery(spec), Count, 0)
  }

  /** The frame found for a name is the first that qualifies, and the lookup fails exactly when none does. */
  lemma {:induction false} Id3SpecFirst(version: int, name: seq<byte>)
    requires |name| == 4
    ensures Id3Spec(version, name).Ok? ==>
      forall k: nat | k < Id3Spec(version, name).value :: !Id3Matches(version, Chars(name), k)
    ensures Id3Spec(version, name).Err? <==> forall k: nat | k < Count :: !Id3Matches(version, Chars(name), k)
  {
    var q := Id3Query(version, Chars(name));
    match Id3Spec(version, name)
    case Ok(j) =>
      forall k: nat | k < j
        ensures !Id3Matches(version, Chars(name), k)
      {
        assert !q(k);
      }
      assert q(j);
    case Err(_) =>
      forall k: nat | k < Count
        ensures !Id3Matches(version, Chars(name), k)
      {
        assert !q(k);
      }
  }

  /** The entry found for a Vorbis name is the first carrying it, and the lookup fails exactly when none does. */
  lemma {:induction false} VorbisSpecFirst(name: string)
    ensures VorbisSpec(name).Ok? ==> forall k: nat | k < VorbisSpec(name).value :: !HasVorbis(name, k)
    ensures VorbisSpec(name).Err? <==> forall k: nat | k < Count :: !HasVorbis(name, k)
  {
    var q := VorbisQuery(name);
    match VorbisSpec(name)
    case Ok(j) =>
      forall k: nat | k < j
        ensures !HasVorbis(name, k)
      {
        assert !q(k);
      }
      assert q(j);
    case Err(_) =>
      forall k: nat | k < Count
        ensures !HasVorbis(name, k)
      {
        assert !q(k);
      }
  }

  /** The partner found is the first other entry with the frame name, and there is none exactly when no other entry shares it. */
  lemma {:induction false} PairedFirst(spec: nat)
    requires spec < Count
    ensures Paired(spec).Some? ==> forall k: nat | k < Paired(spec).value :: !SharesName(spec, k)
    ensures Paired(spec).None? <==> forall k: nat | k < Count :: !SharesName(spec, k)
  {
    var q := PairQuery(spec);
    match Paired(spec)
    case Some(j) =>
      forall k: nat | k < j
        ensures !SharesName(spec, k)
      {
        assert !q(k);
      }
      assert q(j);
    case None =>
      forall k: nat | k < Count
        ensures !SharesName(spec, k)
      {
        assert !q(k);
      }
  }

  /** Every frame name has four characters. */
  lemma {:induction false} NamesFour(i: nat)
    requires i < Count
    ensures |Entry(i).name| == 4
  {
  }

  /** Entries before the ID3v2.3-only block that have a Vorbis name can be edited through it. */
  lemma {:induction false} EditableBefore(j: nat)
    requires j < 47 && Entry(j).vorbis.Some?
    ensures Editable(Entry(j).v4)
  {
  }

  /** Entries after the ID3v2.3-only block that have a Vorbis name can be edited through it. */
  lemma {:induction false} EditableAfter(j: nat)
    requires 55 < j < Count && Entry(j).vorbis.Some?
    ensures Editable(Entry(j).v4)
  {
  }

  /** Each ID3v2.3-only entry with a Vorbis name repeats the name of an earlier ID3v2.4 entry. */
  lemma {:induction false} Shadowed(j: nat) returns (k: nat)
    requires 47 <= j <= 55 && Entry(j).vorbis.Some?
    ensures k < j && Entry(k).vorbis == Entry(j).vorbis
  {
    k := if j == 47 then 39 else if j == 48 || j >= 54 then 40 else if j == 51 then 44 else if j == 52 then 45 else 46;
  }

  /**
   * A Vorbis name always resolves to an entry whose ID3v2.4 type has an
   * adder and a remover, so `rsvc_id3_tags_add` and
   * `rsvc_id3_tags_remove` never call through a missing function.
   */
  lemma {:induction false} VorbisSpecEditable(name: string)
    requires VorbisSpec(name).Ok?
    ensures Editable(Entry(VorbisSpec(name).value).v4)
  {
    var j := VorbisSpec(name).value;
    if j < 47 {
      EditableBefore(j);
    } else if j > 55 {
      EditableAfter(j);
    } else if !Editable(Entry(j).v4) {
      var k := Shadowed(j);
      VorbisSpecFirst(name);
      assert HasVorbis(name, k);
      assert false;
    }
  }

  /** Every ID3v2.3 text entry has a Vorbis name. */
  lemma {:induction false} Text23Named(j: nat)
    requires j < Count && Entry(j).v3 == Some(Text23)
    ensures Entry(j).vorbis.Some?
  {
  }

  /**
   * `id3_text_read_2_3` re-keys a frame by its Vorbis name: the lookup
   * always succeeds, lands on an entry no later than the frame's own, and
   * that entry is written back as an ID3v2.4 frame that can be edited.
   */
  lemma {:induction false} Text23Rekeys(j: nat)
    requires j < Count && Entry(j).v3 == Some(Text23)
    ensures Entry(j).vorbis.Some? && VorbisSpec(Entry(j).vorbis.value).Ok?
    ensures VorbisSpec(Entry(j).vorbis.value).value <= j
    ensures Editable(Entry(VorbisSpec(Entry(j).vorbis.value).value).v4)
  {
    Text23Named(j);
    var name := Entry(j).vorbis.value;
    VorbisSpecFirst(name);
    assert HasVorbis(name, j);
    VorbisSpecEditable(name);
  }

  /** The ID3v2.3 types that are not re-keyed are the same for ID3v2.4, so frames read from ID3v2.3 can be written. */
  lemma {:induction false} V3KindsWritable(j: nat)
    requires j < Count && Entry(j).v3 in {Some(Passthru), Some(Image), Some(Bool)}
    ensures Entry(j).v4 == Entry(j).v3
  {
  }

  /** Every frame name starts with a capital letter. */
  lemma {:induction false} NameLetter(i: nat)
    requires i < Count
    ensures |Entry(i).name| == 4 && 'A' <= Entry(i).name[0] <= 'Z' && NameBytes(i)[0] != 0
  {
  }

  /** Only ID3v2.3 frames are read as re-keyed text. */
  lemma {:induction false} Text23OnlyV3(version: int, j: nat)
    requires j < Count && TypeFor(version, j) == Some(Text23)
    ensures version == 3 && Entry(j).v3 == Some(Text23)
  {
  }

  /** The bytes `memcpy` copies out of a frame name. */
  function NameBytes(i: nat): (r: seq<byte>)
    requires i < Count
    ensures |r| == 4
  {
    NamesFour(i);
    seq(4, k requires 0 <= k < 4 => (Entry(i).name[k] as int) % 256)
  }

  /** Only the four "n/t" entries have the sequence types. */
  lemma {:induction false} SequenceEntries(j: nat)
    requires j < Count && Entry(j).v4 in {Some(SequenceNumber), Some(SequenceTotal)}
    ensures 5 <= j <= 8
    ensures Entry(j).v4 == Some(SequenceNumber) <==> j == 5 || j == 7
  {
  }

  /**
   * The "n/t" entries come in pairs sharing a frame name: the partner of a
   * number entry is the total entry just after it, and the partner of a
   * total entry is the number entry just before it.
   */
  lemma {:induction false} SequencePaired(j: nat)
    requires j < Count && Entry(j).v4 in {Some(SequenceNumber), Some(SequenceTotal)}
    ensures Entry(j).v4 == Some(SequenceNumber) ==>
      Paired(j) == Some(j + 1) && Entry(j + 1).v4 == Some(SequenceTotal)
    ensures Entry(j).v4 == Some(SequenceTotal) ==>
      j > 0 && Paired(j) == Some(j - 1) && Entry(j - 1).v4 == Some(SequenceNumber)
  {
    SequenceEntries(j);
    var partner: nat := if j == 5 || j == 7 then j + 1 else j - 1;
    var first: nat := if j <= 6 then 5 else 7;
    forall k: nat | k < first
      ensures !PairQuery(j)(k)
    {
      assert !SharesName(j, k);
    }
    assert PairQuery(j)(partner);
    FirstFromIs(PairQuery(j), Count, 0, partner);
  }

  /** An ID3v2.3 "TYER" frame is found at the v2.3-only year entry. */
  lemma {:induction false} TyerFrame()
    ensures Id3Spec(3, [0x54, 0x59, 0x45, 0x52]) == Ok(48) && Entry(48).vorbis == Some("DATE")
  {
    var q := Id3Query(3, "TYER");
    assert Chars([0x54, 0x59, 0x45, 0x52]) == "TYER";
    forall k: nat | k < 48
      ensures !q(k)
    {
      assert !Id3Matches(3, "TYER", k);
    }
    FirstFromIs(q, Count, 0, 48);
  }

  /** The Vorbis name DATE resolves to the ID3v2.4 "TDRC" text entry. */
  lemma {:induction false} DateIsTdrc()
    ensures VorbisSpec("DATE") == Ok(40) && Entry(40).name == "TDRC" && Entry(40).v4 == Some(Text)
  {
    var q := VorbisQuery("DATE");
    forall k: nat | k < 40
      ensures !q(k)
    {
      assert !HasVorbis("DATE", k);
    }
    FirstFromIs(q, Count, 0, 40);
  }

  /** The picture entry: "APIC" is found for ID3v2.4 at the entry whose frames hold pictures. */
  lemma {:induction false} ApicFrame()
    ensures Id3Spec(4, [0x41, 0x50, 0x49, 0x43]) == Ok(66) && Entry(66).v4 == Some(Image)
  {
    var q := Id3Query(4, "APIC");
    assert Chars([0x41, 0x50, 0x49, 0x43]) == "APIC";
    forall k: nat | k < 66
      ensures !q(k)
    {
      assert !Id3Matches(4, "APIC", k);
    }
    FirstFromIs(q, Count, 0, 66);
  }
}

/**
 * The CD layout of src/rsvc/cd.c and src/rsvc/cd_darwin.c: the table of
 * contents read from the drive becomes sessions and tracks, each track's
 * sector range is closed by the next track or the session's lead-out, and
 * the MusicBrainz disc-ID offsets are laid out per session. The drive
 * itself (the ioctls, `CDConvertMSFToLBA`, `discid_put`) is passed in as
 * values and functions.
 */
module Cd {
  import opened Common

  /** A TOC position in minutes, seconds and frames. */
  datatype Msf = Msf(minute: nat, second: nat, frame: nat)

  /** One `CDTOCDescriptor`: session, ADR and CONTROL nibbles, point and position. */
  datatype Descriptor = Descriptor(session: nat, adr: nat, control: nat, point: nat, p: Msf)

  /** The `CDTOC` header fields used and its descriptors. */
  datatype Toc = Toc(sessionFirst: nat, sessionLast: nat, descriptors: seq<Descriptor>)

  datatype TrackType = Audio | Data

  /** The CONTROL nibble of a track, decoded. */
  datatype Control = Control(preEmphasis: bool, copyPermitted: bool, kind: TrackType, channels: nat)

  /** `struct rsvc_cd_track`; `session` is the index of the track's session. */
  datatype Track = Track(number: nat, session: int, kind: TrackType, sectorBegin: nat, sectorEnd: nat,
                         channels: nat, preEmphasis: bool, copyPermitted: bool, isrc: string)

  /**
   * `struct rsvc_cd_session`: `trackBegin` and `trackEnd` are indices into
   * the disc's tracks, None while no A0/A1 descriptor has set them.
   */
  datatype Session = Session(number: nat, trackBegin: Option<int>, trackEnd: Option<int>, leadOut: nat)

  /** `struct rsvc_cd`, without its queue and descriptor. */
  datatype Disc = Disc(path: string, mcn: string, sessions: seq<Session>, tracks: seq<Track>)

  const POINT_FIRST_TRACK: nat := 0xa0
  const POINT_LAST_TRACK: nat := 0xa1
  const POINT_LEAD_OUT: nat := 0xa2
  /** Sectors of lead-in that disc IDs count before the first track. */
  const LEAD_IN: nat := 150
  /** `kCDSectorSizeCDDA`: bytes of audio in one sector. */
  const SECTOR_SIZE: nat := 2352

  /** A string the drive reports, or the empty string the field starts as when the read fails. */
  function OrEmpty(read: Option<string>): (r: string)
    ensures read.Some? ==> r == read.value
    ensures read.None? ==> r == ""
  {
    match read
    case Some(v) => v
    case None => ""
  }

  /** `is_normal_track`: a track descriptor, rather than a session pointer. */
  predicate IsNormalTrack(d: Descriptor)
  {
    d.point < 100 && d.adr == 1
  }

  /** The CONTROL bits: 0x01 pre-emphasis, 0x02 copy permitted, 0x04 data, 0x08 four channels. */
  function Decoded(control: nat): (r: Control)
    ensures r.channels == 2 || r.channels == 4
  {
    Control(control % 2 == 1, (control / 2) % 2 == 1,
            if (control / 4) % 2 == 1 then Data else Audio,
            if (control / 8) % 2 == 1 then 4 else 2)
  }

  /** The CONTROL nibble that decodes to `c`. */
  function Encoded(c: Control): (r: nat)
    ensures r < 16
  {
    (if c.preEmphasis then 1 else 0) + (if c.copyPermitted then 2 else 0)
    + (if c.kind == Data then 4 else 0) + (if c.channels == 4 then 8 else 0)
  }

  /** Decoding loses nothing of a 4-bit CONTROL field. */
  lemma {:induction false} ControlRoundTrip(control: nat)
    requires control < 16
    ensures Encoded(Decoded(control)) == control
  {
    var b0, b1, b2, b3 := control % 2, (control / 2) % 2, (control / 4) % 2, (control / 8) % 2;
    assert control == b0 + 2 * b1 + 4 * b2 + 8 * b3;
  }

  /** Every decoded control comes from the nibble `Encoded` gives. */
  lemma {:induction false} ControlDecodes(c: Control)
    requires c.channels == 2 || c.channels == 4
    ensures Decoded(Encoded(c)) == c
  {
  }

  // ---------------------------------------------------------------------
  // The counting pass: ntracks and track_map

  /** The number of track descriptors. */
  function TrackCount(ds: seq<Descriptor>): nat
  {
    if ds == [] then 0
    else TrackCount(ds[..|ds| - 1]) + (if IsNormalTrack(ds[|ds| - 1]) then 1 else 0)
  }

  /**
   * `track_map`: for each point seen, the index of its track, or -1 for a
   * descriptor that is not a track. A later descriptor with the same point
   * overwrites an earlier one.
   */
  function TrackMap(ds: seq<Descriptor>): map<nat, int>
  {
    if ds == [] then map[]
    else
      var d := ds[|ds| - 1];
      TrackMap(ds[..|ds| - 1])[d.point := if IsNormalTrack(d) then TrackCount(ds[..|ds| - 1]) as int else -1]
  }

  /** An entry of `track_map`, which starts out all zero. */
  function MapAt(m: map<nat, int>, k: nat): int
  {
    if k in m then m[k] else 0
  }

  /** The track descriptors, in order. */
  function Normal(ds: seq<Descriptor>): (r: seq<Descriptor>)
    ensures |r| == TrackCount(ds)
    ensures forall k :: 0 <= k < |r| ==> IsNormalTrack(r[k])
  {
    if ds == [] then []
    else Normal(ds[..|ds| - 1]) + (if IsNormalTrack(ds[|ds| - 1]) then [ds[|ds| - 1]] else [])
  }

  lemma {:induction false} NormalPrefix(ds: seq<Descriptor>, j: nat)
    requires j <= |ds|
    ensures TrackCount(ds[..j]) <= TrackCount(ds)
    ensures Normal(ds[..j]) == Normal(ds)[..TrackCount(ds[..j])]
    decreases |ds|
  {
    if j < |ds| {
      assert ds[..|ds| - 1][..j] == ds[..j];
      NormalPrefix(ds[..|ds| - 1], j);
    } else {
      assert ds[..j] == ds;
    }
  }

  /**
   * `track_map` points at the right track: when the `j`-th descriptor is a
   * track and no later descriptor has its point, the map sends the point to
   * that track's index among the track descriptors.
   */
  lemma {:induction false} TrackMapFindsTrack(ds: seq<Descriptor>, j: nat)
    requires j < |ds| && IsNormalTrack(ds[j])
    requires forall k :: j < k < |ds| ==> ds[k].point != ds[j].point
    ensures MapAt(TrackMap(ds), ds[j].point) == TrackCount(ds[..j])
    ensures TrackCount(ds[..j]) < TrackCount(ds) && Normal(ds)[TrackCount(ds[..j])] == ds[j]
    decreases |ds|
  {
    if j < |ds| - 1 {
      assert ds[..|ds| - 1][..j] == ds[..j];
      TrackMapFindsTrack(ds[..|ds| - 1], j);
    } else {
      assert ds[..|ds| - 1] == ds[..j];
    }
    NormalPrefix(ds, j + 1);
    assert ds[..j + 1][..j] == ds[..j];
    assert Normal(ds[..j + 1]) == Normal(ds[..j]) + [ds[j]];
  }

  /**
   * The counting loop of `rsvc_cd_create`: counts the track descriptors
   * and records each point in `track_map`.
   */
  method CountTracks(ds: seq<Descriptor>) returns (ntracks: nat, trackMap: map<nat, int>)
    ensures ntracks == TrackCount(ds) && trackMap == TrackMap(ds)
  {
    ntracks, trackMap := 0, map[];
    for i := 0 to |ds|
      invariant ntracks == TrackCount(ds[..i]) && trackMap == TrackMap(ds[..i])
    {
      assert ds[..i + 1][..i] == ds[..i];
      if IsNormalTrack(ds[i]) {
        trackMap := trackMap[ds[i].point := ntracks as int];
        ntracks := ntracks + 1;
      } else {
        trackMap := trackMap[ds[i].point := -1];
      }
    }
    assert ds[..|ds|] == ds;
  }

  // ---------------------------------------------------------------------
  // The loading pass: tracks and session pointers

  /** A descriptor that sets one of its session's fields: A0, A1 or A2. */
  predicate Placing(d: Descriptor)
  {
    !IsNormalTrack(d) && d.adr == 1 && (d.point == POINT_FIRST_TRACK || d.point == POINT_LAST_TRACK || d.point == POINT_LEAD_OUT)
  }

  /** Every A0/A1/A2 descriptor names one of the TOC's sessions. */
  predicate SessionsNamed(ds: seq<Descriptor>, first: nat, nsessions: nat)
  {
    forall k :: 0 <= k < |ds| ==> Placing(ds[k]) ==> first <= ds[k].session < first + nsessions
  }

  /** The track a track descriptor describes; its end is set later. */
  function TrackFrom(d: Descriptor, first: nat, lba: Msf -> nat, isrc: Option<string>): (t: Track)
    ensures t.number == d.point && t.sectorBegin == lba(d.p) && t.sectorEnd == 0
    ensures t.isrc == OrEmpty(isrc)
    ensures Control(t.preEmphasis, t.copyPermitted, t.kind, t.channels) == Decoded(d.control)
  {
    var c := Decoded(d.control);
    Track(d.point, d.session as int - first as int, c.kind, lba(d.p), 0, c.channels, c.preEmphasis, c.copyPermitted, OrEmpty(isrc))
  }

  /** The session field an A0 (first track), A1 (last track) or A2 (lead-out) descriptor sets. */
  function Placed(s: Session, d: Descriptor, trackMap: map<nat, int>, lba: Msf -> nat): (r: Session)
    requires Placing(d)
    ensures r.number == s.number
    ensures d.point == POINT_FIRST_TRACK ==> r == s.(trackBegin := Some(MapAt(trackMap, d.p.minute)))
    ensures d.point == POINT_LAST_TRACK ==> r == s.(trackEnd := Some(MapAt(trackMap, d.p.minute) + 1))
    ensures d.point == POINT_LEAD_OUT ==> r == s.(leadOut := lba(d.p))
  {
    if d.point == POINT_FIRST_TRACK then s.(trackBegin := Some(MapAt(trackMap, d.p.minute)))
    else if d.point == POINT_LAST_TRACK then s.(trackEnd := Some(MapAt(trackMap, d.p.minute) + 1))
    else s.(leadOut := lba(d.p))
  }

  /**
   * The tracks and sessions after the loading loop has seen `ds`: track
   * descriptors append a track, A0/A1/A2 descriptors patch their session.
   * `isrcOf` is what the ISRC read reports for a track number, None when it fails.
   */
  function Loaded(ds: seq<Descriptor>, trackMap: map<nat, int>, first: nat, sessions: seq<Session>,
                  lba: Msf -> nat, isrcOf: nat -> Option<string>): (r: (seq<Track>, seq<Session>))
    requires SessionsNamed(ds, first, |sessions|)
    ensures |r.1| == |sessions| && |r.0| == TrackCount(ds)
    ensures forall k :: 0 <= k < |sessions| ==> r.1[k].number == sessions[k].number
  {
    if ds == [] then ([], sessions)
    else
      var d := ds[|ds| - 1];
      var before := Loaded(ds[..|ds| - 1], trackMap, first, sessions, lba, isrcOf);
      if IsNormalTrack(d) then (before.0 + [TrackFrom(d, first, lba, isrcOf(d.point))], before.1)
      else if Placing(d) then
        var i := d.session - first;
        (before.0, before.1[i := Placed(before.1[i], d, trackMap, lba)])
      else before
  }

  /** The loaded tracks are the track descriptors, in order. */
  lemma {:induction false} LoadedTracks(ds: seq<Descriptor>, trackMap: map<nat, int>, first: nat, sessions: seq<Session>,
                                        lba: Msf -> nat, isrcOf: nat -> Option<string>)
    requires SessionsNamed(ds, first, |sessions|)
    ensures var ts := Loaded(ds, trackMap, first, sessions, lba, isrcOf).0;
      forall k :: 0 <= k < |ts| ==> ts[k] == TrackFrom(Normal(ds)[k], first, lba, isrcOf(Normal(ds)[k].point))
  {
    if ds != [] {
      LoadedTracks(ds[..|ds| - 1], trackMap, first, sessions, lba, isrcOf);
    }
  }

  /** The sessions as `calloc` leaves them, numbered from the TOC's first session. */
  function FreshSessions(first: nat, n: nat): (r: seq<Session>)
    ensures |r| == n && forall k :: 0 <= k < n ==> r[k].number == first + k
  {
    seq(n, k requires 0 <= k < n => Session(first + k, None, None, 0))
  }

  /** The loading loop of `rsvc_cd_create`. */
  method LoadTracks(ds: seq<Descriptor>, trackMap: map<nat, int>, first: nat, sessions: seq<Session>,
                    lba: Msf -> nat, isrcOf: nat -> Option<string>) returns (tracks: seq<Track>, placed: seq<Session>)
    requires SessionsNamed(ds, first, |sessions|)
    ensures (tracks, placed) == Loaded(ds, trackMap, first, sessions, lba, isrcOf)
  {
    tracks, placed := [], sessions;
    for i := 0 to |ds|
      invariant SessionsNamed(ds[..i], first, |sessions|)
      invariant (tracks, placed) == Loaded(ds[..i], trackMap, first, sessions, lba, isrcOf)
    {
      assert ds[..i + 1][..i] == ds[..i];
      var d := ds[i];
      if IsNormalTrack(d) {
        tracks := tracks + [TrackFrom(d, first, lba, isrcOf(d.point))];
      } else if Placing(d) {
        var k := d.session - first;
        placed := placed[k := Placed(placed[k], d, trackMap, lba)];
      }
    }
    assert ds[..|ds|] == ds;
  }

  // ---------------------------------------------------------------------
  // Sector ends

  /** The first loop over the tracks: each track ends where the next one begins. */
  function Chained(ts: seq<Track>): (r: seq<Track>)
    requires |ts| > 0
    ensures |r| == |ts| && r[|ts| - 1] == ts[|ts| - 1]
    ensures forall i :: 0 <= i < |ts| - 1 ==> r[i] == ts[i].(sectorEnd := ts[i + 1].sectorBegin)
  {
    seq(|ts|, i requires 0 <= i < |ts| => if i < |ts| - 1 then ts[i].(sectorEnd := ts[i + 1].sectorBegin) else ts[i])
  }

  /** `for (i = 0; i < ntracks - 1; ++i) tracks[i].sector_end = tracks[i + 1].sector_begin`. */
  method ChainEnds(tracks: array<Track>)
    requires tracks.Length > 0
    modifies tracks
    ensures tracks[..] == Chained(old(tracks[..]))
  {
    ghost var before := tracks[..];
    for i := 0 to tracks.Length - 1
      invariant forall k :: 0 <= k < i ==> tracks[k] == before[k].(sectorEnd := before[k + 1].sectorBegin)
      invariant forall k :: i <= k < tracks.Length ==> tracks[k] == before[k]
    {
      tracks[i] := tracks[i].(sectorEnd := tracks[i + 1].sectorBegin);
    }
  }

  /** Every session has its first and last track set, within the tracks. */
  predicate Bounded(ss: seq<Session>, ntracks: nat)
  {
    forall k :: 0 <= k < |ss| ==> Within(ss[k], ntracks)
  }

  /** The session's first and last track are set, within the tracks. */
  predicate Within(s: Session, ntracks: nat)
  {
    s.trackBegin.Some? && s.trackEnd.Some? && 0 <= s.trackBegin.value <= s.trackEnd.value && 1 <= s.trackEnd.value <= ntracks
  }

  /** The second loop: the last track of each session, in session order, ends at the lead-out. */
  function LeadOuts(ts: seq<Track>, ss: seq<Session>): (r: seq<Track>)
    requires Bounded(ss, |ts|)
    ensures |r| == |ts|
    ensures forall i :: 0 <= i < |ts| ==> r[i].number == ts[i].number && r[i].sectorBegin == ts[i].sectorBegin
  {
    if ss == [] then ts
    else
      var s := ss[|ss| - 1];
      var before := LeadOuts(ts, ss[..|ss| - 1]);
      before[s.trackEnd.value - 1 := before[s.trackEnd.value - 1].(sectorEnd := s.leadOut)]
  }

  /** A track that is the last of no session keeps its end through the lead-out loop. */
  lemma {:induction false} LeadOutsUntouched(ts: seq<Track>, ss: seq<Session>, i: nat)
    requires Bounded(ss, |ts|) && i < |ts|
    requires forall k :: 0 <= k < |ss| ==> ss[k].trackEnd.value - 1 != i
    ensures LeadOuts(ts, ss)[i] == ts[i]
  {
    if ss != [] {
      var init := ss[..|ss| - 1];
      assert Bounded(init, |ts|);
      LeadOutsUntouched(ts, init, i);
    }
  }

  /** The last track of session `k` ends at its lead-out, unless a later session ends on the same track. */
  lemma {:induction false} LeadOutsLatest(ts: seq<Track>, ss: seq<Session>, k: nat)
    requires Bounded(ss, |ts|) && k < |ss|
    requires forall l :: k < l < |ss| ==> ss[l].trackEnd.value != ss[k].trackEnd.value
    ensures LeadOuts(ts, ss)[ss[k].trackEnd.value - 1].sectorEnd == ss[k].leadOut
  {
    if k < |ss| - 1 {
      var init := ss[..|ss| - 1];
      assert Bounded(init, |ts|);
      assert init[k] == ss[k];
      LeadOutsLatest(ts, init, k);
    }
  }

  /** `for (i = 0; i < nsessions; ++i) (sessions[i].track_end - 1)->sector_end = sessions[i].lead_out`. */
  method SetLeadOuts(tracks: array<Track>, ss: seq<Session>)
    requires Bounded(ss, tracks.Length)
    modifies tracks
    ensures tracks[..] == LeadOuts(old(tracks[..]), ss)
  {
    ghost var before := tracks[..];
    for i := 0 to |ss|
      invariant Bounded(ss[..i], tracks.Length)
      invariant tracks[..] == LeadOuts(before, ss[..i])
    {
      assert ss[..i + 1][..i] == ss[..i];
      var last := ss[i].trackEnd.value - 1;
      tracks[last] := tracks[last].(sectorEnd := ss[i].leadOut);
    }
    assert ss[..|ss|] == ss;
  }

  // ---------------------------------------------------------------------
  // Disc IDs

  /**
   * The offsets handed to `discid_put`: the end of the session's last track
   * (the lead-out) plus 150, then each track's first sector plus 150.
   */
  function Offsets(ts: seq<Track>, s: Session): (r: seq<int>)
    requires Within(s, |ts|)
    ensures |r| == 1 + s.trackEnd.value - s.trackBegin.value
    ensures r[0] == ts[s.trackEnd.value - 1].sectorEnd + LEAD_IN
    ensures forall k :: 1 <= k < |r| ==> r[k] == ts[s.trackBegin.value + k - 1].sectorBegin + LEAD_IN
  {
    var b, e := s.trackBegin.value, s.trackEnd.value;
    [ts[e - 1].sectorEnd + LEAD_IN] + seq(e - b, k requires 0 <= k < e - b => ts[b + k].sectorBegin + LEAD_IN)
  }

  /** The offsets loop: one entry for the lead-out, then one per track of the session. */
  method DiscIdOffsets(tracks: seq<Track>, s: Session) returns (offsets: seq<int>)
    requires Within(s, |tracks|)
    ensures offsets == Offsets(tracks, s)
  {
    var b, e := s.trackBegin.value, s.trackEnd.value;
    offsets := [tracks[e - 1].sectorEnd + LEAD_IN];
    var t := b;
    while t != e
      invariant b <= t <= e && |offsets| == 1 + t - b && offsets[0] == tracks[e - 1].sectorEnd + LEAD_IN
      invariant forall k :: 1 <= k < |offsets| ==> offsets[k] == tracks[b + k - 1].sectorBegin + LEAD_IN
    {
      offsets := offsets + [tracks[t].sectorBegin + LEAD_IN];
      t := t + 1;
    }
    assert offsets == Offsets(tracks, s);
  }

  // ---------------------------------------------------------------------
  // rsvc_cd_create

  /** `(sessionLast - sessionFirst) + 1`. */
  function SessionCount(toc: Toc): (n: nat)
    requires toc.sessionFirst <= toc.sessionLast
    ensures n >= 1
  {
    toc.sessionLast - toc.sessionFirst + 1
  }

  /** The tracks and sessions after the loading pass over the whole TOC. */
  function Layout(toc: Toc, lba: Msf -> nat, isrcOf: nat -> Option<string>): (r: (seq<Track>, seq<Session>))
    requires toc.sessionFirst <= toc.sessionLast
    requires SessionsNamed(toc.descriptors, toc.sessionFirst, SessionCount(toc))
    ensures |r.1| == SessionCount(toc) && |r.0| == TrackCount(toc.descriptors)
  {
    Loaded(toc.descriptors, TrackMap(toc.descriptors), toc.sessionFirst,
           FreshSessions(toc.sessionFirst, SessionCount(toc)), lba, isrcOf)
  }

  /**
   * What `rsvc_cd_create` takes for granted of the TOC: at least one
   * session, A0/A1/A2 descriptors naming existing sessions, at least one
   * track (the sector-end loop runs to `ntracks - 1`), and every session's
   * first and last track set and within the tracks (the lead-out and
   * disc-ID loops follow those pointers).
   */
  predicate Readable(toc: Toc, lba: Msf -> nat, isrcOf: nat -> Option<string>)
  {
    toc.sessionFirst <= toc.sessionLast
    && SessionsNamed(toc.descriptors, toc.sessionFirst, SessionCount(toc))
    && TrackCount(toc.descriptors) > 0
    && Bounded(Layout(toc, lba, isrcOf).1, TrackCount(toc.descriptors))
  }

  /** The disc `rsvc_cd_create` builds from a TOC, before the disc IDs. */
  function Built(path: string, mcn: string, toc: Toc, lba: Msf -> nat, isrcOf: nat -> Option<string>): (d: Disc)
    requires Readable(toc, lba, isrcOf)
    ensures |d.tracks| == TrackCount(toc.descriptors) && |d.sessions| == SessionCount(toc)
    ensures Bounded(d.sessions, |d.tracks|)
  {
    var (ts, ss) := Layout(toc, lba, isrcOf);
    Disc(path, mcn, ss, LeadOuts(Chained(ts), ss))
  }

  /** `discid_put` accepts the offsets of every session. */
  predicate AllAccepted(d: Disc, put: seq<int> -> bool)
    requires Bounded(d.sessions, |d.tracks|)
  {
    forall k :: 0 <= k < |d.sessions| ==> put(Offsets(d.tracks, d.sessions[k]))
  }

  /**
   * `rsvc_cd_create` of cd.c: `read` is the TOC, or the system error of
   * opening the device or reading its TOC; `mcnRead` and `isrcOf` are the
   * MCN and ISRC reads, None where they fail; `put` is `discid_put`. The
   * first session whose disc ID is refused ends the call with an error.
   */
  function Created(path: string, read: Result<Toc>, mcnRead: Option<string>, lba: Msf -> nat,
                   isrcOf: nat -> Option<string>, put: seq<int> -> bool): (r: Result<Disc>)
    requires read.Ok? ==> Readable(read.value, lba, isrcOf)
    ensures read.Err? ==> r == Err(path + ": " + read.msg)
    ensures read.Ok? ==> (r.Ok? <==> AllAccepted(Built(path, OrEmpty(mcnRead), read.value, lba, isrcOf), put))
    ensures read.Ok? && r.Err? ==> r.msg == path + ": discid failure"
    ensures r.Ok? ==> r.value == Built(path, OrEmpty(mcnRead), read.value, lba, isrcOf) && r.value.mcn == OrEmpty(mcnRead)
  {
    match read
    case Err(m) => Err(path + ": " + m)
    case Ok(toc) =>
      var d := Built(path, OrEmpty(mcnRead), toc, lba, isrcOf);
      if AllAccepted(d, put) then Ok(d) else Err(path + ": discid failure")
  }

  /** The loaded tracks carry the number and first sector of the track descriptors. */
  lemma {:induction false} LayoutBegins(toc: Toc, lba: Msf -> nat, isrcOf: nat -> Option<string>)
    requires toc.sessionFirst <= toc.sessionLast
    requires SessionsNamed(toc.descriptors, toc.sessionFirst, SessionCount(toc))
    ensures var ts := Layout(toc, lba, isrcOf).0;
      forall j :: 0 <= j < |ts| ==>
        ts[j].number == Normal(toc.descriptors)[j].point && ts[j].sectorBegin == lba(Normal(toc.descriptors)[j].p)
  {
    LoadedTracks(toc.descriptors, TrackMap(toc.descriptors), toc.sessionFirst,
                 FreshSessions(toc.sessionFirst, SessionCount(toc)), lba, isrcOf);
  }

  /** Neither sector-end loop moves a track's number or first sector. */
  lemma {:induction false} BeginsKept(ts: seq<Track>, ss: seq<Session>)
    requires |ts| > 0 && Bounded(ss, |ts|)
    ensures var ends := LeadOuts(Chained(ts), ss);
      forall t :: 0 <= t < |ts| ==> ends[t].number == ts[t].number && ends[t].sectorBegin == ts[t].sectorBegin
  {
    var c := Chained(ts);
    forall t | 0 <= t < |ts|
      ensures c[t].number == ts[t].number && c[t].sectorBegin == ts[t].sectorBegin
    {
      if t < |ts| - 1 {
        assert c[t] == ts[t].(sectorEnd := ts[t + 1].sectorBegin);
      }
    }
  }

  /** The tracks of a built disc are the track descriptors: number and first sector. */
  lemma {:induction false} BuiltBegins(path: string, mcn: string, toc: Toc, lba: Msf -> nat, isrcOf: nat -> Option<string>)
    requires Readable(toc, lba, isrcOf)
    ensures var ts := Built(path, mcn, toc, lba, isrcOf).tracks;
      forall j :: 0 <= j < |ts| ==>
        ts[j].number == Normal(toc.descriptors)[j].point && ts[j].sectorBegin == lba(Normal(toc.descriptors)[j].p)
  {
    var lay := Layout(toc, lba, isrcOf);
    LayoutBegins(toc, lba, isrcOf);
    BeginsKept(lay.0, lay.1);
  }

  /** A track that is the last of no session ends where the next track begins. */
  lemma {:induction false} BuiltChain(path: string, mcn: string, toc: Toc, lba: Msf -> nat, isrcOf: nat -> Option<string>, i: nat)
    requires Readable(toc, lba, isrcOf)
    requires i + 1 < TrackCount(toc.descriptors)
    requires var ss := Built(path, mcn, toc, lba, isrcOf).sessions;
      forall k :: 0 <= k < |ss| ==> ss[k].trackEnd.value - 1 != i
    ensures var d := Built(path, mcn, toc, lba, isrcOf);
      d.tracks[i].sectorEnd == d.tracks[i + 1].sectorBegin
  {
    var lay := Layout(toc, lba, isrcOf);
    LeadOutsUntouched(Chained(lay.0), lay.1, i);
    ChainAt(lay.0, lay.1, i);
  }

  /** A track that the lead-out loop leaves alone keeps the end the first loop gave it. */
  lemma {:induction false} ChainAt(ts: seq<Track>, ss: seq<Session>, i: nat)
    requires |ts| > 0 && Bounded(ss, |ts|) && i + 1 < |ts|
    requires LeadOuts(Chained(ts), ss)[i] == Chained(ts)[i]
    ensures LeadOuts(Chained(ts), ss)[i].sectorEnd == LeadOuts(Chained(ts), ss)[i + 1].sectorBegin
  {
  }

  /**
   * The last track of a session ends at the session's lead-out, unless a
   * later session ends on the same track.
   */
  lemma {:induction false} BuiltLeadOut(path: string, mcn: string, toc: Toc, lba: Msf -> nat, isrcOf: nat -> Option<string>, k: nat)
    requires Readable(toc, lba, isrcOf)
    requires k < SessionCount(toc)
    requires var ss := Built(path, mcn, toc, lba, isrcOf).sessions;
      forall l :: k < l < |ss| ==> ss[l].trackEnd.value != ss[k].trackEnd.value
    ensures var d := Built(path, mcn, toc, lba, isrcOf);
      d.tracks[d.sessions[k].trackEnd.value - 1].sectorEnd == d.sessions[k].leadOut
  {
    var lay := Layout(toc, lba, isrcOf);
    LeadOutsLatest(Chained(lay.0), lay.1, k);
  }

  /**
   * The disc-ID offsets of a built session: its lead-out plus 150 (when no
   * later session ends on the same track), then the first sector of each of
   * its tracks plus 150.
   */
  lemma {:induction false} BuiltOffsets(path: string, mcn: string, toc: Toc, lba: Msf -> nat, isrcOf: nat -> Option<string>, k: nat)
    requires Readable(toc, lba, isrcOf)
    requires k < SessionCount(toc)
    requires var ss := Built(path, mcn, toc, lba, isrcOf).sessions;
      forall l :: k < l < |ss| ==> ss[l].trackEnd.value != ss[k].trackEnd.value
    ensures var d := Built(path, mcn, toc, lba, isrcOf);
      var offsets := Offsets(d.tracks, d.sessions[k]);
      offsets[0] == d.sessions[k].leadOut + LEAD_IN
      && forall j :: 1 <= j < |offsets| ==>
           offsets[j] == lba(Normal(toc.descriptors)[d.sessions[k].trackBegin.value + j - 1].p) + LEAD_IN
  {
    BuiltBegins(path, mcn, toc, lba, isrcOf);
    BuiltLeadOut(path, mcn, toc, lba, isrcOf, k);
    var d := Built(path, mcn, toc, lba, isrcOf);
    OffsetsFrom(d.tracks, d.sessions[k], toc.descriptors, lba);
  }

  /** The offsets of a session whose tracks begin where the track descriptors say. */
  lemma {:induction false} OffsetsFrom(ts: seq<Track>, s: Session, ds: seq<Descriptor>, lba: Msf -> nat)
    requires Within(s, |ts|) && |ts| == TrackCount(ds)
    requires forall t :: 0 <= t < |ts| ==> ts[t].sectorBegin == lba(Normal(ds)[t].p)
    ensures var offsets := Offsets(ts, s);
      forall j :: 1 <= j < |offsets| ==> offsets[j] == lba(Normal(ds)[s.trackBegin.value + j - 1].p) + LEAD_IN
  {
  }

  /** The session loop: one session per TOC session number, as `calloc` leaves them. */
  method NewSessions(first: nat, n: nat) returns (sessions: seq<Session>)
    ensures sessions == FreshSessions(first, n)
  {
    sessions := [];
    for i := 0 to n
      invariant sessions == FreshSessions(first, i)
    {
      sessions := sessions + [Session(first + i, None, None, 0)];
    }
  }

  /** The disc-ID loop of cd.c: stops at the first session whose offsets are refused. */
  method PutDiscIds(d: Disc, put: seq<int> -> bool) returns (accepted: bool)
    requires Bounded(d.sessions, |d.tracks|)
    ensures accepted <==> AllAccepted(d, put)
  {
    for i := 0 to |d.sessions|
      invariant forall k :: 0 <= k < i ==> put(Offsets(d.tracks, d.sessions[k]))
    {
      var offsets := DiscIdOffsets(d.tracks, d.sessions[i]);
      if !put(offsets) {
        return false;
      }
    }
    return true;
  }

  /** `rsvc_cd_create` of cd.c, pass by pass. */
  method Create(path: string, read: Result<Toc>, mcnRead: Option<string>, lba: Msf -> nat,
                isrcOf: nat -> Option<string>, put: seq<int> -> bool) returns (r: Result<Disc>)
    requires read.Ok? ==> Readable(read.value, lba, isrcOf)
    ensures r == Created(path, read, mcnRead, lba, isrcOf, put)
  {
    if read.Err? {
      return Err(path + ": " + read.msg);
    }
    var toc := read.value;
    var laid := Lay(toc, lba, isrcOf);
    var d := Disc(path, OrEmpty(mcnRead), laid.1, laid.0);
    var accepted := PutDiscIds(d, put);
    if !accepted {
      return Err(path + ": discid failure");
    }
    return Ok(d);
  }

  /** The passes of `rsvc_cd_create` that lay out sessions and tracks, with the sector ends set. */
  method Lay(toc: Toc, lba: Msf -> nat, isrcOf: nat -> Option<string>) returns (laid: (seq<Track>, seq<Session>))
    requires Readable(toc, lba, isrcOf)
    ensures var d := Built("", "", toc, lba, isrcOf); laid == (d.tracks, d.sessions)
  {
    var sessions := NewSessions(toc.sessionFirst, SessionCount(toc));
    var ntracks, trackMap := CountTracks(toc.descriptors);
    var ts, ss := LoadTracks(toc.descriptors, trackMap, toc.sessionFirst, sessions, lba, isrcOf);
    var tracks := new Track[ntracks](k requires 0 <= k < ntracks => ts[k]);
    assert tracks[..] == ts;
    ChainEnds(tracks);
    SetLeadOuts(tracks, ss);
    laid := (tracks[..], ss);
  }

  /**
   * `rsvc_cd_create` of cd_darwin.c: a refused disc ID is reported through
   * `fail` but does not end the loop, and the call succeeds when at least
   * one session's disc ID was accepted. `reports` are the messages handed
   * to `fail`, in order.
   */
  function DarwinCreated(path: string, read: Result<Toc>, mcnRead: Option<string>, lba: Msf -> nat,
                         put: seq<int> -> bool): (r: (seq<string>, Option<Disc>))
    requires read.Ok? ==> Readable(read.value, lba, NoIsrc)
    ensures read.Err? ==> r == ([path + ": " + read.msg], None)
    ensures read.Ok? ==> var d := Built(path, OrEmpty(mcnRead), read.value, lba, NoIsrc);
      (r.1.Some? <==> exists k :: 0 <= k < |d.sessions| && put(Offsets(d.tracks, d.sessions[k])))
      && (r.1.Some? ==> r.1.value == d)
      && |r.0| == |Refused(d, put, |d.sessions|)|
  {
    match read
    case Err(m) => ([path + ": " + m], None)
    case Ok(toc) =>
      var d := Built(path, OrEmpty(mcnRead), toc, lba, NoIsrc);
      var refused := Refused(d, put, |d.sessions|);
      (Failures(path, |refused|),
       if |refused| < |d.sessions| then Some(d) else None)
  }

  /** The darwin track has no ISRC field; its ISRC is read on request instead. */
  function NoIsrc(number: nat): Option<string>
  {
    None
  }

  /** The indices among the first `n` sessions whose disc IDs `discid_put` refuses. */
  function Refused(d: Disc, put: seq<int> -> bool, n: nat): (r: seq<nat>)
    requires Bounded(d.sessions, |d.tracks|) && n <= |d.sessions|
    ensures |r| <= n
    ensures |r| < n <==> exists k :: 0 <= k < n && put(Offsets(d.tracks, d.sessions[k]))
    ensures forall j :: 0 <= j < |r| ==> r[j] < n && !put(Offsets(d.tracks, d.sessions[r[j]]))
  {
    if n == 0 then []
    else
      var before := Refused(d, put, n - 1);
      if put(Offsets(d.tracks, d.sessions[n - 1])) then before else before + [n - 1]
  }

  /** The disc-ID loop of cd_darwin.c: every session is tried, and each refusal is reported. */
  method DarwinPutDiscIds(d: Disc, put: seq<int> -> bool) returns (reports: seq<string>, ok: bool)
    requires Bounded(d.sessions, |d.tracks|)
    ensures reports == Failures(d.path, |Refused(d, put, |d.sessions|)|)
    ensures ok <==> |Refused(d, put, |d.sessions|)| < |d.sessions|
  {
    reports, ok := [], false;
    for i := 0 to |d.sessions|
      invariant reports == Failures(d.path, |Refused(d, put, i)|)
      invariant ok <==> |Refused(d, put, i)| < i
    {
      var offsets := DiscIdOffsets(d.tracks, d.sessions[i]);
      if !put(offsets) {
        FailuresStep(d.path, |reports|);
        reports := reports + [d.path + ": discid failure"];
      } else {
        ok := true;
      }
    }
  }

  /** `n` copies of the report for a refused disc ID. */
  function Failures(path: string, n: nat): (r: seq<string>)
    ensures |r| == n && forall j :: 0 <= j < n ==> r[j] == path + ": discid failure"
  {
    seq(n, _ => path + ": discid failure")
  }

  /** One more refusal appends one more report. */
  lemma {:induction false} FailuresStep(path: string, n: nat)
    ensures Failures(path, n + 1) == Failures(path, n) + [path + ": discid failure"]
  {
    assert Failures(path, n + 1)[..n] == Failures(path, n);
  }

  /** `rsvc_cd_create` of cd_darwin.c. */
  method DarwinCreate(path: string, read: Result<Toc>, mcnRead: Option<string>, lba: Msf -> nat,
                      put: seq<int> -> bool) returns (reports: seq<string>, disc: Option<Disc>)
    requires read.Ok? ==> Readable(read.value, lba, NoIsrc)
    ensures (reports, disc) == DarwinCreated(path, read, mcnRead, lba, put)
  {
    if read.Err? {
      return [path + ": " + read.msg], None;
    }
    var laid := Lay(read.value, lba, NoIsrc);
    var d := Disc(path, OrEmpty(mcnRead), laid.1, laid.0);
    var ok;
    reports, ok := DarwinPutDiscIds(d, put);
    disc := if ok then Some(d) else None;
  }

  // ---------------------------------------------------------------------
  // Accessors

  const SIZE_LIMIT: int := 0x1_0000_0000_0000_0000

  /** `rsvc_cd_session_ntracks`. */
  function SessionTrackCount(s: Session, ntracks: nat): (n: nat)
    requires Within(s, ntracks)
    ensures s.trackBegin.value + n == s.trackEnd.value
  {
    s.trackEnd.value - s.trackBegin.value
  }

  /** `rsvc_cd_session_track`: the `n`-th track of the session. */
  function SessionTrack(d: Disc, s: Session, n: nat): (t: Track)
    requires Within(s, |d.tracks|) && n < SessionTrackCount(s, |d.tracks|)
    ensures t == d.tracks[s.trackBegin.value + n]
  {
    d.tracks[s.trackBegin.value + n]
  }

  /** `rsvc_cd_track_nsectors`: `sector_end - sector_begin` in `size_t`. */
  function SectorCount(t: Track): (n: nat)
    ensures n < SIZE_LIMIT
    ensures t.sectorBegin <= t.sectorEnd < SIZE_LIMIT ==> t.sectorBegin + n == t.sectorEnd
  {
    (t.sectorEnd - t.sectorBegin) % SIZE_LIMIT
  }

  /** `rsvc_cd_track_nsamples`: `nsectors * kCDSectorSizeCDDA / 4`, stereo 16-bit samples. */
  function SampleCount(t: Track): (n: nat)
    ensures n == 588 * SectorCount(t)
    ensures n * 4 == SectorCount(t) * SECTOR_SIZE
  {
    SectorCount(t) * SECTOR_SIZE / 4
  }

  // ---------------------------------------------------------------------
  // Iterators

  /**
   * `rsvc_cd_each_session`, `rsvc_cd_each_track` and
   * `rsvc_cd_session_each_track`: the entries are handed to the block in
   * order while `loop` is true; the block stops the loop at the entries
   * where `stops` holds. Returns false iff stop was called.
   */
  method Each<T>(entries: seq<T>, stops: T -> bool) returns (visited: seq<T>, loop: bool)
    ensures visited == VisitedUntil(entries, stops)
    ensures !loop <==> exists i :: 0 <= i < |entries| && stops(entries[i])
  {
    visited, loop := [], true;
    var i := 0;
    while loop && i < |entries|
      invariant i <= |entries| && visited == entries[..i]
      invariant loop ==> forall k :: 0 <= k < i ==> !stops(entries[k])
      invariant !loop ==> 0 < i && stops(entries[i - 1]) && forall k :: 0 <= k < i - 1 ==> !stops(entries[k])
    {
      visited := visited + [entries[i]];
      if stops(entries[i]) {
        loop := false;
      }
      i := i + 1;
    }
    if loop {
      VisitedUntilAt(entries, stops, i);
    } else {
      VisitedUntilAt(entries, stops, i - 1);
    }
  }

  /** The tracks `rsvc_cd_session_each_track` walks: from the session's first track to its end. */
  function SessionTracks(d: Disc, s: Session): (r: seq<Track>)
    requires Within(s, |d.tracks|)
    ensures |r| == SessionTrackCount(s, |d.tracks|)
    ensures forall n :: 0 <= n < |r| ==> r[n] == SessionTrack(d, s, n)
  {
    d.tracks[s.trackBegin.value..s.trackEnd.value]
  }

  // ---------------------------------------------------------------------
  // read_range

  /** The bytes one `DKIOCCDREAD` asks for at `begin`: a sector, or what is left when that is less. */
  function ChunkSize(begin: nat, end: nat): (n: nat)
    ensures n <= SECTOR_SIZE
    ensures begin <= end ==> n == if end - begin < SECTOR_SIZE then end - begin else SECTOR_SIZE
  {
    if begin <= end && end - begin < SECTOR_SIZE then end - begin else SECTOR_SIZE
  }

  /** The (offset, length) reads of `read_range`, one chunk at a time until `begin >= end`. */
  function Chunks(begin: nat, end: nat): (r: seq<(nat, nat)>)
    ensures |r| >= 1 && r[0] == (begin, ChunkSize(begin, end))
    decreases end - begin
  {
    var size := ChunkSize(begin, end);
    [(begin, size)] + (if begin + size < end then Chunks(begin + size, end) else [])
  }

  /**
   * The chunks tile the range: each starts where the previous one ended,
   * every chunk but the last is a full sector, and the last ends at `end`.
   */
  lemma {:induction false} ChunksTile(begin: nat, end: nat)
    requires begin <= end
    ensures var c := Chunks(begin, end);
      c[0].0 == begin && c[|c| - 1].0 + c[|c| - 1].1 == end
      && (forall k :: 0 <= k < |c| - 1 ==> c[k].1 == SECTOR_SIZE && c[k + 1].0 == c[k].0 + c[k].1)
  {
    ChunksEnd(begin, end);
    var c := Chunks(begin, end);
    forall k | 0 <= k < |c| - 1
      ensures c[k].1 == SECTOR_SIZE && c[k + 1].0 == c[k].0 + c[k].1
    {
      ChunksStep(begin, end, k);
    }
  }

  lemma {:induction false} ChunksEnd(begin: nat, end: nat)
    requires begin <= end
    ensures var c := Chunks(begin, end); c[|c| - 1].0 + c[|c| - 1].1 == end
    decreases end - begin
  {
    var size := ChunkSize(begin, end);
    if begin + size < end {
      ChunksEnd(begin + size, end);
      assert Chunks(begin, end) == [(begin, size)] + Chunks(begin + size, end);
    }
  }

  lemma {:induction false} ChunksStep(begin: nat, end: nat, k: nat)
    requires k < |Chunks(begin, end)| - 1
    ensures var c := Chunks(begin, end); c[k].1 == SECTOR_SIZE && c[k + 1].0 == c[k].0 + c[k].1
    decreases end - begin
  {
    var size := ChunkSize(begin, end);
    var rest := Chunks(begin + size, end);
    assert Chunks(begin, end) == [(begin, size)] + rest;
    if k > 0 {
      ChunksStep(begin + size, end, k - 1);
    }
  }

  /**
   * `read_range` from `begin`: `fails(offset)` is the error the chunk at
   * `offset` meets (cancellation, the read or the pipe), None when it goes
   * through. The chunks that went through, and the outcome.
   */
  function RangeRead(begin: nat, end: nat, fails: nat -> Option<string>): (r: (seq<(nat, nat)>, Result<()>))
    decreases end - begin
  {
    if fails(begin).Some? then ([], Err(fails(begin).value))
    else
      var size := ChunkSize(begin, end);
      if begin + size < end then
        var rest := RangeRead(begin + size, end, fails);
        ([(begin, size)] + rest.0, rest.1)
      else ([(begin, size)], Ok(()))
  }

  /** What was read is the start of the planned chunks, and all of them when nothing failed. */
  lemma {:induction false} RangeReadPrefix(begin: nat, end: nat, fails: nat -> Option<string>)
    ensures var (read, outcome) := RangeRead(begin, end, fails);
      read <= Chunks(begin, end) && (outcome.Ok? <==> read == Chunks(begin, end))
    decreases end - begin
  {
    var size := ChunkSize(begin, end);
    if fails(begin).None? && begin + size < end {
      RangeReadPrefix(begin + size, end, fails);
      var rest := RangeRead(begin + size, end, fails);
      assert RangeRead(begin, end, fails) == ([(begin, size)] + rest.0, rest.1);
      assert Chunks(begin, end) == [(begin, size)] + Chunks(begin + size, end);
    }
  }

  /** A failed read stopped at the chunk right after the last one that went through. */
  lemma {:induction false} RangeReadStops(begin: nat, end: nat, fails: nat -> Option<string>)
    ensures var (read, outcome) := RangeRead(begin, end, fails);
      outcome.Err? ==> fails(if read == [] then begin else read[|read| - 1].0 + read[|read| - 1].1).Some?
    decreases end - begin
  {
    var size := ChunkSize(begin, end);
    if fails(begin).None? && begin + size < end {
      RangeReadStops(begin + size, end, fails);
      var rest := RangeRead(begin + size, end, fails);
      assert RangeRead(begin, end, fails) == ([(begin, size)] + rest.0, rest.1);
    }
  }
}

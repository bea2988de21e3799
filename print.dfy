/**
 * `rsvc print`, src/bin/rsvc_print.c: the MCN, then every session and,
 * under each, every track with its type, channels and duration or sector
 * count. The disc is what `rsvc_cd_create` reports for the device, passed
 * in as the function `create`; the text written to standard output is the
 * sequence of lines, each ending in a newline.
 */
module CdPrint {
  import opened Common
  import opened Cd

  /** How the command ends: usage shown, the creation error, or the lines printed. */
  datatype Outcome = ShowedUsage | Failed(error: string) | Printed(lines: seq<string>)

  /** The command reports success to `done` unless creating the disc failed. */
  predicate Succeeded(o: Outcome)
  {
    !o.Failed?
  }

  // ---------------------------------------------------------------------
  // Duration

  /**
   * The three numbers of `Duration: %zu:%02zu.%03zu`: minutes, seconds
   * within the minute, and the milliseconds of the leftover sectors.
   */
  function Duration(sectors: nat): (r: (nat, nat, nat))
    ensures r.1 < 60 && r.2 < 1000
  {
    (sectors / (75 * 60), (sectors / 75) % 60, ((sectors % 75) * 1000) / 75)
  }

  /** The printed duration: minutes, then two-digit seconds and three-digit milliseconds. */
  function DurationText(sectors: nat): string
  {
    var (m, s, ms) := Duration(sectors);
    Decimal(m) + ":" + ZeroPadded(s, 2) + "." + ZeroPadded(ms, 3)
  }

  /**
   * The duration loses nothing: minutes, seconds and milliseconds give back
   * the sector count, the leftover sectors being the milliseconds times
   * 75/1000 rounded up.
   */
  lemma {:induction false} DurationRecovers(sectors: nat)
    ensures var (m, s, ms) := Duration(sectors);
      sectors == m * 4500 + s * 75 + (3 * ms + 39) / 40
  {
    var (m, s, ms) := Duration(sectors);
    var f := sectors % 75;
    assert sectors / 75 == m * 60 + s;
    assert sectors == (sectors / 75) * 75 + f;
    FramesRecover(f);
  }

  /** A frame count below 75 comes back from its milliseconds. */
  lemma {:induction false} FramesRecover(f: nat)
    requires f < 75
    ensures (3 * ((f * 1000) / 75) + 39) / 40 == f
  {
    var ms := (f * 1000) / 75;
    assert 75 * ms <= f * 1000 < 75 * ms + 75;
    assert 3 * ms <= 40 * f < 3 * ms + 3;
    var q := 3 * ms + 39;
    assert 40 * f <= q < 40 * f + 40;
  }

  // ---------------------------------------------------------------------
  // Lines

  /** The MCN line, printed only when the disc has a non-empty MCN. */
  function McnLines(mcn: string): (r: seq<string>)
    ensures |r| <= 1 && (r != [] <==> mcn != "")
  {
    if mcn != "" then ["MCN: " + mcn + "\n"] else []
  }

  /** The lines of one track: number and type, then the sectors of a data track or the channels and duration of an audio track. */
  function TrackBlock(t: Track): (r: seq<string>)
    ensures |r| >= 3 && r[0] == "  - Track: " + Decimal(t.number) + "\n"
    ensures t.kind == Audio ==> |r| == 4 && r[3] == "    Duration: " + DurationText(SectorCount(t)) + "\n"
    ensures t.kind == Data ==> |r| == 3 && r[2] == "    Sectors: " + Decimal(SectorCount(t)) + "\n"
  {
    var sectors := SectorCount(t);
    ["  - Track: " + Decimal(t.number) + "\n"] +
    match t.kind
    case Data => ["    Type: data\n", "    Sectors: " + Decimal(sectors) + "\n"]
    case Audio => ["    Type: audio\n", "    Channels: " + Decimal(t.channels) + "\n",
                   "    Duration: " + DurationText(sectors) + "\n"]
  }

  /** `print_track(session, n)`: the tracks of the session from the `n`-th on. */
  function TrackLines(d: Disc, s: Session, n: nat): (r: seq<string>)
    requires Within(s, |d.tracks|) && n <= SessionTrackCount(s, |d.tracks|)
    decreases SessionTrackCount(s, |d.tracks|) - n
  {
    if n == SessionTrackCount(s, |d.tracks|) then []
    else TrackBlock(SessionTrack(d, s, n)) + TrackLines(d, s, n + 1)
  }

  /** The header line of a session and the lines of its tracks. */
  function SessionBlock(d: Disc, s: Session): (r: seq<string>)
    requires Within(s, |d.tracks|)
    ensures |r| >= 1 && r[0] == "- Session: " + Decimal(s.number) + "\n"
  {
    ["- Session: " + Decimal(s.number) + "\n"] + TrackLines(d, s, 0)
  }

  /** `print_session(cd, n)`: the sessions from the `n`-th on. */
  function SessionLines(d: Disc, n: nat): (r: seq<string>)
    requires Bounded(d.sessions, |d.tracks|) && n <= |d.sessions|
    ensures n < |d.sessions| ==> |r| >= 1 && r[0] == "- Session: " + Decimal(d.sessions[n].number) + "\n"
    ensures n == |d.sessions| ==> r == []
    decreases |d.sessions| - n
  {
    if n == |d.sessions| then []
    else SessionBlock(d, d.sessions[n]) + SessionLines(d, n + 1)
  }

  /** `rsvc_command_print`: usage without a disk, the creation error, or the listing. */
  function CommandPrint(disk: Option<string>, create: string -> Result<Disc>): (r: Outcome)
    requires forall p :: create(p).Ok? ==> Bounded(create(p).value.sessions, |create(p).value.tracks|)
    ensures disk.None? ==> r == ShowedUsage
    ensures disk.Some? && create(disk.value).Err? ==> r == Failed(create(disk.value).msg)
  {
    match disk
    case None => ShowedUsage
    case Some(path) =>
      match create(path)
      case Err(m) => Failed(m)
      case Ok(d) => Printed(McnLines(d.mcn) + SessionLines(d, 0))
  }

  // ---------------------------------------------------------------------
  // The listing, walked over the sequences

  /** The lines of the tracks `ts`, one block after another. */
  function TrackListing(ts: seq<Track>): (r: seq<string>)
  {
    if ts == [] then [] else TrackBlock(ts[0]) + TrackListing(ts[1..])
  }

  /** The lines of the sessions `ss`, one block after another. */
  function SessionListing(d: Disc, ss: seq<Session>): (r: seq<string>)
    requires forall k :: 0 <= k < |ss| ==> Within(ss[k], |d.tracks|)
  {
    if ss == [] then [] else SessionBlock(d, ss[0]) + SessionListing(d, ss[1..])
  }

  /**
   * `print_track`'s index recursion prints exactly the tracks that
   * `rsvc_cd_session_each_track` walks, in the same order.
   */
  lemma {:induction false} TrackLinesWalk(d: Disc, s: Session, n: nat)
    requires Within(s, |d.tracks|) && n <= SessionTrackCount(s, |d.tracks|)
    ensures TrackLines(d, s, n) == TrackListing(SessionTracks(d, s)[n..])
    decreases SessionTrackCount(s, |d.tracks|) - n
  {
    var rest := SessionTracks(d, s)[n..];
    if n < SessionTrackCount(s, |d.tracks|) {
      TrackLinesWalk(d, s, n + 1);
      assert rest[0] == SessionTrack(d, s, n);
      assert rest[1..] == SessionTracks(d, s)[n + 1..];
    }
  }

  /** `print_session`'s index recursion prints the sessions in index order. */
  lemma {:induction false} SessionLinesWalk(d: Disc, n: nat)
    requires Bounded(d.sessions, |d.tracks|) && n <= |d.sessions|
    ensures SessionLines(d, n) == SessionListing(d, d.sessions[n..])
    decreases |d.sessions| - n
  {
    if n < |d.sessions| {
      SessionLinesWalk(d, n + 1);
      assert d.sessions[n..][1..] == d.sessions[n + 1..];
    }
  }

  /**
   * The printed disc: the MCN line when there is an MCN, then each session
   * in order, each followed by its tracks in order.
   */
  lemma {:induction false} PrintedListing(disk: string, create: string -> Result<Disc>)
    requires forall p :: create(p).Ok? ==> Bounded(create(p).value.sessions, |create(p).value.tracks|)
    requires create(disk).Ok?
    ensures var d := create(disk).value;
      CommandPrint(Some(disk), create) == Printed(McnLines(d.mcn) + SessionListing(d, d.sessions))
  {
    var d := create(disk).value;
    SessionLinesWalk(d, 0);
    assert d.sessions[0..] == d.sessions;
  }

  /** The first line names the MCN exactly when the disc has one. */
  lemma {:induction false} McnFirst(disk: string, create: string -> Result<Disc>)
    requires forall p :: create(p).Ok? ==> Bounded(create(p).value.sessions, |create(p).value.tracks|)
    requires create(disk).Ok?
    ensures var d := create(disk).value;
      var lines := CommandPrint(Some(disk), create).lines;
      d.mcn != "" <==> (|lines| > 0 && |lines[0]| >= 5 && lines[0][..5] == "MCN: ")
  {
    var d := create(disk).value;
    var lines := CommandPrint(Some(disk), create).lines;
    if d.mcn == "" && |d.sessions| > 0 {
      assert lines[0] == "- Session: " + Decimal(d.sessions[0].number) + "\n";
      assert lines[0][..5][0] == '-';
    }
  }
}

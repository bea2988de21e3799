/**
 * The `ripservice` front end, src/bin/ripservice.c: its option callbacks
 * (a command word, then print's or rip's device, rip's -f/--format and
 * -b/--bitrate, and -V/--version), the checks `rip` makes of its options
 * before touching the drive, the name of each ripped file, and the `print`
 * listing.
 *
 * `usage` prints a message and exits with EX_USAGE, so a callback that
 * calls it never returns; here it is the verdict `Exits`. The value an
 * option asks for is the string `value()` returned.
 */
module Ripservice {
  import opened Common
  import opened Cd
  import SiNumbers
  import CdPrint

  datatype Command = NoCommand | PrintCommand | LsCommand | WatchCommand | RipCommand

  /** `rip_format_t`. */
  datatype RipFormat = NoFormat | Flac | Aac | Alac | Vorbis

  /** `struct rip_options`. */
  datatype RipOptions = RipOptions(disk: Option<string>, format: RipFormat, hasBitrate: bool, bitrate: int)

  /** The `__block` variables the callbacks share: the command and each command's options. */
  datatype Settings = Settings(command: Command, printDisk: Option<string>, rip: RipOptions)

  function Initial(): Settings
  {
    Settings(NoCommand, None, RipOptions(None, NoFormat, false, 0))
  }

  /** `EX_USAGE` from sysexits.h. */
  const EX_USAGE: int := 64

  /** A callback's answer: true, false, or an exit there and then with the message `usage` printed. */
  datatype Verdict = Accepted | Refused | Exits(status: int, message: Option<string>)

  // ---------------------------------------------------------------------
  // Formats

  /** The name `read_format` accepts for each format. */
  function FormatName(f: RipFormat): string
  {
    match f
    case NoFormat => ""
    case Flac => "flac"
    case Aac => "aac"
    case Alac => "alac"
    case Vorbis => "vorbis"
  }

  /** `read_format`: the four names, compared in the source's order; anything else is refused. */
  function ReadFormat(s: string): (r: Option<RipFormat>)
    ensures r.Some? ==> r.value != NoFormat
  {
    if s == "flac" then Some(Flac)
    else if s == "aac" then Some(Aac)
    else if s == "alac" then Some(Alac)
    else if s == "vorbis" then Some(Vorbis)
    else None
  }

  /** `read_format` reads back every format's name, and accepts nothing but those names. */
  lemma {:induction false} ReadFormatRoundTrip(f: RipFormat, s: string)
    ensures f != NoFormat ==> ReadFormat(FormatName(f)) == Some(f)
    ensures ReadFormat(s).Some? ==> FormatName(ReadFormat(s).value) == s
    ensures ReadFormat(s).None? <==> s !in ["flac", "aac", "alac", "vorbis"]
  {
  }

  // ---------------------------------------------------------------------
  // Callbacks

  /** The command a first positional selects. */
  function CommandNamed(arg: string): (r: Command)
    ensures r != NoCommand <==> arg in ["print", "ls", "watch", "rip"]
  {
    if arg == "print" then PrintCommand
    else if arg == "ls" then LsCommand
    else if arg == "watch" then WatchCommand
    else if arg == "rip" then RipCommand
    else NoCommand
  }

  /**
   * `callbacks.argument`: the first positional is the command; print and
   * rip take one device; any other positional is refused.
   */
  function Argued(s: Settings, arg: string): (r: (Verdict, Settings))
    ensures r.0 == Refused ==> r.1 == s
    ensures s.command == NoCommand && CommandNamed(arg) == NoCommand ==>
      r.0 == Exits(EX_USAGE, Some("illegal command: " + arg))
  {
    match s.command
    case NoCommand =>
      var c := CommandNamed(arg);
      if c == NoCommand then (Exits(EX_USAGE, Some("illegal command: " + arg)), s)
      else (Accepted, s.(command := c))
    case PrintCommand =>
      if s.printDisk.None? then (Accepted, s.(printDisk := Some(arg))) else (Refused, s)
    case RipCommand =>
      if s.rip.disk.None? then (Accepted, s.(rip := s.rip.(disk := Some(arg)))) else (Refused, s)
    case _ => (Refused, s)
  }

  /**
   * `callbacks.short_option`: under rip, -b reads an SI number into the
   * bitrate and -f a format, exiting with usage when the value does not
   * read; -V exits after printing the version; anything else is refused.
   */
  function Shorted(s: Settings, opt: char, value: string): (r: (Verdict, Settings))
    ensures r.0 != Exits(0, None) ==> r.0 != Accepted || s.command == RipCommand
    ensures opt == 'V' ==> r.0 == Exits(0, None)
    ensures r.0 == Refused ==> r.1 == s
  {
    if s.command == RipCommand && opt == 'b' then
      var (ok, bitrate) := SiNumbers.SiNumber(value, true);
      if !ok then (Exits(EX_USAGE, Some("invalid bitrate: " + value)), s)
      else (Accepted, s.(rip := s.rip.(hasBitrate := true, bitrate := bitrate)))
    else if s.command == RipCommand && opt == 'f' then
      match ReadFormat(value)
      case None => (Exits(EX_USAGE, Some("invalid format: " + value)), s)
      case Some(f) => (Accepted, s.(rip := s.rip.(format := f)))
    else if opt == 'V' then (Exits(0, None), s)
    else (Refused, s)
  }

  /** `callbacks.long_option`: rip's --bitrate and --format, and --version, as their short options. */
  function Longed(s: Settings, name: string, value: string): (r: (Verdict, Settings))
  {
    if s.command == RipCommand && name == "bitrate" then Shorted(s, 'b', value)
    else if s.command == RipCommand && name == "format" then Shorted(s, 'f', value)
    else if name == "version" then Shorted(s, 'V', value)
    else (Refused, s)
  }

  /** Each long option does what its short option does, and no other long name is accepted. */
  lemma {:induction false} LongAliases(s: Settings, name: string, value: string)
    ensures s.command == RipCommand && name == "bitrate" ==> Longed(s, name, value) == Shorted(s, 'b', value)
    ensures s.command == RipCommand && name == "format" ==> Longed(s, name, value) == Shorted(s, 'f', value)
    ensures name == "version" ==> Longed(s, name, value).0 == Exits(0, None)
    ensures name !in ["bitrate", "format", "version"] ==> Longed(s, name, value) == (Refused, s)
  {
  }

  /** The callbacks and the state they share. */
  class Invocation {
    var command: Command
    var printDisk: Option<string>
    var rip: RipOptions

    function Snapshot(): Settings
      reads this
    {
      Settings(command, printDisk, rip)
    }

    constructor ()
      ensures Snapshot() == Initial()
    {
      command, printDisk, rip := NoCommand, None, RipOptions(None, NoFormat, false, 0);
    }

    /** `callbacks.argument`. */
    method Argument(arg: string) returns (v: Verdict)
      modifies this
      ensures (v, Snapshot()) == Argued(old(Snapshot()), arg)
    {
      match command {
        case NoCommand =>
          var c := CommandNamed(arg);
          if c == NoCommand {
            return Exits(EX_USAGE, Some("illegal command: " + arg));
          }
          command := c;
          return Accepted;
        case PrintCommand =>
          if printDisk.None? {
            printDisk := Some(arg);
            return Accepted;
          }
        case RipCommand =>
          if rip.disk.None? {
            rip := rip.(disk := Some(arg));
            return Accepted;
          }
        case _ =>
      }
      return Refused;
    }

    /** `callbacks.short_option`. */
    method ShortOption(opt: char, value: string) returns (v: Verdict)
      modifies this
      ensures (v, Snapshot()) == Shorted(old(Snapshot()), opt, value)
    {
      if command == RipCommand && opt == 'b' {
        var ok, bitrate := SiNumbers.ReadSiNumber(value);
        if !ok {
          return Exits(EX_USAGE, Some("invalid bitrate: " + value));
        }
        rip := rip.(hasBitrate := true, bitrate := bitrate);
        return Accepted;
      } else if command == RipCommand && opt == 'f' {
        var f := ReadFormat(value);
        if f.None? {
          return Exits(EX_USAGE, Some("invalid format: " + value));
        }
        rip := rip.(format := f.value);
        return Accepted;
      } else if opt == 'V' {
        return Exits(0, None);
      }
      return Refused;
    }

    /** `callbacks.long_option`. */
    method LongOption(name: string, value: string) returns (v: Verdict)
      modifies this
      ensures (v, Snapshot()) == Longed(old(Snapshot()), name, value)
    {
      if command == RipCommand && name == "bitrate" {
        v := ShortOption('b', value);
      } else if command == RipCommand && name == "format" {
        v := ShortOption('f', value);
      } else if name == "version" {
        v := ShortOption('V', value);
      } else {
        v := Refused;
      }
    }
  }

  // ---------------------------------------------------------------------
  // Whole command lines

  /** One callback as the tokenizer makes it. */
  datatype Call = ArgumentCall(arg: string) | ShortCall(opt: char, value: string) | LongCall(name: string, value: string)

  function Called(s: Settings, call: Call): (Verdict, Settings)
  {
    match call
    case ArgumentCall(arg) => Argued(s, arg)
    case ShortCall(opt, value) => Shorted(s, opt, value)
    case LongCall(name, value) => Longed(s, name, value)
  }

  /** The calls in order, until one does not return true. */
  function Dispatched(s: Settings, calls: seq<Call>): (Verdict, Settings)
    decreases |calls|
  {
    if calls == [] then (Accepted, s)
    else
      var (v, next) := Called(s, calls[0]);
      if v == Accepted then Dispatched(next, calls[1..]) else (v, next)
  }

  /** How the process goes on: an exit with the message printed, or the command run. */
  datatype Ending = Exit(status: int, message: Option<string>) | Run(command: Command)

  /**
   * After the tokenizer: its result is ignored, so a refused callback only
   * ends the parse; no command is the usage text with EX_USAGE.
   */
  function Ended(v: Verdict, s: Settings): (e: Ending)
    ensures v.Exits? ==> e == Exit(v.status, v.message)
    ensures !v.Exits? ==> (e.Run? <==> s.command != NoCommand)
  {
    match v
    case Exits(status, message) => Exit(status, message)
    case _ => if s.command == NoCommand then Exit(EX_USAGE, None) else Run(s.command)
  }

  /** A second device for print is dropped without a word: the parse stops and print runs on the first. */
  lemma {:induction false} SecondDeviceIgnored(a: string, b: string)
    ensures var (v, s) := Dispatched(Initial(), [ArgumentCall("print"), ArgumentCall(a), ArgumentCall(b)]);
      v == Refused && s.printDisk == Some(a) && Ended(v, s) == Run(PrintCommand)
  {
    var calls := [ArgumentCall("print"), ArgumentCall(a), ArgumentCall(b)];
    var s1 := Initial().(command := PrintCommand);
    var s2 := s1.(printDisk := Some(a));
    assert calls[1..] == [ArgumentCall(a), ArgumentCall(b)];
    assert calls[1..][1..] == [ArgumentCall(b)];
    assert Dispatched(s2, [ArgumentCall(b)]) == (Refused, s2);
  }

  // ---------------------------------------------------------------------
  // rip's checks

  /** What the checks of `rsvc_command_rip` decide: an exit with usage, or go on to the drive. */
  datatype Checked = Usage(message: Option<string>) | Proceed

  /** The lossy checks (the vorbis case, which the AAC case falls into). */
  function LossyChecked(o: RipOptions): (r: Checked)
  {
    if !o.hasBitrate then Usage(Some("must choose bitrate"))
    else if o.bitrate < 48000 then Usage(Some("bitrate too low: " + SignedDecimal(o.bitrate)))
    else if o.bitrate > 480000 then Usage(Some("bitrate too high: " + SignedDecimal(o.bitrate)))
    else Proceed
  }

  /**
   * The checks of `rsvc_command_rip`: a device, a format, no bitrate for a
   * lossless format, and a bitrate in [48000, 480000] for a lossy one.
   */
  function RipChecked(o: RipOptions): (r: Checked)
  {
    if o.disk.None? then Usage(None)
    else if o.format == NoFormat then Usage(Some("must choose format"))
    else
      match o.format
      case Flac => if o.hasBitrate then Usage(Some("bitrate provided for lossless format")) else Proceed
      case Alac => if o.hasBitrate then Usage(Some("bitrate provided for lossless format")) else Proceed
      case Aac => if !o.hasBitrate then Usage(Some("must choose bitrate")) else LossyChecked(o)
      case Vorbis => LossyChecked(o)
  }

  /** A rip goes ahead exactly when its options make sense for the chosen format. */
  lemma {:induction false} RipCheckedIff(o: RipOptions)
    ensures RipChecked(o) == Proceed <==>
      o.disk.Some? && o.format != NoFormat
      && ((o.format == Flac || o.format == Alac) ==> !o.hasBitrate)
      && ((o.format == Aac || o.format == Vorbis) ==> o.hasBitrate && 48000 <= o.bitrate <= 480000)
  {
  }

  /** The AAC case falling into the vorbis case repeats a check and changes nothing. */
  lemma {:induction false} AacChecksAsVorbis(o: RipOptions)
    requires o.format == Aac
    ensures RipChecked(o) == RipChecked(o.(format := Vorbis))
  {
  }

  /** A refused bitrate is reported with its value. */
  lemma {:induction false} BitrateTooLow(o: RipOptions)
    requires o.disk.Some? && o.format == Vorbis && o.hasBitrate && o.bitrate < 48000
    ensures RipChecked(o).Usage? && RipChecked(o).message.Some?
    ensures var m := RipChecked(o).message.value;
      m[..17] == "bitrate too low: " && m[17..] == SignedDecimal(o.bitrate)
  {
    var m := "bitrate too low: " + SignedDecimal(o.bitrate);
    assert m[..17] == "bitrate too low: ";
    assert m[17..] == SignedDecimal(o.bitrate);
  }

  // ---------------------------------------------------------------------
  // File names

  /** The extension of each format's file: FLAC, MPEG-4 for both AAC and ALAC, Ogg for vorbis. */
  function Extension(f: RipFormat): string
    requires f != NoFormat
  {
    match f
    case Flac => ".flac"
    case Aac => ".m4a"
    case Alac => ".m4a"
    case Vorbis => ".ogv"
  }

  /** `sprintf(filename, "%02ld.<ext>", track_number)`. */
  function Filename(f: RipFormat, number: nat): string
    requires f != NoFormat
  {
    ZeroPadded(number, 2) + Extension(f)
  }

  /** Splits a file name at its first '.': the digits before it and the extension from it on. */
  function SplitName(name: string): (r: Option<(nat, string)>)
  {
    match FirstIndex(name, '.')
    case None => None
    case Some(i) => if AllDigits(name[..i]) then Some((DecimalValue(name[..i]), name[i..])) else None
  }

  /**
   * A ripped file's name gives back its track number, written in at least
   * two digits, and its format's extension.
   */
  lemma {:induction false} FilenameRoundTrip(f: RipFormat, number: nat)
    requires f != NoFormat
    ensures SplitName(Filename(f, number)) == Some((number, Extension(f)))
    ensures |Filename(f, number)| >= 2 + |Extension(f)|
  {
    var digits := ZeroPadded(number, 2);
    var name := digits + Extension(f);
    assert name[|digits|] == '.';
    forall k | 0 <= k < |digits|
      ensures name[k] != '.'
    {
      assert name[k] == digits[k];
      assert IsDigit(digits[k]);
    }
    assert '.' !in name[..|digits|];
    FirstIndexIs(name, '.', |digits|);
    assert name[..|digits|] == digits;
    assert name[|digits|..] == Extension(f);
  }

  // ---------------------------------------------------------------------
  // print

  /** The ISRC line, printed only when the track has one. */
  function IsrcLines(isrc: string): (r: seq<string>)
    ensures |r| <= 1 && (r != [] <==> isrc != "")
  {
    if isrc != "" then ["    ISRC: " + isrc + "\n"] else []
  }

  /** One track as ripservice prints it: as `rsvc print` does, then its ISRC. */
  function TrackBlock(t: Track): seq<string>
  {
    CdPrint.TrackBlock(t) + IsrcLines(t.isrc)
  }

  /** The tracks `rsvc_cd_session_each_track` hands to the block, which never stops it. */
  function TrackListing(ts: seq<Track>): seq<string>
  {
    if ts == [] then [] else TrackBlock(ts[0]) + TrackListing(ts[1..])
  }

  /** The sessions `rsvc_cd_each_session` hands to the block, each with its tracks. */
  function SessionListing(d: Disc, ss: seq<Session>): seq<string>
    requires forall k :: 0 <= k < |ss| ==> Within(ss[k], |d.tracks|)
  {
    if ss == [] then []
    else ["- Session: " + Decimal(ss[0].number) + "\n"] + TrackListing(SessionTracks(d, ss[0]))
         + SessionListing(d, ss[1..])
  }

  /** `rsvc_command_print`: usage (which exits) without a disk, else the creation error or the listing. */
  function CommandPrint(disk: Option<string>, create: string -> Result<Disc>): (r: CdPrint.Outcome)
    requires forall p :: create(p).Ok? ==> Bounded(create(p).value.sessions, |create(p).value.tracks|)
    ensures disk.None? ==> r == CdPrint.ShowedUsage
    ensures disk.Some? && create(disk.value).Err? ==> r == CdPrint.Failed(create(disk.value).msg)
    ensures r.Printed? ==> |r.lines| >= |CdPrint.McnLines(create(disk.value).value.mcn)|
  {
    match disk
    case None => CdPrint.ShowedUsage
    case Some(path) =>
      match create(path)
      case Err(m) => CdPrint.Failed(m)
      case Ok(d) =>
        assert Bounded(d.sessions, |d.tracks|);
        CdPrint.Printed(CdPrint.McnLines(d.mcn) + SessionListing(d, d.sessions))
  }

  /**
   * The two commands print the same disc alike, but for the ISRC lines:
   * on a disc without ISRCs, ripservice's `print` is `rsvc print`.
   */
  lemma {:induction false} SamePrintWithoutIsrcs(disk: Option<string>, create: string -> Result<Disc>)
    requires forall p :: create(p).Ok? ==> Bounded(create(p).value.sessions, |create(p).value.tracks|)
    requires forall p :: create(p).Ok? ==> forall k :: 0 <= k < |create(p).value.tracks| ==> create(p).value.tracks[k].isrc == ""
    ensures CommandPrint(disk, create) == CdPrint.CommandPrint(disk, create)
  {
    if disk.Some? && create(disk.value).Ok? {
      var d := create(disk.value).value;
      SessionListingAgrees(d, d.sessions);
      CdPrint.PrintedListing(disk.value, create);
    }
  }

  /** Without ISRCs, the tracks print exactly as `rsvc print` prints them. */
  lemma {:induction false} TrackListingAgrees(ts: seq<Track>)
    requires forall k :: 0 <= k < |ts| ==> ts[k].isrc == ""
    ensures TrackListing(ts) == CdPrint.TrackListing(ts)
  {
    if ts != [] {
      TrackListingAgrees(ts[1..]);
    }
  }

  /** Without ISRCs, the whole listing is the one `rsvc print` gives. */
  lemma {:induction false} SessionListingAgrees(d: Disc, ss: seq<Session>)
    requires forall k :: 0 <= k < |ss| ==> Within(ss[k], |d.tracks|)
    requires forall k :: 0 <= k < |d.tracks| ==> d.tracks[k].isrc == ""
    ensures SessionListing(d, ss) == CdPrint.SessionListing(d, ss)
  {
    if ss != [] {
      SessionListingAgrees(d, ss[1..]);
      var ts := SessionTracks(d, ss[0]);
      TrackListingAgrees(ts);
      CdPrint.TrackLinesWalk(d, ss[0], 0);
      assert ts[0..] == ts;
    }
  }
}

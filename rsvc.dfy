/**
 * The front end of the `rsvc` command, src/bin/rsvc.c: the option callbacks
 * that pick a command and fill its options, the encode options (bitrate,
 * format and their defaults) that `rip` and `convert` share, and the choice
 * of a default disc.
 *
 * The tokenizer (src/rsvc/options.c) calls the callbacks one element of
 * `argv` at a time; here each call is a method of `Invocation`, the state
 * the callbacks share, and `Dispatched` folds a sequence of calls the way
 * the tokenizer makes them. A value an option asks for is what `get_value`
 * returned. The registry lookup `rsvc_format_named(name, ENCODE)` is the
 * parameter `named`.
 */
module Rsvc {
  import opened Common
  import Options
  import opened EncodeFormats
  import SiNumbers

  // ---------------------------------------------------------------------
  // Encode options
  // ---------------------------------------------------------------------

  /** `struct encode_options`: the chosen format, if any, and the bitrate (0 when unset). */
  datatype Encode = Encode(format: Option<EncodeFormat>, bitrate: int)

  /** The bitrate given to lossy formats when none is chosen (the usage text's "192k"). */
  const DefaultBitrate: int := 192_000

  /**
   * `bitrate_option`: the value is read as an SI number and must be
   * positive. The number is stored even when it is refused.
   */
  function BitrateSet(encode: Encode, got: Result<string>): (r: (Result<()>, Encode))
    ensures got.Err? ==> r == (Err(got.msg), encode)
    ensures got.Ok? ==> r.1 == encode.(bitrate := SiNumbers.SiNumber(got.value, true).1)
    ensures got.Ok? ==> (r.0.Ok? <==> SiNumbers.SiNumber(got.value, true).0 && r.1.bitrate > 0)
    ensures got.Ok? && r.0.Err? ==> r.0.msg == "invalid bitrate: " + got.value
  {
    match got
    case Err(m) => (Err(m), encode)
    case Ok(value) =>
      var read := SiNumbers.SiNumber(value, true);
      var after := encode.(bitrate := read.1);
      if read.0 && read.1 > 0 then (Ok(()), after) else (Err("invalid bitrate: " + value), after)
  }

  method BitrateOption(encode: Encode, got: Result<string>) returns (r: Result<()>, after: Encode)
    ensures (r, after) == BitrateSet(encode, got)
  {
    if got.Err? {
      return Err(got.msg), encode;
    }
    var ok, bitrate := SiNumbers.ReadSiNumber(got.value);
    after := encode.(bitrate := bitrate);
    if !(ok && bitrate > 0) {
      return Err("invalid bitrate: " + got.value), after;
    }
    return Ok(()), after;
  }

  /** The usage text's default, "192k", is the bitrate `validate_encode_options` fills in. */
  lemma {:induction false} DefaultBitrateText(got: Result<string>)
    requires got == Ok("192k")
    ensures BitrateSet(Encode(None, 0), got) == (Ok(()), Encode(None, DefaultBitrate))
  {
    assert "192k" == SiNumbers.Suffixed(192, 'k', false);
    SiNumbers.SiNumberScales(192, 'k', false);
  }

  /** A zero, a negative number or a number past INT64_MAX is never a bitrate. */
  lemma {:induction false} BitrateRefusals(v: int, got: Result<string>)
    requires INT64_MIN <= v <= 0 && got == Ok(SignedDecimal(v))
    ensures BitrateSet(Encode(None, 0), got).0 == Err("invalid bitrate: " + SignedDecimal(v))
  {
    SiNumbers.SiNumberPlain(v, true);
  }

  /** `format_option`: the format is replaced by the lookup, even when that finds nothing. */
  function FormatSet(encode: Encode, got: Result<string>, named: string -> Option<EncodeFormat>): (r: (Result<()>, Encode))
    ensures got.Err? ==> r == (Err(got.msg), encode)
    ensures got.Ok? ==> r.1 == encode.(format := named(got.value))
    ensures got.Ok? ==> (r.0.Ok? <==> named(got.value).Some?)
    ensures got.Ok? && r.0.Err? ==> r.0.msg == "invalid format: " + got.value
  {
    match got
    case Err(m) => (Err(m), encode)
    case Ok(value) =>
      var after := encode.(format := named(value));
      if after.format.None? then (Err("invalid format: " + value), after) else (Ok(()), after)
  }

  method FormatOption(encode: Encode, got: Result<string>, named: string -> Option<EncodeFormat>)
    returns (r: Result<()>, after: Encode)
    ensures (r, after) == FormatSet(encode, got, named)
  {
    if got.Err? {
      return Err(got.msg), encode;
    }
    after := encode.(format := named(got.value));
    if after.format.None? {
      return Err("invalid format: " + got.value), after;
    }
    return Ok(()), after;
  }

  /** The format chosen when none is given: vorbis with a bitrate, flac without. */
  function DefaultFormatName(bitrate: int): string
  {
    if bitrate != 0 then "vorbis" else "flac"
  }

  /**
   * `validate_encode_options`. Without a format the default is looked up,
   * which the caller's registry must provide. A lossless format refuses a
   * bitrate; a lossy one without a bitrate gets the default.
   */
  function Validated(encode: Encode, named: string -> Option<EncodeFormat>): (r: (Result<()>, Encode))
    requires encode.format.Some? || named(DefaultFormatName(encode.bitrate)).Some?
    ensures r.1.format.Some?
  {
    var format := if encode.format.Some? then encode.format.value else named(DefaultFormatName(encode.bitrate)).value;
    var chosen := encode.(format := Some(format));
    if format.lossless then
      if encode.bitrate != 0 then (Err("bitrate provided for lossless format " + format.name), chosen)
      else (Ok(()), chosen)
    else if encode.bitrate == 0 then (Ok(()), chosen.(bitrate := DefaultBitrate))
    else (Ok(()), chosen)
  }

  method ValidateEncodeOptions(encode: Encode, named: string -> Option<EncodeFormat>) returns (r: Result<()>, after: Encode)
    requires encode.format.Some? || named(DefaultFormatName(encode.bitrate)).Some?
    ensures (r, after) == Validated(encode, named)
  {
    after := encode;
    if after.format.None? {
      if after.bitrate != 0 {
        after := after.(format := named("vorbis"));
      } else {
        after := after.(format := named("flac"));
      }
    }
    if after.format.value.lossless {
      if after.bitrate != 0 {
        return Err("bitrate provided for lossless format " + after.format.value.name), after;
      }
    } else if after.bitrate == 0 {
      after := after.(bitrate := DefaultBitrate);
    }
    return Ok(()), after;
  }

  /** Without a format, vorbis is chosen when a bitrate is set and flac otherwise. */
  lemma {:induction false} ValidatedDefault(encode: Encode, named: string -> Option<EncodeFormat>)
    requires encode.format.None? && named(DefaultFormatName(encode.bitrate)).Some?
    ensures Validated(encode, named).1.format == named(if encode.bitrate != 0 then "vorbis" else "flac")
  {
  }

  /**
   * The outcome by kind of format: a lossless format with a bitrate is an
   * error naming the format; every other case succeeds, and a lossy format
   * without a bitrate gets 192000.
   */
  lemma {:induction false} ValidatedOutcome(encode: Encode, named: string -> Option<EncodeFormat>)
    requires encode.format.Some?
    ensures var (r, after) := Validated(encode, named);
      var f := encode.format.value;
      (r.Err? <==> f.lossless && encode.bitrate != 0) &&
      (r.Err? ==> r.msg == "bitrate provided for lossless format " + f.name) &&
      after.format == encode.format &&
      after.bitrate == (if !f.lossless && encode.bitrate == 0 then DefaultBitrate else encode.bitrate)
  {
  }

  /**
   * After a successful validation the options agree with the format: a
   * lossless format has no bitrate and a lossy one has one, and validating
   * again changes nothing.
   */
  lemma {:induction false} ValidatedAgrees(encode: Encode, named: string -> Option<EncodeFormat>)
    requires encode.format.Some? || named(DefaultFormatName(encode.bitrate)).Some?
    ensures var (r, after) := Validated(encode, named);
      r.Ok? ==> (after.format.value.lossless <==> after.bitrate == 0) && Validated(after, named) == (r, after)
  {
  }

  // ---------------------------------------------------------------------
  // Commands and their options
  // ---------------------------------------------------------------------

  datatype Command = Print | Ls | Watch | Eject | Rip | Convert

  /** The `name` of each `struct rsvc_command`. */
  function NameOf(c: Command): string
  {
    match c
    case Print => "print"
    case Ls => "ls"
    case Watch => "watch"
    case Eject => "eject"
    case Rip => "rip"
    case Convert => "convert"
  }

  const CommandNames: seq<string> := ["print", "ls", "watch", "eject", "rip", "convert"]

  /** The command a first positional selects, compared in the order of the source's chain. */
  function CommandNamed(arg: string): (r: Option<Command>)
    ensures r.Some? <==> arg in CommandNames
    ensures r.Some? ==> NameOf(r.value) == arg
  {
    if arg == "print" then Some(Print)
    else if arg == "ls" then Some(Ls)
    else if arg == "watch" then Some(Watch)
    else if arg == "eject" then Some(Eject)
    else if arg == "rip" then Some(Rip)
    else if arg == "convert" then Some(Convert)
    else None
  }

  /** `struct rip_options` as rsvc.c uses it. */
  datatype RipOptions = RipOptions(disk: Option<string>, pathFormat: string, eject: bool, encode: Encode)

  /** `struct convert_options` as rsvc.c uses it. */
  datatype ConvertOptions = ConvertOptions(
    input: Option<string>, output: Option<string>, recursive: bool, update: bool, encode: Encode)

  /**
   * Everything the callbacks read and write: the global `command`,
   * `rsvc_jobs` and `rsvc_verbosity`, and each command's options.
   */
  datatype Settings = Settings(
    command: Option<Command>, jobs: int, verbosity: nat,
    printDisk: Option<string>, ejectDisk: Option<string>, rip: RipOptions, convert: ConvertOptions)

  /** `rsvc_jobs_default`. */
  const JobsDefault: int := 4

  /** The state before the first callback: no command, the default number of jobs, rip's path "%k". */
  function Initial(): Settings
  {
    Settings(None, JobsDefault, 0, None, None, RipOptions(None, "%k", false, Encode(None, 0)),
      ConvertOptions(None, None, false, false, Encode(None, 0)))
  }

  /**
   * What a callback answers: true, false after reporting a message, false
   * with no message at all, or `exit(0)` there and then (`-h`, `-V`).
   */
  datatype Verdict = Accepted | Failed(msg: string) | Refused | Exits

  function VerdictOf(r: Result<()>): Verdict
  {
    if r.Ok? then Accepted else Failed(r.msg)
  }

  const TooMany: string := "too many arguments"

  function IllegalShort(opt: char): string
  {
    "illegal option -" + [opt]
  }

  function IllegalLong(name: string): string
  {
    "illegal option --" + name
  }

  /**
   * `callbacks.argument`. The first positional selects the command; later
   * ones go to the command's own handler: print and eject take one device,
   * rip one device, convert an input and then an output. A command without
   * a handler (ls, watch) takes none. A positional no handler takes fails
   * with "too many arguments".
   */
  function Argued(s: Settings, arg: string): (r: (Verdict, Settings))
    ensures r.0 != Refused && r.0 != Exits
  {
    match s.command
    case None =>
      (match CommandNamed(arg)
       case None => (Failed(arg + ": illegal command"), s)
       case Some(c) => (Accepted, s.(command := Some(c))))
    case Some(Print) =>
      if s.printDisk.None? then (Accepted, s.(printDisk := Some(arg))) else (Failed(TooMany), s)
    case Some(Eject) =>
      if s.ejectDisk.None? then (Accepted, s.(ejectDisk := Some(arg))) else (Failed(TooMany), s)
    case Some(Rip) =>
      if s.rip.disk.None? then (Accepted, s.(rip := s.rip.(disk := Some(arg)))) else (Failed(TooMany), s)
    case Some(Convert) =>
      if s.convert.input.None? then (Accepted, s.(convert := s.convert.(input := Some(arg))))
      else if s.convert.output.None? then (Accepted, s.(convert := s.convert.(output := Some(arg))))
      else (Failed(TooMany), s)
    case Some(_) => (Failed(TooMany), s)
  }

  /**
   * The `argument` handler of print and eject as written: a second device
   * makes it return false without reporting anything.
   */
  function DeviceArgumentAsWritten(disk: Option<string>, arg: string): (r: (Verdict, Option<string>))
    ensures disk.Some? ==> r == (Refused, disk)
  {
    if disk.None? then (Accepted, Some(arg)) else (Refused, disk)
  }

  /** `rsvc_string_option`: the value replaces the string; without a value it is kept. */
  function StringSet(text: string, got: Result<string>): (r: (Verdict, string))
  {
    match got
    case Err(m) => (Failed(m), text)
    case Ok(value) => (Accepted, value)
  }

  /**
   * rip's `short_option`: -b and -f set the encode options, -p the output
   * path format, -e asks for an eject.
   */
  function RipShort(rip: RipOptions, opt: char, got: Result<string>, named: string -> Option<EncodeFormat>): (r: (Verdict, RipOptions))
  {
    if opt == 'b' then
      var (done, encode) := BitrateSet(rip.encode, got);
      (VerdictOf(done), rip.(encode := encode))
    else if opt == 'f' then
      var (done, encode) := FormatSet(rip.encode, got, named);
      (VerdictOf(done), rip.(encode := encode))
    else if opt == 'p' then
      var (v, path) := StringSet(rip.pathFormat, got);
      (v, rip.(pathFormat := path))
    else if opt == 'e' then (Accepted, rip.(eject := true))
    else (Failed(IllegalShort(opt)), rip)
  }

  /** rip's -p as written: the value is stored as the device, not as the path format. */
  function RipPathAsWritten(rip: RipOptions, got: Result<string>): (r: (Verdict, RipOptions))
    ensures r.1.pathFormat == rip.pathFormat
  {
    match got
    case Err(m) => (Failed(m), rip)
    case Ok(value) => (Accepted, rip.(disk := Some(value)))
  }

  /** convert's `short_option`: -b and -f set the encode options, -r and -u switch modes on. */
  function ConvertShort(convert: ConvertOptions, opt: char, got: Result<string>, named: string -> Option<EncodeFormat>): (r: (Verdict, ConvertOptions))
  {
    if opt == 'b' then
      var (done, encode) := BitrateSet(convert.encode, got);
      (VerdictOf(done), convert.(encode := encode))
    else if opt == 'f' then
      var (done, encode) := FormatSet(convert.encode, got, named);
      (VerdictOf(done), convert.(encode := encode))
    else if opt == 'r' then (Accepted, convert.(recursive := true))
    else if opt == 'u' then (Accepted, convert.(update := true))
    else (Failed(IllegalShort(opt)), convert)
  }

  /**
   * `callbacks.short_option`: -h and -V exit, -j sets the number of jobs,
   * -v raises the verbosity; any other letter goes to the command's handler,
   * and is illegal without one.
   */
  function Shorted(s: Settings, opt: char, got: Result<string>, named: string -> Option<EncodeFormat>): (r: (Verdict, Settings))
    ensures r.0 != Refused
  {
    if opt == 'h' || opt == 'V' then (Exits, s)
    else if opt == 'j' then
      (match Options.RequiredRead(got)
       case Err(m) => (Failed(m), s)
       case Ok(n) => (Accepted, s.(jobs := n)))
    else if opt == 'v' then (Accepted, s.(verbosity := s.verbosity + 1))
    else if s.command == Some(Rip) then
      var (v, rip) := RipShort(s.rip, opt, got, named);
      (v, s.(rip := rip))
    else if s.command == Some(Convert) then
      var (v, convert) := ConvertShort(s.convert, opt, got, named);
      (v, s.(convert := convert))
    else (Failed(IllegalShort(opt)), s)
  }

  /** The long names of rip's options. */
  const RipLongs: seq<(string, char)> := [("bitrate", 'b'), ("eject", 'e'), ("format", 'f'), ("path", 'p')]

  /** The long names of convert's options. */
  const ConvertLongs: seq<(string, char)> := [("bitrate", 'b'), ("format", 'f'), ("recursive", 'r'), ("update", 'u')]

  /** The letter of a global long option. */
  function GlobalLong(name: string): Option<char>
  {
    if name == "help" then Some('h')
    else if name == "jobs" then Some('j')
    else if name == "verbose" then Some('v')
    else if name == "version" then Some('V')
    else None
  }

  /**
   * `callbacks.long_option`: help, jobs, verbose and version act as their
   * letters; other names go through the command's table to the short
   * handler, and are illegal without a command that has one.
   */
  function Longed(s: Settings, name: string, got: Result<string>, named: string -> Option<EncodeFormat>): (r: (Verdict, Settings))
    ensures r.0 != Refused
  {
    match GlobalLong(name)
    case Some(c) => Shorted(s, c, got, named)
    case None =>
      var table := if s.command == Some(Rip) then RipLongs else if s.command == Some(Convert) then ConvertLongs else [];
      match Options.Lookup(table, name)
      case None => (Failed(IllegalLong(name)), s)
      case Some(c) => Shorted(s, c, got, named)
  }

  /** The long options help, jobs, verbose and version are -h, -j, -v and -V. */
  lemma {:induction false} GlobalLongAliases(s: Settings, got: Result<string>, named: string -> Option<EncodeFormat>)
    ensures Longed(s, "help", got, named) == Shorted(s, 'h', got, named)
    ensures Longed(s, "jobs", got, named) == Shorted(s, 'j', got, named)
    ensures Longed(s, "verbose", got, named) == Shorted(s, 'v', got, named)
    ensures Longed(s, "version", got, named) == Shorted(s, 'V', got, named)
  {
  }

  /** Under rip, --bitrate, --eject, --format and --path are -b, -e, -f and -p. */
  lemma {:induction false} RipLongAliases(s: Settings, got: Result<string>, named: string -> Option<EncodeFormat>)
    requires s.command == Some(Rip)
    ensures Longed(s, "bitrate", got, named) == Shorted(s, 'b', got, named)
    ensures Longed(s, "eject", got, named) == Shorted(s, 'e', got, named)
    ensures Longed(s, "format", got, named) == Shorted(s, 'f', got, named)
    ensures Longed(s, "path", got, named) == Shorted(s, 'p', got, named)
  {
  }

  /** Without rip or convert, any long name but the four global ones is illegal. */
  lemma {:induction false} OtherLongIllegal(s: Settings, name: string, got: Result<string>, named: string -> Option<EncodeFormat>)
    requires s.command != Some(Rip) && s.command != Some(Convert) && GlobalLong(name).None?
    ensures Longed(s, name, got, named) == (Failed(IllegalLong(name)), s)
  {
  }

  // ---------------------------------------------------------------------
  // The callbacks' shared state
  // ---------------------------------------------------------------------

  method RipOption(rip: RipOptions, opt: char, got: Result<string>, named: string -> Option<EncodeFormat>)
    returns (v: Verdict, after: RipOptions)
    ensures (v, after) == RipShort(rip, opt, got, named)
  {
    after := rip;
    match opt {
      case 'b' =>
        var done, encode := BitrateOption(rip.encode, got);
        return VerdictOf(done), rip.(encode := encode);
      case 'f' =>
        var done, encode := FormatOption(rip.encode, got, named);
        return VerdictOf(done), rip.(encode := encode);
      case 'p' =>
        if got.Err? {
          return Failed(got.msg), rip;
        }
        return Accepted, rip.(pathFormat := got.value);
      case 'e' =>
        return Accepted, rip.(eject := true);
      case _ =>
        return Failed(IllegalShort(opt)), rip;
    }
  }

  method ConvertOption(convert: ConvertOptions, opt: char, got: Result<string>, named: string -> Option<EncodeFormat>)
    returns (v: Verdict, after: ConvertOptions)
    ensures (v, after) == ConvertShort(convert, opt, got, named)
  {
    match opt {
      case 'b' =>
        var done, encode := BitrateOption(convert.encode, got);
        return VerdictOf(done), convert.(encode := encode);
      case 'f' =>
        var done, encode := FormatOption(convert.encode, got, named);
        return VerdictOf(done), convert.(encode := encode);
      case 'r' =>
        return Accepted, convert.(recursive := true);
      case 'u' =>
        return Accepted, convert.(update := true);
      case _ =>
        return Failed(IllegalShort(opt)), convert;
    }
  }

  class Invocation {
    var command: Option<Command>
    var jobs: int
    var verbosity: nat
    var printDisk: Option<string>
    var ejectDisk: Option<string>
    var rip: RipOptions
    var convert: ConvertOptions

    function Snapshot(): Settings
      reads this
    {
      Settings(command, jobs, verbosity, printDisk, ejectDisk, rip, convert)
    }

    constructor ()
      ensures Snapshot() == Initial()
    {
      command, jobs, verbosity, printDisk, ejectDisk := None, JobsDefault, 0, None, None;
      rip := RipOptions(None, "%k", false, Encode(None, 0));
      convert := ConvertOptions(None, None, false, false, Encode(None, 0));
    }

    /** `callbacks.argument`. */
    method Argument(arg: string) returns (v: Verdict)
      modifies this
      ensures (v, Snapshot()) == Argued(old(Snapshot()), arg)
    {
      if command.None? {
        var c := CommandNamed(arg);
        if c.None? {
          return Failed(arg + ": illegal command");
        }
        command := c;
        return Accepted;
      }
      match command.value {
        case Print =>
          if printDisk.None? {
            printDisk := Some(arg);
            return Accepted;
          }
        case Eject =>
          if ejectDisk.None? {
            ejectDisk := Some(arg);
            return Accepted;
          }
        case Rip =>
          if rip.disk.None? {
            rip := rip.(disk := Some(arg));
            return Accepted;
          }
        case Convert =>
          if convert.input.None? {
            convert := convert.(input := Some(arg));
            return Accepted;
          } else if convert.output.None? {
            convert := convert.(output := Some(arg));
            return Accepted;
          }
        case _ =>
      }
      return Failed(TooMany);
    }

    /** `callbacks.short_option`. */
    method ShortOption(opt: char, got: Result<string>, named: string -> Option<EncodeFormat>) returns (v: Verdict)
      modifies this
      ensures (v, Snapshot()) == Shorted(old(Snapshot()), opt, got, named)
    {
      if opt == 'h' || opt == 'V' {
        return Exits;
      } else if opt == 'j' {
        var r, stored := Options.RequireInteger(jobs, got);
        jobs := stored;
        return if r.Ok? then Accepted else Failed(r.msg);
      } else if opt == 'v' {
        verbosity := verbosity + 1;
        return Accepted;
      } else if command == Some(Rip) {
        v, rip := RipOption(rip, opt, got, named);
      } else if command == Some(Convert) {
        v, convert := ConvertOption(convert, opt, got, named);
      } else {
        return Failed(IllegalShort(opt));
      }
    }

    /** `callbacks.long_option`. */
    method LongOption(name: string, got: Result<string>, named: string -> Option<EncodeFormat>) returns (v: Verdict)
      modifies this
      ensures (v, Snapshot()) == Longed(old(Snapshot()), name, got, named)
    {
      var global := GlobalLong(name);
      if global.Some? {
        v := ShortOption(global.value, got, named);
        return;
      }
      var table := if command == Some(Rip) then RipLongs else if command == Some(Convert) then ConvertLongs else [];
      var c := Options.LongOption(table, name);
      if c.Err? {
        return Failed(IllegalLong(name));
      }
      v := ShortOption(c.value, got, named);
    }
  }

  // ---------------------------------------------------------------------
  // Whole command lines
  // ---------------------------------------------------------------------

  /** One callback as the tokenizer makes it. */
  datatype Call =
    | ArgumentCall(arg: string)
    | ShortCall(opt: char, got: Result<string>)
    | LongCall(name: string, got: Result<string>)

  function Called(s: Settings, call: Call, named: string -> Option<EncodeFormat>): (r: (Verdict, Settings))
    ensures r.0 != Refused
  {
    match call
    case ArgumentCall(arg) => Argued(s, arg)
    case ShortCall(opt, got) => Shorted(s, opt, got, named)
    case LongCall(name, got) => Longed(s, name, got, named)
  }

  /** The calls in order; the tokenizer stops at the first one that does not return true. */
  function Dispatched(s: Settings, calls: seq<Call>, named: string -> Option<EncodeFormat>): (Verdict, Settings)
    decreases |calls|
  {
    if calls == [] then (Accepted, s)
    else
      var (v, next) := Called(s, calls[0], named);
      if v == Accepted then Dispatched(next, calls[1..], named) else (v, next)
  }

  /** `EX_USAGE` from sysexits.h. */
  const EX_USAGE: int := 64

  /** How the process ends: an exit status with the reported message, a command run, or no end at all. */
  datatype Ending = Exit(status: int, message: Option<string>) | Run(command: Command) | Hang

  /**
   * The block that runs after the tokenizer. A reported error reaches
   * `done`, which exits with status 1; the tokenizer failing without a
   * report leaves `dispatch_main` waiting forever; no command is the usage
   * text with EX_USAGE.
   */
  function Ended(v: Verdict, s: Settings): (e: Ending)
    ensures e.Hang? <==> v == Refused
  {
    match v
    case Failed(m) => Exit(1, Some(m))
    case Refused => Hang
    case Exits => Exit(0, None)
    case Accepted =>
      match s.command
      case None => Exit(EX_USAGE, None)
      case Some(c) => Run(c)
  }

  /** No callback modelled here returns false without a message, so every command line ends. */
  lemma {:induction false} DispatchedEnds(s: Settings, calls: seq<Call>, named: string -> Option<EncodeFormat>)
    decreases |calls|
    ensures Dispatched(s, calls, named).0 != Refused
    ensures !Ended(Dispatched(s, calls, named).0, Dispatched(s, calls, named).1).Hang?
  {
    if calls != [] {
      var (v, next) := Called(s, calls[0], named);
      if v == Accepted {
        DispatchedEnds(next, calls[1..], named);
      }
    }
  }

  /** The first positional selects one of the six commands; any other word is an illegal command. */
  lemma {:induction false} FirstPositional(arg: string, named: string -> Option<EncodeFormat>)
    ensures arg in CommandNames ==>
      Dispatched(Initial(), [ArgumentCall(arg)], named) == (Accepted, Initial().(command := CommandNamed(arg)))
    ensures arg !in CommandNames ==>
      Ended(Dispatched(Initial(), [ArgumentCall(arg)], named).0, Initial()) == Exit(1, Some(arg + ": illegal command"))
  {
  }

  /** One call, then the rest if it was accepted. */
  lemma {:induction false} DispatchedCons(s: Settings, call: Call, rest: seq<Call>, named: string -> Option<EncodeFormat>)
    ensures Dispatched(s, [call] + rest, named) ==
      if Called(s, call, named).0 == Accepted then Dispatched(Called(s, call, named).1, rest, named)
      else Called(s, call, named)
  {
    assert ([call] + rest)[1..] == rest;
  }

  /** rip takes one device; a second positional is "too many arguments". */
  lemma {:induction false} RipOneDevice(d: string, e: string, named: string -> Option<EncodeFormat>)
    ensures Dispatched(Initial(), [ArgumentCall("rip"), ArgumentCall(d)], named).1.rip.disk == Some(d)
    ensures Dispatched(Initial(), [ArgumentCall("rip"), ArgumentCall(d), ArgumentCall(e)], named).0 == Failed(TooMany)
  {
    var s1 := Initial().(command := Some(Rip));
    var s2 := s1.(rip := s1.rip.(disk := Some(d)));
    DispatchedCons(s2, ArgumentCall(e), [], named);
    DispatchedCons(s2, ArgumentCall(e), [], named);
    DispatchedCons(s1, ArgumentCall(d), [], named);
    DispatchedCons(s1, ArgumentCall(d), [ArgumentCall(e)], named);
    DispatchedCons(Initial(), ArgumentCall("rip"), [ArgumentCall(d)], named);
    DispatchedCons(Initial(), ArgumentCall("rip"), [ArgumentCall(d), ArgumentCall(e)], named);
  }

  /** convert takes the input, then the output; a third positional is "too many arguments". */
  lemma {:induction false} ConvertInputThenOutput(a: string, b: string, c: string, named: string -> Option<EncodeFormat>)
    ensures var (v, s) := Dispatched(Initial(), [ArgumentCall("convert"), ArgumentCall(a), ArgumentCall(b)], named);
      v == Accepted && s.convert.input == Some(a) && s.convert.output == Some(b)
    ensures Dispatched(Initial(), [ArgumentCall("convert"), ArgumentCall(a), ArgumentCall(b), ArgumentCall(c)], named).0
      == Failed(TooMany)
  {
    var s1 := Initial().(command := Some(Convert));
    var s2 := s1.(convert := s1.convert.(input := Some(a)));
    var s3 := s2.(convert := s2.convert.(output := Some(b)));
    DispatchedCons(s3, ArgumentCall(c), [], named);
    DispatchedCons(s2, ArgumentCall(b), [], named);
    DispatchedCons(s2, ArgumentCall(b), [ArgumentCall(c)], named);
    DispatchedCons(s1, ArgumentCall(a), [ArgumentCall(b)], named);
    DispatchedCons(s1, ArgumentCall(a), [ArgumentCall(b), ArgumentCall(c)], named);
    DispatchedCons(Initial(), ArgumentCall("convert"), [ArgumentCall(a), ArgumentCall(b)], named);
    DispatchedCons(Initial(), ArgumentCall("convert"), [ArgumentCall(a), ArgumentCall(b), ArgumentCall(c)], named);
  }

  /** ls and watch take no positional at all. */
  lemma {:induction false} NoArgumentHandler(c: string, arg: string, named: string -> Option<EncodeFormat>)
    requires c == "ls" || c == "watch"
    ensures Dispatched(Initial(), [ArgumentCall(c), ArgumentCall(arg)], named).0 == Failed(TooMany)
  {
    assert [ArgumentCall(c), ArgumentCall(arg)][1..] == [ArgumentCall(arg)];
  }

  /** A second device for print or eject is "too many arguments", and the process exits with status 1. */
  lemma {:induction false} SecondDeviceFails(s: Settings, arg: string)
    requires s.command == Some(Print) && s.printDisk.Some?
    ensures Argued(s, arg) == (Failed(TooMany), s)
    ensures Ended(Argued(s, arg).0, s) == Exit(1, Some(TooMany))
  {
  }

  /**
   * As written, print's and eject's handlers return false for a second
   * device without reporting anything: the tokenizer stops, `done` is never
   * called and the process never exits.
   */
  lemma {:induction false} SecondDeviceHangsAsWritten(s: Settings, arg: string)
    requires s.command == Some(Print) && s.printDisk.Some?
    ensures var (v, disk) := DeviceArgumentAsWritten(s.printDisk, arg);
      Ended(v, s.(printDisk := disk)) == Hang
  {
  }

  /** rip's -p sets the output path format, and a device can still follow. */
  lemma {:induction false} RipPathOption(f: string, d: string, named: string -> Option<EncodeFormat>)
    ensures var (v, s) := Dispatched(Initial(), [ArgumentCall("rip"), ShortCall('p', Ok(f)), ArgumentCall(d)], named);
      v == Accepted && s.rip.pathFormat == f && s.rip.disk == Some(d)
  {
    var s1 := Initial().(command := Some(Rip));
    var s2 := s1.(rip := s1.rip.(pathFormat := f));
    DispatchedCons(s2, ArgumentCall(d), [], named);
    DispatchedCons(s1, ShortCall('p', Ok(f)), [ArgumentCall(d)], named);
    DispatchedCons(Initial(), ArgumentCall("rip"), [ShortCall('p', Ok(f)), ArgumentCall(d)], named);
  }

  /**
   * As written, rip's -p stores its value as the device: the path format
   * stays "%k", and a device given after it is "too many arguments".
   */
  lemma {:induction false} RipPathSetsDeviceAsWritten(f: string, d: string)
    ensures var s := Initial().(command := Some(Rip));
      var (v, rip) := RipPathAsWritten(s.rip, Ok(f));
      v == Accepted && rip.disk == Some(f) && rip.pathFormat == "%k" &&
      Argued(s.(rip := rip), d).0 == Failed(TooMany)
  {
  }

  // ---------------------------------------------------------------------
  // The default disc
  // ---------------------------------------------------------------------

  /**
   * `rsvc_default_disk`: the discs the watcher reports before it is
   * initialized; exactly one is the default.
   */
  function DefaultDiskOf(appeared: seq<string>): (r: Result<string>)
    ensures r.Ok? <==> |appeared| == 1
    ensures r.Ok? ==> r.value == appeared[0]
  {
    if |appeared| > 1 then Err(Decimal(|appeared|) + " discs available")
    else if |appeared| == 0 then Err("no discs available")
    else Ok(appeared[0])
  }

  /** The `appeared` callback counts the discs and keeps the first path; `initialized` decides. */
  method DefaultDisk(appeared: seq<string>) returns (r: Result<string>)
    ensures r == DefaultDiskOf(appeared)
  {
    var ndisks := 0;
    var disk: Option<string> := None;
    for i := 0 to |appeared|
      invariant ndisks == i
      invariant disk == if i == 0 then None else Some(appeared[0])
    {
      ndisks := ndisks + 1;
      if disk.None? {
        disk := Some(appeared[i]);
      }
    }
    if ndisks > 1 {
      return Err(Decimal(ndisks) + " discs available");
    } else if ndisks == 0 {
      return Err("no discs available");
    }
    return Ok(disk.value);
  }
}

/**
 * `rsvc info FILE...`, src/bin/rsvc_info.c: one line per file with its
 * duration, channels, container format, bit depth and sample rate, the
 * paths padded to a common width. Opening, detecting the format and
 * reading its audio info are the outside world's answers for each path,
 * passed in as the function `probe`; the output is the sequence of lines.
 */
module InfoCommand {
  import opened Common
  import Wav

  /** A detected format: its name and whether it has an `audio_info` reader. */
  datatype FileFormat = FileFormat(name: string, hasAudioInfo: bool)

  /** What `rsvc_open`, `rsvc_format_detect` and the format's `audio_info` answer for one path. */
  datatype Probe = Probe(open: Result<()>, detected: Result<FileFormat>, info: Result<Wav.AudioInfo>)

  /** `options.paths`: the positionals, in order. */
  class InfoOptions {
    var paths: seq<string>

    constructor ()
      ensures paths == []
    {
      paths := [];
    }

    /** `callbacks.argument`: every positional is an input file. */
    method Argument(arg: string) returns (accepted: bool)
      modifies this
      ensures accepted && paths == old(paths) + [arg]
    {
      paths := paths + [arg];
      accepted := true;
    }
  }

  // ---------------------------------------------------------------------
  // Width and padding

  /** The length of the longest path, 0 for none. */
  function Widest(paths: seq<string>): (w: nat)
    ensures forall i :: 0 <= i < |paths| ==> |paths[i]| <= w
    ensures paths == [] ==> w == 0
    ensures paths != [] ==> exists i :: 0 <= i < |paths| && |paths[i]| == w
  {
    if paths == [] then 0
    else
      var w := Widest(paths[..|paths| - 1]);
      var last := |paths[|paths| - 1]|;
      if last > w then last else w
  }

  /** The first loop of `run`: the longest path's length. */
  method Width(paths: seq<string>) returns (w: nat)
    ensures w == Widest(paths)
  {
    w := 0;
    var i := 0;
    while i < |paths|
      invariant 0 <= i <= |paths|
      invariant w == Widest(paths[..i])
    {
      assert paths[..i + 1][..i] == paths[..i];
      if |paths[i]| > w {
        w := |paths[i]|;
      }
      i := i + 1;
    }
    assert paths[..i] == paths;
  }

  function Spaces(n: nat): (r: string)
    ensures |r| == n && forall k :: 0 <= k < n ==> r[k] == ' '
  {
    seq(n, _ => ' ')
  }

  /** The path, ": ", then a space for each character it falls short of the width. */
  function Padded(path: string, width: nat): (r: string)
    ensures |path| <= width ==> |r| == width + 2
    ensures |path| >= width ==> r == path + ": "
    ensures r[..|path| + 2] == path + ": "
    ensures forall k :: |path| + 2 <= k < |r| ==> r[k] == ' '
  {
    var r := path + ": " + Spaces(if |path| < width then width - |path| else 0);
    assert r[..|path| + 2] == path + ": ";
    r
  }

  // ---------------------------------------------------------------------
  // Duration

  datatype Clock = Clock(hours: nat, minutes: nat, seconds: nat, millis: nat)

  /** The milliseconds of the audio, rounded down; a zero rate is taken as no time. */
  function Millis(info: Wav.AudioInfo): nat
  {
    if info.sampleRate == 0 then 0 else (1000 * info.samplesPerChannel) / info.sampleRate
  }

  /** Hours, minutes, seconds and milliseconds of a duration in milliseconds. */
  function ClockOf(ms: nat): (c: Clock)
    ensures c.minutes < 60 && c.seconds < 60 && c.millis < 1000
    ensures ms == ((c.hours * 60 + c.minutes) * 60 + c.seconds) * 1000 + c.millis
  {
    var s := ms / 1000;
    var m := s / 60;
    var c := Clock(m / 60, m % 60, s % 60, ms % 1000);
    assert m == c.hours * 60 + c.minutes;
    assert s == m * 60 + c.seconds;
    assert ms == s * 1000 + c.millis;
    c
  }

  /** `h:mm:ss.mmm` when there are hours, else `m:ss.mmm`. */
  function ClockText(c: Clock): string
  {
    if c.hours != 0 then
      Decimal(c.hours) + ":" + ZeroPadded(c.minutes, 2) + ":" + ZeroPadded(c.seconds, 2) + "." + ZeroPadded(c.millis, 3)
    else
      Decimal(c.minutes) + ":" + ZeroPadded(c.seconds, 2) + "." + ZeroPadded(c.millis, 3)
  }

  lemma {:induction false} NoColonInDigits(s: string)
    requires AllDigits(s)
    ensures multiset(s)[':'] == 0
  {
    assert forall i :: 0 <= i < |s| ==> s[i] != ':' by {
      forall i | 0 <= i < |s|
        ensures s[i] != ':'
      {
        assert IsDigit(s[i]);
      }
    }
    assert ':' !in s;
  }

  /** The hour field is printed, as a third field, exactly when the duration reaches an hour. */
  lemma {:induction false} ClockFields(ms: nat)
    ensures multiset(ClockText(ClockOf(ms)))[':'] == if ms >= 3600000 then 2 else 1
  {
    var c := ClockOf(ms);
    NoColonInDigits(Decimal(c.hours));
    NoColonInDigits(Decimal(c.minutes));
    NoColonInDigits(ZeroPadded(c.minutes, 2));
    NoColonInDigits(ZeroPadded(c.seconds, 2));
    NoColonInDigits(ZeroPadded(c.millis, 3));
    assert c.hours != 0 <==> ms >= 3600000;
  }

  // ---------------------------------------------------------------------
  // Channels

  /** " mono", " stereo", or " n-channel". */
  function ChannelsText(n: nat): string
  {
    if n == 1 then " mono" else if n == 2 then " stereo" else " " + Decimal(n) + "-channel"
  }

  /** Reads a channel count back from its words. */
  function ChannelsRead(t: string): Option<nat>
  {
    if t == " mono" then Some(1)
    else if t == " stereo" then Some(2)
    else if |t| >= 10 && t[0] == ' ' && t[|t| - 8..] == "-channel" && AllDigits(t[1..|t| - 8]) then
      Some(DecimalValue(t[1..|t| - 8]))
    else None
  }

  /** The words give back the channel count. */
  lemma {:induction false} ChannelsRoundTrip(n: nat)
    ensures ChannelsRead(ChannelsText(n)) == Some(n)
  {
    if n != 1 && n != 2 {
      var d := Decimal(n);
      var t := " " + d + "-channel";
      assert t[1..|t| - 8] == d;
      assert t[|t| - 8..] == "-channel";
      DecimalRoundTrip(n);
      assert t != " mono" && t != " stereo" by { assert t[|t| - 1] == 'l'; }
    }
  }

  // ---------------------------------------------------------------------
  // Sample rate

  function Pow10(n: nat): (r: nat)
    ensures r >= 1
  {
    if n == 0 then 1 else 10 * Pow10(n - 1)
  }

  /** The kHz, the digits after the point and how many there are. */
  datatype RateParts = RateParts(khz: nat, fraction: nat, places: nat)

  /** `khz` and `hz`, and the decimals `rsvc info` keeps of `hz`. */
  function RateOf(rate: nat): (r: RateParts)
    ensures r.places <= 3 && r.fraction < Pow10(r.places)
    ensures r.places > 0 ==> r.fraction % 10 != 0
    ensures rate == r.khz * 1000 + r.fraction * Pow10(3 - r.places)
  {
    var khz := rate / 1000;
    var hz := rate % 1000;
    assert rate == khz * 1000 + hz;
    if hz % 10 != 0 then RateParts(khz, hz, 3)
    else if hz % 100 != 0 then
      TwoPlaces(hz);
      RateParts(khz, hz / 10, 2)
    else if hz % 1000 != 0 then
      OnePlace(hz);
      RateParts(khz, hz / 100, 1)
    else
      RateParts(khz, 0, 0)
  }

  /** Hertz ending in one zero keep two decimals. */
  lemma {:induction false} TwoPlaces(hz: nat)
    requires hz < 1000 && hz % 10 == 0 && hz % 100 != 0
    ensures hz == (hz / 10) * 10 && hz / 10 < 100 && (hz / 10) % 10 != 0
  {
    var t := hz / 10;
    assert hz == t * 10;
    assert t == (t / 10) * 10 + t % 10;
    assert hz == (t / 10) * 100 + (t % 10) * 10;
    assert hz % 100 == (t % 10) * 10;
  }

  /** Hertz ending in two zeros keep one decimal. */
  lemma {:induction false} OnePlace(hz: nat)
    requires hz < 1000 && hz % 100 == 0 && hz != 0
    ensures hz == (hz / 100) * 100 && 0 < hz / 100 < 10
  {
  }

  /** ` K kHz`, or ` K.D kHz` with one to three decimals. */
  function RateText(rate: nat): string
  {
    var r := RateOf(rate);
    " " + Decimal(r.khz) + (if r.places == 0 then "" else "." + ZeroPadded(r.fraction, r.places)) + " kHz"
  }

  // ---------------------------------------------------------------------
  // One file

  /** The line `print_info` prints once the format and audio info are known. */
  function InfoLine(path: string, width: nat, format: FileFormat, info: Wav.AudioInfo): (r: string)
    ensures |r| > |Padded(path, width)| && r[..|Padded(path, width)|] == Padded(path, width)
    ensures r[|r| - 1] == '\n'
  {
    var head := Padded(path, width);
    var tail := ClockText(ClockOf(Millis(info))) + ChannelsText(info.channels) + " " + format.name
      + " (" + Decimal(info.bitsPerSample) + "-bit," + RateText(info.sampleRate) + ")\n";
    assert (head + tail)[..|head|] == head;
    head + tail
  }

  /**
   * `print_info` for an opened file: the detection error, a format that
   * cannot give audio info, or that reader's error, each prefixed with the
   * path; otherwise its line.
   */
  function PrintInfo(path: string, width: nat, p: Probe): (r: Result<string>)
    ensures p.detected.Err? ==> r == Err(path + ": " + p.detected.msg)
    ensures p.detected.Ok? && !p.detected.value.hasAudioInfo ==>
      r == Err(path + ": can't get audio info for " + p.detected.value.name + " file")
    ensures r.Ok? <==> p.detected.Ok? && p.detected.value.hasAudioInfo && p.info.Ok?
  {
    match p.detected
    case Err(m) => Err(path + ": " + m)
    case Ok(f) =>
      if !f.hasAudioInfo then Err(path + ": can't get audio info for " + f.name + " file")
      else match p.info
        case Err(m) => Err(path + ": " + m)
        case Ok(info) => Ok(InfoLine(path, width, f, info))
  }

  /** One turn of the second loop: the open error as it is, or `print_info`. */
  function Step(path: string, width: nat, p: Probe): Result<string>
  {
    if p.open.Err? then Err(p.open.msg) else PrintInfo(path, width, p)
  }

  /** The step for each path: the open error, or `print_info` at `width`. */
  function Stepper(width: nat, probe: string -> Probe): (f: string -> Result<string>)
    ensures forall p :: f(p) == Step(p, width, probe(p))
  {
    p => Step(p, width, probe(p))
  }

  /** The lines of the paths, each from `step`, until the first that fails, and that failure. */
  function Listed(paths: seq<string>, step: string -> Result<string>): (r: (seq<string>, Result<()>))
  {
    if paths == [] then ([], Ok(()))
    else
      var (lines, result) := Listed(paths[..|paths| - 1], step);
      if result.Err? then (lines, result)
      else match step(paths[|paths| - 1])
        case Err(m) => (lines, Err(m))
        case Ok(line) => (lines + [line], Ok(()))
  }

  /** `run`: no inputs is an error; otherwise each path's step at the widest path's width. */
  function Run(paths: seq<string>, probe: string -> Probe): (r: (seq<string>, Result<()>))
    ensures paths == [] ==> r == ([], Err("no input files"))
  {
    if paths == [] then ([], Err("no input files"))
    else
      Listed(paths, Stepper(Widest(paths), probe))
  }

  /**
   * The listing stops at the first failing file: the files before it each
   * have their line, in order, and the error is that file's.
   */
  lemma {:induction false} ListedShape(paths: seq<string>, step: string -> Result<string>)
    ensures |Listed(paths, step).0| <= |paths|
    ensures forall k :: 0 <= k < |Listed(paths, step).0| ==> step(paths[k]) == Ok(Listed(paths, step).0[k])
    ensures Listed(paths, step).1.Ok? <==> |Listed(paths, step).0| == |paths|
    ensures Listed(paths, step).1.Err? ==> step(paths[|Listed(paths, step).0|]) == Err(Listed(paths, step).1.msg)
  {
    if paths != [] {
      var init := paths[..|paths| - 1];
      ListedShape(init, step);
      forall k | 0 <= k < |init|
        ensures paths[k] == init[k]
      {
      }
    }
  }

  /** When every file reads, each line starts with its path padded to the widest, so the columns line up. */
  lemma Aligned(paths: seq<string>, probe: string -> Probe, k: nat)
    requires k < |paths|
    requires Run(paths, probe).1.Ok?
    ensures |Run(paths, probe).0| == |paths|
    ensures var line := Run(paths, probe).0[k];
      |line| > Widest(paths) + 2 && line[..Widest(paths) + 2] == paths[k] + ": " + Spaces(Widest(paths) - |paths[k]|)
  {
    var w := Widest(paths);
    var step := Stepper(w, probe);
    assert Run(paths, probe) == Listed(paths, step);
    ListedShape(paths, step);
    var line := Listed(paths, step).0[k];
    assert step(paths[k]) == Ok(line);
    assert Step(paths[k], w, probe(paths[k])) == Ok(line);
    StepPadded(paths[k], w, probe(paths[k]));
  }

  /** A file's line starts with its padded path. */
  lemma {:induction false} StepPadded(path: string, width: nat, p: Probe)
    requires |path| <= width && Step(path, width, p).Ok?
    ensures var line := Step(path, width, p).value;
      |line| > width + 2 && line[..width + 2] == path + ": " + Spaces(width - |path|)
  {
    var line := InfoLine(path, width, p.detected.value, p.info.value);
    assert Step(path, width, p).value == line;
  }

  /** `run`: the width loop, then one `print_info` per path until one fails. */
  method RunInfo(paths: seq<string>, probe: string -> Probe) returns (lines: seq<string>, result: Result<()>)
    ensures lines == Run(paths, probe).0
    ensures result == Run(paths, probe).1
  {
    if paths == [] {
      return [], Err("no input files");
    }
    var width := Width(paths);
    lines, result := ListAll(paths, width, probe);
  }

  /** The second loop of `run`, at a given width. */
  method ListAll(paths: seq<string>, width: nat, probe: string -> Probe) returns (lines: seq<string>, result: Result<()>)
    ensures lines == Listed(paths, Stepper(width, probe)).0
    ensures result == Listed(paths, Stepper(width, probe)).1
  {
    ghost var step := Stepper(width, probe);
    lines := [];
    var i := 0;
    while i < |paths|
      invariant 0 <= i <= |paths|
      invariant Listed(paths[..i], step) == (lines, Ok(()))
    {
      var line := StepOne(paths[i], width, probe(paths[i]));
      assert step(paths[i]) == line;
      ListedNext(paths, step, i, lines);
      if line.Err? {
        ListedStops(paths, step, i + 1);
        return lines, Err(line.msg);
      }
      lines := lines + [line.value];
      i := i + 1;
    }
    assert paths[..i] == paths;
    result := Ok(());
  }

  /** One turn of the second loop. */
  method StepOne(path: string, width: nat, p: Probe) returns (r: Result<string>)
    ensures r == Step(path, width, p)
  {
    if p.open.Err? {
      return Err(p.open.msg);
    }
    r := PrintInfo(path, width, p);
  }

  /** One more path extends the listing by its line, or ends it with its error. */
  lemma {:induction false} ListedNext(paths: seq<string>, step: string -> Result<string>, i: nat, lines: seq<string>)
    requires i < |paths| && Listed(paths[..i], step) == (lines, Ok(()))
    ensures step(paths[i]).Ok? ==> Listed(paths[..i + 1], step) == (lines + [step(paths[i]).value], Ok(()))
    ensures step(paths[i]).Err? ==> Listed(paths[..i + 1], step) == (lines, Err(step(paths[i]).msg))
  {
    assert paths[..i + 1][..i] == paths[..i];
  }

  /** Once the listing has failed, later paths change nothing. */
  lemma {:induction false} ListedStops(paths: seq<string>, step: string -> Result<string>, n: nat)
    requires n <= |paths| && Listed(paths[..n], step).1.Err?
    ensures Listed(paths, step) == Listed(paths[..n], step)
    decreases |paths| - n
  {
    if n < |paths| {
      assert paths[..n + 1][..n] == paths[..n];
      ListedStops(paths, step, n + 1);
    } else {
      assert paths[..n] == paths;
    }
  }
}

/**
 * The configuration logic of src/rsvc/core-audio.c: four-character codes
 * for error messages, and the order of Core Audio calls that
 * `core_audio_encode` makes before it starts encoding. Each Core Audio call
 * is represented by the status it returns (0 for `noErr`).
 */
module CoreAudio {
  import opened Common

  /** `kAudioFormatAppleLossless`, the four-character code 'alac'. */
  const AppleLossless: nat := 0x616c6163
  /** `kAppleLosslessFormatFlag_16BitSourceData`. */
  const Flag16BitSource: nat := 1

  /** `fourcc`: the four bytes of a 32-bit value, most significant first, then a NUL. */
  function FourCC(v: nat): (r: seq<byte>)
    requires v < UINT32_LIMIT
    ensures |r| == 5 && r[4] == 0
    ensures r[..4] == BigEndianBytes(v, 4)
  {
    BigEndianBytes(v, 4) + [0]
  }

  /** Reading the four bytes back big-endian gives the value. */
  lemma {:induction false} FourCCRoundTrip(v: nat)
    requires v < UINT32_LIMIT
    ensures BigEndian(FourCC(v)[..4]) == v
  {
    BigEndianRoundTrip(v, 4);
  }

  /** The message of every failing Core Audio call. */
  function StatusMessage(status: nat): string
    requires status < UINT32_LIMIT
  {
    "some error: " + CString(FourCC(status))
  }

  /** A status that spells four printable characters prints them all. */
  lemma {:induction false} StatusMessageSpells(status: nat)
    requires status < UINT32_LIMIT
    requires forall i :: 0 <= i < 4 ==> FourCC(status)[i] != 0
    ensures |StatusMessage(status)| == |"some error: "| + 4
  {
  }

  /** The Core Audio calls of `core_audio_encode`, in the order made. */
  datatype Call = InitializeFile | WrapFile | SetClientFormat | GetConverter | SetBitRate | GetConverterSettings | SetConverterConfig

  /** What is released on a failing exit: the extended file, then the audio file. */
  datatype Release = DisposeExtFile | CloseFile

  /** The calls made before encoding: the converter bit rate is configured for lossy codecs only. */
  function Plan(codec: nat): (r: seq<Call>)
    ensures SetBitRate in r <==> codec != AppleLossless
  {
    [InitializeFile, WrapFile, SetClientFormat] +
    (if codec == AppleLossless then [] else [GetConverter, SetBitRate, GetConverterSettings, SetConverterConfig])
  }

  /** The output stream description's format flags. */
  function OutputFlags(codec: nat): nat
  {
    if codec == AppleLossless then Flag16BitSource else 0
  }

  /** What the configuration phase did: the calls made, what it released, and the outcome. */
  datatype Outcome = Outcome(calls: seq<Call>, released: seq<Release>, result: Result<()>)

  /**
   * `core_audio_encode` up to the encoding loop. `validation` is the result
   * of `rsvc_audio_info_validate` (checked before any file work), `status`
   * gives each call's return code, and `converterNull` says whether the
   * converter query hands back NULL.
   */
  function Configure(codec: nat, validation: Result<()>, status: Call -> nat, converterNull: bool): (r: Outcome)
    requires forall c :: status(c) < UINT32_LIMIT
    ensures validation.Err? ==> r == Outcome([], [], validation)
    ensures r.calls <= Plan(codec)
    ensures validation.Ok? && r.result.Ok? ==> r.calls == Plan(codec) && r.released == []
    ensures validation.Ok? && r.result.Err? ==> r.calls != []
    ensures validation.Ok? && r.result.Err? ==> r.released == Releases(r.calls[..|r.calls| - 1])
  {
    if validation.Err? then Outcome([], [], validation)
    else Run(Plan(codec), [], status, converterNull)
  }

  /** The cleanup block in force once the calls in `done` have succeeded. */
  function Releases(done: seq<Call>): seq<Release>
  {
    if WrapFile in done then [DisposeExtFile, CloseFile]
    else if InitializeFile in done then [CloseFile]
    else []
  }

  /**
   * The calls in `todo` made one by one after the calls in `done`: the first
   * failing status, or a NULL converter, stops the run and releases what
   * the calls already made have set up.
   */
  function Run(todo: seq<Call>, done: seq<Call>, status: Call -> nat, converterNull: bool): (r: Outcome)
    requires forall c :: status(c) < UINT32_LIMIT
    ensures done <= r.calls && r.calls <= done + todo
    ensures r.result.Ok? ==> r.calls == done + todo && r.released == []
    ensures r.result.Err? ==> |r.calls| > |done| && r.released == Releases(r.calls[..|r.calls| - 1])
    decreases |todo|
  {
    if todo == [] then Outcome(done, [], Ok(()))
    else
      var call := todo[0];
      var next := done + [call];
      Extend(done, call, todo);
      if status(call) != 0 then
        Outcome(next, Releases(done), Err(StatusMessage(status(call))))
      else if call == GetConverter && converterNull then
        Outcome(next, Releases(done), Err(StatusMessage(0)))
      else
        var r := Run(todo[1..], next, status, converterNull);
        PrefixTransitive(done, next, r.calls);
        r
  }

  /** Making the first call of `todo` after `done`. */
  lemma {:induction false} Extend(done: seq<Call>, call: Call, todo: seq<Call>)
    requires todo != [] && call == todo[0]
    ensures done <= done + [call] && (done + [call])[..|done|] == done
    ensures done + [call] <= done + todo && (done + [call]) + todo[1..] == done + todo
  {
    assert todo == [call] + todo[1..];
  }

  lemma {:induction false} PrefixTransitive(a: seq<Call>, b: seq<Call>, c: seq<Call>)
    requires a <= b && b <= c
    ensures a <= c
  {
  }

  /** Apple Lossless gets the 16-bit-source flag and never has its bit rate configured. */
  lemma {:induction false} AppleLosslessConfiguration(validation: Result<()>, status: Call -> nat, converterNull: bool)
    requires forall c :: status(c) < UINT32_LIMIT
    ensures OutputFlags(AppleLossless) == Flag16BitSource
    ensures SetBitRate !in Configure(AppleLossless, validation, status, converterNull).calls
  {
  }

  /** A lossy codec whose calls all succeed has its bit rate configured. */
  lemma {:induction false} LossyConfiguration(codec: nat, status: Call -> nat)
    requires codec != AppleLossless && forall c :: status(c) == 0
    ensures Configure(codec, Ok(()), status, false).result.Ok?
    ensures SetBitRate in Configure(codec, Ok(()), status, false).calls
  {
    AllSucceed(Plan(codec), [], status);
  }

  lemma {:induction false} AllSucceed(todo: seq<Call>, done: seq<Call>, status: Call -> nat)
    requires forall c :: status(c) == 0
    ensures Run(todo, done, status, false) == Outcome(done + todo, [], Ok(()))
    decreases |todo|
  {
    if todo != [] {
      AllSucceed(todo[1..], done + [todo[0]], status);
      assert done + [todo[0]] + todo[1..] == done + todo;
    }
  }
}

/**
 * The option handlers of the `cloak` tag editor (`src/bin/cloak_options.c`).
 * They accumulate the requested operations in a `struct ops`: tag removals
 * and additions, image operations, listing and move settings and the path
 * formats used by `--move`. `cloak_mode` then decides whether files are
 * opened for writing, for reading, or not at all.
 *
 * The handlers are the callbacks `cloak_options` gives to the tokenizer
 * (module Options). Each receives what its `get_value` block would return,
 * as `got`, and looks at it only where the C handler calls `get_value`.
 */
module CloakOptions {
  import opened Common
  import Tag
  import Options

  /** The default format of `--move` (`DEFAULT_PATH`). */
  const DefaultPath: string := "./%b/%A/%d%k%t"

  /** The tag that `--movie`, `--tv` and the type paths look at (`RSVC_MEDIAKIND`). */
  const MediaKindTag: string := "MEDIAKIND"

  /** The groups a format belongs to (`enum rsvc_format_group`). */
  datatype FormatGroup = Audio | Video | Image

  /** `rsvc_format_group_name`. */
  function GroupName(g: FormatGroup): string
  {
    match g
    case Audio => "audio"
    case Video => "video"
    case Image => "image"
  }

  /** The kinds of `--path` rule, from least to most specific (`enum fpath_priority`). */
  datatype Priority = Default | All | Group(group: FormatGroup) | MediaKind(kind: string)

  function Rank(p: Priority): nat
  {
    match p
    case Default => 0
    case All => 1
    case Group(_) => 2
    case MediaKind(_) => 3
  }

  /** A `--path` or `--TYPE-path` rule. */
  datatype PathRule = PathRule(priority: Priority, path: string)

  datatype ListMode = NoListing | ShortListing | LongListing

  /** What `cloak_mode` returns: `RSVC_TAG_RDWR`, `RSVC_TAG_RDONLY` or -1. */
  datatype Mode = ReadWrite | ReadOnly | NoActions

  /** Whether a handler lets the parse go on, or prints and exits the program (help, formats, version). */
  datatype Flow = Continue | Exit

  /** The cases of the handler switch (`enum short_flag` and the tag codes). */
  datatype Flag =
    | Help | Formats | DryRun | Verbose | Version
    | List | ListImages | Remove | RemoveAll | Add | SetTag
    | Movie | Tv
    | AddImageReplacing | WriteImage | WriteImageDefault | SelectImage
    | RemoveImage | RemoveAllImages | AddImage
    | Auto | Move | PathFlag
    | Shorthand(code: char)

  /** The short option characters of `enum short_flag`; any other character is a shorthand. */
  function ShortFlag(c: char): Flag
  {
    match c
    case 'h' => Help
    case 'n' => DryRun
    case 'v' => Verbose
    case 'V' => Version
    case 'l' => List
    case 'L' => ListImages
    case 'r' => Remove
    case 'R' => RemoveAll
    case 'x' => Add
    case 's' => SetTag
    case 'i' => AddImageReplacing
    case 'o' => WriteImage
    case 'O' => WriteImageDefault
    case 'I' => SelectImage
    case 'm' => Move
    case 'p' => PathFlag
    case _ => Shorthand(c)
  }

  /** `kLongFlags`. */
  const LongFlags: seq<(string, Flag)> := [
    ("help", Help), ("formats", Formats), ("dry-run", DryRun), ("verbose", Verbose), ("version", Version),
    ("list", List), ("list-images", ListImages), ("remove", Remove), ("remove-all", RemoveAll),
    ("add", Add), ("set", SetTag),
    ("artist", Shorthand('a')), ("album", Shorthand('A')), ("albumartist", Shorthand('b')),
    ("title", Shorthand('t')), ("genre", Shorthand('g')), ("grouping", Shorthand('G')),
    ("date", Shorthand('y')), ("tracknumber", Shorthand('k')), ("tracktotal", Shorthand('K')),
    ("discnumber", Shorthand('d')), ("disctotal", Shorthand('D')),
    ("movie", Movie), ("tv", Tv), ("show", Shorthand('S')),
    ("episodenumber", Shorthand('e')), ("episodetotal", Shorthand('E')),
    ("seasonnumber", Shorthand('c')), ("seasontotal", Shorthand('C')),
    ("image", AddImageReplacing), ("write-image", WriteImage), ("select-image", SelectImage),
    ("remove-image", RemoveImage), ("remove-all-images", RemoveAllImages), ("add-image", AddImage),
    ("auto", Auto), ("move", Move), ("path", PathFlag)]

  /** The handlers that call `get_value`. */
  predicate TakesValue(f: Flag)
  {
    match f
    case Remove | Add | SetTag | AddImageReplacing | WriteImage | SelectImage | AddImage | PathFlag => true
    case Shorthand(c) => Tag.CodeName(c).Some?
    case _ => false
  }

  // ---------------------------------------------------------------------
  // Names, assignments and suffixes
  // ---------------------------------------------------------------------

  /** The characters `validate_name` accepts: ASCII letters and '_'. */
  predicate NameLetter(c: char)
  {
    'A' <= c <= 'Z' || 'a' <= c <= 'z' || c == '_'
  }

  /** `toupper` on ASCII. */
  function Upper(c: char): (r: char)
    ensures NameLetter(c) ==> Tag.NameChar(r)
    ensures Tag.Lower(r) == Tag.Lower(c)
  {
    if 'a' <= c <= 'z' then (c as int - 32) as char else c
  }

  function UpperAll(s: string): (r: string)
    ensures |r| == |s| && forall k :: 0 <= k < |s| ==> r[k] == Upper(s[k])
  {
    seq(|s|, k requires 0 <= k < |s| => Upper(s[k]))
  }

  /**
   * `validate_name`: a name of letters and '_' is upper-cased in place;
   * any other name is left as it is and reported.
   */
  method ValidateName(name: array<char>) returns (r: Result<()>)
    modifies name
    ensures r.Ok? <==> forall k :: 0 <= k < name.Length ==> NameLetter(old(name[k]))
    ensures r.Ok? ==> name[..] == UpperAll(old(name[..]))
    ensures r.Err? ==> name[..] == old(name[..]) && r.msg == "invalid tag name: " + name[..]
  {
    var k := 0;
    while k < name.Length
      invariant k <= name.Length && forall m :: 0 <= m < k ==> NameLetter(name[m])
    {
      if !NameLetter(name[k]) {
        return Err("invalid tag name: " + name[..]);
      }
      k := k + 1;
    }
    ghost var before := name[..];
    k := 0;
    while k < name.Length
      invariant k <= name.Length
      invariant forall m :: 0 <= m < k ==> name[m] == Upper(before[m])
      invariant forall m :: k <= m < name.Length ==> name[m] == before[m]
    {
      name[k] := Upper(name[k]);
      k := k + 1;
    }
    return Ok(());
  }

  /** A validated name is a tag name, and names the same tag as the text it came from. */
  lemma {:induction false} ValidatedNameIsTagName(s: string)
    requires forall k :: 0 <= k < |s| ==> NameLetter(s[k])
    ensures Tag.NameIsValid(UpperAll(s)) && Tag.SameName(UpperAll(s), s)
    ensures UpperAll(UpperAll(s)) == UpperAll(s)
  {
  }

  /** `split_assignment`: the text before and after the first '='. */
  function SplitAssignment(assignment: string): (r: Result<(string, string)>)
    ensures r.Ok? <==> '=' in assignment
    ensures r.Ok? ==> assignment == r.value.0 + "=" + r.value.1 && '=' !in r.value.0
    ensures r.Err? ==> r.msg == "missing tag value: " + assignment
  {
    match FirstIndex(assignment, '=')
    case None => Err("missing tag value: " + assignment)
    case Some(eq) =>
      assert assignment == assignment[..eq] + "=" + assignment[eq + 1..];
      Ok((assignment[..eq], assignment[eq + 1..]))
  }

  /** Splitting a joined assignment gives back its parts when the name has no '='. */
  lemma {:induction false} SplitJoined(name: string, value: string)
    requires '=' !in name
    ensures SplitAssignment(name + "=" + value) == Ok((name, value))
  {
    var joined := name + "=" + value;
    assert joined[|name|] == '=';
    assert forall k :: 0 <= k < |name| ==> joined[k] == name[k];
    assert joined[..|name|] == name;
    assert joined[|name| + 1..] == value;
  }

  /** `starts_with`: the prefix fits and matches. */
  lemma {:induction false} StartsWithMeaning(s: string, prefix: string)
    ensures StartsWith(s, prefix) <==> exists t :: s == prefix + t
  {
    if StartsWith(s, prefix) {
      assert s == prefix + s[|prefix|..];
    }
  }

  /** `ends_with`: the suffix fits and matches the end. */
  predicate EndsWith(s: string, suffix: string)
  {
    |suffix| <= |s| && s[|s| - |suffix|..] == suffix
  }

  lemma {:induction false} EndsWithMeaning(s: string, suffix: string)
    ensures EndsWith(s, suffix) <==> exists t :: s == t + suffix
  {
    if EndsWith(s, suffix) {
      assert s == s[..|s| - |suffix|] + suffix;
    }
    if exists t :: s == t + suffix {
      var t :| s == t + suffix;
      assert s[|t|..] == suffix;
    }
  }

  /**
   * The rule a "--TYPE-path" name sets: TYPE is "audio" or "video" for a
   * format group, "tv" or "movie" for a media kind.
   */
  function TypePath(name: string): (r: Option<Priority>)
    ensures r.Some? ==> EndsWith(name, "-path")
  {
    if !EndsWith(name, "-path") then None
    else
      var what := name[..|name| - 5];
      if what == GroupName(Audio) then Some(Group(Audio))
      else if what == GroupName(Video) then Some(Group(Video))
      else if what == "tv" then Some(MediaKind("TV Show"))
      else if what == "movie" then Some(MediaKind("Movie"))
      else None
  }

  /** Exactly four names are type paths. */
  lemma {:induction false} TypePathNames(name: string)
    ensures TypePath(name).Some? <==>
      name == "audio-path" || name == "video-path" || name == "tv-path" || name == "movie-path"
    ensures name == "audio-path" ==> TypePath(name) == Some(Group(Audio))
    ensures name == "video-path" ==> TypePath(name) == Some(Group(Video))
    ensures name == "tv-path" ==> TypePath(name) == Some(MediaKind("TV Show"))
    ensures name == "movie-path" ==> TypePath(name) == Some(MediaKind("Movie"))
  {
    if EndsWith(name, "-path") {
      assert name == name[..|name| - 5] + "-path";
    }
  }

  /** Whether the long option `name` is followed by a value: a type path, or a table entry whose handler takes one. */
  predicate WantsLong(name: string)
  {
    TypePath(name).Some? || (Options.Lookup(LongFlags, name).Some? && TakesValue(Options.Lookup(LongFlags, name).value))
  }

  predicate WantsShort(c: char)
  {
    TakesValue(ShortFlag(c))
  }

  // ---------------------------------------------------------------------
  // struct ops
  // ---------------------------------------------------------------------

  /** The contents of an `Ops` at one moment. */
  datatype Settings = Settings(
    removeAllTags: bool, removeTags: seq<string>, addTagNames: seq<string>, addTagValues: seq<string>,
    imageIndex: int, removeAllImages: bool, addImages: seq<string>, removeImages: seq<int>,
    writeImages: seq<(int, Option<string>)>, autoMode: bool, dryRun: bool,
    listMode: ListMode, listTags: bool, listImages: bool, moveMode: bool,
    paths: seq<PathRule>, files: seq<string>, verbosity: nat)

  /** Whether the settings ask to change a file: tags or images removed or added, or MusicBrainz lookups. */
  predicate Modifies(s: Settings)
  {
    s.removeAllTags || s.removeTags != [] || s.addTagNames != []
      || s.removeAllImages || s.addImages != [] || s.removeImages != [] || s.autoMode
  }

  /** Whether the settings ask to read a file: listing, image writing or moving. */
  predicate Reads(s: Settings)
  {
    s.listTags || s.listImages || s.writeImages != [] || s.moveMode
  }

  /** `cloak_mode`: write access for any modification, read access for listing, image writing or moving. */
  function ModeOf(s: Settings): (m: Mode)
    ensures (m == ReadWrite) == Modifies(s)
    ensures (m == ReadOnly) == (!Modifies(s) && Reads(s))
    ensures (m == NoActions) == (!Modifies(s) && !Reads(s))
  {
    if s.removeAllTags || s.removeTags != [] || s.addTagNames != [] || s.removeAllImages
      || s.addImages != [] || s.removeImages != [] || s.autoMode then ReadWrite
    else if s.listTags || s.listImages || s.writeImages != [] || s.moveMode then ReadOnly
    else NoActions
  }

  predicate Letters(name: string)
  {
    forall k :: 0 <= k < |name| ==> NameLetter(name[k])
  }

  // ---------------------------------------------------------------------
  // What each handler does to the settings
  // ---------------------------------------------------------------------

  /** --remove NAME (`tag_option` with REMOVE). */
  function RemoveTag(s: Settings, got: Result<string>): (r: Result<Settings>)
    ensures r.Ok? <==> got.Ok? && Letters(got.value)
  {
    match got
    case Err(m) => Err(m)
    case Ok(v) =>
      if Letters(v) then Ok(s.(removeTags := s.removeTags + [UpperAll(v)]))
      else Err("invalid tag name: " + v)
  }

  /** --add NAME=VALUE, and with `replace` --set NAME=VALUE (`tag_option`). */
  function AssignTag(s: Settings, replace: bool, got: Result<string>): (r: Result<Settings>)
    ensures r.Ok? <==> got.Ok? && SplitAssignment(got.value).Ok? && Letters(SplitAssignment(got.value).value.0)
  {
    match got
    case Err(m) => Err(m)
    case Ok(v) =>
      match SplitAssignment(v)
      case Err(m) => Err(m)
      case Ok(parts) =>
        if !Letters(parts.0) then Err("invalid tag name: " + parts.0)
        else
          var name := UpperAll(parts.0);
          Ok(s.(removeTags := s.removeTags + (if replace then [name] else []),
                addTagNames := s.addTagNames + [name],
                addTagValues := s.addTagValues + [parts.1]))
  }

  /** `literal_tag_option`: sets `name` to `value`, replacing its old values. */
  function LiteralTag(s: Settings, name: string, value: string): Settings
  {
    s.(removeTags := s.removeTags + [name], addTagNames := s.addTagNames + [name],
       addTagValues := s.addTagValues + [value])
  }

  /** `shorthand_option`: a tag code sets that tag; any other character is an illegal option. */
  function ShorthandTag(s: Settings, c: char, got: Result<string>): (r: Result<Settings>)
    ensures r.Ok? <==> Tag.CodeName(c).Some? && got.Ok?
    ensures Tag.CodeName(c).None? ==> r == Err("illegal option -" + [c])
  {
    match Tag.CodeName(c)
    case None => Err("illegal option -" + [c])
    case Some(name) =>
      match got
      case Err(m) => Err(m)
      case Ok(v) => Ok(LiteralTag(s, name, v))
  }

  /**
   * `image_option`. `probe` stands for opening the path and detecting its
   * format: an error, or whether the format reads images.
   */
  function ImageEffect(s: Settings, flag: Flag, got: Result<string>, probe: string -> Result<bool>): (r: Result<Settings>)
    ensures (flag == AddImageReplacing || flag == AddImage) ==> (r.Ok? <==> got.Ok? && probe(got.value) == Ok(true))
    ensures flag == WriteImage ==> (r.Ok? <==> got.Ok?)
    ensures flag == WriteImageDefault || flag == RemoveImage ==> r.Ok?
  {
    match flag
    case AddImageReplacing | AddImage =>
      (match got
       case Err(m) => Err(m)
       case Ok(path) =>
         match probe(path)
         case Err(m) => Err(m)
         case Ok(isImage) =>
           if !isImage then Err(path + ": not an image file")
           else Ok(s.(addImages := s.addImages + [path],
                      removeAllImages := s.removeAllImages || flag == AddImageReplacing)))
    case WriteImage =>
      (match got
       case Err(m) => Err(m)
       case Ok(path) => Ok(s.(writeImages := s.writeImages + [(s.imageIndex, Some(path))])))
    case WriteImageDefault => Ok(s.(writeImages := s.writeImages + [(s.imageIndex, None)]))
    case RemoveImage => Ok(s.(removeImages := s.removeImages + [s.imageIndex]))
    case _ => Err("internal error")
  }

  /** --select-image N, through the corrected integer reader. */
  function SelectIndex(s: Settings, got: Result<string>): (r: Result<Settings>)
    ensures r.Ok? <==> got.Ok? && got.value != [] && StrTol(got.value).1 == |got.value|
  {
    match Options.RequiredRead(got)
    case Err(m) => Err(m)
    case Ok(n) => Ok(s.(imageIndex := n))
  }

  /** `push_path`: a path format that parses is added as a rule. */
  function PushRule(s: Settings, priority: Priority, got: Result<string>): (r: Result<Settings>)
    ensures r.Ok? <==> got.Ok? && Tag.TokensFrom(got.value, 0).Ok?
  {
    match got
    case Err(m) => Err(m)
    case Ok(v) =>
      match Tag.TokensFrom(v, 0)
      case Err(m) => Err(m)
      case Ok(_) => Ok(s.(paths := s.paths + [PathRule(priority, v)]))
  }

  function Continued(r: Result<Settings>): Result<(Settings, Flow)>
  {
    match r
    case Err(m) => Err(m)
    case Ok(s) => Ok((s, Continue))
  }

  /** The flags that take no value: each counts, sets a field, or sets MEDIAKIND. */
  predicate IsSwitch(flag: Flag)
  {
    (flag == Verbose || flag == DryRun || flag == List || flag == ListImages || flag == RemoveAll || flag == Movie || flag == Tv || flag == RemoveAllImages || flag == Auto || flag == Move)
  }

  /** What a flag that takes no value does to the settings. */
  function Switched(s: Settings, flag: Flag): Settings
  {
    match flag
    case Verbose => s.(verbosity := s.verbosity + 1)
    case DryRun => s.(dryRun := true)
    case List => s.(listTags := true)
    case ListImages => s.(listImages := true)
    case RemoveAll => s.(removeAllTags := true)
    case Movie => LiteralTag(s, MediaKindTag, "Movie")
    case Tv => LiteralTag(s, MediaKindTag, "TV Show")
    case RemoveAllImages => s.(removeAllImages := true)
    case Auto => s.(autoMode := true)
    case Move => s.(moveMode := true)
    case _ => s
  }

  /** What a handler does to the settings; the three informational flags change nothing. */
  function Effect(s: Settings, flag: Flag, got: Result<string>, probe: string -> Result<bool>): Result<Settings>
  {
    match flag
    case Help | Formats | Version => Ok(s)
    case Verbose | DryRun | List | ListImages | RemoveAll | Movie | Tv | RemoveAllImages | Auto | Move =>
      Ok(Switched(s, flag))
    case Remove => RemoveTag(s, got)
    case Add => AssignTag(s, false, got)
    case SetTag => AssignTag(s, true, got)
    case AddImageReplacing | WriteImage | WriteImageDefault | RemoveImage | AddImage =>
      ImageEffect(s, flag, got, probe)
    case SelectImage => SelectIndex(s, got)
    case PathFlag => PushRule(s, All, got)
    case Shorthand(c) => ShorthandTag(s, c, got)
  }

  predicate Informational(flag: Flag)
  {
    flag == Help || flag == Formats || flag == Version
  }

  /** `callbacks.short_option`: the handler switch; help, formats and version end the program. */
  function Handle(s: Settings, flag: Flag, got: Result<string>, probe: string -> Result<bool>): Result<(Settings, Flow)>
  {
    if Informational(flag) then Ok((s, Exit)) else Continued(Effect(s, flag, got, probe))
  }

  /**
   * `callbacks.long_option`: a type path, else the table's flag handed to
   * the handler switch, else an illegal option.
   */
  function HandleLong(s: Settings, name: string, got: Result<string>, probe: string -> Result<bool>): Result<(Settings, Flow)>
  {
    match TypePath(name)
    case Some(priority) => Continued(PushRule(s, priority, got))
    case None =>
      match Options.Lookup(LongFlags, name)
      case None => Err("illegal option --" + name)
      case Some(flag) => Handle(s, flag, got, probe)
  }

  // ---------------------------------------------------------------------
  // What the handlers mean
  // ---------------------------------------------------------------------

  /** --set is --add that also removes the tag's old values. */
  lemma {:induction false} SetIsRemoveThenAdd(s: Settings, got: Result<string>)
    ensures AssignTag(s, true, got).Ok? <==> AssignTag(s, false, got).Ok?
    ensures AssignTag(s, true, got).Ok? ==>
      var added := AssignTag(s, false, got).value;
      AssignTag(s, true, got).value == added.(removeTags := s.removeTags + [added.addTagNames[|added.addTagNames| - 1]])
  {
  }

  /** A name of capitals is valid, its own upper case, and holds no '='. */
  lemma {:induction false} CapitalsAreUpper(s: string)
    requires forall k :: 0 <= k < |s| ==> Tag.NameChar(s[k])
    ensures Letters(s) && UpperAll(s) == s && '=' !in s
  {
  }

  /** The tag names of the lower-case shorthand codes are made of capitals and '_'. */
  lemma {:induction false} LowerCodeNameIsName(c: char)
    requires Tag.CodeName(c).Some? && 'a' <= c <= 'z'
    ensures forall k | 0 <= k < |Tag.CodeName(c).value| :: Tag.NameChar(Tag.CodeName(c).value[k])
  {
  }

  /** The tag names of the upper-case shorthand codes are made of capitals and '_'. */
  lemma {:induction false} UpperCodeNameIsName(c: char)
    requires Tag.CodeName(c).Some? && !('a' <= c <= 'z')
    ensures forall k | 0 <= k < |Tag.CodeName(c).value| :: Tag.NameChar(Tag.CodeName(c).value[k])
  {
  }

  /** The tag names of the shorthand codes are already valid, upper-case and free of '='. */
  lemma {:induction false} CodeNameIsUpper(c: char)
    requires Tag.CodeName(c).Some?
    ensures Letters(Tag.CodeName(c).value) && UpperAll(Tag.CodeName(c).value) == Tag.CodeName(c).value
    ensures '=' !in Tag.CodeName(c).value
  {
    if 'a' <= c <= 'z' {
      LowerCodeNameIsName(c);
    } else {
      UpperCodeNameIsName(c);
    }
    CapitalsAreUpper(Tag.CodeName(c).value);
  }

  /** A shorthand such as `-a VALUE` is `--set ARTIST=VALUE`. */
  lemma {:induction false} ShorthandIsSet(s: Settings, c: char, value: string)
    requires Tag.CodeName(c).Some?
    ensures ShorthandTag(s, c, Ok(value)) == AssignTag(s, true, Ok(Tag.CodeName(c).value + "=" + value))
  {
    var name := Tag.CodeName(c).value;
    CodeNameIsUpper(c);
    SplitJoined(name, value);
  }

  /** --movie and --tv are `--set MEDIAKIND=Movie` and `--set MEDIAKIND=TV Show`. */
  lemma {:induction false} MediaKindIsSet(s: Settings, kind: string)
    ensures AssignTag(s, true, Ok(MediaKindTag + "=" + kind)) == Ok(LiteralTag(s, MediaKindTag, kind))
  {
    assert Tag.NameIsValid(MediaKindTag);
    CapitalsAreUpper(MediaKindTag);
    SplitJoined(MediaKindTag, kind);
  }

  /** Help, formats and version end the program and change nothing; every other handler goes on. */
  lemma {:induction false} OnlyInformationExits(s: Settings, flag: Flag, got: Result<string>, probe: string -> Result<bool>)
    ensures Handle(s, flag, got, probe).Ok? && Handle(s, flag, got, probe).value.1 == Exit <==>
      flag == Help || flag == Formats || flag == Version
    ensures flag == Help || flag == Formats || flag == Version ==> Handle(s, flag, got, probe).value.0 == s
  {
  }

  /** An option that changes tags or images, once accepted, makes `cloak_mode` ask for write access. */
  lemma {:induction false} ChangesNeedWriting(s: Settings, flag: Flag, got: Result<string>, probe: string -> Result<bool>)
    requires flag in {Remove, Add, SetTag, RemoveAll, Movie, Tv, AddImageReplacing, RemoveImage,
                      RemoveAllImages, AddImage, Auto} || flag.Shorthand?
    requires Handle(s, flag, got, probe).Ok?
    ensures ModeOf(Handle(s, flag, got, probe).value.0) == ReadWrite
  {
  }

  /** Listing, writing images out and moving need only read access, unless something else modifies. */
  lemma {:induction false} ReadingNeedsReadAccess(s: Settings, flag: Flag, got: Result<string>, probe: string -> Result<bool>)
    requires flag in {List, ListImages, WriteImage, WriteImageDefault, Move}
    requires Handle(s, flag, got, probe).Ok?
    ensures ModeOf(Handle(s, flag, got, probe).value.0) == if Modifies(s) then ReadWrite else ReadOnly
  {
  }

  /** A flag that takes no value always succeeds, with its switch's effect. */
  lemma {:induction false} SwitchHandled(s: Settings, flag: Flag, got: Result<string>, probe: string -> Result<bool>)
    requires IsSwitch(flag)
    ensures Handle(s, flag, got, probe) == Ok((Switched(s, flag), Continue))
  {
  }

  /** Results of a handler method: its effect when the handler's function succeeds, no change when it fails. */
  predicate Applied(r: Result<()>, before: Settings, after: Settings, spec: Result<Settings>)
  {
    (r.Ok? <==> spec.Ok?) && (spec.Ok? ==> after == spec.value) &&
    (spec.Err? ==> after == before && r == Err(spec.msg))
  }

  predicate AppliedFlow(r: Result<Flow>, before: Settings, after: Settings, spec: Result<(Settings, Flow)>)
  {
    (r.Ok? <==> spec.Ok?) && (spec.Ok? ==> after == spec.value.0 && r.value == spec.value.1) &&
    (spec.Err? ==> after == before && r == Err(spec.msg))
  }

  /**
   * `struct ops`, with the list of input files and the verbosity counter
   * that `cloak_options` updates beside it. Each list is appended to in
   * option order. `addImages` holds the paths of images to embed.
   */
  class Ops {
    var removeAllTags: bool
    var removeTags: seq<string>
    var addTagNames: seq<string>
    var addTagValues: seq<string>
    var imageIndex: int
    var removeAllImages: bool
    var addImages: seq<string>
    var removeImages: seq<int>
    var writeImages: seq<(int, Option<string>)>
    var autoMode: bool
    var dryRun: bool
    var listMode: ListMode
    var listTags: bool
    var listImages: bool
    var moveMode: bool
    var paths: seq<PathRule>
    var files: seq<string>
    var verbosity: nat

    function Snapshot(): Settings
      reads this
    {
      Settings(removeAllTags, removeTags, addTagNames, addTagValues, imageIndex, removeAllImages,
        addImages, removeImages, writeImages, autoMode, dryRun, listMode, listTags, listImages,
        moveMode, paths, files, verbosity)
    }

    /** `struct ops ops = {}`. */
    constructor ()
      ensures Snapshot() == Settings(false, [], [], [], 0, false, [], [], [], false, false,
        NoListing, false, false, false, [], [], 0)
      ensures ModeOf(Snapshot()) == NoActions
    {
      removeAllTags, removeTags, addTagNames, addTagValues := false, [], [], [];
      imageIndex, removeAllImages, addImages, removeImages, writeImages := 0, false, [], [], [];
      autoMode, dryRun, listMode, listTags, listImages, moveMode := false, false, NoListing, false, false, false;
      paths, files, verbosity := [], [], 0;
    }

    /** `literal_tag_option`. */
    method LiteralTagOption(name: string, value: string)
      modifies this
      ensures Snapshot() == LiteralTag(old(Snapshot()), name, value)
    {
      removeTags := removeTags + [name];
      addTagNames := addTagNames + [name];
      addTagValues := addTagValues + [value];
    }

    /**
     * The name as `tag_option` keeps it after `validate_name`, which checks
     * it and upper-cases it in place, in the string the name came in. Dafny
     * strings are values, so the name is put in an array, the array is
     * upper-cased in place, and its contents are the result.
     */
    static method CheckedName(text: string) returns (r: Result<string>)
      ensures r.Ok? <==> Letters(text)
      ensures r.Ok? ==> r.value == UpperAll(text)
      ensures r.Err? ==> r.msg == "invalid tag name: " + text
    {
      var buffer := new char[|text|](k requires 0 <= k < |text| => text[k]);
      assert buffer[..] == text;
      var valid := ValidateName(buffer);
      if valid.Err? {
        return Err(valid.msg);
      }
      return Ok(buffer[..]);
    }

    /** `tag_option` for --remove NAME: `validate_name` checks the value and upper-cases it in place, as `CheckedName` does. */
    method RemoveOption(got: Result<string>) returns (r: Result<()>)
      modifies this
      ensures Applied(r, old(Snapshot()), Snapshot(), RemoveTag(old(Snapshot()), got))
    {
      if got.Err? {
        return Err(got.msg);
      }
      var name := CheckedName(got.value);
      if name.Err? {
        return Err(name.msg);
      }
      removeTags := removeTags + [name.value];
      return Ok(());
    }

    /** The appends of `tag_option` for a checked --add or --set. */
    method PushAssignment(replace: bool, name: string, value: string)
      modifies this
      ensures Snapshot() == old(Snapshot()).(removeTags := old(removeTags) + (if replace then [name] else []),
        addTagNames := old(addTagNames) + [name], addTagValues := old(addTagValues) + [value])
    {
      if replace {
        removeTags := removeTags + [name];
      }
      addTagNames := addTagNames + [name];
      addTagValues := addTagValues + [value];
    }

    /** `tag_option` for --add and, with `replace`, --set. */
    method AssignOption(replace: bool, got: Result<string>) returns (r: Result<()>)
      modifies this
      ensures Applied(r, old(Snapshot()), Snapshot(), AssignTag(old(Snapshot()), replace, got))
    {
      if got.Err? {
        return Err(got.msg);
      }
      var split := SplitAssignment(got.value);
      if split.Err? {
        return Err(split.msg);
      }
      var name := CheckedName(split.value.0);
      if name.Err? {
        return Err(name.msg);
      }
      PushAssignment(replace, name.value, split.value.1);
      return Ok(());
    }

    /** `image_option` for --add-image and --replace-image: the path must name an image file. */
    method AddImageOption(flag: Flag, got: Result<string>, probe: string -> Result<bool>) returns (r: Result<()>)
      requires flag == AddImageReplacing || flag == AddImage
      modifies this
      ensures Applied(r, old(Snapshot()), Snapshot(), ImageEffect(old(Snapshot()), flag, got, probe))
    {
      if got.Err? {
        return Err(got.msg);
      }
      var path := got.value;
      var probed := probe(path);
      if probed.Err? {
        return Err(probed.msg);
      }
      if !probed.value {
        return Err(path + ": not an image file");
      }
      if flag == AddImageReplacing {
        removeAllImages := true;
      }
      addImages := addImages + [path];
      return Ok(());
    }

    /** `image_option` for --write-image, its default-path form and --remove-image: the current index is recorded. */
    method IndexedImageOption(flag: Flag, got: Result<string>) returns (r: Result<()>)
      requires flag == WriteImage || flag == WriteImageDefault || flag == RemoveImage
      modifies this
      ensures Applied(r, old(Snapshot()), Snapshot(), ImageEffect(old(Snapshot()), flag, got, _ => Ok(false)))
    {
      if flag == RemoveImage {
        removeImages := removeImages + [imageIndex];
        return Ok(());
      }
      var path: Option<string> := None;
      if flag == WriteImage {
        if got.Err? {
          return Err(got.msg);
        }
        path := Some(got.value);
      }
      writeImages := writeImages + [(imageIndex, path)];
      return Ok(());
    }

    /** `image_option`. */
    method ImageOption(flag: Flag, got: Result<string>, probe: string -> Result<bool>) returns (r: Result<()>)
      modifies this
      ensures Applied(r, old(Snapshot()), Snapshot(), ImageEffect(old(Snapshot()), flag, got, probe))
    {
      if flag == AddImageReplacing || flag == AddImage {
        r := AddImageOption(flag, got, probe);
      } else if flag == WriteImage || flag == WriteImageDefault || flag == RemoveImage {
        r := IndexedImageOption(flag, got);
      } else {
        return Err("internal error");
      }
    }

    /** `rsvc_integer_option` on `image_index`, as corrected. */
    method SelectImageOption(got: Result<string>) returns (r: Result<()>)
      modifies this
      ensures Applied(r, old(Snapshot()), Snapshot(), SelectIndex(old(Snapshot()), got))
    {
      var read, stored := Options.RequireInteger(imageIndex, got);
      if read.Err? {
        return Err(read.msg);
      }
      imageIndex := stored;
      return Ok(());
    }

    /** `push_path`. */
    method PushPath(priority: Priority, got: Result<string>) returns (r: Result<()>)
      modifies this
      ensures Applied(r, old(Snapshot()), Snapshot(), PushRule(old(Snapshot()), priority, got))
    {
      if got.Err? {
        return Err(got.msg);
      }
      var valid := Tag.ValidateFormat(got.value);
      if valid.Err? {
        return Err(valid.msg);
      }
      paths := paths + [PathRule(priority, got.value)];
      return Ok(());
    }

    /** `type_path_option`: "--TYPE-path" adds a rule of its type; other names are not matched. */
    method TypePathOption(name: string, got: Result<string>) returns (r: Result<()>, matched: bool)
      modifies this
      ensures matched <==> TypePath(name).Some?
      ensures matched ==> Applied(r, old(Snapshot()), Snapshot(), PushRule(old(Snapshot()), TypePath(name).value, got))
      ensures !matched ==> r.Ok? && Snapshot() == old(Snapshot())
    {
      match TypePath(name) {
        case None => return Ok(()), false;
        case Some(priority) =>
          r := PushPath(priority, got);
          matched := true;
      }
    }

    /** `shorthand_option`. */
    method ShorthandOption(c: char, got: Result<string>) returns (r: Result<()>)
      modifies this
      ensures Applied(r, old(Snapshot()), Snapshot(), ShorthandTag(old(Snapshot()), c, got))
    {
      match Tag.CodeName(c) {
        case None => return Err("illegal option -" + [c]);
        case Some(name) =>
          if got.Err? {
            return Err(got.msg);
          }
          LiteralTagOption(name, got.value);
          return Ok(());
      }
    }

    /** --verbose and --dry-run. */
    method ReportOption(flag: Flag)
      requires flag == Verbose || flag == DryRun
      modifies this
      ensures Snapshot() == Switched(old(Snapshot()), flag)
    {
      if flag == Verbose {
        verbosity := verbosity + 1;
      } else {
        dryRun := true;
      }
    }

    /** --list and --list-images. */
    method ListOption(flag: Flag)
      requires flag == List || flag == ListImages
      modifies this
      ensures Snapshot() == Switched(old(Snapshot()), flag)
    {
      if flag == List {
        listTags := true;
      } else {
        listImages := true;
      }
    }

    /** --remove-all and --remove-all-images. */
    method RemoveAllOption(flag: Flag)
      requires flag == RemoveAll || flag == RemoveAllImages
      modifies this
      ensures Snapshot() == Switched(old(Snapshot()), flag)
    {
      if flag == RemoveAll {
        removeAllTags := true;
      } else {
        removeAllImages := true;
      }
    }

    /** --auto and --move. */
    method ModeOption(flag: Flag)
      requires flag == Auto || flag == Move
      modifies this
      ensures Snapshot() == Switched(old(Snapshot()), flag)
    {
      if flag == Auto {
        autoMode := true;
      } else {
        moveMode := true;
      }
    }

    /** The flags that take no value: each counts, sets a field, or sets MEDIAKIND. */
    method SwitchOption(flag: Flag)
      requires IsSwitch(flag)
      modifies this
      ensures Snapshot() == Switched(old(Snapshot()), flag)
    {
      if flag == Verbose || flag == DryRun {
        ReportOption(flag);
      } else if flag == List || flag == ListImages {
        ListOption(flag);
      } else if flag == RemoveAll || flag == RemoveAllImages {
        RemoveAllOption(flag);
      } else if flag == Auto || flag == Move {
        ModeOption(flag);
      } else if flag == Movie {
        LiteralTagOption(MediaKindTag, "Movie");
      } else {
        LiteralTagOption(MediaKindTag, "TV Show");
      }
    }

    /** The flags that edit the tag lists. */
    method TagOption(flag: Flag, got: Result<string>, probe: string -> Result<bool>) returns (r: Result<()>)
      requires flag.Remove? || flag.Add? || flag.SetTag? || flag.Shorthand?
      modifies this
      ensures Applied(r, old(Snapshot()), Snapshot(), Effect(old(Snapshot()), flag, got, probe))
    {
      ghost var before := Snapshot();
      if flag == Remove {
        assert Effect(before, flag, got, probe) == RemoveTag(before, got);
        r := RemoveOption(got);
      } else if flag == Add {
        assert Effect(before, flag, got, probe) == AssignTag(before, false, got);
        r := AssignOption(false, got);
      } else if flag == SetTag {
        assert Effect(before, flag, got, probe) == AssignTag(before, true, got);
        r := AssignOption(true, got);
      } else {
        assert Effect(before, flag, got, probe) == ShorthandTag(before, flag.code, got);
        r := ShorthandOption(flag.code, got);
      }
    }

    /** The flags that take a value, or whose handler can fail. */
    method ValueOption(flag: Flag, got: Result<string>, probe: string -> Result<bool>) returns (r: Result<()>)
      requires !Informational(flag) && !IsSwitch(flag)
      modifies this
      ensures Applied(r, old(Snapshot()), Snapshot(), Effect(old(Snapshot()), flag, got, probe))
    {
      if flag.Remove? || flag.Add? || flag.SetTag? || flag.Shorthand? {
        r := TagOption(flag, got, probe);
      } else {
        r := PickOption(flag, got, probe);
      }
    }

    /** The flags that pick an image or push a path rule, and the image flags. */
    method PickOption(flag: Flag, got: Result<string>, probe: string -> Result<bool>) returns (r: Result<()>)
      requires !Informational(flag) && !IsSwitch(flag)
      requires !(flag.Remove? || flag.Add? || flag.SetTag? || flag.Shorthand?)
      modifies this
      ensures Applied(r, old(Snapshot()), Snapshot(), Effect(old(Snapshot()), flag, got, probe))
    {
      ghost var before := Snapshot();
      if flag == SelectImage {
        assert Effect(before, flag, got, probe) == SelectIndex(before, got);
        r := SelectImageOption(got);
      } else if flag == PathFlag {
        assert Effect(before, flag, got, probe) == PushRule(before, All, got);
        r := PushPath(All, got);
      } else {
        assert Effect(before, flag, got, probe) == ImageEffect(before, flag, got, probe);
        r := ImageOption(flag, got, probe);
      }
    }

    /** `callbacks.short_option`: the handler switch. */
    method ShortOption(flag: Flag, got: Result<string>, probe: string -> Result<bool>) returns (r: Result<Flow>)
      modifies this
      ensures AppliedFlow(r, old(Snapshot()), Snapshot(), Handle(old(Snapshot()), flag, got, probe))
    {
      if Informational(flag) {
        return Ok(Exit);
      }
      ghost var before := Snapshot();
      if IsSwitch(flag) {
        SwitchHandled(before, flag, got, probe);
        SwitchOption(flag);
        return Ok(Continue);
      }
      var done := ValueOption(flag, got, probe);
      if done.Err? {
        return Err(done.msg);
      }
      return Ok(Continue);
    }

    /** `callbacks.long_option`. */
    method LongOption(name: string, got: Result<string>, probe: string -> Result<bool>) returns (r: Result<Flow>)
      modifies this
      ensures AppliedFlow(r, old(Snapshot()), Snapshot(), HandleLong(old(Snapshot()), name, got, probe))
    {
      var typed, matched := TypePathOption(name, got);
      if matched {
        if typed.Err? {
          return Err(typed.msg);
        }
        return Ok(Continue);
      }
      var flag := Options.LongOption(LongFlags, name);
      if flag.Err? {
        return Err(flag.msg);
      }
      r := ShortOption(flag.value, got, probe);
    }

    /** `callbacks.argument`: every argument is an input file. */
    method Argument(arg: string)
      modifies this
      ensures Snapshot() == old(Snapshot()).(files := old(files) + [arg])
    {
      files := files + [arg];
    }

    /**
     * The end of `cloak_options`: `check_options`, then the list mode,
     * which is long exactly when there are several files.
     */
    method Finish() returns (r: Result<()>)
      modifies this
      ensures r.Ok? <==> old(files) != [] && ModeOf(old(Snapshot())) != NoActions
      ensures old(files) == [] ==> r == Err("no input files")
      ensures old(files) != [] && ModeOf(old(Snapshot())) == NoActions ==> r == Err("no actions")
      ensures r.Ok? && (listTags || listImages) ==>
        Snapshot() == old(Snapshot()).(listMode := if |files| > 1 then LongListing else ShortListing)
      ensures r.Err? || !(listTags || listImages) ==> Snapshot() == old(Snapshot())
    {
      if files == [] {
        return Err("no input files");
      } else if ModeOf(Snapshot()) == NoActions {
        return Err("no actions");
      }
      if listTags || listImages {
        listMode := if |files| > 1 then LongListing else ShortListing;
      }
      return Ok(());
    }
  }
}

/**
 * `rsvc convert`, src/bin/rsvc_convert.c: checking the options, naming the
 * output by changing the input's extension, refusing to convert a file
 * onto itself and skipping up-to-date outputs, and, in recursive mode,
 * the list of existing outputs that is cleaned up once their directory
 * has been walked. Decoding, encoding, tag copying and the scheduling of
 * the conversions are not part of this model.
 */
module ConvertCommand {
  import opened Common
  import Rsvc
  import EncodeFormats

  /** MAXPATHLEN of <sys/param.h> on Linux. */
  const MAXPATHLEN: nat := 4096

  // ---------------------------------------------------------------------
  // Options

  /** How `validate_convert_options` ends: valid, the usage text, or an error. */
  datatype Validation = Valid | ShowUsage | Invalid(msg: string)

  /**
   * `validate_convert_options`: the encode options first, then an input is
   * required (else usage), and recursive mode needs an output.
   */
  function ValidateConvert(o: Rsvc.ConvertOptions, named: string -> Option<EncodeFormats.EncodeFormat>): (r: (Validation, Rsvc.Encode))
    requires o.encode.format.Some? || named(Rsvc.DefaultFormatName(o.encode.bitrate)).Some?
    ensures r.1 == Rsvc.Validated(o.encode, named).1
  {
    var (checked, encode) := Rsvc.Validated(o.encode, named);
    if checked.Err? then (Invalid(checked.msg), encode)
    else if o.input.None? then (ShowUsage, encode)
    else if o.output.None? && o.recursive then (Invalid("-r requires output path"), encode)
    else (Valid, encode)
  }

  /** Valid exactly when the encode options are, there is an input, and recursion has an output. */
  lemma {:induction false} ValidateConvertIff(o: Rsvc.ConvertOptions, named: string -> Option<EncodeFormats.EncodeFormat>)
    requires o.encode.format.Some? || named(Rsvc.DefaultFormatName(o.encode.bitrate)).Some?
    ensures ValidateConvert(o, named).0 == Valid <==>
      Rsvc.Validated(o.encode, named).0.Ok? && o.input.Some? && (o.recursive ==> o.output.Some?)
    ensures Rsvc.Validated(o.encode, named).0.Err? ==> ValidateConvert(o, named).0 == Invalid(Rsvc.Validated(o.encode, named).0.msg)
  {
  }

  // ---------------------------------------------------------------------
  // change_extension

  /**
   * Where the stem ends: at the last '.', unless there is none or a '/'
   * follows it, when the stem is the whole path.
   */
  function StemEnd(path: string): (end: nat)
    ensures end <= |path|
    ensures end < |path| ==> path[end] == '.' && '/' !in path[end..] && '.' !in path[end + 1..]
  {
    match LastIndex(path, '.')
    case None => |path|
    case Some(d) => if '/' in path[d..] then |path| else d
  }

  /** The extension, if any, is the part from the last '.' of the last path component. */
  lemma {:induction false} StemEndWhole(path: string)
    requires StemEnd(path) == |path|
    ensures forall i :: 0 <= i < |path| && path[i] == '.' ==> '/' in path[i..]
  {
    forall i | 0 <= i < |path| && path[i] == '.'
      ensures '/' in path[i..]
    {
      assert '.' in path;
      var d := LastIndex(path, '.').value;
      assert forall k :: d < k < |path| ==> path[k] != '.' by {
        forall k | d < k < |path|
          ensures path[k] != '.'
        {
          assert path[k] == path[d + 1..][k - d - 1];
        }
      }
      assert '/' in path[d..];
      var k :| 0 <= k < |path[d..]| && path[d..][k] == '/';
      assert path[i..][d - i + k] == '/';
    }
  }

  /**
   * `change_extension`: the stem, '.', and the new extension; "File name
   * too long" when that and its terminator would not fit in MAXPATHLEN.
   */
  function ExtensionChanged(path: string, ext: string): (r: Result<string>)
    ensures r.Ok? <==> StemEnd(path) + |ext| + 2 < MAXPATHLEN
    ensures r.Err? ==> r.msg == path + ": File name too long"
  {
    var end := StemEnd(path);
    if end + |ext| + 2 >= MAXPATHLEN then Err(path + ": File name too long")
    else Ok(path[..end] + "." + ext)
  }

  /**
   * A changed name has the new extension: the name is the old stem, '.',
   * and the extension, and its own stem is that old stem.
   */
  lemma {:induction false} ChangedStem(path: string, ext: string)
    requires '.' !in ext && '/' !in ext
    requires ExtensionChanged(path, ext).Ok?
    ensures var r := ExtensionChanged(path, ext).value;
      StemEnd(r) == StemEnd(path) && r[..StemEnd(r)] == path[..StemEnd(path)] && r[StemEnd(r) + 1..] == ext
  {
    var stem := path[..StemEnd(path)];
    var r := stem + "." + ext;
    assert r[|stem|] == '.';
    assert r[|stem| + 1..] == ext;
    LastIndexIs(r, '.', |stem|);
    assert r[|stem|..] == "." + ext;
    assert '/' !in r[|stem|..];
    assert r[..|stem|] == stem;
  }

  /** Changing the extension twice is changing it once to the second. */
  lemma {:induction false} ChangeTwice(path: string, e1: string, e2: string)
    requires '.' !in e1 && '/' !in e1
    requires ExtensionChanged(path, e1).Ok?
    ensures ExtensionChanged(ExtensionChanged(path, e1).value, e2) == ExtensionChanged(path, e2)
      || (ExtensionChanged(path, e2).Err? && ExtensionChanged(ExtensionChanged(path, e1).value, e2).Err?)
  {
    ChangedStem(path, e1);
  }

  /** With an extension of its own, changing a name's extension to the same one leaves it as it is. */
  lemma {:induction false} ChangeIdempotent(path: string, ext: string)
    requires '.' !in ext && '/' !in ext
    requires ExtensionChanged(path, ext).Ok?
    ensures ExtensionChanged(ExtensionChanged(path, ext).value, ext) == ExtensionChanged(path, ext)
  {
    ChangedStem(path, ext);
    var r := ExtensionChanged(path, ext).value;
    assert r[..StemEnd(r)] + "." + ext == r;
  }

  /** The text a NUL-terminated buffer holds: everything before its first '\0'. */
  function CText(buf: seq<char>): string
    requires '\0' in buf
  {
    buf[..FirstIndex(buf, '\0').value]
  }

  /**
   * `change_extension(path, ext, path, ...)`, as the recursive walk calls
   * it: the buffer holds the path and is changed in place. On failure the
   * buffer is left as it was.
   */
  method ChangeExtensionInPlace(buf: array<char>, ext: string) returns (r: Result<()>)
    requires buf.Length == MAXPATHLEN && '\0' in buf[..] && '\0' !in ext
    modifies buf
    ensures var changed := ExtensionChanged(CText(old(buf[..])), ext);
      (r.Ok? <==> changed.Ok?) && (r.Err? ==> r.msg == changed.msg && buf[..] == old(buf[..]))
      && (r.Ok? ==> '\0' in buf[..] && CText(buf[..]) == changed.value)
  {
    ghost var before := buf[..];
    var n := CLength(buf);
    var path := buf[..n];
    var end := StemEnd(path);
    if end + |ext| + 2 >= MAXPATHLEN {
      return Err(path + ": File name too long");
    }
    WriteExtension(buf, end, ext);
    Terminated(buf[..], before, path, end, ext);
    r := Ok(());
  }

  /** `strlen`: the index of the buffer's first '\0'. */
  method CLength(buf: array<char>) returns (n: nat)
    requires '\0' in buf[..]
    ensures n == |CText(buf[..])| && buf[..n] == CText(buf[..])
  {
    n := 0;
    while buf[n] != '\0'
      invariant 0 <= n <= FirstIndex(buf[..], '\0').value
      decreases FirstIndex(buf[..], '\0').value - n
    {
      n := n + 1;
    }
  }

  /** The '.', the extension and the terminator, written from `end` on. */
  method WriteExtension(buf: array<char>, end: nat, ext: string)
    requires end + |ext| + 1 < buf.Length
    modifies buf
    ensures buf[..end] == old(buf[..end]) && buf[end] == '.'
    ensures buf[end + 1..end + 1 + |ext|] == ext && buf[end + 1 + |ext|] == '\0'
  {
    buf[end] := '.';
    var k := 0;
    while k < |ext|
      invariant 0 <= k <= |ext|
      invariant buf[..end] == old(buf[..end]) && buf[end] == '.'
      invariant buf[end + 1..end + 1 + k] == ext[..k]
    {
      buf[end + 1 + k] := ext[k];
      k := k + 1;
    }
    buf[end + 1 + |ext|] := '\0';
  }

  /** After the rewrite the buffer's text is the stem, '.', and the extension. */
  lemma {:induction false} Terminated(after: seq<char>, before: seq<char>, path: string, end: nat, ext: string)
    requires '\0' in before && path == CText(before) && end <= |path|
    requires '\0' !in ext && end + 1 + |ext| < |after|
    requires after[..end] == before[..end] && after[end] == '.'
    requires after[end + 1..end + 1 + |ext|] == ext && after[end + 1 + |ext|] == '\0'
    ensures '\0' in after && CText(after) == path[..end] + "." + ext
  {
    var text := path[..end] + "." + ext;
    assert after[..end + 1 + |ext|] == text by {
      assert after[..end + 1 + |ext|] == after[..end] + [after[end]] + after[end + 1..end + 1 + |ext|];
      assert path[..end] == before[..end];
    }
    assert '\0' !in path by {
      assert '\0' !in before[..FirstIndex(before, '\0').value];
    }
    assert '\0' !in text by {
      assert '\0' !in path[..end];
    }
    FirstIndexIs(after, '\0', end + 1 + |ext|);
  }

  // ---------------------------------------------------------------------
  // build_path

  /** `build_path(out, a, b, c)`: `a`, then "/" and `b` when given, then "/" and `c` when given. */
  function BuildPath(a: string, b: Option<string>, c: Option<string>): string
  {
    a + (if b.Some? then "/" + b.value else "") + (if c.Some? then "/" + c.value else "")
  }

  /** A built path starts with `a`, and a last component without '/' is what follows the last '/'. */
  lemma {:induction false} BuildPathParts(a: string, b: Option<string>, c: string)
    requires '/' !in c
    ensures var r := BuildPath(a, b, Some(c));
      r[..|a|] == a && LastIndex(r, '/') == Some(|r| - |c| - 1) && r[|r| - |c|..] == c
      && r[..|r| - |c| - 1] == BuildPath(a, b, None)
  {
    var front := BuildPath(a, b, None);
    assert BuildPath(a, b, Some(c)) == front + "/" + c;
    LastSegment(front, c);
    assert front[..|a|] == a;
  }

  /** In `front`, '/', `c`, with no '/' in `c`, the last '/' is the one after `front`. */
  lemma {:induction false} LastSegment(front: string, c: string)
    requires '/' !in c
    ensures var r := front + "/" + c;
      LastIndex(r, '/') == Some(|front|) && r[|front| + 1..] == c && r[..|front|] == front
  {
    var r := front + "/" + c;
    assert r[|front|] == '/';
    assert r[|front| + 1..] == c;
    LastIndexIs(r, '/', |front|);
    assert r[..|front|] == front;
  }

  // ---------------------------------------------------------------------
  // convert

  /** The output path: the one given, or the input with the format's extension. */
  function OutputPath(input: string, output: Option<string>, ext: string): (r: Result<string>)
    ensures output.Some? ==> r == Ok(output.value)
    ensures output.None? ==> r == ExtensionChanged(input, ext)
  {
    if output.Some? then Ok(output.value) else ExtensionChanged(input, ext)
  }

  /** The fields of `struct stat` the checks read. */
  datatype FileStat = FileStat(dev: int, ino: int, mtime: int)

  /** How the checks before converting end: refused, skipped with its line, or go ahead. */
  datatype Decision = Refuse(msg: string) | Skip(line: string) | Proceed

  /**
   * When both the input and the output can be stat'ed: the same device and
   * inode is an error; with `--update`, an output newer than the input is
   * skipped. Otherwise the conversion goes ahead.
   */
  function Existing(input: string, output: string, inStat: Option<FileStat>, outStat: Option<FileStat>, update: bool): (r: Decision)
  {
    if inStat.None? || outStat.None? then Proceed
    else if inStat.value.dev == outStat.value.dev && inStat.value.ino == outStat.value.ino then
      Refuse(input + " and " + output + " are the same file")
    else if update && inStat.value.mtime < outStat.value.mtime then Skip(" skip   " + output + "\n")
    else Proceed
  }

  /**
   * A file is never converted onto itself; an output is skipped exactly
   * when `--update` is given and the output is another, strictly newer
   * file; without `--update` nothing is skipped.
   */
  lemma {:induction false} ExistingIff(input: string, output: string, inStat: Option<FileStat>, outStat: Option<FileStat>, update: bool)
    ensures var d := Existing(input, output, inStat, outStat, update);
      (d.Refuse? <==> inStat.Some? && outStat.Some? && inStat.value.dev == outStat.value.dev && inStat.value.ino == outStat.value.ino)
      && (d.Skip? <==> update && inStat.Some? && outStat.Some? && !d.Refuse? && inStat.value.mtime < outStat.value.mtime)
      && (!update ==> !d.Skip?)
  {
  }

  // ---------------------------------------------------------------------
  // Recursive cleanup

  /**
   * Whether cleaning `dir` removes `path`: the path starts with `dir` and
   * its last '/' comes right after it.
   */
  predicate InDirectory(path: string, dir: string)
  {
    StartsWith(path, dir) && LastIndex(path, '/') == Some(|dir|)
  }

  /** Cleaning a directory removes exactly its direct children: `dir`, '/', and a name without '/'. */
  lemma {:induction false} InDirectoryIff(path: string, dir: string)
    ensures InDirectory(path, dir) <==>
      |path| > |dir| && path[..|dir|] == dir && path[|dir|] == '/' && '/' !in path[|dir| + 1..]
  {
    if |path| > |dir| && path[..|dir|] == dir && path[|dir|] == '/' && '/' !in path[|dir| + 1..] {
      LastIndexIs(path, '/', |dir|);
    }
  }

  /** A file listed under `dir` is cleaned with `dir`; one in a subdirectory is not. */
  lemma {:induction false} ChildrenOnly(dir: string, sub: string, name: string)
    requires '/' !in name
    ensures InDirectory(dir + "/" + name, dir)
    ensures !InDirectory(dir + "/" + sub + "/" + name, dir)
  {
    var p := dir + "/" + name;
    assert p[..|dir|] == dir && p[|dir|] == '/' && p[|dir| + 1..] == name;
    InDirectoryIff(p, dir);
    var q := dir + "/" + sub + "/" + name;
    assert q[|dir| + 1..][|sub|] == '/';
    InDirectoryIff(q, dir);
  }

  /** The list with the first occurrence of `x` taken out. */
  function RemoveFirst(ps: seq<string>, x: string): (r: seq<string>)
  {
    if ps == [] then []
    else if ps[0] == x then ps[1..]
    else [ps[0]] + RemoveFirst(ps[1..], x)
  }

  /** One copy of `x` goes, and nothing else: the rest keep their order. */
  lemma {:induction false} RemoveFirstAt(ps: seq<string>, x: string, i: nat)
    requires i < |ps| && ps[i] == x && x !in ps[..i]
    ensures RemoveFirst(ps, x) == ps[..i] + ps[i + 1..]
  {
    if i > 0 {
      assert x != ps[0] by { assert ps[..i][0] == ps[0]; }
      assert x !in ps[1..][..i - 1] by { assert ps[1..][..i - 1] == ps[..i][1..]; }
      RemoveFirstAt(ps[1..], x, i - 1);
      assert ps[..i] == [ps[0]] + ps[1..][..i - 1];
      assert ps[i + 1..] == ps[1..][i..];
    }
  }

  /** Taking out the first `x` loses one copy of `x` and nothing else. */
  lemma {:induction false} RemoveFirstCount(ps: seq<string>, x: string, i: nat)
    requires i < |ps| && ps[i] == x && x !in ps[..i]
    ensures multiset(RemoveFirst(ps, x)) == multiset(ps) - multiset{x}
  {
    RemoveFirstAt(ps, x, i);
    assert ps == ps[..i] + [x] + ps[i + 1..];
  }

  /** Without `x` the list is unchanged. */
  lemma {:induction false} RemoveFirstAbsent(ps: seq<string>, x: string)
    requires x !in ps
    ensures RemoveFirst(ps, x) == ps
  {
    if ps != [] {
      RemoveFirstAbsent(ps[1..], x);
    }
  }

  /** The files cleaning `dir` tries to remove, in list order, until a removal fails. */
  function Cleaning(ps: seq<string>, dir: string, rm: string -> Result<()>): (r: (seq<string>, Result<()>))
  {
    if ps == [] then ([], Ok(()))
    else
      var (tried, result) := Cleaning(ps[..|ps| - 1], dir, rm);
      var last := ps[|ps| - 1];
      if result.Err? || !InDirectory(last, dir) then (tried, result)
      else (tried + [last], rm(last))
  }

  /** The direct children of `dir` in the list, in order. */
  function Children(ps: seq<string>, dir: string): (r: seq<string>)
    ensures forall k :: 0 <= k < |r| ==> InDirectory(r[k], dir) && r[k] in ps
  {
    if ps == [] then []
    else Children(ps[..|ps| - 1], dir) + (if InDirectory(ps[|ps| - 1], dir) then [ps[|ps| - 1]] else [])
  }

  /**
   * Cleaning tries the children of `dir` in order; when every removal
   * succeeds it has tried them all, and otherwise it stopped at the first
   * that failed, with that file's error.
   */
  lemma {:induction false} CleaningShape(ps: seq<string>, dir: string, rm: string -> Result<()>)
    ensures var (tried, result) := Cleaning(ps, dir, rm);
      |tried| <= |Children(ps, dir)| && tried == Children(ps, dir)[..|tried|]
      && (forall k :: 0 <= k < |tried| - 1 ==> rm(tried[k]).Ok?)
      && (result.Ok? ==> tried == Children(ps, dir) && forall k :: 0 <= k < |tried| ==> rm(tried[k]).Ok?)
      && (result.Err? ==> tried != [] && result == rm(tried[|tried| - 1]))
  {
    if ps != [] {
      var init := ps[..|ps| - 1];
      CleaningShape(init, dir, rm);
      var (tried, result) := Cleaning(init, dir, rm);
      var kids := Children(init, dir);
      assert Children(ps, dir)[..|kids|] == kids;
      assert Children(ps, dir)[..|tried|] == kids[..|tried|];
    }
  }

  /** `struct path_list` of the outputs that existed before the walk, and the walk's handling of it. */
  class Outputs {
    var paths: seq<string>

    constructor ()
      ensures paths == []
    {
      paths := [];
    }

    /** The output tree's callback: each regular file's path goes at the tail. */
    method Collect(output: string, dirname: Option<string>, basename: string)
      modifies this
      ensures paths == old(paths) + [BuildPath(output, dirname, Some(basename))]
    {
      paths := paths + [BuildPath(output, dirname, Some(basename))];
    }

    /** A converted output is kept: its first exact match leaves the list. */
    method Keep(output: string)
      modifies this
      ensures paths == RemoveFirst(old(paths), output)
    {
      var i := 0;
      while i < |paths|
        invariant 0 <= i <= |paths|
        invariant output !in paths[..i]
      {
        if paths[i] == output {
          RemoveFirstAt(paths, output, i);
          paths := paths[..i] + paths[i + 1..];
          return;
        }
        assert paths[..i + 1] == paths[..i] + [paths[i]];
        i := i + 1;
      }
      assert paths[..i] == paths;
      RemoveFirstAbsent(paths, output);
    }

    /**
     * After a directory is walked: each listed file directly in it is
     * removed with `rm`, in list order, and the first failure ends the
     * walk. The list itself is not changed.
     */
    method Clean(dir: string, rm: string -> Result<()>) returns (tried: seq<string>, result: Result<()>)
      ensures tried == Cleaning(paths, dir, rm).0
      ensures result == Cleaning(paths, dir, rm).1
    {
      tried := [];
      var i := 0;
      while i < |paths|
        invariant 0 <= i <= |paths|
        invariant Cleaning(paths[..i], dir, rm) == (tried, Ok(()))
      {
        CleaningNext(paths, dir, rm, i, tried);
        if InDirectory(paths[i], dir) {
          tried := tried + [paths[i]];
          var removed := rm(paths[i]);
          match removed {
            case Err(_) =>
              CleaningStops(paths, dir, rm, i + 1);
              return tried, removed;
            case Ok(u) =>
              assert u == ();
          }
        }
        i := i + 1;
      }
      assert paths[..i] == paths;
      result := Ok(());
    }
  }

  /** One more entry: tried and removed when it is a child of `dir`, passed over otherwise. */
  lemma {:induction false} CleaningNext(ps: seq<string>, dir: string, rm: string -> Result<()>, i: nat, tried: seq<string>)
    requires i < |ps| && Cleaning(ps[..i], dir, rm) == (tried, Ok(()))
    ensures Cleaning(ps[..i + 1], dir, rm) ==
      if InDirectory(ps[i], dir) then (tried + [ps[i]], rm(ps[i])) else (tried, Ok(()))
  {
    assert ps[..i + 1][..i] == ps[..i];
  }

  /** Once a removal has failed, later entries change nothing. */
  lemma {:induction false} CleaningStops(ps: seq<string>, dir: string, rm: string -> Result<()>, n: nat)
    requires n <= |ps| && Cleaning(ps[..n], dir, rm).1.Err?
    ensures Cleaning(ps, dir, rm) == Cleaning(ps[..n], dir, rm)
    decreases |ps| - n
  {
    if n < |ps| {
      assert ps[..n + 1][..n] == ps[..n];
      CleaningStops(ps, dir, rm, n + 1);
    } else {
      assert ps[..n] == ps;
    }
  }
}

/**
 * The file helpers of src/rsvc/unix.c over the abstract file system of
 * `Files`: the temporary-file name and its retry loop (`rsvc_temp`),
 * `rsvc_makedirs`, `rsvc_trimdirs` and `rsvc_mv`. The same makedirs,
 * trimdirs and mv appear again in src/rsvc/posix.c; one model serves both.
 */
module Unix {
  import opened Common
  import opened Paths
  import opened Files
  import UnixLinux

  /** MAXPATHLEN of <sys/param.h> on Linux. */
  const MAXPATHLEN := 4096

  /** The template `mktemp` fills in: a '.' and ten 'X'. */
  const Template := ".XXXXXXXXXX"

  // ---------------------------------------------------------------- rsvc_temp

  /** The directory part of `base`: everything through its last '/', or nothing. */
  function DirPart(base: string): (r: string)
    ensures |r| <= |base| && r == base[..|r|] && (r == [] || r[|r| - 1] == '/')
  {
    match LastIndex(base, '/')
    case None => []
    case Some(i) => base[..i + 1]
  }

  /** The file name part of `base`: what follows its directory part. */
  function FilePart(base: string): (r: string)
    ensures DirPart(base) + r == base
  {
    base[|DirPart(base)|..]
  }

  /** The file name part holds no '/'. */
  lemma {:induction false} FilePartHasNoSlash(base: string)
    ensures '/' !in FilePart(base)
  {
    match LastIndex(base, '/')
    case None =>
    case Some(i) =>
      assert FilePart(base) == base[i + 1..];
  }

  /** The stem of a file name: the text before its last '.', or nothing when there is none or it is the first character. */
  function Stem(name: string): (r: string)
    ensures |r| <= |name| && r == name[..|r|]
  {
    match LastIndex(name, '.')
    case None => []
    case Some(i) => name[..i]
  }

  /** What follows the stem of a file name: its extension, or the whole name when the stem is empty. */
  function Rest(name: string): (r: string)
    ensures Stem(name) + r == name
  {
    name[|Stem(name)|..]
  }

  /** What follows the directory part in a temp name: '.', the stem, the draw and the rest of the file name. */
  function HiddenName(name: string, draw: string): string
  {
    "." + Stem(name) + "." + draw + Rest(name)
  }

  /**
   * The name `rsvc_temp` tries for one draw of `mktemp`: in the directory of
   * `base`, a hidden file made of the stem of its name, the ten drawn
   * characters and the rest of its name (its extension, or the whole name
   * when it has no usable '.').
   */
  function TempName(base: string, draw: string): string
  {
    DirPart(base) + HiddenName(FilePart(base), draw)
  }

  /** The names tried for each draw, in order. */
  function TempNames(base: string, draws: seq<string>): (names: seq<string>)
    ensures |names| == |draws|
  {
    if draws == [] then [] else [TempName(base, draws[0])] + TempNames(base, draws[1..])
  }

  /** The i-th name tried is the temp name of the i-th draw. */
  lemma {:induction false} TempNamesAt(base: string, draws: seq<string>, i: nat)
    requires i < |draws|
    ensures TempNames(base, draws)[i] == TempName(base, draws[i])
  {
    if i > 0 {
      TempNamesAt(base, draws[1..], i - 1);
    }
  }

  /** A non-empty stem leaves the extension as the rest: a '.' and no other. */
  lemma {:induction false} StemSplit(name: string)
    ensures Stem(name) != [] ==> Rest(name) != [] && Rest(name)[0] == '.' && '.' !in Rest(name)[1..]
  {
    if Stem(name) != [] {
      var i := LastIndex(name, '.').value;
      assert Rest(name) == name[i..];
      assert Rest(name)[1..] == name[i + 1..];
    }
  }

  /**
   * Taking the leading '.' and the eleven characters `mktemp` filled in out
   * of the temp name gives back the base, so the temp name is twelve
   * characters longer than the base and the length check leaves room for
   * its NUL.
   */
  lemma {:induction false} TempNameLayout(base: string, draw: string)
    requires |draw| == 10
    ensures TempName(base, draw) == DirPart(base) + "." + Stem(FilePart(base)) + "." + draw + Rest(FilePart(base))
    ensures DirPart(base) + Stem(FilePart(base)) + Rest(FilePart(base)) == base
    ensures |TempName(base, draw)| == |base| + 12
    ensures |base| + 12 < MAXPATHLEN ==> |TempName(base, draw)| < MAXPATHLEN
  {
    var dir, name := DirPart(base), FilePart(base);
    Regroup(dir, ".", Stem(name), ".", draw, Rest(name));
  }

  /** Concatenation regrouped, on abstract parts. */
  lemma {:induction false} Regroup(a: string, b: string, c: string, d: string, e: string, f: string)
    ensures a + (b + c + d + e + f) == a + b + c + d + e + f
    ensures a + c + f == a + (c + f)
  {
  }

  /** The part of a temp name after the directory part: no '/' when the draw has none. */
  lemma {:induction false} TempTail(name: string, draw: string)
    requires '/' !in name && '/' !in draw
    ensures '/' !in HiddenName(name, draw)
  {
    var stem, rest := Stem(name), Rest(name);
    assert forall k | 0 <= k < |stem| :: stem[k] == name[k];
    assert forall k | 0 <= k < |rest| :: rest[k] == name[|stem| + k];
  }

  /** The temp name of an entry in a directory lives in that same directory. */
  lemma {:induction false} TempNameSameDirectory(dir: string, name: string, draw: string)
    requires dir != [] && name != [] && '/' !in name && '/' !in draw
    ensures Dirname(TempName(dir + "/" + name, draw)) == dir
  {
    var base := dir + "/" + name;
    assert base[|dir|] == '/' && base[|dir| + 1..] == name;
    LastIndexPrefix(base, |dir| + 1);
    assert DirPart(base) == dir + "/";
    assert FilePart(base) == name;
    TempTail(name, draw);
    DirnameChild(dir, HiddenName(name, draw));
  }

  /** The errors after which `rsvc_temp` draws a new name. */
  predicate Retry(err: Option<Errno>)
  {
    err == Some(EEXIST) || err == Some(EINTR) || err == Some(EISDIR)
  }

  /** The index of the first name whose exclusive create is not retried, or the number of names. */
  function Settled(dirs: set<string>, files: map<string, seq<byte>>, denied: set<string>, names: seq<string>): (i: nat)
    ensures i <= |names|
    ensures forall j | 0 <= j < i :: Retry(CreateError(dirs, files, denied, names[j]))
    ensures i < |names| ==> !Retry(CreateError(dirs, files, denied, names[i]))
  {
    if names == [] then 0
    else if !Retry(CreateError(dirs, files, denied, names[0])) then 0
    else 1 + Settled(dirs, files, denied, names[1..])
  }

  /**
   * `rsvc_temp`: create and open a new file named after `base`. The names
   * `mktemp` draws are the sequence `draws` (ten characters each); the loop
   * retries on EEXIST, EINTR and EISDIR and stops at any other outcome. The
   * C loop has no bound, so the draws must include one that is not retried.
   * The names are worked out before the loop rather than in it: `mktemp`
   * draws do not depend on the file system.
   */
  method Temp(fs: FileSystem, base: string, draws: seq<string>) returns (r: Result<(string, int)>)
    requires fs.Valid()
    requires forall d <- draws :: |d| == 10
    requires Settled(fs.dirs, fs.files, fs.denied, TempNames(base, draws)) < |draws|
    modifies fs
    ensures fs.Valid() && fs.dirs == old(fs.dirs)
    ensures |base| + 12 >= MAXPATHLEN ==>
      r == Err(base + ": File name too long") && fs.files == old(fs.files) && fs.open == old(fs.open)
    ensures |base| + 12 < MAXPATHLEN ==>
      var name := TempNames(base, draws)[Settled(old(fs.dirs), old(fs.files), fs.denied, TempNames(base, draws))];
      var err := CreateError(old(fs.dirs), old(fs.files), fs.denied, name);
      && (err == None ==> r.Ok? && r.value.0 == name && r.value.1 !in old(fs.open)
                          && fs.open == old(fs.open)[r.value.1 := name] && fs.files == old(fs.files)[name := []])
      && (err != None ==> r == Err(ErrorText(name, err.value)) && fs.files == old(fs.files) && fs.open == old(fs.open))
  {
    if |base| + 12 >= MAXPATHLEN {
      return Err(base + ": File name too long");
    }
    var names := TempNames(base, draws);
    ghost var dirs, files := fs.dirs, fs.files;
    ghost var settled := Settled(dirs, files, fs.denied, names);
    var i := 0;
    while true
      invariant 0 <= i <= settled
      invariant fs.Valid() && fs.dirs == dirs && fs.files == files && fs.open == old(fs.open)
      decreases settled - i
    {
      var name := names[i];
      ghost var outcome := CreateError(dirs, files, fs.denied, name);
      var fd, err := fs.Open(name, CreateExclusive);
      assert err == outcome;
      if !Retry(err) {
        assert i == settled;
        if err == None {
          return Ok((name, fd));
        } else {
          return Err(ErrorText(name, err.value));
        }
      }
      assert i != settled;
      i := i + 1;
    }
  }

  // ------------------------------------------------------------ rsvc_makedirs

  /** A path and all its ancestors, up to "." or "/". */
  function Chain(path: string): (c: set<string>)
    ensures path in c
    decreases Rank(path)
  {
    if Dirname(path) == path then {path}
    else
      DirnameFixedPoints(path);
      {path} + Chain(Dirname(path))
  }

  /** In a well-formed tree, every proper ancestor of an existing entry is a directory. */
  lemma {:induction false} AncestorsAreDirectories(dirs: set<string>, files: map<string, seq<byte>>, path: string)
    requires Tree(dirs, files) && (path in dirs || path in files)
    ensures forall p <- Chain(path) :: p == path || p in dirs
    decreases Rank(path)
  {
    if Dirname(path) != path {
      DirnameFixedPoints(path);
      AncestorsAreDirectories(dirs, files, Dirname(path));
    }
  }

  /**
   * `rsvc_makedirs`: make the parent first (unless the path is its own
   * parent), then the path, counting EEXIST and EISDIR as success.
   */
  method MakeDirs(fs: FileSystem, path: string) returns (r: Result<()>)
    requires fs.Valid()
    modifies fs
    ensures fs.Valid() && fs.files == old(fs.files) && fs.open == old(fs.open) && fs.next == old(fs.next)
    ensures old(fs.dirs) <= fs.dirs && fs.dirs - old(fs.dirs) <= Chain(path)
    ensures r.Ok? ==> path in fs.dirs || path in fs.files
    ensures r.Err? ==> exists p <- Chain(path), e :: r.msg == ErrorText(p, e)
    ensures old(path in fs.dirs || path in fs.files) ==> r.Ok? && fs.dirs == old(fs.dirs)
    decreases Rank(path)
  {
    var parent := Dirname(path);
    if parent != path {
      DirnameFixedPoints(path);
      r := MakeDirs(fs, parent);
      if r.Err? {
        return;
      }
    }
    var err := fs.Mkdir(path);
    if err == None || err == Some(EEXIST) || err == Some(EISDIR) {
      r := Ok(());
    } else {
      r := Err(ErrorText(path, err.value));
    }
  }

  /** The second of two calls to `rsvc_makedirs` with the same path succeeds when the first did, and changes nothing. */
  method MakeDirsTwice(fs: FileSystem, path: string) returns (first: Result<()>, second: Result<()>)
    requires fs.Valid()
    modifies fs
    ensures first.Ok? ==> second.Ok?
    ensures first.Ok? ==> fs.dirs - old(fs.dirs) <= Chain(path)
  {
    first := MakeDirs(fs, path);
    ghost var between := fs.dirs;
    second := MakeDirs(fs, path);
    assert first.Ok? ==> fs.dirs == between;
  }

  // ------------------------------------------------------------ rsvc_trimdirs

  /** The directories `rsvc_trimdirs` removes: the path, then its ancestors, until an `rmdir` fails. */
  function Trimmed(dirs: set<string>, files: map<string, seq<byte>>, denied: set<string>, path: string): set<string>
    decreases Rank(path)
  {
    if RmdirError(dirs, files, denied, path) != None then {}
    else
      DirnameFixedPoints(path);
      {path} + Trimmed(dirs - {path}, files, denied, Dirname(path))
  }

  /** Only the path and its ancestors are removed, never "." or "/", and only directories that existed. */
  lemma {:induction false} TrimmedWithinChain(dirs: set<string>, files: map<string, seq<byte>>, denied: set<string>, path: string)
    ensures Trimmed(dirs, files, denied, path) <= Chain(path) * dirs
    ensures "." !in Trimmed(dirs, files, denied, path) && "/" !in Trimmed(dirs, files, denied, path)
    decreases Rank(path)
  {
    if RmdirError(dirs, files, denied, path) == None {
      DirnameFixedPoints(path);
      TrimmedWithinChain(dirs - {path}, files, denied, Dirname(path));
    }
  }

  /** Removing the trimmed directories keeps the tree well-formed. */
  lemma {:induction false} TrimKeepsTree(dirs: set<string>, files: map<string, seq<byte>>, denied: set<string>, path: string)
    requires Tree(dirs, files)
    ensures Tree(dirs - Trimmed(dirs, files, denied, path), files)
    decreases Rank(path)
  {
    if RmdirError(dirs, files, denied, path) == None {
      DirnameFixedPoints(path);
      RmdirKeepsTree(dirs, files, denied, path);
      TrimKeepsTree(dirs - {path}, files, denied, Dirname(path));
      assert dirs - {path} - Trimmed(dirs - {path}, files, denied, Dirname(path)) == dirs - Trimmed(dirs, files, denied, path);
    }
  }

  /**
   * Trimming right after a successful `mkdir` removes the new directory and
   * then goes on exactly as trimming its parent would have.
   */
  lemma {:induction false} TrimUndoesMkdir(dirs: set<string>, files: map<string, seq<byte>>, denied: set<string>, path: string)
    requires Tree(dirs, files) && CreateError(dirs, files, denied, path) == None
    ensures Trimmed(dirs + {path}, files, denied, path) == {path} + Trimmed(dirs, files, denied, Dirname(path))
  {
    var after := dirs + {path};
    assert !HasChildren(after, files, path) by {
      forall d | d in after && d != path
        ensures Dirname(d) != path
      {
        assert d in dirs;
      }
    }
    assert RmdirError(after, files, denied, path) == None;
    assert after - {path} == dirs;
  }

  /** `rsvc_trimdirs`: remove the path, and while that succeeds, its parent. */
  method TrimDirs(fs: FileSystem, path: string)
    requires fs.Valid()
    modifies fs
    ensures fs.Valid() && fs.files == old(fs.files) && fs.open == old(fs.open) && fs.next == old(fs.next)
    ensures fs.dirs == old(fs.dirs) - Trimmed(old(fs.dirs), old(fs.files), fs.denied, path)
    decreases Rank(path)
  {
    var err := fs.Rmdir(path);
    if err == None {
      DirnameFixedPoints(path);
      TrimDirs(fs, Dirname(path));
      assert old(fs.dirs) - {path} - Trimmed(old(fs.dirs) - {path}, fs.files, fs.denied, Dirname(path))
        == old(fs.dirs) - Trimmed(old(fs.dirs), old(fs.files), fs.denied, path);
    }
  }

  // ------------------------------------------------------------------ rsvc_mv

  /**
   * `rsvc_mv`: rename, and only when that fails with EXDEV, copy and then
   * remove the source (with the copy of src/rsvc/unix_linux.c).
   */
  method Mv(fs: FileSystem, src: string, dst: string, faults: set<UnixLinux.Step>, fault: Errno) returns (r: Result<()>)
    requires fs.Valid()
    modifies fs
    ensures fs.Valid() && fs.dirs == old(fs.dirs) && fs.open == old(fs.open)
    ensures RenameError(fs.dirs, old(fs.files), fs.denied, fs.device, src, dst) == None ==>
      r == Ok(()) && fs.files == (old(fs.files) - {src})[dst := old(fs.files)[src]]
    ensures RenameError(fs.dirs, old(fs.files), fs.denied, fs.device, src, dst) !in {None, Some(EXDEV)} ==>
      r == Err(ErrorText("rename " + src + " to " + dst, RenameError(fs.dirs, old(fs.files), fs.denied, fs.device, src, dst).value))
      && fs.files == old(fs.files)
    ensures r.Ok? ==> src in old(fs.files) && dst in fs.files && fs.files[dst] == old(fs.files)[src]
    ensures r.Ok? && src != dst ==> src !in fs.files
    ensures r.Ok? ==> forall p <- fs.files.Keys | p != dst :: p in old(fs.files) && fs.files[p] == old(fs.files)[p]
  {
    var err := fs.Rename(src, dst);
    if err == None {
      r := Ok(());
    } else if err == Some(EXDEV) {
      assert src in fs.files && src != dst;
      ghost var before := fs.files;
      r := UnixLinux.Cp(fs, src, dst, faults, fault);
      if r.Ok? {
        assert fs.files == before[dst := before[src]];
        var gone := fs.Unlink(src);
        if gone != None {
          r := Err(ErrorText(src, gone.value));
        }
      }
    } else {
      r := Err(ErrorText("rename " + src + " to " + dst, err.value));
    }
  }
}

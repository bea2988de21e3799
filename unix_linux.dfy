/**
 * The Linux file helpers of src/rsvc/unix_linux.c: `rsvc_opendev`, which
 * takes a bare device name to mean a node under /dev, and `rsvc_cp`, a chain
 * of steps that stops at the first failure and then closes both
 * descriptors whatever happened.
 */
module UnixLinux {
  import opened Common
  import opened Paths
  import opened Files
  import DiscLinux

  /** PATH_MAX of <linux/limits.h>. */
  const PATH_MAX := 4096

  /**
   * The path `rsvc_opendev` opens for `path`: a path holding a '/' as it is,
   * a bare name under "/dev/" when the result fits in PATH_MAX with its NUL,
   * and ENAMETOOLONG otherwise.
   */
  function DevPath(path: string): (r: Result<string>)
    ensures r.Ok? ==> '/' in r.value
    ensures r.Ok? ==> r.value == path || r.value == DiscLinux.DevPrefix + path
    ensures r.Err? <==> '/' !in path && |DiscLinux.DevPrefix| + |path| >= PATH_MAX
    ensures r.Ok? && '/' !in path ==> |r.value| < PATH_MAX
  {
    if '/' in path then Ok(path)
    else if |DiscLinux.DevPrefix| + |path| >= PATH_MAX then Err(ErrorText(path, ENAMETOOLONG))
    else
      assert (DiscLinux.DevPrefix + path)[0] == '/';
      Ok(DiscLinux.DevPrefix + path)
  }

  /**
   * `rsvc_opendev` undoes the abbreviation `abbrev_dev` of
   * src/rsvc/disc_linux.c makes: any device node that fits in PATH_MAX
   * opens again from its abbreviated name.
   */
  lemma {:induction false} DevPathInvertsAbbrev(devnode: string)
    requires '/' in devnode && |devnode| < PATH_MAX
    ensures DevPath(DiscLinux.AbbrevDev(devnode)) == Ok(devnode)
  {
  }

  /** A bare name opens under /dev, and the node abbreviates back to the name. */
  lemma {:induction false} AbbrevInvertsDevPath(name: string)
    requires '/' !in name && |name| + 5 < PATH_MAX
    ensures DevPath(name).Ok? && DiscLinux.AbbrevDev(DevPath(name).value) == name
  {
    DiscLinux.AbbrevDevOfDevName(name);
  }

  /** `rsvc_opendev`: open the device node for `path`; a name too long for /dev is refused before any `open`. */
  method OpenDev(fs: FileSystem, path: string, mode: OpenMode) returns (fd: int, r: Result<()>)
    requires fs.Valid()
    modifies fs
    ensures fs.Valid() && fs.dirs == old(fs.dirs)
    ensures DevPath(path).Err? ==> fd == -1 && r == Err(DevPath(path).msg) && unchanged(fs)
    ensures DevPath(path).Ok? ==>
      var err := OpenError(fs.dirs, old(fs.files), fs.denied, DevPath(path).value, mode);
      && (err == None ==> r == Ok(()) && fd >= 0 && fs.open == old(fs.open)[fd := DevPath(path).value])
      && (err != None ==> r == Err(ErrorText(DevPath(path).value, err.value)) && fd == -1 && fs.open == old(fs.open))
  {
    var devpath := DevPath(path);
    if devpath.Err? {
      return -1, Err(devpath.msg);
    }
    var err;
    fd, err := fs.Open(devpath.value, mode);
    r := if err == None then Ok(()) else Err(ErrorText(devpath.value, err.value));
  }

  /** The steps of `rsvc_cp`, in the order it takes them. */
  datatype Step = OpenSource | Stat | OpenTarget | Chmod | Utimes | Send

  /**
   * The first step of `rsvc_cp` that fails, and its error: opening the
   * source or the target fails as `open` would, and `fstat`, `fchmod`,
   * `futimes` and `sendfile` fail with `fault` when they are among `faults`.
   */
  function FirstFailure(dirs: set<string>, files: map<string, seq<byte>>, denied: set<string>,
                        src: string, dst: string, faults: set<Step>, fault: Errno): Option<(Step, Errno)>
  {
    var openSource := OpenError(dirs, files, denied, src, ReadOnly);
    var openTarget := OpenError(dirs, files, denied, dst, WriteTruncate);
    if openSource.Some? then Some((OpenSource, openSource.value))
    else if Stat in faults then Some((Stat, fault))
    else if openTarget.Some? then Some((OpenTarget, openTarget.value))
    else if Chmod in faults then Some((Chmod, fault))
    else if Utimes in faults then Some((Utimes, fault))
    else if Send in faults then Some((Send, fault))
    else None
  }

  /** The steps before which the target has not been opened. */
  predicate BeforeTarget(s: Step)
  {
    s == OpenSource || s == Stat || s == OpenTarget
  }

  /** The files `rsvc_cp` leaves behind, given its first failure. */
  function CpFiles(files: map<string, seq<byte>>, src: string, dst: string, failure: Option<(Step, Errno)>): map<string, seq<byte>>
    requires failure == None ==> src in files
  {
    var truncated := files[dst := []];
    match failure
    case None => truncated[dst := truncated[src]]
    case Some((s, _)) => if BeforeTarget(s) then files else truncated
  }

  /**
   * What `rsvc_cp` leaves: the target a copy of the source on success (an
   * empty file when source and target are the same path, since the target
   * is truncated before the copy); the
   * target untouched when the source cannot be opened or stat'ed, or the
   * target cannot be opened; and the target created or truncated to empty
   * when a later step fails. Success needs exactly a readable source, a
   * writable target and no failing injected step.
   */
  lemma {:induction false} CpOutcomes(dirs: set<string>, files: map<string, seq<byte>>, denied: set<string>,
                   src: string, dst: string, faults: set<Step>, fault: Errno)
    requires Tree(dirs, files)
    ensures var failure := FirstFailure(dirs, files, denied, src, dst, faults, fault);
      && (failure == None ==> CpFiles(files, src, dst, failure) == files[dst := if src == dst then [] else files[src]])
      && (failure == None <==>
            src in files && src !in denied && Stat !in faults && Chmod !in faults && Utimes !in faults && Send !in faults
            && dst !in dirs && (dst in files ==> dst !in denied) && (dst !in files ==> Dirname(dst) in dirs && Dirname(dst) !in denied))
      && (failure.Some? && !BeforeTarget(failure.value.0) ==>
            dst !in dirs && CpFiles(files, src, dst, failure)[dst] == [] && CpFiles(files, src, dst, failure).Keys == files.Keys + {dst})
      && (failure.Some? && BeforeTarget(failure.value.0) ==> CpFiles(files, src, dst, failure) == files)
  {
  }

  /** The message of a failing step. */
  function CpError(src: string, dst: string, failure: (Step, Errno)): string
  {
    match failure.0
    case OpenSource => ErrorText(src, failure.1)
    case Stat => ErrorText("stat " + src, failure.1)
    case OpenTarget => ErrorText(dst, failure.1)
    case _ => ErrorText("copy " + src + " to " + dst, failure.1)
  }

  /**
   * `rsvc_cp`: run the steps, then close both descriptors, including one
   * never opened (-1), whatever happened. Metadata is not modelled: the
   * injected steps change nothing.
   */
  method Cp(fs: FileSystem, src: string, dst: string, faults: set<Step>, fault: Errno) returns (r: Result<()>)
    requires fs.Valid()
    modifies fs
    ensures fs.Valid() && fs.dirs == old(fs.dirs) && fs.open == old(fs.open)
    ensures var failure := FirstFailure(fs.dirs, old(fs.files), fs.denied, src, dst, faults, fault);
      && (failure == None ==> src in old(fs.files) && r == Ok(()))
      && (failure != None ==> r == Err(CpError(src, dst, failure.value)))
      && fs.files == CpFiles(old(fs.files), src, dst, failure)
  {
    var srcFd, dstFd;
    srcFd, dstFd, r := CpSteps(fs, src, dst, faults, fault);
    var closed := fs.Close(srcFd);
    closed := fs.Close(dstFd);
  }

  /**
   * The chain of steps of `rsvc_cp` before the descriptors are closed:
   * open the source, `fstat` it, open the target, `fchmod` and `futimes`
   * it, `sendfile` the contents, stopping at the first step that fails.
   * A descriptor that was not opened is -1.
   */
  method CpSteps(fs: FileSystem, src: string, dst: string, faults: set<Step>, fault: Errno)
    returns (srcFd: int, dstFd: int, r: Result<()>)
    requires fs.Valid()
    modifies fs
    ensures fs.Valid() && fs.dirs == old(fs.dirs)
    ensures srcFd !in old(fs.open) && dstFd !in old(fs.open) && fs.open - {srcFd} - {dstFd} == old(fs.open)
    ensures var failure := FirstFailure(fs.dirs, old(fs.files), fs.denied, src, dst, faults, fault);
      && (failure == None ==> src in old(fs.files) && r == Ok(()))
      && (failure != None ==> r == Err(CpError(src, dst, failure.value)))
      && fs.files == CpFiles(old(fs.files), src, dst, failure)
  {
    ghost var files := fs.files;
    ghost var failure := FirstFailure(fs.dirs, files, fs.denied, src, dst, faults, fault);
    srcFd, dstFd := -1, -1;
    r := Ok(());
    var err;
    srcFd, err := fs.Open(src, ReadOnly);
    if err != None {
      r := Err(ErrorText(src, err.value));
      assert failure == Some((OpenSource, err.value));
    } else if Stat in faults {
      r := Err(ErrorText("stat " + src, fault));
      assert failure == Some((Stat, fault));
    } else {
      dstFd, err := fs.Open(dst, WriteTruncate);
      if err != None {
        r := Err(ErrorText(dst, err.value));
        assert failure == Some((OpenTarget, err.value));
      } else if Chmod in faults {
        r := Err(ErrorText("copy " + src + " to " + dst, fault));
        assert failure == Some((Chmod, fault));
      } else if Utimes in faults {
        r := Err(ErrorText("copy " + src + " to " + dst, fault));
        assert failure == Some((Utimes, fault));
      } else {
        assert fs.files == files[dst := []];
        err := fs.Transfer(srcFd, dstFd, if Send in faults then Some(fault) else None);
        if err != None {
          r := Err(ErrorText("copy " + src + " to " + dst, fault));
          assert failure == Some((Send, fault));
        } else {
          assert failure == None;
        }
      }
    }
    assert fs.files == CpFiles(files, src, dst, failure);
    CloseOpened(old(fs.open), srcFd, src, dstFd, dst);
  }
}

/**
 * The file helpers of src/rsvc/posix.c that differ from their Linux
 * counterparts: `rsvc_cp`, which copies with `fcopyfile` and closes exactly
 * the descriptors it opened on each exit, and `rsvc_mv`, which falls back to
 * that copy. `rsvc_open`, `rsvc_rename`, `rsvc_rm`, `rsvc_mkdir` and
 * `rsvc_rmdir` are the system calls of `Files.FileSystem` with the path as
 * the error message; `rsvc_makedirs`, `rsvc_trimdirs` and `rsvc_dirname`
 * are written as in src/rsvc/unix.c and are modelled once, in `Unix` and
 * `Paths`.
 */
module Posix {
  import opened Common
  import opened Files
  import UnixLinux

  /** The steps of `rsvc_cp`, in the order it takes them. */
  datatype Step = OpenSource | OpenTarget | Copy

  /**
   * The first step of `rsvc_cp` that fails, and its error: the opens fail as
   * `open` would, and `fcopyfile` fails with `fault` when one is given.
   */
  function FirstFailure(dirs: set<string>, files: map<string, seq<byte>>, denied: set<string>,
                        src: string, dst: string, fault: Option<Errno>): Option<(Step, Errno)>
  {
    var openSource := OpenError(dirs, files, denied, src, ReadOnly);
    var openTarget := OpenError(dirs, files, denied, dst, WriteTruncate);
    if openSource.Some? then Some((OpenSource, openSource.value))
    else if openTarget.Some? then Some((OpenTarget, openTarget.value))
    else if fault.Some? then Some((Copy, fault.value))
    else None
  }

  /** The files `rsvc_cp` leaves behind, given its first failure. */
  function CpFiles(files: map<string, seq<byte>>, src: string, dst: string, failure: Option<(Step, Errno)>): map<string, seq<byte>>
    requires failure == None ==> src in files
  {
    var truncated := files[dst := []];
    match failure
    case None => truncated[dst := truncated[src]]
    case Some((OpenSource, _)) => files
    case Some((OpenTarget, _)) => files
    case Some((Copy, _)) => truncated
  }

  /** The message of a failing step. */
  function CpError(src: string, dst: string, failure: (Step, Errno)): string
  {
    match failure.0
    case OpenSource => ErrorText(src, failure.1)
    case OpenTarget => ErrorText(dst, failure.1)
    case Copy => ErrorText("copy " + src + " to " + dst, failure.1)
  }

  /**
   * What `rsvc_cp` leaves: the target a copy of the source on success (empty
   * when both are the same path, since the target is truncated first); no
   * change at all when either open fails, so a source that cannot be opened
   * never creates the target; and the target created or truncated to empty
   * when `fcopyfile` fails. Success needs exactly a readable source, a
   * writable target and no copy fault.
   */
  lemma {:induction false} CpOutcomes(dirs: set<string>, files: map<string, seq<byte>>, denied: set<string>,
                   src: string, dst: string, fault: Option<Errno>)
    requires Tree(dirs, files)
    ensures var failure := FirstFailure(dirs, files, denied, src, dst, fault);
      && (failure == None ==> CpFiles(files, src, dst, failure) == files[dst := if src == dst then [] else files[src]])
      && (failure == None <==>
            src in files && src !in denied && fault == None
            && dst !in dirs && (dst in files ==> dst !in denied) && (dst !in files ==> Paths.Dirname(dst) in dirs && Paths.Dirname(dst) !in denied))
      && (failure.Some? && failure.value.0 == Copy ==>
            dst !in dirs && CpFiles(files, src, dst, failure)[dst] == [] && CpFiles(files, src, dst, failure).Keys == files.Keys + {dst})
      && (failure.Some? && failure.value.0 != Copy ==> CpFiles(files, src, dst, failure) == files)
  {
  }

  /**
   * With nothing injected, the copy here and the Linux copy of
   * src/rsvc/unix_linux.c agree on success, on the files left behind and on
   * the message of an open that fails.
   */
  lemma {:induction false} AgreesWithLinux(dirs: set<string>, files: map<string, seq<byte>>, denied: set<string>, src: string, dst: string, fault: Errno)
    requires Tree(dirs, files)
    ensures var here := FirstFailure(dirs, files, denied, src, dst, None);
      var there := UnixLinux.FirstFailure(dirs, files, denied, src, dst, {}, fault);
      && (here == None <==> there == None)
      && (here != None ==> CpError(src, dst, here.value) == UnixLinux.CpError(src, dst, there.value))
      && (here == None ==> src in files && CpFiles(files, src, dst, here) == UnixLinux.CpFiles(files, src, dst, there))
      && (here != None ==> CpFiles(files, src, dst, here) == UnixLinux.CpFiles(files, src, dst, there))
  {
  }

  /**
   * `rsvc_cp`: open the source, then the target (created or truncated),
   * then `fcopyfile`; each exit closes exactly the descriptors opened by
   * then, so the descriptor table ends as it began.
   */
  method Cp(fs: FileSystem, src: string, dst: string, fault: Option<Errno>) returns (r: Result<()>)
    requires fs.Valid()
    modifies fs
    ensures fs.Valid() && fs.dirs == old(fs.dirs) && fs.open == old(fs.open)
    ensures var failure := FirstFailure(fs.dirs, old(fs.files), fs.denied, src, dst, fault);
      && (failure == None ==> src in old(fs.files) && r == Ok(()))
      && (failure != None ==> r == Err(CpError(src, dst, failure.value)))
      && fs.files == CpFiles(old(fs.files), src, dst, failure)
  {
    ghost var files := fs.files;
    ghost var table := fs.open;
    ghost var failure := FirstFailure(fs.dirs, files, fs.denied, src, dst, fault);
    var srcFd, dstFd, err, closed;
    srcFd, err := fs.Open(src, ReadOnly);
    if err != None {
      assert failure == Some((OpenSource, err.value));
      return Err(ErrorText(src, err.value));
    }
    dstFd, err := fs.Open(dst, WriteTruncate);
    if err != None {
      assert failure == Some((OpenTarget, err.value));
      closed := fs.Close(srcFd);
      CloseOpened(table, srcFd, src, srcFd, src);
      return Err(ErrorText(dst, err.value));
    }
    assert fs.files == files[dst := []];
    err := fs.Transfer(srcFd, dstFd, fault);
    if err != None {
      assert failure == Some((Copy, fault.value));
      r := Err(ErrorText("copy " + src + " to " + dst, fault.value));
    } else {
      assert failure == None;
      r := Ok(());
    }
    closed := fs.Close(srcFd);
    closed := fs.Close(dstFd);
    CloseOpened(table, srcFd, src, dstFd, dst);
  }

  /**
   * `rsvc_mv`: rename, and only when that fails with EXDEV, copy and then
   * remove the source; the source is removed only after a copy that
   * succeeded.
   */
  method Mv(fs: FileSystem, src: string, dst: string, fault: Option<Errno>) returns (r: Result<()>)
    requires fs.Valid()
    modifies fs
    ensures fs.Valid() && fs.dirs == old(fs.dirs) && fs.open == old(fs.open)
    ensures RenameError(fs.dirs, old(fs.files), fs.denied, fs.device, src, dst) == None ==>
      r == Ok(()) && fs.files == (old(fs.files) - {src})[dst := old(fs.files)[src]]
    ensures RenameError(fs.dirs, old(fs.files), fs.denied, fs.device, src, dst) !in {None, Some(EXDEV)} ==>
      r == Err(ErrorText("rename " + src + " to " + dst, RenameError(fs.dirs, old(fs.files), fs.denied, fs.device, src, dst).value))
      && fs.files == old(fs.files)
    ensures (RenameError(fs.dirs, old(fs.files), fs.denied, fs.device, src, dst) == Some(EXDEV)
             && FirstFailure(fs.dirs, old(fs.files), fs.denied, src, dst, fault) != None) ==>
      var failure := FirstFailure(fs.dirs, old(fs.files), fs.denied, src, dst, fault);
      r == Err(CpError(src, dst, failure.value)) && fs.files == CpFiles(old(fs.files), src, dst, failure)
    ensures r.Ok? ==> src in old(fs.files) && dst in fs.files && fs.files[dst] == old(fs.files)[src]
    ensures r.Ok? && src != dst ==> src !in fs.files
    ensures r.Ok? ==> forall p <- fs.files.Keys | p != dst :: p in old(fs.files) && fs.files[p] == old(fs.files)[p]
  {
    var err := fs.Rename(src, dst);
    if err == None {
      r := Ok(());
    } else if err == Some(EXDEV) {
      assert src in fs.files && src != dst;
      ghost var before := fs.files;
      r := Cp(fs, src, dst, fault);
      if r.Ok? {
        assert fs.files == before[dst := before[src]];
        var gone := fs.Unlink(src);
        if gone != None {
          r := Err(ErrorText(src, gone.value));
        }
      }
    } else {
      r := Err(ErrorText("rename " + src + " to " + dst, err.value));
    }
  }
}

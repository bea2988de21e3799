/**
 * An abstract file system for the file helpers of src/rsvc/unix.c,
 * src/rsvc/posix.c and src/rsvc/unix_linux.c: a set of directories, a map
 * of regular files to their contents and a table of open descriptors. The
 * parent of an entry is its `Dirname`. The system calls the helpers make
 * are methods that either change the state as POSIX describes or return the
 * `errno` they fail with and change nothing. Permissions are a fixed set of
 * denied paths: a denied file cannot be opened, and no entry can be added to
 * or removed from a denied directory. Each path lives on a device, so that
 * `rename` can fail with EXDEV.
 */
module Files {
  import opened Common
  import opened Paths

  datatype Errno =
    | EEXIST | ENOENT | ENOTDIR | ENOTEMPTY | EISDIR | EXDEV | EACCES
    | EBUSY | EINTR | EBADF | EIO | ENAMETOOLONG

  /** `strerror` of each error, as the GNU C library words it. */
  function Message(e: Errno): string
  {
    match e
    case EEXIST => "File exists"
    case ENOENT => "No such file or directory"
    case ENOTDIR => "Not a directory"
    case ENOTEMPTY => "Directory not empty"
    case EISDIR => "Is a directory"
    case EXDEV => "Invalid cross-device link"
    case EACCES => "Permission denied"
    case EBUSY => "Device or resource busy"
    case EINTR => "Interrupted system call"
    case EBADF => "Bad file descriptor"
    case EIO => "Input/output error"
    case ENAMETOOLONG => "File name too long"
  }

  /** The message `rsvc_strerrorf` builds from a formatted text and the current error. */
  function ErrorText(what: string, e: Errno): string
  {
    what + ": " + Message(e)
  }

  /**
   * A well-formed tree: the working directory and the root exist, no path is
   * both a file and a directory, and the parent of every entry is a directory.
   */
  predicate Tree(dirs: set<string>, files: map<string, seq<byte>>)
  {
    && "." in dirs && "/" in dirs
    && dirs !! files.Keys
    && (forall d {:trigger Dirname(d)} | d in dirs :: Dirname(d) in dirs)
    && (forall f {:trigger Dirname(f)} | f in files :: Dirname(f) in dirs)
  }

  /** Why creating the new entry `path` (`mkdir`, `open` with O_CREAT | O_EXCL) fails. */
  function CreateError(dirs: set<string>, files: map<string, seq<byte>>, denied: set<string>, path: string): Option<Errno>
  {
    if path in dirs || path in files then Some(EEXIST)
    else if Dirname(path) in files then Some(ENOTDIR)
    else if Dirname(path) !in dirs then Some(ENOENT)
    else if Dirname(path) in denied then Some(EACCES)
    else None
  }

  /** Whether some entry other than `path` itself lives directly in `path`. */
  predicate HasChildren(dirs: set<string>, files: map<string, seq<byte>>, path: string)
  {
    (exists d {:trigger Dirname(d)} | d in dirs :: d != path && Dirname(d) == path) ||
    (exists f {:trigger Dirname(f)} | f in files :: Dirname(f) == path)
  }

  /** Why `rmdir` of `path` fails. */
  function RmdirError(dirs: set<string>, files: map<string, seq<byte>>, denied: set<string>, path: string): Option<Errno>
  {
    if path in files then Some(ENOTDIR)
    else if path !in dirs then Some(ENOENT)
    else if path == "." || path == "/" then Some(EBUSY)
    else if HasChildren(dirs, files, path) then Some(ENOTEMPTY)
    else if Dirname(path) in denied then Some(EACCES)
    else None
  }

  /** Why `unlink` of `path` fails. */
  function UnlinkError(dirs: set<string>, files: map<string, seq<byte>>, denied: set<string>, path: string): Option<Errno>
  {
    if path in dirs then Some(EISDIR)
    else if path !in files then Some(ENOENT)
    else if Dirname(path) in denied then Some(EACCES)
    else None
  }

  /** Why `rename` of the regular file `src` to `dst` fails. */
  function RenameError(dirs: set<string>, files: map<string, seq<byte>>, denied: set<string>, device: string -> nat,
                       src: string, dst: string): Option<Errno>
  {
    if src !in files then Some(if src in dirs then EISDIR else ENOENT)
    else if device(src) != device(dst) then Some(EXDEV)
    else if dst in dirs then Some(EISDIR)
    else if Dirname(dst) in files then Some(ENOTDIR)
    else if Dirname(dst) !in dirs then Some(ENOENT)
    else if Dirname(src) in denied || Dirname(dst) in denied then Some(EACCES)
    else None
  }

  /** The ways `open` is called by the helpers. */
  datatype OpenMode =
    | ReadOnly         // O_RDONLY
    | WriteTruncate    // O_WRONLY | O_CREAT | O_TRUNC
    | CreateExclusive  // O_RDWR | O_CREAT | O_EXCL

  /** Why `open` of `path` in `mode` fails. */
  function OpenError(dirs: set<string>, files: map<string, seq<byte>>, denied: set<string>, path: string, mode: OpenMode): Option<Errno>
  {
    match mode
    case ReadOnly =>
      if path in dirs then Some(EISDIR)
      else if path !in files then Some(ENOENT)
      else if path in denied then Some(EACCES)
      else None
    case WriteTruncate =>
      if path in dirs then Some(EISDIR)
      else if path in files then (if path in denied then Some(EACCES) else None)
      else CreateError(dirs, files, denied, path)
    case CreateExclusive =>
      CreateError(dirs, files, denied, path)
  }

  /** The files after a successful `open` of `path` in `mode`: a new or truncated file is empty. */
  function Opened(files: map<string, seq<byte>>, path: string, mode: OpenMode): map<string, seq<byte>>
  {
    if mode == ReadOnly then files else files[path := []]
  }

  /** Creating an entry whose creation does not fail keeps the tree well-formed. */
  lemma {:induction false} CreateKeepsTree(dirs: set<string>, files: map<string, seq<byte>>, denied: set<string>, path: string, contents: seq<byte>)
    requires Tree(dirs, files) && CreateError(dirs, files, denied, path) == None
    ensures Tree(dirs + {path}, files)
    ensures Tree(dirs, files[path := contents])
  {
  }

  /** Removing a directory whose removal does not fail keeps the tree well-formed. */
  lemma {:induction false} RmdirKeepsTree(dirs: set<string>, files: map<string, seq<byte>>, denied: set<string>, path: string)
    requires Tree(dirs, files) && RmdirError(dirs, files, denied, path) == None
    ensures Tree(dirs - {path}, files)
  {
    var rest := dirs - {path};
    forall d | d in rest
      ensures Dirname(d) in rest
    {
      assert Dirname(d) in dirs;
    }
    forall f | f in files
      ensures Dirname(f) in rest
    {
      assert Dirname(f) in dirs;
    }
  }

  /** Whether opening in `mode` may create the file. */
  predicate Creates(mode: OpenMode)
  {
    mode != ReadOnly
  }

  lemma {:induction false} OpenKeepsTree(dirs: set<string>, files: map<string, seq<byte>>, denied: set<string>, path: string, mode: OpenMode)
    requires Tree(dirs, files) && OpenError(dirs, files, denied, path, mode) == None
    ensures Tree(dirs, Opened(files, path, mode))
    ensures Opened(files, path, mode).Keys == if Creates(mode) then files.Keys + {path} else files.Keys
  {
    if Creates(mode) && path !in files {
      CreateKeepsTree(dirs, files, denied, path, []);
    }
  }

  /** Closing the descriptors just opened gives back the table as it was. */
  lemma {:induction false} CloseOpened(table: map<int, string>, a: int, pa: string, b: int, pb: string)
    requires a !in table && b !in table
    ensures a != b ==> table[a := pa][b := pb] - {a} - {b} == table
    ensures table[a := pa] - {a} - {b} == table
    ensures table - {a} - {b} == table
  {
  }

  /**
   * The file system the POSIX wrappers act on: directories, files and the
   * open descriptors. Paths are compared as strings, without normalisation:
   * "a/" and "a" name different entries, and the empty path is a path like
   * any other.
   */
  class FileSystem {
    var dirs: set<string>
    var files: map<string, seq<byte>>
    /** Open descriptors and the path each was opened on. */
    var open: map<int, string>
    /** The descriptor the next successful `open` returns. */
    var next: int
    /** Files that cannot be opened and directories whose entries cannot change (EACCES). */
    const denied: set<string>
    /** The device each path lives on. */
    const device: string -> nat

    predicate Valid()
      reads this
    {
      Tree(dirs, files) && 0 <= next && (forall fd <- open.Keys :: 0 <= fd < next)
    }

    constructor (denied: set<string>, device: string -> nat)
      ensures Valid() && dirs == {".", "/"} && files == map[] && open == map[]
      ensures this.denied == denied && this.device == device
    {
      dirs := {".", "/"};
      files := map[];
      open := map[];
      next := 3;
      this.denied := denied;
      this.device := device;
    }

    /** `mkdir`. */
    method Mkdir(path: string) returns (err: Option<Errno>)
      requires Valid()
      modifies this
      ensures Valid() && files == old(files) && open == old(open) && next == old(next)
      ensures err == CreateError(old(dirs), files, denied, path)
      ensures dirs == if err == None then old(dirs) + {path} else old(dirs)
    {
      err := CreateError(dirs, files, denied, path);
      if err == None {
        CreateKeepsTree(dirs, files, denied, path, []);
        dirs := dirs + {path};
      }
    }

    /** `rmdir`. */
    method Rmdir(path: string) returns (err: Option<Errno>)
      requires Valid()
      modifies this
      ensures Valid() && files == old(files) && open == old(open) && next == old(next)
      ensures err == RmdirError(old(dirs), files, denied, path)
      ensures dirs == if err == None then old(dirs) - {path} else old(dirs)
    {
      err := RmdirError(dirs, files, denied, path);
      if err == None {
        RmdirKeepsTree(dirs, files, denied, path);
        dirs := dirs - {path};
      }
    }

    /** `unlink`. */
    method Unlink(path: string) returns (err: Option<Errno>)
      requires Valid()
      modifies this
      ensures Valid() && dirs == old(dirs) && open == old(open) && next == old(next)
      ensures err == UnlinkError(dirs, old(files), denied, path)
      ensures files == if err == None then old(files) - {path} else old(files)
    {
      err := UnlinkError(dirs, files, denied, path);
      if err == None {
        files := files - {path};
      }
    }

    /** `rename` of a regular file: `dst` is replaced by `src`, which goes away. */
    method Rename(src: string, dst: string) returns (err: Option<Errno>)
      requires Valid()
      modifies this
      ensures Valid() && dirs == old(dirs) && open == old(open) && next == old(next)
      ensures err == RenameError(dirs, old(files), denied, device, src, dst)
      ensures files == if err == None then (old(files) - {src})[dst := old(files)[src]] else old(files)
    {
      err := RenameError(dirs, files, denied, device, src, dst);
      if err == None {
        files := (files - {src})[dst := files[src]];
      }
    }

    /** `open`: a fresh descriptor on success, -1 and the error otherwise. */
    method Open(path: string, mode: OpenMode) returns (fd: int, err: Option<Errno>)
      requires Valid()
      modifies this
      ensures Valid() && dirs == old(dirs)
      ensures err == OpenError(dirs, old(files), denied, path, mode)
      ensures err == None ==> fd >= 0 && fd !in old(open) && open == old(open)[fd := path] && files == Opened(old(files), path, mode)
      ensures err != None ==> fd == -1 && open == old(open) && files == old(files) && next == old(next)
    {
      err := OpenError(dirs, files, denied, path, mode);
      if err == None {
        OpenKeepsTree(dirs, files, denied, path, mode);
        fd := next;
        next := next + 1;
        open := open[fd := path];
        files := Opened(files, path, mode);
      } else {
        fd := -1;
      }
    }

    /** `close`: an open descriptor is released; any other number fails with EBADF. */
    method Close(fd: int) returns (err: Option<Errno>)
      requires Valid()
      modifies this
      ensures Valid() && dirs == old(dirs) && files == old(files) && next == old(next)
      ensures err == None <==> fd in old(open)
      ensures open == old(open) - {fd}
    {
      if fd in open {
        open := open - {fd};
        err := None;
      } else {
        err := Some(EBADF);
      }
    }

    /**
     * `fcopyfile` or `sendfile` from `source` to `target`: the target file
     * gets the contents of the source file. The transfer fails with EBADF on
     * a descriptor that is not open, and otherwise with `fault` when that is
     * given (a device error), leaving the target as it was.
     */
    method Transfer(source: int, target: int, fault: Option<Errno>) returns (err: Option<Errno>)
      requires Valid()
      modifies this
      ensures Valid() && dirs == old(dirs) && open == old(open) && next == old(next)
      ensures err == None <==> source in open && target in open && open[source] in old(files) && open[target] in old(files) && fault == None
      ensures err == None ==> files == old(files)[open[target] := old(files)[open[source]]]
      ensures err != None ==> files == old(files)
    {
      if source !in open || target !in open {
        err := Some(EBADF);
      } else if open[source] !in files || open[target] !in files {
        err := Some(EBADF);
      } else if fault != None {
        err := fault;
      } else {
        err := None;
        files := files[open[target] := files[open[source]]];
      }
    }
  }
}

/**
 * `rsvc_dirname` of src/rsvc/unix.c (repeated verbatim in src/rsvc/posix.c):
 * the parent directory of a path, found at its last '/', with a trailing '/'
 * ignored. The C function hands its result to a block; here it is returned.
 */
module Paths {
  import opened Common

  /** The parent of `path`: ".", "/", or the text before its last '/'. */
  function Dirname(path: string): string
    decreases |path|
  {
    match LastIndex(path, '/')
    case None => "."
    case Some(i) =>
      if i == 0 then "/"
      else if i == |path| - 1 then Dirname(path[..i])
      else path[..i]
  }

  /** The parent is ".", "/", or a proper prefix of the path that a '/' follows. */
  lemma {:induction false} DirnamePrefix(path: string)
    ensures var r := Dirname(path);
      r == "." || r == "/" || (0 < |r| < |path| && r == path[..|r|] && path[|r|] == '/')
    decreases |path|
  {
    match LastIndex(path, '/')
    case None =>
    case Some(i) =>
      if 0 < i == |path| - 1 {
        DirnamePrefix(path[..i]);
        var r := Dirname(path[..i]);
        if r != "." && r != "/" {
          assert path[..i][..|r|] == path[..|r|];
        }
      }
  }

  /** The recursion measure of `rsvc_makedirs` and `rsvc_trimdirs`: the fixed points rank lowest. */
  function Rank(path: string): nat
  {
    if path == "." || path == "/" then 0 else |path| + 1
  }

  /** "." and "/" are the only fixed points, and every other path has a parent of lower rank. */
  lemma {:induction false} DirnameFixedPoints(path: string)
    ensures Dirname(path) == path <==> path == "." || path == "/"
    ensures Dirname(path) != path ==> Rank(Dirname(path)) < Rank(path)
  {
    DirnamePrefix(path);
    assert LastIndex(".", '/') == None;
    assert LastIndex("/", '/') == Some(0);
  }

  /** A name with no '/' lives in ".". */
  lemma {:induction false} DirnameBare(name: string)
    requires '/' !in name
    ensures Dirname(name) == "."
  {
  }

  /** A name directly under the root has parent "/". */
  lemma {:induction false} DirnameRoot(name: string)
    requires name != [] && '/' !in name
    ensures Dirname("/" + name) == "/"
  {
    var p := "/" + name;
    assert p[1..] == name;
    assert LastIndex(p, '/') == Some(0) by {
      LastIndexPrefix(p, 1);
    }
  }

  /** A non-empty last component is dropped along with the '/' before it. */
  lemma {:induction false} DirnameChild(dir: string, name: string)
    requires dir != [] && name != [] && '/' !in name
    ensures Dirname(dir + "/" + name) == dir
  {
    var p := dir + "/" + name;
    assert p[|dir| + 1..] == name && p[|dir|] == '/';
    LastIndexPrefix(p, |dir| + 1);
    assert p[..|dir|] == dir;
  }

  /** A trailing '/' does not change the parent of a non-empty path. */
  lemma {:induction false} DirnameTrailingSlash(path: string)
    requires path != []
    ensures Dirname(path + "/") == Dirname(path)
  {
    var p := path + "/";
    assert p[..|path|] == path;
    assert LastIndex(p, '/') == Some(|path|);
  }

  /** When the text after position k - 1 holds no '/' and position k - 1 is '/', that is the last one. */
  lemma {:induction false} LastIndexPrefix(p: string, k: nat)
    requires 0 < k <= |p| && p[k - 1] == '/' && '/' !in p[k..]
    ensures LastIndex(p, '/') == Some(k - 1)
    decreases |p|
  {
    if k < |p| {
      assert p[..|p| - 1][k..] == p[k..|p| - 1];
      assert p[|p| - 1] in p[k..];
      LastIndexPrefix(p[..|p| - 1], k);
    }
  }
}

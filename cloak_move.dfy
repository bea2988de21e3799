/**
 * The path logic of `cloak --move` (src/bin/cloak_move.c): which `--path`
 * rule applies to a file, how a path is cut into segments, and the
 * "rename: a/{b => c}/d" line a dry run prints.
 *
 * A segment is a single ' ', '.' or '/', or a maximal run of the other
 * characters. The C code keeps segments as (pointer, size) pairs into the
 * path; here a segment is the text it points at.
 */
module CloakMove {
  import opened Common
  import opened CloakOptions
  import Tag

  // ---------------------------------------------------------------------
  // path_format_for
  // ---------------------------------------------------------------------

  /** The values of the MEDIAKIND tags, in tag order. */
  function MediaKinds(tags: seq<Tag.Pair>): (r: seq<string>)
    ensures |r| <= |tags|
  {
    if tags == [] then []
    else
      var last := tags[|tags| - 1];
      MediaKinds(tags[..|tags| - 1]) + (if last.0 == MediaKindTag then [last.1] else [])
  }

  /** Whether a rule applies to a file of `group` with `tags`. */
  predicate Applies(rule: PathRule, group: FormatGroup, tags: seq<Tag.Pair>)
  {
    match rule.priority
    case Group(g) => g == group
    case MediaKind(kind) => MediaKinds(tags) == [kind]
    case _ => true
  }

  /**
   * The running choice of `path_format_for` after the rules from `i` on:
   * a rule replaces the current one when its rank is strictly higher and
   * it applies.
   */
  function ChooseFrom(rules: seq<PathRule>, group: FormatGroup, tags: seq<Tag.Pair>, i: nat, rank: nat, path: string): string
    requires i <= |rules|
    decreases |rules| - i
  {
    if i == |rules| then path
    else if Rank(rules[i].priority) > rank && Applies(rules[i], group, tags) then
      ChooseFrom(rules, group, tags, i + 1, Rank(rules[i].priority), rules[i].path)
    else ChooseFrom(rules, group, tags, i + 1, rank, path)
  }

  /** `path_format_for`: the chosen format, starting from the default path at the default rank. */
  function PathFor(rules: seq<PathRule>, group: FormatGroup, tags: seq<Tag.Pair>): string
  {
    ChooseFrom(rules, group, tags, 0, Rank(Default), DefaultPath)
  }

  /** A rule that takes part in the choice: it applies and outranks the default. */
  predicate Candidate(rules: seq<PathRule>, group: FormatGroup, tags: seq<Tag.Pair>, j: nat)
    requires j < |rules|
  {
    Applies(rules[j], group, tags) && Rank(rules[j].priority) > 0
  }

  /**
   * The running choice from `i` on keeps `path` when no later candidate
   * outranks `rank`; otherwise it is the path of the earliest later
   * candidate of the highest rank.
   */
  lemma {:induction false} ChooseFromPicks(rules: seq<PathRule>, group: FormatGroup, tags: seq<Tag.Pair>, i: nat, rank: nat, path: string)
    requires i <= |rules|
    ensures (forall j | i <= j < |rules| :: Candidate(rules, group, tags, j) ==> Rank(rules[j].priority) <= rank)
      ==> ChooseFrom(rules, group, tags, i, rank, path) == path
    ensures forall j | i <= j < |rules| && Candidate(rules, group, tags, j) && Rank(rules[j].priority) > rank ::
      (forall m | i <= m < |rules| && Candidate(rules, group, tags, m) :: Rank(rules[m].priority) <= Rank(rules[j].priority)) &&
      (forall m | i <= m < j && Candidate(rules, group, tags, m) :: Rank(rules[m].priority) < Rank(rules[j].priority))
      ==> ChooseFrom(rules, group, tags, i, rank, path) == rules[j].path
    decreases |rules| - i
  {
    if i < |rules| {
      var r := Rank(rules[i].priority);
      if r > rank && Applies(rules[i], group, tags) {
        ChooseFromPicks(rules, group, tags, i + 1, r, rules[i].path);
      } else {
        ChooseFromPicks(rules, group, tags, i + 1, rank, path);
      }
    }
  }

  /**
   * What `path_format_for` promises: the default path when no rule
   * applies, else the path of the first applicable rule of the highest
   * applicable rank.
   */
  lemma {:induction false} PathForChoice(rules: seq<PathRule>, group: FormatGroup, tags: seq<Tag.Pair>, j: nat)
    requires j < |rules| && Candidate(rules, group, tags, j)
    requires forall m | 0 <= m < |rules| && Candidate(rules, group, tags, m) :: Rank(rules[m].priority) <= Rank(rules[j].priority)
    requires forall m | 0 <= m < j && Candidate(rules, group, tags, m) :: Rank(rules[m].priority) < Rank(rules[j].priority)
    ensures PathFor(rules, group, tags) == rules[j].path
  {
    ChooseFromPicks(rules, group, tags, 0, 0, DefaultPath);
  }

  /** Without an applicable rule, `--move` uses "./%b/%A/%d%k%t". */
  lemma {:induction false} PathForDefault(rules: seq<PathRule>, group: FormatGroup, tags: seq<Tag.Pair>)
    requires forall m | 0 <= m < |rules| :: !Candidate(rules, group, tags, m)
    ensures PathFor(rules, group, tags) == DefaultPath
  {
    ChooseFromPicks(rules, group, tags, 0, 0, DefaultPath);
  }

  /**
   * The inner loop of `path_format_for`: `matches` is reassigned at each
   * MEDIAKIND tag, true only at the first one and only if its value is
   * `kind`.
   */
  method MediaKindMatches(tags: seq<Tag.Pair>, kind: string) returns (matches: bool)
    ensures matches <==> MediaKinds(tags) == [kind]
  {
    var n := 0;
    matches := false;
    var i := 0;
    while i < |tags|
      invariant i <= |tags| && n == |MediaKinds(tags[..i])|
      invariant matches <==> MediaKinds(tags[..i]) == [kind]
    {
      assert tags[..i + 1][..i] == tags[..i];
      assert MediaKinds(tags[..i + 1]) == MediaKinds(tags[..i]) + (if tags[i].0 == MediaKindTag then [tags[i].1] else []);
      if tags[i].0 == MediaKindTag {
        n := n + 1;
        matches := n == 1 && tags[i].1 == kind;
        if n == 1 {
          assert MediaKinds(tags[..i]) == [];
          assert MediaKinds(tags[..i + 1]) == [tags[i].1];
          assert [tags[i].1] == [kind] ==> tags[i].1 == [kind][0];
        } else {
          assert |MediaKinds(tags[..i + 1])| == n;
        }
      } else {
        assert MediaKinds(tags[..i + 1]) == MediaKinds(tags[..i]);
      }
      i := i + 1;
    }
    assert tags[..i] == tags;
  }

  /** `path_format_for`: a walk over the rules keeping the best rank so far. */
  method PathFormatFor(rules: seq<PathRule>, group: FormatGroup, tags: seq<Tag.Pair>) returns (path: string)
    ensures path == PathFor(rules, group, tags)
  {
    var rank := Rank(Default);
    path := DefaultPath;
    var i := 0;
    while i < |rules|
      invariant i <= |rules|
      invariant ChooseFrom(rules, group, tags, i, rank, path) == PathFor(rules, group, tags)
    {
      var rule := rules[i];
      if Rank(rule.priority) > rank {
        var applies := true;
        match rule.priority {
          case Group(g) =>
            applies := g == group;
          case MediaKind(kind) =>
            applies := MediaKindMatches(tags, kind);
          case _ =>
        }
        if applies {
          rank := Rank(rule.priority);
          path := rule.path;
        }
      }
      i := i + 1;
    }
  }

  // ---------------------------------------------------------------------
  // Segments
  // ---------------------------------------------------------------------

  /** The characters that are segments of their own. */
  predicate Delimiter(c: char)
  {
    c == ' ' || c == '.' || c == '/'
  }

  /** `strcspn(path, " ./")`. */
  function RunLength(s: string): (n: nat)
    ensures n <= |s| && forall k | 0 <= k < n :: !Delimiter(s[k])
    ensures n < |s| ==> Delimiter(s[n])
  {
    if s == [] || Delimiter(s[0]) then 0 else 1 + RunLength(s[1..])
  }

  /** The length of the first segment: the run, or 1 at a delimiter. */
  function SegmentLength(s: string): (n: nat)
    requires s != []
    ensures 1 <= n <= |s|
  {
    var span := RunLength(s);
    if span == 0 then 1 else span
  }

  /** The segments of a path, in order. */
  function Segments(path: string): seq<string>
    decreases |path|
  {
    if path == [] then []
    else
      var n := SegmentLength(path);
      [path[..n]] + Segments(path[n..])
  }

  function Concat(segs: seq<string>): string
  {
    if segs == [] then "" else segs[0] + Concat(segs[1..])
  }

  /** A segment that is a run of characters other than delimiters. */
  predicate Run(seg: string)
  {
    seg != [] && forall k | 0 <= k < |seg| :: !Delimiter(seg[k])
  }

  /** A segment that is a single delimiter. */
  predicate Single(seg: string)
  {
    |seg| == 1 && Delimiter(seg[0])
  }

  /** Every segment is a single delimiter or a run, and no two runs are adjacent. */
  predicate WellSegmented(segs: seq<string>)
  {
    (forall i | 0 <= i < |segs| :: Single(segs[i]) || Run(segs[i])) &&
    (forall i | 0 < i < |segs| :: !(Run(segs[i - 1]) && Run(segs[i])))
  }

  lemma {:induction false} RunLengthAppend(a: string, b: string)
    requires forall k | 0 <= k < |a| :: !Delimiter(a[k])
    ensures RunLength(a + b) == |a| + RunLength(b)
  {
    if a != [] {
      assert (a + b)[1..] == a[1..] + b;
      RunLengthAppend(a[1..], b);
    } else {
      assert a + b == b;
    }
  }

  /** The segments of a path put back together give the path. */
  lemma {:induction false} SegmentsRebuild(path: string)
    ensures Concat(Segments(path)) == path
    decreases |path|
  {
    if path != [] {
      var n := SegmentLength(path);
      SegmentsRebuild(path[n..]);
      assert Segments(path)[1..] == Segments(path[n..]);
      assert path == path[..n] + path[n..];
    }
  }

  /** Adding a well-formed segment in front keeps a well-formed sequence. */
  lemma {:induction false} WellSegmentedCons(head: string, tail: seq<string>)
    requires Single(head) || Run(head)
    requires WellSegmented(tail) && (tail != [] && Run(head) ==> !Run(tail[0]))
    ensures WellSegmented([head] + tail)
  {
    var segs := [head] + tail;
    forall i | 0 < i < |segs|
      ensures (Single(segs[i]) || Run(segs[i])) && !(Run(segs[i - 1]) && Run(segs[i]))
    {
      assert segs[i] == tail[i - 1];
      if i > 1 {
        assert segs[i - 1] == tail[i - 2];
      }
    }
  }

  /** The segments of a path are well formed. */
  lemma {:induction false} SegmentsWellFormed(path: string)
    ensures WellSegmented(Segments(path))
    decreases |path|
  {
    if path != [] {
      var n := SegmentLength(path);
      var rest := path[n..];
      SegmentsWellFormed(rest);
      if rest != [] && Run(path[..n]) {
        assert RunLength(path) == n;
        assert rest[0] == path[n];
        assert Segments(rest)[0] == rest[..SegmentLength(rest)];
      }
      WellSegmentedCons(path[..n], Segments(rest));
    }
  }

  /** Well-formed segments are exactly the segments of their concatenation. */
  lemma {:induction false} SegmentsUnique(segs: seq<string>)
    requires WellSegmented(segs)
    ensures Segments(Concat(segs)) == segs
  {
    if segs != [] {
      var rest := Concat(segs[1..]);
      var path := Concat(segs);
      assert path == segs[0] + rest;
      assert WellSegmented(segs[1..]) by {
        forall i | 0 < i < |segs[1..]|
          ensures !(Run(segs[1..][i - 1]) && Run(segs[1..][i]))
        {
          assert segs[1..][i - 1] == segs[i] && segs[1..][i] == segs[i + 1];
        }
      }
      SegmentsUnique(segs[1..]);
      if Single(segs[0]) {
        assert path[0] == segs[0][0];
        assert SegmentLength(path) == 1;
      } else {
        RunLengthAppend(segs[0], rest);
        if rest != [] {
          assert segs[1..] != [];
          assert !Run(segs[1]);
          assert Single(segs[1]);
          assert rest == segs[1] + Concat(segs[2..]);
          assert rest[0] == segs[1][0];
        }
        assert RunLength(rest) == 0;
        assert SegmentLength(path) == |segs[0]|;
      }
      assert path[..|segs[0]|] == segs[0];
      assert path[|segs[0]|..] == rest;
    }
  }

  /** `strcspn(rest, " ./")`, or 1 at a delimiter: the length of the segment `rest` starts with. */
  method SegmentSpan(rest: string) returns (span: nat)
    requires rest != []
    ensures span == SegmentLength(rest) && 0 < span <= |rest|
  {
    span := RunLength(rest);
    if span == 0 {
      span := 1;
    }
  }

  /** `segment_noalloc(path, NULL, &n)`: the counting pass. */
  method CountSegments(path: string) returns (n: nat)
    ensures n == |Segments(path)|
  {
    n := 0;
    var rest := path;
    while rest != []
      invariant n + |Segments(rest)| == |Segments(path)|
      decreases |rest|
    {
      var span := SegmentSpan(rest);
      rest := rest[span..];
      n := n + 1;
    }
  }

  /** `segment_noalloc(path, segments, NULL)`: the filling pass, into an array of the counted size. */
  method FillSegments(path: string, segments: array<string>)
    requires segments.Length == |Segments(path)|
    modifies segments
    ensures segments[..] == Segments(path)
  {
    var i := 0;
    var rest := path;
    ghost var all := Segments(path);
    while rest != []
      invariant i <= |all| && all[i..] == Segments(rest)
      invariant segments[..i] == all[..i]
      decreases |rest|
    {
      var span := SegmentSpan(rest);
      assert all[i] == rest[..span] && all[i + 1..] == Segments(rest[span..]) by {
        assert all[i..] == [rest[..span]] + Segments(rest[span..]);
        assert all[i + 1..] == all[i..][1..];
      }
      segments[i] := rest[..span];
      assert segments[..i + 1] == all[..i + 1];
      rest := rest[span..];
      i := i + 1;
    }
    assert segments[..] == segments[..i];
  }

  /** `segment`: counts, allocates, fills; both passes agree on the number of segments. */
  method Segment(path: string) returns (segments: array<string>)
    ensures fresh(segments) && segments[..] == Segments(path)
  {
    var n := CountSegments(path);
    segments := new string[n];
    FillSegments(path, segments);
  }

  // ---------------------------------------------------------------------
  // Finding the next common segment
  // ---------------------------------------------------------------------

  /** A segment worth lining up on: not a delimiter. */
  predicate Anchor(seg: string)
  {
    seg != [] && !Delimiter(seg[0])
  }

  /** The first index below `n` where `b` holds `seg`. */
  function FirstMatch(seg: string, b: seq<string>, n: nat): (r: Option<nat>)
    requires n <= |b|
    ensures r.Some? ==> r.value < n && b[r.value] == seg && forall j | 0 <= j < r.value :: b[j] != seg
    ensures r.None? ==> forall j | 0 <= j < n :: b[j] != seg
  {
    if n == 0 then None
    else match FirstMatch(seg, b, n - 1)
      case Some(j) => Some(j)
      case None => if b[n - 1] == seg then Some(n - 1) else None
  }

  /**
   * `_find_next_common_segment`, with the loop bounded by the length of
   * `b`: the first index up to `ai` where `b` holds the anchor `a[ai]`.
   */
  function FindIn(a: seq<string>, ai: nat, b: seq<string>): (r: Option<nat>)
    requires ai < |a|
    ensures r.Some? ==> Anchor(a[ai]) && r.value <= ai && r.value < |b| && b[r.value] == a[ai]
    ensures r.Some? ==> forall j | 0 <= j < r.value :: b[j] != a[ai]
    ensures r.None? ==> !Anchor(a[ai]) || forall j | 0 <= j <= ai && j < |b| :: b[j] != a[ai]
  {
    if Anchor(a[ai]) then FirstMatch(a[ai], b, if ai + 1 < |b| then ai + 1 else |b|) else None
  }

  /** What the loop of `_find_next_common_segment` as written ends with. */
  datatype Search = Found(index: nat) | NotFound | PastEnd

  /**
   * `_find_next_common_segment` as written: the bound `i <= nbseg` lets
   * the loop look at `bseg[nbseg]`, one past the array (`PastEnd`).
   */
  function FindFromAsWritten(a: seq<string>, ai: nat, b: seq<string>, i: nat): Search
    requires ai < |a| && i <= |b|
    decreases |b| - i
  {
    if i > ai then NotFound
    else if i == |b| then PastEnd
    else if b[i] == a[ai] && Anchor(a[ai]) then Found(i)
    else FindFromAsWritten(a, ai, b, i + 1)
  }

  function FindAsWritten(a: seq<string>, ai: nat, b: seq<string>): Search
    requires ai < |a|
  {
    FindFromAsWritten(a, ai, b, 0)
  }

  lemma {:induction false} FindFromAsWrittenAgrees(a: seq<string>, ai: nat, b: seq<string>, i: nat)
    requires ai < |a| && i <= |b|
    requires forall j | 0 <= j < i :: !(b[j] == a[ai] && Anchor(a[ai]))
    ensures FindFromAsWritten(a, ai, b, i) == PastEnd <==> ai >= |b| && FindIn(a, ai, b).None?
    ensures FindIn(a, ai, b).Some? ==> FindFromAsWritten(a, ai, b, i) == Found(FindIn(a, ai, b).value)
    decreases |b| - i
  {
    if i <= ai && i < |b| && !(b[i] == a[ai] && Anchor(a[ai])) {
      FindFromAsWrittenAgrees(a, ai, b, i + 1);
    }
  }

  /**
   * The loop as written reads past the end of `b` exactly when the anchor
   * lies at or beyond the end of `b` and `b` does not hold it; otherwise it
   * finds what the bounded search finds.
   */
  lemma {:induction false} FindAsWrittenReadsPastEnd(a: seq<string>, ai: nat, b: seq<string>)
    requires ai < |a|
    ensures FindAsWritten(a, ai, b) == PastEnd <==> ai >= |b| && FindIn(a, ai, b).None?
    ensures FindIn(a, ai, b).Some? ==> FindAsWritten(a, ai, b) == Found(FindIn(a, ai, b).value)
  {
    FindFromAsWrittenAgrees(a, ai, b, 0);
  }

  /**
   * Renaming "a b" to "c": the first search, for the source's " " at
   * index 1, reaches `dstseg[1]` of a one-segment destination.
   */
  lemma {:induction false} PastEndExample(src: seq<string>, dst: seq<string>)
    requires src == ["a", " ", "b"] && dst == ["c"]
    ensures FindAsWritten(src, 1, dst) == PastEnd
    ensures FindIn(src, 1, dst) == None
  {
    FindAsWrittenReadsPastEnd(src, 1, dst);
  }

  /** The segments of "a b" and "c". */
  lemma {:induction false} PastEndExampleSegments(src: string, dst: string)
    requires src == "a b" && dst == "c"
    ensures Segments(src) == ["a", " ", "b"] && Segments(dst) == ["c"]
  {
    var ss: seq<string> := ["a", " ", "b"];
    assert Concat(ss) == src by {
      assert Concat(ss[2..]) == "b" + Concat([]);
      assert Concat(ss[1..]) == " " + Concat(ss[2..]);
    }
    assert Run(ss[0]) && Single(ss[1]) && Run(ss[2]);
    assert WellSegmented(ss);
    SegmentsUnique(ss);
    var ds: seq<string> := ["c"];
    assert Concat(ds) == dst by {
      assert Concat(ds) == "c" + Concat([]);
    }
    assert Run(ds[0]);
    assert WellSegmented(ds);
    SegmentsUnique(ds);
  }

  /** `_find_next_common_segment`, with the loop kept inside `bseg`. */
  method FindCommon(a: seq<string>, ai: nat, b: seq<string>) returns (found: bool, k: nat)
    requires ai < |a|
    ensures found <==> FindIn(a, ai, b).Some?
    ensures found ==> k == FindIn(a, ai, b).value
  {
    var i := 0;
    while i <= ai && i < |b|
      invariant i <= |b| && i <= ai + 1
      invariant forall j | 0 <= j < i :: !(b[j] == a[ai] && Anchor(a[ai]))
    {
      if |a[ai]| == |b[i]| && a[ai] == b[i] {
        if a[ai] != [] && !Delimiter(a[ai][0]) {
          return true, i;
        }
      }
      i := i + 1;
    }
    return false, 0;
  }

  /**
   * `backtrack_single_segments`: both indices move back while the
   * segments before them are the same single character.
   */
  function Backtrack(src: seq<string>, se: nat, dst: seq<string>, de: nat): (r: (nat, nat))
    requires se <= |src| && de <= |dst|
    ensures r.0 <= se && r.1 <= de && se - r.0 == de - r.1
    ensures forall k | r.0 <= k < se :: src[k] == dst[k - r.0 + r.1] && |src[k]| == 1
    ensures r.0 == 0 || r.1 == 0 || !(src[r.0 - 1] == dst[r.1 - 1] && |src[r.0 - 1]| == 1)
  {
    if se > 0 && de > 0 && |src[se - 1]| == |dst[de - 1]| && |src[se - 1]| == 1 && src[se - 1][0] == dst[de - 1][0] then
      assert src[se - 1] == dst[de - 1];
      Backtrack(src, se - 1, dst, de - 1)
    else
      assert !(se > 0 && de > 0 && src[se - 1] == dst[de - 1] && |src[se - 1]| == 1);
      (se, de)
  }

  method BacktrackSingleSegments(src: seq<string>, se0: nat, dst: seq<string>, de0: nat) returns (se: nat, de: nat)
    requires se0 <= |src| && de0 <= |dst|
    ensures (se, de) == Backtrack(src, se0, dst, de0)
  {
    se, de := se0, de0;
    while se > 0 && de > 0
      invariant se <= |src| && de <= |dst|
      invariant Backtrack(src, se, dst, de) == Backtrack(src, se0, dst, de0)
    {
      if |src[se - 1]| != |dst[de - 1]| || |src[se - 1]| != 1 || src[se - 1][0] != dst[de - 1][0] {
        return;
      }
      se, de := se - 1, de - 1;
    }
  }

  /**
   * The search of `find_next_common_segment` from step `i`: at each step
   * the source anchor at `i` is looked for in the destination, then the
   * destination anchor at `i` in the source; without a match anywhere the
   * rest of both paths differs.
   */
  function NextFrom(src: seq<string>, dst: seq<string>, i: nat): (r: (nat, nat))
    decreases (if |src| > |dst| then |src| else |dst|) - i
  {
    if i >= |src| && i >= |dst| then (|src|, |dst|)
    else if i < |src| && FindIn(src, i, dst).Some? then Backtrack(src, i, dst, FindIn(src, i, dst).value)
    else if i < |dst| && FindIn(dst, i, src).Some? then Backtrack(src, FindIn(dst, i, src).value, dst, i)
    else NextFrom(src, dst, i + 1)
  }

  /** `find_next_common_segment`: where the two paths next line up. */
  function NextCommon(src: seq<string>, dst: seq<string>): (nat, nat)
  {
    NextFrom(src, dst, 1)
  }

  /**
   * The search ends at a pair of equal segments, or at the ends of both
   * paths; either way it stays within the paths.
   */
  lemma {:induction false} NextFromLinesUp(src: seq<string>, dst: seq<string>, i: nat)
    ensures NextFrom(src, dst, i).0 <= |src| && NextFrom(src, dst, i).1 <= |dst|
    ensures NextFrom(src, dst, i) == (|src|, |dst|) ||
      (NextFrom(src, dst, i).0 < |src| && NextFrom(src, dst, i).1 < |dst| &&
       src[NextFrom(src, dst, i).0] == dst[NextFrom(src, dst, i).1])
    decreases (if |src| > |dst| then |src| else |dst|) - i
  {
    if i >= |src| && i >= |dst| {
    } else if i < |src| && FindIn(src, i, dst).Some? {
      BacktrackLinesUp(src, i, dst, FindIn(src, i, dst).value);
    } else if i < |dst| && FindIn(dst, i, src).Some? {
      BacktrackLinesUp(src, FindIn(dst, i, src).value, dst, i);
    } else {
      NextFromLinesUp(src, dst, i + 1);
    }
  }

  /** Backtracking from equal segments ends at equal segments. */
  lemma {:induction false} BacktrackLinesUp(src: seq<string>, se: nat, dst: seq<string>, de: nat)
    requires se < |src| && de < |dst| && src[se] == dst[de]
    ensures Backtrack(src, se, dst, de).0 < |src| && Backtrack(src, se, dst, de).1 < |dst|
    ensures src[Backtrack(src, se, dst, de).0] == dst[Backtrack(src, se, dst, de).1]
  {
    var r := Backtrack(src, se, dst, de);
    if r.0 < se {
      assert src[r.0] == dst[r.0 - r.0 + r.1];
    }
  }

  /**
   * When the first segments differ, the next common pair lies past the
   * start of at least one path, so each stretch of differences takes at
   * least one segment.
   */
  lemma {:induction false} NextCommonProgress(src: seq<string>, dst: seq<string>)
    requires src != [] && dst != [] && src[0] != dst[0]
    ensures NextCommon(src, dst).0 <= |src| && NextCommon(src, dst).1 <= |dst|
    ensures NextCommon(src, dst).0 + NextCommon(src, dst).1 > 0
    ensures NextCommon(src, dst) == (|src|, |dst|) ||
      (NextCommon(src, dst).0 < |src| && NextCommon(src, dst).1 < |dst| &&
       src[NextCommon(src, dst).0] == dst[NextCommon(src, dst).1])
  {
    NextFromLinesUp(src, dst, 1);
  }

  /** `find_next_common_segment`. */
  method FindNextCommonSegment(src: seq<string>, dst: seq<string>) returns (se: nat, de: nat)
    ensures (se, de) == NextCommon(src, dst)
  {
    var maxseg := if |src| > |dst| then |src| else |dst|;
    var i := 1;
    while i < maxseg
      invariant 1 <= i && NextFrom(src, dst, i) == NextCommon(src, dst)
    {
      if i < |src| {
        var found, k := FindCommon(src, i, dst);
        if found {
          se, de := BacktrackSingleSegments(src, i, dst, k);
          return;
        }
      }
      if i < |dst| {
        var found, k := FindCommon(dst, i, src);
        if found {
          se, de := BacktrackSingleSegments(src, k, dst, i);
          return;
        }
      }
      i := i + 1;
    }
    return |src|, |dst|;
  }

  // ---------------------------------------------------------------------
  // print_rename
  // ---------------------------------------------------------------------

  /** A piece of the rename line: a segment both paths share, or a stretch that differs. */
  datatype Piece = Same(text: string) | Changed(from: string, to: string)

  /**
   * The pieces `print_rename` prints: equal segments one by one, else the
   * stretches up to the next common pair; it stops when either path runs
   * out.
   */
  function Pieces(src: seq<string>, dst: seq<string>): seq<Piece>
    decreases |src| + |dst|
  {
    if src == [] || dst == [] then []
    else if src[0] == dst[0] then [Same(src[0])] + Pieces(src[1..], dst[1..])
    else
      NextCommonProgress(src, dst);
      var (se, de) := NextCommon(src, dst);
      [Changed(Concat(src[..se]), Concat(dst[..de]))] + Pieces(src[se..], dst[de..])
  }

  function Render(pieces: seq<Piece>): string
  {
    if pieces == [] then ""
    else
      (match pieces[0]
       case Same(t) => t
       case Changed(a, b) => "{" + a + " => " + b + "}") + Render(pieces[1..])
  }

  /** The line `print_rename(src, dst)` writes. */
  function RenameLine(src: string, dst: string): string
  {
    "rename: " + Render(Pieces(Segments(src), Segments(dst))) + "\n"
  }

  /** The source side of the pieces: shared text and the old stretches. */
  function SourceText(pieces: seq<Piece>): string
  {
    if pieces == [] then ""
    else (match pieces[0] case Same(t) => t case Changed(a, _) => a) + SourceText(pieces[1..])
  }

  /** The destination side of the pieces: shared text and the new stretches. */
  function DestText(pieces: seq<Piece>): string
  {
    if pieces == [] then ""
    else (match pieces[0] case Same(t) => t case Changed(_, b) => b) + DestText(pieces[1..])
  }

  lemma {:induction false} ConcatSplit(segs: seq<string>, n: nat)
    requires n <= |segs|
    ensures Concat(segs) == Concat(segs[..n]) + Concat(segs[n..])
  {
    if n > 0 {
      ConcatSplit(segs[1..], n - 1);
      assert segs[..n][1..] == segs[1..][..n - 1];
      assert segs[1..][n - 1..] == segs[n..];
    } else {
      assert segs[..0] == [];
      assert segs[0..] == segs;
    }
  }

  /**
   * Each side of the rename line spells a prefix of its path, and one side
   * spells the whole path: the line stops when either path runs out, so
   * the rest of the other path is not shown.
   */
  lemma {:induction false} PiecesSpellPaths(src: seq<string>, dst: seq<string>) returns (a: nat, b: nat)
    ensures a <= |src| && b <= |dst| && (a == |src| || b == |dst|)
    ensures SourceText(Pieces(src, dst)) == Concat(src[..a])
    ensures DestText(Pieces(src, dst)) == Concat(dst[..b])
    decreases |src| + |dst|
  {
    var ps := Pieces(src, dst);
    if src == [] || dst == [] {
      a, b := 0, 0;
      if src == [] { a := |src|; } else { b := |dst|; }
      assert src[..0] == [] && dst[..0] == [];
    } else if src[0] == dst[0] {
      var a', b' := PiecesSpellPaths(src[1..], dst[1..]);
      a, b := a' + 1, b' + 1;
      assert ps[1..] == Pieces(src[1..], dst[1..]);
      assert src[..a][1..] == src[1..][..a'] && src[..a][0] == src[0];
      assert dst[..b][1..] == dst[1..][..b'] && dst[..b][0] == dst[0];
    } else {
      NextCommonProgress(src, dst);
      var (se, de) := NextCommon(src, dst);
      var a', b' := PiecesSpellPaths(src[se..], dst[de..]);
      a, b := se + a', de + b';
      assert ps[1..] == Pieces(src[se..], dst[de..]);
      ConcatPrefix(src, se, a');
      ConcatPrefix(dst, de, b');
    }
  }

  /** The text of a longer prefix is the text of a shorter one and of what follows it. */
  lemma {:induction false} ConcatPrefix(segs: seq<string>, n: nat, m: nat)
    requires n + m <= |segs|
    ensures Concat(segs[..n + m]) == Concat(segs[..n]) + Concat(segs[n..][..m])
  {
    ConcatSplit(segs[..n + m], n);
    assert segs[..n + m][..n] == segs[..n] && segs[..n + m][n..] == segs[n..][..m];
  }

  /** Renaming a path to itself shows every segment once, with no braces. */
  lemma {:induction false} PiecesOfSame(segs: seq<string>)
    ensures Render(Pieces(segs, segs)) == Concat(segs)
    ensures forall k | 0 <= k < |Pieces(segs, segs)| :: Pieces(segs, segs)[k].Same?
  {
    if segs != [] {
      PiecesOfSame(segs[1..]);
      assert Pieces(segs, segs) == [Same(segs[0])] + Pieces(segs[1..], segs[1..]);
    }
  }

  /** `print_rename(p, p)` prints "rename: " and the path. */
  lemma {:induction false} RenameToSelf(path: string)
    ensures RenameLine(path, path) == "rename: " + path + "\n"
  {
    PiecesOfSame(Segments(path));
    SegmentsRebuild(path);
    SegmentsWellFormed(path);
  }

  lemma {:induction false} RenderAppend(a: seq<Piece>, b: seq<Piece>)
    ensures Render(a + b) == Render(a) + Render(b)
  {
    if a != [] {
      assert (a + b)[1..] == a[1..] + b;
      RenderAppend(a[1..], b);
    } else {
      assert a + b == b;
    }
  }

  lemma {:induction false} ConcatSnoc(segs: seq<string>, n: nat)
    requires n < |segs|
    ensures Concat(segs[..n + 1]) == Concat(segs[..n]) + segs[n]
  {
    ConcatSplit(segs[..n + 1], n);
    assert segs[..n + 1][..n] == segs[..n];
    assert segs[..n + 1][n..] == [segs[n]];
    assert Concat([segs[n]]) == segs[n] + Concat([]);
  }

  /** `print_advance_segment` repeated `count` times: the text of the next `count` segments. */
  method PrintSegments(out0: string, segs: array<string>, at: nat, count: nat) returns (out: string, next: nat)
    requires at + count <= segs.Length
    ensures next == at + count && out == out0 + Concat(segs[at..next])
  {
    out := out0;
    var i := 0;
    while i < count
      invariant i <= count && out == out0 + Concat(segs[at..at + i])
    {
      ConcatSnoc(segs[at..], i);
      assert segs[at..][..i + 1] == segs[at..at + i + 1] && segs[at..][..i] == segs[at..at + i];
      out := out + segs[at + i];
      i := i + 1;
    }
    next := at + count;
  }

  /** One unequal stretch: `{`, the source segments, ` => `, the destination segments, `}`. */
  method PrintStretch(out0: string, srcseg: array<string>, si: nat, dstseg: array<string>, di: nat)
      returns (out: string, si': nat, di': nat)
    requires si < srcseg.Length && di < dstseg.Length && srcseg[si] != dstseg[di]
    ensures NextCommon(srcseg[si..], dstseg[di..]).0 + NextCommon(srcseg[si..], dstseg[di..]).1 > 0
    ensures si' == si + NextCommon(srcseg[si..], dstseg[di..]).0 <= srcseg.Length
    ensures di' == di + NextCommon(srcseg[si..], dstseg[di..]).1 <= dstseg.Length
    ensures out == out0 + Render([Changed(Concat(srcseg[si..si']), Concat(dstseg[di..di']))])
  {
    NextCommonProgress(srcseg[si..], dstseg[di..]);
    var se, de := FindNextCommonSegment(srcseg[si..], dstseg[di..]);
    out := out0 + "{";
    out, si' := PrintSegments(out, srcseg, si, se);
    out := out + " => ";
    out, di' := PrintSegments(out, dstseg, di, de);
    out := out + "}";
    assert out == out0 + "{" + Concat(srcseg[si..si']) + " => " + Concat(dstseg[di..di']) + "}";
  }

  /** An equal segment is shown once, then the rest of the line. */
  lemma {:induction false} PiecesSameStep(s: seq<string>, d: seq<string>, si: nat, di: nat, out: string)
    requires si < |s| && di < |d| && s[si] == d[di]
    ensures out + Render(Pieces(s[si..], d[di..])) == (out + s[si]) + Render(Pieces(s[si + 1..], d[di + 1..]))
  {
    assert s[si..][1..] == s[si + 1..] && d[di..][1..] == d[di + 1..];
    RenderAppend([Same(s[si])], Pieces(s[si + 1..], d[di + 1..]));
  }

  /** An unequal stretch is shown in braces, then the rest of the line. */
  lemma {:induction false} PiecesChangedStep(s: seq<string>, d: seq<string>, si: nat, di: nat, si': nat, di': nat, out: string, stretch: string)
    requires si < |s| && di < |d| && s[si] != d[di]
    requires si' == si + NextCommon(s[si..], d[di..]).0 <= |s|
    requires di' == di + NextCommon(s[si..], d[di..]).1 <= |d|
    requires stretch == out + Render([Changed(Concat(s[si..si']), Concat(d[di..di']))])
    ensures out + Render(Pieces(s[si..], d[di..])) == stretch + Render(Pieces(s[si'..], d[di'..]))
  {
    var (se, de) := NextCommon(s[si..], d[di..]);
    assert Pieces(s[si..], d[di..]) ==
      [Changed(Concat(s[si..][..se]), Concat(d[di..][..de]))] + Pieces(s[si..][se..], d[di..][de..]);
    assert s[si..][..se] == s[si..si'] && d[di..][..de] == d[di..di'];
    assert s[si..][se..] == s[si'..] && d[di..][de..] == d[di'..];
    RenderAppend([Changed(Concat(s[si..si']), Concat(d[di..di']))], Pieces(s[si'..], d[di'..]));
  }

  /** The loop of `print_rename`: equal segments one by one, unequal stretches in braces. */
  method PrintPieces(out0: string, srcseg: array<string>, dstseg: array<string>) returns (out: string)
    ensures out == out0 + Render(Pieces(srcseg[..], dstseg[..]))
  {
    ghost var s, d := srcseg[..], dstseg[..];
    out := out0;
    var si: nat, di: nat := 0, 0;
    assert s[0..] == s && d[0..] == d;
    while si < srcseg.Length && di < dstseg.Length
      invariant si <= |s| == srcseg.Length && di <= |d| == dstseg.Length
      invariant out0 + Render(Pieces(s, d)) == out + Render(Pieces(s[si..], d[di..]))
      decreases srcseg.Length + dstseg.Length - si - di
    {
      assert srcseg[si..] == s[si..] && dstseg[di..] == d[di..];
      if |srcseg[si]| == |dstseg[di]| && srcseg[si] == dstseg[di] {
        PiecesSameStep(s, d, si, di, out);
        out := out + srcseg[si];
        si, di := si + 1, di + 1;
      } else {
        var stretch, si', di' := PrintStretch(out, srcseg, si, dstseg, di);
        PiecesChangedStep(s, d, si, di, si', di', out, stretch);
        out, si, di := stretch, si', di';
      }
    }
    assert Pieces(s[si..], d[di..]) == [];
  }

  /** `print_rename`: the dry-run line for moving `src` to `dst`. */
  method PrintRename(src: string, dst: string) returns (out: string)
    ensures out == RenameLine(src, dst)
  {
    var srcseg := Segment(src);
    var dstseg := Segment(dst);
    out := PrintPieces("rename: ", srcseg, dstseg);
    out := out + "\n";
  }
}

/**
 * The per-file work of `cloak` (src/bin/cloak.c): `apply_ops`, which edits
 * one file's tags in a fixed order of phases and stops at the first
 * failure, `write_image`, which stores one embedded image, and
 * `tag_file`/`tag_files`, which run `apply_ops` over the files in turn.
 *
 * The tag edits and the save go through the generic calls of `Tag`,
 * which reach the methods of the file's format, and so do the tags the
 * MusicBrainz lookup adds; the query itself is a parameter. The steps the
 * model does not perform itself (the image edits and moving, which are the
 * formats' own code and the file system) take their outcome from a
 * parameter that sees the step and the tags at that point.
 * `print_images` describes embedded images through the image formats; what
 * it writes is a parameter too.
 *
 * The C code reports each error to a block that prints it and ends the
 * program, so the first error reported is the outcome; here that error is
 * returned.
 */
module CloakApply {
  import opened Common
  import Tag
  import Paths
  import CloakOptions
  import Cloak
  import Opus

  type Settings = CloakOptions.Settings

  // ---------------------------------------------------------------------
  // apply_ops: the plan
  // ---------------------------------------------------------------------

  /** One call `apply_ops` may make. */
  datatype Step =
    | ClearTags
    | RemoveTag(name: string)
    | ClearImages
    | RemoveImage(index: int)
    | AddTag(name: string, value: string)
    | WriteImage(slot: int, target: Option<string>)
    | AddImage(file: string)
    | LookUp
    | Save
    | Move

  /** The phase of `apply_ops` a step belongs to, numbered in the order the phases run. */
  function Phase(step: Step): nat
  {
    match step
    case ClearTags => 0
    case RemoveTag(_) => 0
    case ClearImages => 1
    case RemoveImage(_) => 1
    case AddTag(_, _) => 2
    case WriteImage(_, _) => 3
    case AddImage(_) => 4
    case LookUp => 5
    case Save => 6
    case Move => 7
  }

  /** Tag removal: everything, or each named tag in turn. */
  function TagPhase(s: Settings): seq<Step>
  {
    if s.removeAllTags then [ClearTags]
    else seq(|s.removeTags|, k requires 0 <= k < |s.removeTags| => RemoveTag(s.removeTags[k]))
  }

  /** Image removal: every image, or each given index in turn. */
  function ImagePhase(s: Settings): seq<Step>
  {
    if s.removeAllImages then [ClearImages]
    else seq(|s.removeImages|, k requires 0 <= k < |s.removeImages| => RemoveImage(s.removeImages[k]))
  }

  /** The number of tag additions: the names and values are walked together up to the shorter list. */
  function AddCount(s: Settings): nat
  {
    Tag.Min(|s.addTagNames|, |s.addTagValues|)
  }

  function AddPhase(s: Settings): seq<Step>
  {
    seq(AddCount(s), k requires 0 <= k < AddCount(s) => AddTag(s.addTagNames[k], s.addTagValues[k]))
  }

  function WritePhase(s: Settings): seq<Step>
  {
    seq(|s.writeImages|, k requires 0 <= k < |s.writeImages| => WriteImage(s.writeImages[k].0, s.writeImages[k].1))
  }

  function AddImagePhase(s: Settings): seq<Step>
  {
    seq(|s.addImages|, k requires 0 <= k < |s.addImages| => AddImage(s.addImages[k]))
  }

  /** The closing chain: the lookup in auto mode, the save unless dry-running, the move in move mode. */
  function FinishPhase(s: Settings): seq<Step>
  {
    (if s.autoMode then [LookUp] else []) + (if s.dryRun then [] else [Save]) + (if s.moveMode then [Move] else [])
  }

  /** Every call `apply_ops` makes when none fails, in order. */
  function Plan(s: Settings): seq<Step>
  {
    TagPhase(s) + (ImagePhase(s) + (AddPhase(s) + (WritePhase(s) + (AddImagePhase(s) + FinishPhase(s)))))
  }

  predicate AllInPhase(steps: seq<Step>, n: nat)
  {
    forall k | 0 <= k < |steps| :: Phase(steps[k]) == n
  }

  /** The steps never go back to an earlier phase. */
  predicate Ordered(steps: seq<Step>)
  {
    forall i, j | 0 <= i < j < |steps| :: Phase(steps[i]) <= Phase(steps[j])
  }

  /** Every step of `steps` comes in phase `n` or later. */
  predicate From(steps: seq<Step>, n: nat)
  {
    forall k | 0 <= k < |steps| :: n <= Phase(steps[k])
  }

  lemma {:induction false} OrderedCons(a: seq<Step>, n: nat, b: seq<Step>)
    requires AllInPhase(a, n) && From(b, n) && Ordered(b)
    ensures Ordered(a + b) && From(a + b, n)
  {
    var ab := a + b;
    forall i, j | 0 <= i < j < |ab|
      ensures Phase(ab[i]) <= Phase(ab[j])
    {
      if j < |a| {
      } else if i < |a| {
        assert ab[j] == b[j - |a|];
      } else {
        assert ab[i] == b[i - |a|] && ab[j] == b[j - |a|];
      }
    }
    forall k | 0 <= k < |ab|
      ensures n <= Phase(ab[k])
    {
      if k >= |a| {
        assert ab[k] == b[k - |a|];
      }
    }
  }

  lemma {:induction false} FinishOrdered(s: Settings)
    ensures Ordered(FinishPhase(s)) && From(FinishPhase(s), 5)
  {
    var f := FinishPhase(s);
    forall k | 0 <= k < |f|
      ensures 5 <= Phase(f[k])
    {
      assert f[k] in f;
    }
  }

  /** `apply_ops` runs its phases in order: tags, images, additions, image writes, image additions, then the closing chain. */
  lemma {:induction false} PlanOrdered(s: Settings)
    ensures Ordered(Plan(s))
  {
    FinishOrdered(s);
    OrderedCons(AddImagePhase(s), 4, FinishPhase(s));
    OrderedCons(WritePhase(s), 3, AddImagePhase(s) + FinishPhase(s));
    OrderedCons(AddPhase(s), 2, WritePhase(s) + (AddImagePhase(s) + FinishPhase(s)));
    OrderedCons(ImagePhase(s), 1, AddPhase(s) + (WritePhase(s) + (AddImagePhase(s) + FinishPhase(s))));
    OrderedCons(TagPhase(s), 0, ImagePhase(s) + (AddPhase(s) + (WritePhase(s) + (AddImagePhase(s) + FinishPhase(s)))));
  }

  /** The phases before the closing chain hold no lookup, save or move. */
  lemma {:induction false} EditsBeforeFinish(s: Settings, edits: seq<Step>, st: Step)
    requires edits == TagPhase(s) + (ImagePhase(s) + (AddPhase(s) + (WritePhase(s) + AddImagePhase(s))))
    requires Phase(st) >= 5
    ensures st !in edits
  {
  }

  lemma {:induction false} PlanSplitFinish(s: Settings, edits: seq<Step>)
    requires edits == TagPhase(s) + (ImagePhase(s) + (AddPhase(s) + (WritePhase(s) + AddImagePhase(s))))
    ensures Plan(s) == edits + FinishPhase(s)
  {
  }

  lemma {:induction false} FinishSteps(s: Settings)
    ensures LookUp in FinishPhase(s) <==> s.autoMode
    ensures Save in FinishPhase(s) <==> !s.dryRun
    ensures Move in FinishPhase(s) <==> s.moveMode
  {
  }

  /** The closing chain: lookup iff auto mode, save iff not a dry run, move iff move mode, at the end of the plan. */
  lemma {:induction false} PlanFinish(s: Settings)
    ensures LookUp in Plan(s) <==> s.autoMode
    ensures Save in Plan(s) <==> !s.dryRun
    ensures Move in Plan(s) <==> s.moveMode
    ensures Plan(s)[|Plan(s)| - |FinishPhase(s)|..] == FinishPhase(s)
  {
    var edits := TagPhase(s) + (ImagePhase(s) + (AddPhase(s) + (WritePhase(s) + AddImagePhase(s))));
    PlanSplitFinish(s, edits);
    FinishSteps(s);
    EditsBeforeFinish(s, edits, LookUp);
    EditsBeforeFinish(s, edits, Save);
    EditsBeforeFinish(s, edits, Move);
    DropFront(edits, FinishPhase(s), Plan(s));
  }

  lemma {:induction false} DropFront(x: seq<Step>, y: seq<Step>, z: seq<Step>)
    requires z == x + y
    ensures z[|x|..] == y
  {
  }

  /** Removing every tag replaces the named removals; otherwise each named tag is removed in the order given. */
  lemma {:induction false} PlanTagRemoval(s: Settings)
    ensures s.removeAllTags ==> Plan(s)[..1] == [ClearTags] && forall n :: RemoveTag(n) !in Plan(s)
    ensures !s.removeAllTags ==> ClearTags !in Plan(s) && Plan(s)[..|s.removeTags|] == TagPhase(s)
    ensures !s.removeAllTags ==> forall k | 0 <= k < |s.removeTags| :: Plan(s)[k] == RemoveTag(s.removeTags[k])
  {
    var rest := ImagePhase(s) + (AddPhase(s) + (WritePhase(s) + (AddImagePhase(s) + FinishPhase(s))));
    assert Plan(s) == TagPhase(s) + rest;
    assert forall st <- rest :: Phase(st) >= 1 by {
      FinishOrdered(s);
      OrderedCons(AddImagePhase(s), 4, FinishPhase(s));
      OrderedCons(WritePhase(s), 3, AddImagePhase(s) + FinishPhase(s));
      OrderedCons(AddPhase(s), 2, WritePhase(s) + (AddImagePhase(s) + FinishPhase(s)));
      OrderedCons(ImagePhase(s), 1, AddPhase(s) + (WritePhase(s) + (AddImagePhase(s) + FinishPhase(s))));
    }
  }

  /** A step of another phase is not among the steps of phase `n`. */
  lemma {:induction false} OutsidePhase(steps: seq<Step>, n: nat, st: Step)
    requires AllInPhase(steps, n) && Phase(st) != n
    ensures st !in steps
  {
  }

  /** A step of an earlier phase is not among the steps from phase `n` on. */
  lemma {:induction false} BeforePhase(steps: seq<Step>, n: nat, st: Step)
    requires From(steps, n) && Phase(st) < n
    ensures st !in steps
  {
  }

  /** The tag additions pair the k-th name with the k-th value, stop at the shorter list, and are the only additions. */
  lemma {:induction false} PlanAdds(s: Settings, st: Step)
    ensures |AddPhase(s)| == Tag.Min(|s.addTagNames|, |s.addTagValues|)
    ensures forall k | 0 <= k < |AddPhase(s)| :: AddPhase(s)[k] == AddTag(s.addTagNames[k], s.addTagValues[k])
    ensures st in Plan(s) && st.AddTag? ==> st in AddPhase(s)
  {
    var rest := WritePhase(s) + (AddImagePhase(s) + FinishPhase(s));
    assert Plan(s) == TagPhase(s) + (ImagePhase(s) + (AddPhase(s) + rest));
    if st.AddTag? {
      FinishOrdered(s);
      OrderedCons(AddImagePhase(s), 4, FinishPhase(s));
      OrderedCons(WritePhase(s), 3, AddImagePhase(s) + FinishPhase(s));
      OutsidePhase(TagPhase(s), 0, st);
      OutsidePhase(ImagePhase(s), 1, st);
      BeforePhase(rest, 3, st);
    }
  }

  /**
   * `cloak_mode` opens the tags for writing whenever the plan edits tags or
   * images or looks up MusicBrainz; image writes, saving and moving need
   * only reading.
   */
  lemma {:induction false} PlanNeedsMode(s: Settings, st: Step)
    requires st in Plan(s) && !(st.WriteImage? || st.Save? || st.Move?)
    ensures CloakOptions.ModeOf(s) == CloakOptions.ReadWrite
  {
    var rest := WritePhase(s) + (AddImagePhase(s) + FinishPhase(s));
    assert Plan(s) == TagPhase(s) + (ImagePhase(s) + (AddPhase(s) + rest));
    if st in AddPhase(s) {
      assert s.addTagNames != [];
    } else if st in AddImagePhase(s) {
      assert s.addImages != [];
    } else if st in TagPhase(s) {
    } else if st in ImagePhase(s) {
    } else {
      assert st in rest;
      assert st in AddImagePhase(s) + FinishPhase(s);
    }
  }

  // ---------------------------------------------------------------------
  // apply_ops: running the plan
  // ---------------------------------------------------------------------

  /** A result and the tags it leaves. */
  datatype Outcome = Outcome(result: Result<()>, pairs: seq<Tag.Pair>)

  /** The outcome of a generic tag call: the pairs it leaves, or its refusal and the pairs as they were. */
  function Took(e: Result<seq<Tag.Pair>>, pairs: seq<Tag.Pair>): Outcome
  {
    if e.Ok? then Outcome(Ok(()), e.value) else Outcome(Err(e.msg), pairs)
  }

  /**
   * What lies outside the tags: `run` answers an image edit or a move;
   * `lookUp` is the MusicBrainz query of `rsvc_apply_musicbrainz_tags`
   * for the tags at hand, giving its error (no disc ID, no or a bad track
   * number, a disc ID not found) or the title, artist, album and date it
   * found, in that order, each under its tag name.
   */
  datatype Outside = Outside(run: (seq<Tag.Pair>, Step) -> Result<()>, lookUp: seq<Tag.Pair> -> Result<seq<Tag.Pair>>)

  /** Some tag has exactly this name (the `strcmp` of `set_mb_tag`). */
  predicate HasTag(pairs: seq<Tag.Pair>, name: string)
  {
    exists k | 0 <= k < |pairs| :: pairs[k].0 == name
  }

  /**
   * `set_mb_tag` for each field found, in order: a field whose name some
   * tag already has is skipped, any other is added with `rsvc_tags_add`;
   * the first refused addition stops the chain, keeping what was added
   * before it.
   */
  function MbTagged(m: Tag.Methods, writable: bool, pairs: seq<Tag.Pair>, found: seq<Tag.Pair>): Outcome
    decreases |found|
  {
    if found == [] then Outcome(Ok(()), pairs)
    else if HasTag(pairs, found[0].0) then MbTagged(m, writable, pairs, found[1..])
    else
      var e := Tag.Added(m, writable, pairs, found[0].0, found[0].1);
      if e.Err? then Outcome(Err(e.msg), pairs) else MbTagged(m, writable, e.value, found[1..])
  }

  /** Tags whose every addition is refused come out of the lookup unchanged. */
  lemma {:induction false} MbTaggedRefused(m: Tag.Methods, writable: bool, pairs: seq<Tag.Pair>, found: seq<Tag.Pair>)
    requires forall name, value :: Tag.Added(m, writable, pairs, name, value).Err?
    ensures MbTagged(m, writable, pairs, found).pairs == pairs
    decreases |found|
  {
    if found != [] {
      MbTaggedRefused(m, writable, pairs, found[1..]);
    }
  }

  /** The lookup on in-memory tags adds only names that passed the name check. */
  lemma {:induction false} MbTaggedKeepsNames(writable: bool, pairs: seq<Tag.Pair>, found: seq<Tag.Pair>)
    requires forall p <- pairs :: Tag.NameIsValid(p.0)
    ensures forall p <- MbTagged(Tag.Detached, writable, pairs, found).pairs :: Tag.NameIsValid(p.0)
    decreases |found|
  {
    if found != [] {
      var f := found[0];
      var e := Tag.Added(Tag.Detached, writable, pairs, f.0, f.1);
      if HasTag(pairs, f.0) {
        MbTaggedKeepsNames(writable, pairs, found[1..]);
      } else if e.Ok? {
        Tag.ChecksFirst(Tag.Detached, pairs, f.0, f.1);
        Tag.DetachedEdits(pairs, f.0, f.1);
        Tag.EditsKeepNames(pairs, f.0, f.1);
        MbTaggedKeepsNames(writable, e.value, found[1..]);
      }
    }
  }

  /**
   * On in-memory tags the lookup never fails on a field with a valid
   * name: the tags before it are kept, every field found is then present,
   * and each tag it adds is a field found whose name no tag had before.
   */
  lemma {:induction false} MbTaggedAdds(writable: bool, pairs: seq<Tag.Pair>, found: seq<Tag.Pair>)
    requires writable && forall f <- found :: Tag.NameIsValid(f.0)
    ensures var o := MbTagged(Tag.Detached, writable, pairs, found);
      o.result.Ok? && |o.pairs| >= |pairs| && o.pairs[..|pairs|] == pairs
      && (forall f <- found :: HasTag(o.pairs, f.0))
      && (forall k | |pairs| <= k < |o.pairs| :: o.pairs[k] in found && !HasTag(pairs, o.pairs[k].0))
    decreases |found|
  {
    var o := MbTagged(Tag.Detached, writable, pairs, found);
    if found != [] {
      var f := found[0];
      assert f in found;
      if HasTag(pairs, f.0) {
        MbTaggedAdds(writable, pairs, found[1..]);
      } else {
        Tag.DetachedEdits(pairs, f.0, f.1);
        var next := pairs + [f];
        MbTaggedAdds(writable, next, found[1..]);
        assert o == MbTagged(Tag.Detached, writable, next, found[1..]);
        assert o.pairs[..|next|] == next;
        assert o.pairs[..|pairs|] == next[..|pairs|] == pairs;
        assert o.pairs[|pairs|] == next[|pairs|] == f;
        assert HasTag(o.pairs, f.0) by {
          assert o.pairs[|pairs|].0 == f.0;
        }
        forall k | |pairs| <= k < |o.pairs|
          ensures o.pairs[k] in found && !HasTag(pairs, o.pairs[k].0)
        {
          if k == |pairs| {
          } else {
            assert !HasTag(next, o.pairs[k].0);
          }
        }
      }
    }
  }

  /** The names `rsvc_apply_musicbrainz_tags` sets are valid tag names. */
  lemma {:induction false} MbFieldNames()
    ensures Tag.NameIsValid("TITLE") && Tag.NameIsValid("ARTIST") && Tag.NameIsValid("ALBUM") && Tag.NameIsValid("DATE")
  {
    assert forall c <- "TITLE" :: Tag.NameChar(c);
    assert forall c <- "ARTIST" :: Tag.NameChar(c);
    assert forall c <- "ALBUM" :: Tag.NameChar(c);
    assert forall c <- "DATE" :: Tag.NameChar(c);
  }

  /**
   * Fields whose names are valid, differ from each other and from every
   * tag's are all appended, in the order found.
   */
  lemma {:induction false} MbTaggedAppends(pairs: seq<Tag.Pair>, found: seq<Tag.Pair>)
    requires forall f <- found :: Tag.NameIsValid(f.0) && !HasTag(pairs, f.0)
    requires forall i, j | 0 <= i < j < |found| :: found[i].0 != found[j].0
    ensures MbTagged(Tag.Detached, true, pairs, found) == Outcome(Ok(()), pairs + found)
    decreases |found|
  {
    if found == [] {
      assert pairs + found == pairs;
    } else {
      var f := found[0];
      assert f in found;
      Tag.DetachedEdits(pairs, f.0, f.1);
      var next := pairs + [f];
      var rest := found[1..];
      forall i | 0 <= i < |rest|
        ensures Tag.NameIsValid(rest[i].0) && !HasTag(next, rest[i].0)
      {
        var g := found[i + 1];
        assert rest[i] == g && g in found;
        assert !HasTag(pairs, g.0);
        assert f.0 != g.0;
        forall k | 0 <= k < |next|
          ensures next[k].0 != g.0
        {
          if k < |pairs| {
            assert next[k] == pairs[k];
          }
        }
      }
      forall i, j | 0 <= i < j < |rest|
        ensures rest[i].0 != rest[j].0
      {
        assert rest[i] == found[i + 1] && rest[j] == found[j + 1];
      }
      MbTaggedAppends(next, rest);
      assert next + found[1..] == pairs + found;
    }
  }


  /** The steps that go through `rsvc_tags_clear`, `rsvc_tags_remove` and `rsvc_tags_add`. */
  predicate IsTagEdit(step: Step)
  {
    step.ClearTags? || step.RemoveTag? || step.AddTag?
  }

  /**
   * One call: a tag edit or the save as the generic call of `Tag` makes
   * it, with the tags' methods `m`; the MusicBrainz lookup adds the fields
   * its query found through the same calls; an image edit or a move as
   * `outside` says, leaving the tags unchanged.
   */
  function Perform(pairs: seq<Tag.Pair>, writable: bool, m: Tag.Methods, step: Step,
                   outside: Outside): Outcome
  {
    match step
    case ClearTags => Took(Tag.Cleared(m, writable, pairs), pairs)
    case RemoveTag(name) => Took(Tag.Removed(m, writable, pairs, name), pairs)
    case AddTag(name, value) => Took(Tag.Added(m, writable, pairs, name, value), pairs)
    case Save => Outcome(Tag.Saved(m, writable, pairs), pairs)
    case LookUp =>
      var found := outside.lookUp(pairs);
      if found.Err? then Outcome(Err(found.msg), pairs) else MbTagged(m, writable, pairs, found.value)
    case _ => Outcome(outside.run(pairs, step), pairs)
  }

  /** The steps run in order until one fails. */
  function Applied(pairs: seq<Tag.Pair>, writable: bool, m: Tag.Methods, steps: seq<Step>,
                   outside: Outside): Outcome
    decreases |steps|
  {
    if steps == [] then Outcome(Ok(()), pairs)
    else
      var o := Perform(pairs, writable, m, steps[0], outside);
      if o.result.Err? then o else Applied(o.pairs, writable, m, steps[1..], outside)
  }

  /**
   * Running `a` then `b`: when `a` fails, `b` is never started and the
   * failure is the outcome; otherwise `b` runs on the tags `a` left.
   */
  lemma {:induction false} AppliedThen(pairs: seq<Tag.Pair>, writable: bool, m: Tag.Methods, a: seq<Step>, b: seq<Step>,
                                       outside: Outside)
    ensures var o := Applied(pairs, writable, m, a, outside);
      Applied(pairs, writable, m, a + b, outside) == if o.result.Err? then o else Applied(o.pairs, writable, m, b, outside)
    decreases |a|
  {
    if a != [] {
      assert (a + b)[0] == a[0] && (a + b)[1..] == a[1..] + b;
      var o := Perform(pairs, writable, m, a[0], outside);
      if o.result.Ok? {
        AppliedThen(o.pairs, writable, m, a[1..], b, outside);
      }
    } else {
      assert a + b == b;
    }
  }

  /** Read-only tags come out unchanged, whatever the steps and the format. */
  lemma {:induction false} ReadOnlyUnchanged(pairs: seq<Tag.Pair>, m: Tag.Methods, steps: seq<Step>,
                                             outside: Outside)
    ensures Applied(pairs, false, m, steps, outside).pairs == pairs
    decreases |steps|
  {
    if steps != [] {
      var found := outside.lookUp(pairs);
      if steps[0].LookUp? && found.Ok? {
        forall name, value
          ensures Tag.Added(m, false, pairs, name, value).Err?
        {
          Tag.ChecksFirst(m, pairs, name, value);
        }
        MbTaggedRefused(m, false, pairs, found.value);
      }
      ReadOnlyUnchanged(pairs, m, steps[1..], outside);
    }
  }

  /**
   * Every tag the edits of detached tags leave went through the name
   * check: names stay valid.
   */
  lemma {:induction false} AppliedKeepsNames(pairs: seq<Tag.Pair>, writable: bool, steps: seq<Step>,
                                             outside: Outside)
    requires forall p <- pairs :: Tag.NameIsValid(p.0)
    ensures forall p <- Applied(pairs, writable, Tag.Detached, steps, outside).pairs :: Tag.NameIsValid(p.0)
    decreases |steps|
  {
    if steps != [] {
      var o := Perform(pairs, writable, Tag.Detached, steps[0], outside);
      if steps[0].AddTag? {
        Tag.EditsKeepNames(pairs, steps[0].name, steps[0].value);
      } else if steps[0].RemoveTag? {
        Tag.EditsKeepNames(pairs, steps[0].name, "");
      } else if steps[0].LookUp? && outside.lookUp(pairs).Ok? {
        MbTaggedKeepsNames(writable, pairs, outside.lookUp(pairs).value);
      }
      if o.result.Ok? {
        AppliedKeepsNames(o.pairs, writable, steps[1..], outside);
      }
    }
  }

  /**
   * On Opus tags no tag edit ever succeeds: the tags come out unchanged,
   * and a run succeeds only when it holds no clear, removal or addition.
   */
  lemma {:induction false} OpusRefusesTagEdits(pairs: seq<Tag.Pair>, writable: bool, steps: seq<Step>,
                                               outside: Outside)
    ensures var o := Applied(pairs, writable, Opus.TagMethods(), steps, outside);
      o.pairs == pairs && (o.result.Ok? ==> forall st <- steps :: !IsTagEdit(st))
    decreases |steps|
  {
    if steps != [] {
      var st := steps[0];
      if IsTagEdit(st) {
        match st {
          case ClearTags => Opus.TagMethodsRefuse(pairs, "", "");
          case RemoveTag(name) => Opus.TagMethodsRefuse(pairs, name, "");
          case AddTag(name, value) => Opus.TagMethodsRefuse(pairs, name, value);
        }
      } else {
        var found := outside.lookUp(pairs);
        if st.LookUp? && found.Ok? {
          forall name, value
            ensures Tag.Added(Opus.TagMethods(), writable, pairs, name, value).Err?
          {
            Tag.ChecksFirst(Opus.TagMethods(), pairs, name, value);
            Opus.TagMethodsRefuse(pairs, name, value);
          }
          MbTaggedRefused(Opus.TagMethods(), writable, pairs, found.value);
        }
        OpusRefusesTagEdits(pairs, writable, steps[1..], outside);
        assert forall st' <- steps :: st' == st || st' in steps[1..];
      }
    }
  }

  /**
   * `cloak --remove-all` on an Opus file: the clear comes first and is
   * refused, with "opus tags are read-only" when the tags are writable.
   */
  lemma {:induction false} OpusClearFails(s: Settings, pairs: seq<Tag.Pair>, writable: bool,
                                          outside: Outside)
    requires s.removeAllTags
    ensures Applied(pairs, writable, Opus.TagMethods(), Plan(s), outside)
      == Outcome(Err(if writable then Opus.READ_ONLY else Tag.ReadOnly), pairs)
  {
    PlanTagRemoval(s);
    assert Plan(s)[0] == Plan(s)[..1][0] == ClearTags;
    Opus.TagMethodsRefuse(pairs, "", "");
  }

  /** `cloak --add NAME=VALUE` on an Opus file fails, and no tag changes. */
  lemma {:induction false} OpusAddFails(s: Settings, pairs: seq<Tag.Pair>, writable: bool,
                                        outside: Outside)
    requires AddCount(s) > 0
    ensures var o := Applied(pairs, writable, Opus.TagMethods(), Plan(s), outside);
      o.result.Err? && o.pairs == pairs
  {
    var st := AddTag(s.addTagNames[0], s.addTagValues[0]);
    PlanAdds(s, st);
    assert AddPhase(s)[0] == st;
    var rest := WritePhase(s) + (AddImagePhase(s) + FinishPhase(s));
    assert Plan(s) == TagPhase(s) + (ImagePhase(s) + (AddPhase(s) + rest));
    assert st in Plan(s);
    OpusRefusesTagEdits(pairs, writable, Plan(s), outside);
  }

  /** The `strcmp` scan of `set_mb_tag` over the tags. */
  method FindTag(pairs: seq<Tag.Pair>, name: string) returns (found: bool)
    ensures found <==> HasTag(pairs, name)
  {
    var k := 0;
    while k < |pairs|
      invariant 0 <= k <= |pairs|
      invariant forall j | 0 <= j < k :: pairs[j].0 != name
    {
      if pairs[k].0 == name {
        return true;
      }
      k := k + 1;
    }
    return false;
  }

  /** The chain of `set_mb_tag` calls of `rsvc_apply_musicbrainz_tags`. */
  method SetMbTags(tags: Tag.Tags, found: seq<Tag.Pair>) returns (r: Result<()>)
    modifies tags
    ensures Outcome(r, tags.pairs) == MbTagged(tags.methods, tags.writable, old(tags.pairs), found)
  {
    var i := 0;
    while i < |found|
      invariant 0 <= i <= |found|
      invariant MbTagged(tags.methods, tags.writable, tags.pairs, found[i..])
        == MbTagged(tags.methods, tags.writable, old(tags.pairs), found)
    {
      assert found[i..][0] == found[i] && found[i..][1..] == found[i + 1..];
      var have := FindTag(tags.pairs, found[i].0);
      if !have {
        r := tags.Add(found[i].0, found[i].1);
        if r.Err? {
          return;
        }
      }
      i := i + 1;
    }
    return Ok(());
  }

  /** One call on the tags object. */
  method PerformOn(tags: Tag.Tags, step: Step, outside: Outside) returns (r: Result<()>)
    modifies tags
    ensures Outcome(r, tags.pairs) == Perform(old(tags.pairs), tags.writable, tags.methods, step, outside)
  {
    if step.ClearTags? {
      r := tags.Clear();
    } else if step.RemoveTag? {
      r := tags.Remove(step.name);
    } else if step.AddTag? {
      r := tags.Add(step.name, step.value);
    } else if step.Save? {
      r := tags.Save();
    } else if step.LookUp? {
      var found := outside.lookUp(tags.pairs);
      if found.Err? {
        return Err(found.msg);
      }
      r := SetMbTags(tags, found.value);
    } else {
      r := outside.run(tags.pairs, step);
    }
  }

  lemma {:induction false} AppliedStep(pairs: seq<Tag.Pair>, writable: bool, m: Tag.Methods, steps: seq<Step>, i: nat,
                    outside: Outside)
    requires i < |steps|
    ensures var o := Perform(pairs, writable, m, steps[i], outside);
      Applied(pairs, writable, m, steps[i..], outside) == if o.result.Err? then o else Applied(o.pairs, writable, m, steps[i + 1..], outside)
  {
    assert steps[i..][0] == steps[i] && steps[i..][1..] == steps[i + 1..];
  }

  /** One loop of `apply_ops` over a list of calls: the first failure returns. */
  method RunSteps(tags: Tag.Tags, steps: seq<Step>, outside: Outside) returns (r: Result<()>)
    modifies tags
    ensures Outcome(r, tags.pairs) == Applied(old(tags.pairs), tags.writable, tags.methods, steps, outside)
  {
    var i := 0;
    while i < |steps|
      invariant 0 <= i <= |steps|
      invariant Applied(tags.pairs, tags.writable, tags.methods, steps[i..], outside)
        == Applied(old(tags.pairs), tags.writable, tags.methods, steps, outside)
    {
      AppliedStep(tags.pairs, tags.writable, tags.methods, steps, i, outside);
      r := PerformOn(tags, steps[i], outside);
      if r.Err? {
        return;
      }
      i := i + 1;
    }
    assert steps[i..] == [];
    r := Ok(());
  }

  /** What a successful `apply_ops` writes: the file name in long listings, then the tags, then the images. */
  function Report(s: Settings, path: string, pairs: seq<Tag.Pair>, images: string): string
  {
    (if s.listMode == CloakOptions.LongListing then path + ":\n" else "")
      + (if s.listTags then Cloak.Listing(pairs, Cloak.BeforeBreak) else "")
      + (if s.listImages then images else "")
  }

  /** After a phase: either it failed and that is the whole outcome, or the rest of the plan remains. */
  lemma {:induction false} PhaseDone(p: seq<Tag.Pair>, writable: bool, m: Tag.Methods, phase: seq<Step>, rest: seq<Step>,
                  whole: Outcome, r: Result<()>, q: seq<Tag.Pair>, outside: Outside)
    requires whole == Applied(p, writable, m, phase + rest, outside)
    requires Outcome(r, q) == Applied(p, writable, m, phase, outside)
    ensures r.Err? ==> Outcome(r, q) == whole
    ensures r.Ok? ==> Applied(q, writable, m, rest, outside) == whole
  {
    AppliedThen(p, writable, m, phase, rest, outside);
  }

  /** Running one phase, when the tags stand where the phase starts in the plan. */
  method RunPhase(tags: Tag.Tags, phase: seq<Step>, rest: seq<Step>, ghost whole: Outcome,
                  outside: Outside) returns (r: Result<()>)
    requires whole == Applied(tags.pairs, tags.writable, tags.methods, phase + rest, outside)
    modifies tags
    ensures r.Err? ==> Outcome(r, tags.pairs) == whole
    ensures r.Ok? ==> Applied(tags.pairs, tags.writable, tags.methods, rest, outside) == whole
  {
    ghost var p := tags.pairs;
    r := RunSteps(tags, phase, outside);
    PhaseDone(p, tags.writable, tags.methods, phase, rest, whole, r, tags.pairs, outside);
  }

  lemma {:induction false} PlanPhases(s: Settings, removeTags: seq<Step>, afterTags: seq<Step>, afterImages: seq<Step>)
    requires removeTags == TagPhase(s)
    requires afterImages == WritePhase(s) + (AddImagePhase(s) + FinishPhase(s))
    requires afterTags == ImagePhase(s) + (AddPhase(s) + afterImages)
    ensures Plan(s) == removeTags + afterTags
  {
  }

  /** The edits of `apply_ops`, phase after phase; the first failure returns. */
  method Edit(tags: Tag.Tags, s: Settings, outside: Outside) returns (r: Result<()>)
    modifies tags
    ensures Outcome(r, tags.pairs) == Applied(old(tags.pairs), tags.writable, tags.methods, Plan(s), outside)
  {
    var removeTags, removeImages, addTags := TagPhase(s), ImagePhase(s), AddPhase(s);
    var writeImages, addImages, finish := WritePhase(s), AddImagePhase(s), FinishPhase(s);
    var afterImages := writeImages + (addImages + finish);
    var afterTags := removeImages + (addTags + afterImages);
    PlanPhases(s, removeTags, afterTags, afterImages);
    ghost var whole := Applied(tags.pairs, tags.writable, tags.methods, removeTags + afterTags, outside);
    assert whole == Applied(old(tags.pairs), tags.writable, tags.methods, Plan(s), outside);
    r := RunPhase(tags, removeTags, afterTags, whole, outside);
    if r.Err? {
      return;
    }
    r := RunPhase(tags, removeImages, addTags + afterImages, whole, outside);
    if r.Err? {
      return;
    }
    r := RunPhase(tags, addTags, afterImages, whole, outside);
    if r.Err? {
      return;
    }
    r := RunPhase(tags, writeImages, addImages + finish, whole, outside);
    if r.Err? {
      return;
    }
    r := RunPhase(tags, addImages, finish, whole, outside);
    if r.Err? {
      return;
    }
    assert finish + [] == finish;
    r := RunPhase(tags, finish, [], whole, outside);
    if r.Ok? {
      match r {
        case Ok(u) => assert u == ();
      }
      assert Applied(tags.pairs, tags.writable, tags.methods, [], outside) == Outcome(Ok(()), tags.pairs);
    }
  }

  /**
   * `apply_ops`: the edits, then, only when all of them succeeded, the
   * listing.
   */
  method ApplyOps(tags: Tag.Tags, path: string, s: Settings, outside: Outside,
                  images: string) returns (r: Result<()>, out: string)
    modifies tags
    ensures Outcome(r, tags.pairs) == Applied(old(tags.pairs), tags.writable, tags.methods, Plan(s), outside)
    ensures out == if r.Ok? then Report(s, path, tags.pairs, images) else ""
  {
    out := "";
    r := Edit(tags, s, outside);
    if r.Err? {
      return;
    }
    out := List(tags, path, s, images);
  }

  /** The listing that closes a successful `apply_ops`. */
  method List(tags: Tag.Tags, path: string, s: Settings, images: string) returns (out: string)
    ensures out == Report(s, path, tags.pairs, images)
  {
    out := "";
    if s.listMode == CloakOptions.LongListing {
      out := path + ":\n";
    }
    if s.listTags {
      var listing := Cloak.PrintTags(tags);
      out := out + listing;
    }
    if s.listImages {
      out := out + images;
    }
  }

  // ---------------------------------------------------------------------
  // write_image
  // ---------------------------------------------------------------------

  /** An embedded image: the file extension of its format and its bytes. */
  datatype Image = Image(extension: string, data: seq<byte>)

  /**
   * Where `write_image` stores an image: the given path, or "cover" beside
   * the audio file; either gets "." and the format's extension when it has
   * no extension of its own. `hasExtension` stands for `rsvc_ext`, which is
   * not part of this model.
   */
  function ImagePath(audio: string, imagePath: Option<string>, extension: string,
                     hasExtension: string -> bool): (r: string)
  {
    var base := if imagePath.Some? then imagePath.value else Paths.Dirname(audio) + "/cover";
    if hasExtension(base) then base else base + "." + extension
  }

  /** The default cover goes in the audio file's own directory. */
  lemma {:induction false} CoverBesideAudio(audio: string, extension: string, hasExtension: string -> bool)
    requires '/' !in extension
    ensures Paths.Dirname(ImagePath(audio, None, extension, hasExtension)) == Paths.Dirname(audio)
  {
    var dir := Paths.Dirname(audio);
    Paths.DirnamePrefix(audio);
    var name := if hasExtension(dir + "/cover") then "cover" else "cover" + "." + extension;
    assert ImagePath(audio, None, extension, hasExtension) == dir + "/" + name;
    Paths.DirnameChild(dir, name);
  }

  /** A given path is kept as it is when it has an extension, and is otherwise extended with the format's. */
  lemma {:induction false} GivenImagePath(audio: string, path: string, extension: string, hasExtension: string -> bool)
    ensures var r := ImagePath(audio, Some(path), extension, hasExtension);
      r[..|path|] == path && (hasExtension(path) <==> r == path)
      && (!hasExtension(path) ==> r[|path|..] == "." + extension)
  {
  }

  function BadIndex(index: int): string
  {
    "bad image index: " + SignedDecimal(index)
  }

  /**
   * `write_image`: the image at position `index` is stored with `store`
   * (the temporary file, write and rename of the C code); no image at that
   * position gives "bad image index".
   */
  method WriteImageAt(images: seq<Image>, index: int, audio: string, imagePath: Option<string>,
                      hasExtension: string -> bool, store: (string, seq<byte>) -> Result<()>)
    returns (r: Result<()>)
    ensures 0 <= index < |images| ==>
      r == store(ImagePath(audio, imagePath, images[index].extension, hasExtension), images[index].data)
    ensures !(0 <= index < |images|) ==> r == Err(BadIndex(index))
  {
    var i := 0;
    while i < |images|
      invariant 0 <= i <= |images| && !(0 <= index < i)
    {
      if i == index {
        var target := ImagePath(audio, imagePath, images[i].extension, hasExtension);
        r := store(target, images[i].data);
        return;
      }
      i := i + 1;
    }
    r := Err(BadIndex(index));
  }

  /** The message names the index it was given, negative ones included. */
  lemma {:induction false} BadIndexNames(index: int)
    ensures var m := BadIndex(index); var d := m[|"bad image index: "|..];
      (index >= 0 ==> DecimalValue(d) == index) && (index < 0 ==> d[0] == '-' && DecimalValue(d[1..]) == -index)
  {
    var d := SignedDecimal(index);
    assert BadIndex(index)[|"bad image index: "|..] == d;
  }

  // ---------------------------------------------------------------------
  // tag_file and tag_files
  // ---------------------------------------------------------------------

  /** A format's tags as its `open_tags` hands them back: their methods and pairs. */
  datatype Opened = Opened(methods: Tag.Methods, pairs: seq<Tag.Pair>)

  /**
   * `tag_file`: `openFile` stands for `rsvc_open` and `openTags` for
   * detecting the format, checking that it can be tagged and its
   * `open_tags`; the tags are opened for writing exactly when `cloak_mode`
   * asks for it. Once the file is open every error carries the path in
   * front.
   */
  function FileResult(path: string, s: Settings, openFile: string -> Result<()>, openTags: string -> Result<Opened>,
                      outside: Outside, images: string -> string): Result<string>
  {
    var file := openFile(path);
    if file.Err? then Err(file.msg)
    else
      var found := openTags(path);
      if found.Err? then Err(path + ": " + found.msg)
      else
        var o := Applied(found.value.pairs, CloakOptions.ModeOf(s) == CloakOptions.ReadWrite, found.value.methods,
                         Plan(s), outside);
        if o.result.Err? then Err(path + ": " + o.result.msg)
        else Ok(Report(s, path, o.pairs, images(path)))
  }

  /**
   * Only the error of opening the file comes without the path: every
   * later error, from detecting the format to the last step of
   * `apply_ops`, is "path: " and its message.
   */
  lemma {:induction false} FileErrorsNamed(path: string, s: Settings, openFile: string -> Result<()>,
                                           openTags: string -> Result<Opened>,
                                           outside: Outside, images: string -> string)
    ensures var r := FileResult(path, s, openFile, openTags, outside, images);
      (openFile(path).Err? ==> r == Err(openFile(path).msg))
      && (openFile(path).Ok? && r.Err? ==> |r.msg| >= |path| + 2 && r.msg[..|path| + 2] == path + ": ")
  {
  }

  method TagFile(path: string, s: Settings, openFile: string -> Result<()>, openTags: string -> Result<Opened>,
                 outside: Outside, images: string -> string)
    returns (r: Result<string>)
    ensures r == FileResult(path, s, openFile, openTags, outside, images)
  {
    var file := openFile(path);
    if file.Err? {
      return Err(file.msg);
    }
    var found := openTags(path);
    if found.Err? {
      return Err(path + ": " + found.msg);
    }
    var tags := new Tag.Tags.Open(found.value.methods, CloakOptions.ModeOf(s) == CloakOptions.ReadWrite,
                                  found.value.pairs);
    var applied, out := ApplyOps(tags, path, s, outside, images(path));
    if applied.Err? {
      return Err(path + ": " + applied.msg);
    }
    r := Ok(out);
  }

  /** What `tag_files` has written, and how it ended. */
  datatype Run = Run(result: Result<()>, out: string)

  /** The result `tag_file` has for each file, in the order given. */
  function Results(files: seq<string>, s: Settings, openFile: string -> Result<()>, openTags: string -> Result<Opened>,
                   outside: Outside, images: string -> string): (rs: seq<Result<string>>)
    ensures |rs| == |files|
    decreases |files|
  {
    if files == [] then []
    else [FileResult(files[0], s, openFile, openTags, outside, images)] + Results(files[1..], s, openFile, openTags, outside, images)
  }

  lemma {:induction false} ResultsAt(files: seq<string>, i: nat, s: Settings, openFile: string -> Result<()>, openTags: string -> Result<Opened>,
                                     outside: Outside, images: string -> string)
    requires i < |files|
    ensures Results(files, s, openFile, openTags, outside, images)[i] == FileResult(files[i], s, openFile, openTags, outside, images)
    decreases i
  {
    if i > 0 {
      ResultsAt(files[1..], i - 1, s, openFile, openTags, outside, images);
    }
  }

  /**
   * `tag_files` over the files' results: the first failure ends the run,
   * and when `listing` a blank line separates each file's output from the
   * next.
   */
  function Joined(rs: seq<Result<string>>, listing: bool): Run
    decreases |rs|
  {
    if rs == [] then Run(Ok(()), "")
    else if rs[0].Err? then Run(Err(rs[0].msg), "")
    else
      var more := Joined(rs[1..], listing);
      var gap := if listing && |rs| > 1 then "\n" else "";
      Run(more.result, rs[0].value + gap + more.out)
  }

  /** The run succeeds exactly when every file does. */
  lemma {:induction false} JoinedOk(rs: seq<Result<string>>, listing: bool)
    ensures Joined(rs, listing).result.Ok? <==> forall k | 0 <= k < |rs| :: rs[k].Ok?
    decreases |rs|
  {
    if rs != [] {
      JoinedOk(rs[1..], listing);
      assert forall k | 1 <= k < |rs| :: rs[k] == rs[1..][k - 1];
    }
  }

  /** The first failing file's error ends the run: the files after it play no part. */
  lemma {:induction false} JoinedFirstFailure(rs: seq<Result<string>>, i: nat, listing: bool)
    requires i < |rs| && rs[i].Err? && forall k | 0 <= k < i :: rs[k].Ok?
    ensures Joined(rs, listing).result == Err(rs[i].msg)
    ensures Joined(rs, listing).out == Joined(rs[..i], listing).out + (if listing && i > 0 then "\n" else "")
    decreases i
  {
    if i > 0 {
      assert rs[1..][i - 1] == rs[i];
      assert forall k | 0 <= k < i - 1 :: rs[1..][k] == rs[k + 1];
      JoinedFirstFailure(rs[1..], i - 1, listing);
      assert rs[..i][1..] == rs[1..][..i - 1];
      if i > 1 {
        assert rs[..i][0] == rs[0];
      }
    }
  }

  /** When every file succeeds, the outputs follow one another, separated by blank lines when listing. */
  lemma {:induction false} JoinedOutputs(rs: seq<Result<string>>, listing: bool)
    requires |rs| >= 2 && rs[0].Ok?
    ensures Joined(rs, listing).out == rs[0].value + (if listing then "\n" else "") + Joined(rs[1..], listing).out
  {
  }

  /** Output so far, in front of the run of the remaining files. */
  function After(out: string, rest: Run): Run
  {
    Run(rest.result, out + rest.out)
  }

  /** One turn of `tag_files`: a failure ends the run with what was written so far; otherwise the loop goes on. */
  lemma {:induction false} JoinedAdvance(rs: seq<Result<string>>, listing: bool, i: nat, out: string, next: string, whole: Run)
    requires i < |rs| && After(out, Joined(rs[i..], listing)) == whole
    requires rs[i].Ok? ==> next == out + rs[i].value + (if listing && i + 1 < |rs| then "\n" else "")
    ensures rs[i].Err? ==> Run(Err(rs[i].msg), out) == whole
    ensures rs[i].Ok? ==> After(next, Joined(rs[i + 1..], listing)) == whole
  {
    assert rs[i..][0] == rs[i] && rs[i..][1..] == rs[i + 1..];
  }

  /** `tag_file` on the i-th file, and the output with its listing and the blank line that may follow. */
  method TagNext(files: seq<string>, i: nat, out: string, listing: bool, s: Settings,
                 openFile: string -> Result<()>, openTags: string -> Result<Opened>,
                 outside: Outside, images: string -> string)
    returns (f: Result<string>, next: string)
    requires i < |files|
    ensures f == Results(files, s, openFile, openTags, outside, images)[i]
    ensures f.Ok? ==> next == out + f.value + (if listing && i + 1 < |files| then "\n" else "")
  {
    f := TagFile(files[i], s, openFile, openTags, outside, images);
    ResultsAt(files, i, s, openFile, openTags, outside, images);
    next := out;
    if f.Ok? {
      next := next + f.value;
      if listing && i + 1 < |files| {
        next := next + "\n";
      }
    }
  }

  method TagFiles(files: seq<string>, s: Settings, openFile: string -> Result<()>, openTags: string -> Result<Opened>,
                  outside: Outside, images: string -> string)
    returns (r: Result<()>, out: string)
    ensures Run(r, out) == Joined(Results(files, s, openFile, openTags, outside, images), s.listMode != CloakOptions.NoListing)
  {
    ghost var rs := Results(files, s, openFile, openTags, outside, images);
    var listing := s.listMode != CloakOptions.NoListing;
    out := "";
    var i := 0;
    while i < |files|
      invariant 0 <= i <= |files|
      invariant After(out, Joined(rs[i..], listing)) == Joined(rs, listing)
    {
      var f, next := TagNext(files, i, out, listing, s, openFile, openTags, outside, images);
      JoinedAdvance(rs, listing, i, out, next, Joined(rs, listing));
      if f.Err? {
        return Err(f.msg), out;
      }
      out := next;
      i := i + 1;
    }
    assert rs[i..] == [];
    r := Ok(());
  }
}

/**
 * The comment list of src/rsvc/comment.c: an ordered list of (name, value)
 * pairs in which a name may repeat. Names are compared exactly
 * (case-sensitively, as `strcmp` does).
 *
 * The list is a `seq` field that the methods reassign; the queries walk it
 * with an index, as the C code walks the `next` pointers.
 */
module Comments {
  import opened Common

  datatype Comment = Comment(name: string, value: string)

  /** The entries of `es` whose name is not `name`, in their original order. */
  function Without(es: seq<Comment>, name: string): (r: seq<Comment>)
    ensures |r| <= |es|
  {
    if es == [] then []
    else Without(es[..|es| - 1], name) + (if es[|es| - 1].name == name then [] else [es[|es| - 1]])
  }

  /** The entries of `es` whose name is `name`, in their original order. */
  function Named(es: seq<Comment>, name: string): (r: seq<Comment>)
    ensures |r| <= |es|
  {
    if es == [] then []
    else Named(es[..|es| - 1], name) + (if es[|es| - 1].name == name then [es[|es| - 1]] else [])
  }

  function Names(es: seq<Comment>): (r: seq<string>)
    ensures |r| == |es| && forall i :: 0 <= i < |es| ==> r[i] == es[i].name
  {
    if es == [] then [] else Names(es[..|es| - 1]) + [es[|es| - 1].name]
  }

  function Values(es: seq<Comment>): (r: seq<string>)
    ensures |r| == |es| && forall i :: 0 <= i < |es| ==> r[i] == es[i].value
  {
    if es == [] then [] else Values(es[..|es| - 1]) + [es[|es| - 1].value]
  }

  /** Every entry lands in exactly one of `Without` and `Named`. */
  lemma {:induction false} WithoutSplits(es: seq<Comment>, name: string)
    ensures |Without(es, name)| + |Named(es, name)| == |es|
  {
    if es != [] {
      WithoutSplits(es[..|es| - 1], name);
    }
  }

  /** No entry with the cleared name survives. */
  lemma {:induction false} WithoutLeavesNone(es: seq<Comment>, name: string)
    ensures Named(Without(es, name), name) == []
  {
    if es != [] {
      var init := es[..|es| - 1];
      WithoutLeavesNone(init, name);
      NamedAppend(Without(init, name), if es[|es| - 1].name == name then [] else [es[|es| - 1]], name);
    }
  }

  /** An entry survives the clear iff it was there and carries another name. */
  lemma {:induction false} WithoutMembers(es: seq<Comment>, name: string, c: Comment)
    ensures c in Without(es, name) <==> c in es && c.name != name
  {
    if es != [] {
      var init := es[..|es| - 1];
      WithoutMembers(init, name, c);
      assert es == init + [es[|es| - 1]];
    }
  }

  /** Clearing one name leaves the entries of every other name untouched. */
  lemma {:induction false} WithoutKeepsOthers(es: seq<Comment>, name: string, other: string)
    requires other != name
    ensures Named(Without(es, name), other) == Named(es, other)
  {
    if es != [] {
      var init := es[..|es| - 1];
      WithoutKeepsOthers(init, name, other);
      NamedAppend(Without(init, name), if es[|es| - 1].name == name then [] else [es[|es| - 1]], other);
    }
  }

  lemma {:induction false} NamedAppend(a: seq<Comment>, b: seq<Comment>, name: string)
    ensures Named(a + b, name) == Named(a, name) + Named(b, name)
  {
    if b != [] {
      var b' := b[..|b| - 1];
      NamedAppend(a, b', name);
      assert (a + b)[..|a + b| - 1] == a + b';
    } else {
      assert a + b == a;
    }
  }

  /**
   * `rsvc_comments_clear` as written: the inner `while` compares the name
   * of the node now at the cursor after each removal, and that node is
   * NULL once the last node has been removed. `None` stands for that
   * NULL dereference.
   */
  function ClearAsWritten(es: seq<Comment>, name: string): Option<seq<Comment>>
  {
    if es == [] then Some([])
    else if es[0].name == name then (if |es| == 1 then None else ClearAsWritten(es[1..], name))
    else match ClearAsWritten(es[1..], name)
      case None => None
      case Some(r) => Some([es[0]] + r)
  }

  lemma {:induction false} WithoutFront(es: seq<Comment>, name: string)
    requires es != []
    ensures Without(es, name) == (if es[0].name == name then [] else [es[0]]) + Without(es[1..], name)
  {
    if |es| > 1 {
      WithoutFront(es[..|es| - 1], name);
      assert es[..|es| - 1][1..] == es[1..][..|es[1..]| - 1];
    } else {
      assert es[..0] == [] && es[1..] == [];
    }
  }

  /**
   * The written clear dereferences NULL exactly when the last entry carries
   * the name; otherwise it removes exactly the entries with that name.
   */
  lemma {:induction false} ClearAsWrittenFails(es: seq<Comment>, name: string)
    ensures ClearAsWritten(es, name).None? <==> es != [] && es[|es| - 1].name == name
    ensures ClearAsWritten(es, name).Some? ==> ClearAsWritten(es, name).value == Without(es, name)
  {
    if es != [] {
      ClearAsWrittenFails(es[1..], name);
      WithoutFront(es, name);
      if |es| > 1 {
        assert es[1..][|es[1..]| - 1] == es[|es| - 1];
      }
    }
  }

  /** The one-entry list whose entry carries the cleared name is enough to reach the NULL dereference. */
  lemma {:induction false} ClearAsWrittenSingle()
    ensures ClearAsWritten([Comment("A", "x")], "A") == None
    ensures Without([Comment("A", "x")], "A") == []
  {
    assert [Comment("A", "x")][..0] == [];
  }

  /**
   * `rsvc_comments_each` as written: `stop()` sets the cursor to NULL and the
   * loop's increment then reads its `next`. `stops(c)` says whether the
   * block calls `stop()` for entry `c`; `None` stands for the dereference.
   */
  function EachAsWritten(es: seq<Comment>, stops: Comment -> bool): Option<seq<Comment>>
  {
    if es == [] then Some([])
    else if stops(es[0]) then None
    else match EachAsWritten(es[1..], stops)
      case None => None
      case Some(r) => Some([es[0]] + r)
  }

  /** The written loop crashes as soon as any block calls `stop()`, and visits everything otherwise. */
  lemma {:induction false} EachAsWrittenStopCrashes(es: seq<Comment>, stops: Comment -> bool)
    ensures EachAsWritten(es, stops).None? <==> exists i :: 0 <= i < |es| && stops(es[i])
    ensures EachAsWritten(es, stops).Some? ==> EachAsWritten(es, stops).value == es
  {
    if es != [] {
      EachAsWrittenStopCrashes(es[1..], stops);
      if !stops(es[0]) && exists i :: 0 <= i < |es| && stops(es[i]) {
        var i :| 0 <= i < |es| && stops(es[i]);
        assert es[1..][i - 1] == es[i];
      }
    }
  }

  class CommentList {
    var entries: seq<Comment>

    /** `rsvc_comments_create`: an empty list. */
    constructor ()
      ensures entries == []
    {
      entries := [];
    }

    /** `rsvc_comments_copy`: a new list holding the same entries. */
    method Copy() returns (c: CommentList)
      ensures fresh(c) && c.entries == entries
    {
      c := new CommentList();
      c.entries := entries;
    }

    /**
     * `rsvc_comments_clear` with the NULL dereference corrected: every entry
     * named `name` is unlinked and the others keep their order.
     */
    method Clear(name: string)
      modifies this
      ensures entries == Without(old(entries), name)
    {
      var kept: seq<Comment> := [];
      var i := 0;
      while i < |entries|
        invariant 0 <= i <= |entries|
        invariant kept == Without(entries[..i], name)
      {
        assert entries[..i + 1][..i] == entries[..i];
        if entries[i].name != name {
          kept := kept + [entries[i]];
        }
        i := i + 1;
      }
      assert entries[..i] == entries;
      entries := kept;
    }

    /** `rsvc_comments_add`: walks to the end of the list and links the new pair there. */
    method Add(name: string, value: string)
      modifies this
      ensures entries == old(entries) + [Comment(name, value)]
    {
      entries := entries + [Comment(name, value)];
    }

    /** `rsvc_comments_add_int`: adds the value spelled as `printf("%d")` spells it. */
    method AddInt(name: string, value: int)
      modifies this
      ensures entries == old(entries) + [Comment(name, SignedDecimal(value))]
    {
      Add(name, SignedDecimal(value));
    }

    /** `rsvc_comments_set`: clear the name, then add the pair. */
    method Set(name: string, value: string)
      modifies this
      ensures entries == Without(old(entries), name) + [Comment(name, value)]
      ensures Named(entries, name) == [Comment(name, value)]
    {
      Clear(name);
      Add(name, value);
      SetLeavesOne(old(entries), name, value);
    }

    /** `rsvc_comments_size`: counts the nodes. */
    method Size() returns (n: nat)
      ensures n == |entries|
    {
      n := 0;
      while n < |entries|
        invariant n <= |entries|
      {
        n := n + 1;
      }
    }

    /**
     * `rsvc_comments_get`: copies names and values in list order into arrays
     * of `capacity` slots; fails once the list holds more than fit.
     */
    method Get(capacity: nat) returns (names: seq<string>, values: seq<string>, ok: bool)
      ensures ok <==> |entries| <= capacity
      ensures |names| == |values| == (if ok then |entries| else capacity)
      ensures names == Names(entries[..|names|]) && values == Values(entries[..|values|])
    {
      names, values := [], [];
      var i := 0;
      while i < |entries|
        invariant 0 <= i <= |entries| && i <= capacity
        invariant names == Names(entries[..i]) && values == Values(entries[..i])
      {
        if i == capacity {
          return names, values, false;
        }
        assert entries[..i + 1][..i] == entries[..i];
        names := names + [entries[i].name];
        values := values + [entries[i].value];
        i := i + 1;
      }
      ok := true;
    }

    /** `rsvc_comments_count`: the number of entries named exactly `name`. */
    method Count(name: string) returns (n: nat)
      ensures n == |Named(entries, name)|
    {
      n := 0;
      var i := 0;
      while i < |entries|
        invariant 0 <= i <= |entries|
        invariant n == |Named(entries[..i], name)|
      {
        assert entries[..i + 1][..i] == entries[..i];
        if entries[i].name == name {
          n := n + 1;
        }
        i := i + 1;
      }
      assert entries[..i] == entries;
    }

    /**
     * `rsvc_comments_find`: the values of the entries named `name`, in list
     * order, into `capacity` slots; fails once more match than fit.
     */
    method Find(name: string, capacity: nat) returns (values: seq<string>, ok: bool)
      ensures ok <==> |Named(entries, name)| <= capacity
      ensures |values| == (if ok then |Named(entries, name)| else capacity)
      ensures values == Values(Named(entries, name)[..|values|])
    {
      values := [];
      var i := 0;
      while i < |entries|
        invariant 0 <= i <= |entries| && |values| <= capacity
        invariant values == Values(Named(entries[..i], name))
      {
        assert entries[..i + 1][..i] == entries[..i];
        if entries[i].name == name {
          if |values| == capacity {
            NamedPrefix(entries, i + 1, name);
            assert Named(entries[..i + 1], name) == Named(entries[..i], name) + [entries[i]];
            assert Named(entries[..i + 1], name)[..capacity] == Named(entries[..i], name);
            return values, false;
          }
          values := values + [entries[i].value];
        }
        i := i + 1;
      }
      assert entries[..i] == entries;
      assert Named(entries, name)[..|values|] == Named(entries, name);
      ok := true;
    }

    /**
     * `rsvc_comments_each` with the stop corrected: entries are handed to the
     * block in order until the block calls stop (the entry that stops is
     * visited). `stopped` says whether stop was called.
     */
    method Each(stops: Comment -> bool) returns (visited: seq<Comment>, stopped: bool)
      ensures visited == VisitedUntil(entries, stops)
      ensures stopped <==> exists i :: 0 <= i < |entries| && stops(entries[i])
    {
      visited := [];
      var i := 0;
      while i < |entries|
        invariant 0 <= i <= |entries| && visited == entries[..i]
        invariant forall k :: 0 <= k < i ==> !stops(entries[k])
      {
        visited := visited + [entries[i]];
        if stops(entries[i]) {
          VisitedUntilAt(entries, stops, i);
          return visited, true;
        }
        i := i + 1;
      }
      VisitedUntilAt(entries, stops, i);
      stopped := false;
    }
  }

  lemma {:induction false} NamedPrefix(es: seq<Comment>, k: nat, name: string)
    requires 0 < k <= |es|
    ensures Named(es, name) == Named(es[..k], name) + Named(es[k..], name)
  {
    assert es == es[..k] + es[k..];
    NamedAppend(es[..k], es[k..], name);
  }

  /** After `set`, the name occurs once, as the last entry. */
  lemma {:induction false} SetLeavesOne(es: seq<Comment>, name: string, value: string)
    ensures Named(Without(es, name) + [Comment(name, value)], name) == [Comment(name, value)]
  {
    WithoutLeavesNone(es, name);
    NamedAppend(Without(es, name), [Comment(name, value)], name);
    assert [Comment(name, value)][..0] == [];
  }

  /** Adding a pair leaves the earlier entries alone and adds one to that name's count. */
  lemma {:induction false} AddCounts(es: seq<Comment>, name: string, value: string, other: string)
    ensures |Named(es + [Comment(name, value)], other)| == |Named(es, other)| + (if other == name then 1 else 0)
  {
    NamedAppend(es, [Comment(name, value)], other);
    assert [Comment(name, value)][..0] == [];
  }
}

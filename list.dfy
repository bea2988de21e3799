/**
 * The intrusive doubly linked list of src/rsvc/list.h: a list record holds
 * `head` and `tail`, each node holds `prev` and `next`, and three macros
 * rewire them in place: PUSH appends a node, ERASE unlinks (and frees) one,
 * CLEAR hands every node to a block and erases it.
 *
 * The ghost sequence `nodes` is the forward order of the list; `Valid()` ties
 * it to the real pointers.
 */
module LinkedList {

  class Node<T> {
    var value: T
    var prev: Node?<T>
    var next: Node?<T>

    /** A fresh, unlinked node (the callers build nodes from zeroed structs). */
    constructor (v: T)
      ensures value == v && prev == null && next == null
    {
      value := v;
      prev := null;
      next := null;
    }
  }

  /** `s` with `x` taken out. */
  function Without<T(==)>(s: seq<T>, x: T): (r: seq<T>)
    ensures |r| <= |s|
  {
    if s == [] then [] else if s[0] == x then Without(s[1..], x) else [s[0]] + Without(s[1..], x)
  }

  lemma {:induction false} WithoutAbsent<T>(s: seq<T>, x: T)
    requires x !in s
    ensures Without(s, x) == s
  {
    if s != [] {
      WithoutAbsent(s[1..], x);
    }
  }

  /** Erasing the node just pushed gives back the list before the push. */
  lemma {:induction false} WithoutLast<T>(s: seq<T>, x: T)
    requires x !in s
    ensures Without(s + [x], x) == s
  {
    if s == [] {
      assert [x][1..] == [];
    } else {
      assert (s + [x])[1..] == s[1..] + [x];
      WithoutLast(s[1..], x);
    }
  }

  /** Taking out the element at index `i` of a sequence without duplicates. */
  lemma {:induction false} WithoutAt<T>(s: seq<T>, i: nat)
    requires i < |s|
    requires forall a, b :: 0 <= a < b < |s| ==> s[a] != s[b]
    ensures Without(s, s[i]) == s[..i] + s[i + 1..]
  {
    if i == 0 {
      WithoutAbsent(s[1..], s[0]);
    } else {
      WithoutAt(s[1..], i - 1);
      assert s[1..][..i - 1] == s[1..i];
      assert s[1..][i..] == s[i + 1..];
    }
  }

  function Reverse<T>(s: seq<T>): (r: seq<T>)
    ensures |r| == |s|
  {
    if s == [] then [] else Reverse(s[1..]) + [s[0]]
  }

  class List<T> {
    var head: Node?<T>
    var tail: Node?<T>
    /** The nodes in forward order. */
    ghost var nodes: seq<Node<T>>
    /** Their values, in the same order. */
    ghost var contents: seq<T>

    ghost predicate Valid()
      reads this, nodes
    {
      (head == null <==> nodes == []) && (tail == null <==> nodes == []) &&
      (nodes != [] ==> head == nodes[0] && tail == nodes[|nodes| - 1]) &&
      Linked(nodes) && Distinct(nodes) &&
      |contents| == |nodes| && (forall i :: 0 <= i < |nodes| ==> nodes[i].value == contents[i])
    }

    constructor ()
      ensures Valid() && nodes == [] && contents == []
    {
      head := null;
      tail := null;
      nodes := [];
      contents := [];
    }

    /**
     * RSVC_LIST_PUSH: on an empty list the node becomes head and tail;
     * otherwise the old tail's `next` becomes the node, the node's `prev`
     * becomes the old tail, and the node becomes the tail. The caller supplies
     * a node whose `next` is null (and whose `prev` is null when the list is
     * empty).
     */
    method Push(node: Node<T>)
      requires Valid() && node !in nodes
      requires node.next == null && (head == null ==> node.prev == null)
      modifies this, tail, node
      ensures Valid()
      ensures nodes == old(nodes) + [node]
      ensures contents == old(contents) + [node.value]
      ensures old(head) == null ==> head == node && tail == node
      ensures old(head) != null ==> head == old(head) && old(tail).next == node && node.prev == old(tail) && tail == node
    {
      ghost var ns := nodes;
      if head != null {
        tail.next := node;
        tail.next.prev := tail;
        tail := tail.next;
        forall k | 0 < k < |ns| ensures ns[k].prev == ns[k - 1] {
          assert ns[k] != node && old(ns[k].prev) == ns[k - 1];
        }
        forall k | 0 <= k < |ns| - 1 ensures ns[k].next == ns[k + 1] {
          assert ns[k] != ns[|ns| - 1] && old(ns[k].next) == ns[k + 1];
        }
        assert ns[0] != node && ns[0].prev == old(ns[0].prev);
      } else {
        head, tail := node, node;
      }
      LinkedSnoc(ns, node);
      nodes := ns + [node];
      contents := contents + [node.value];
    }

    /**
     * RSVC_LIST_ERASE: the neighbours are linked to each other; `head` moves
     * on when the node was first and `tail` moves back when it was last.
     */
    method Erase(node: Node<T>) returns (ghost i: nat)
      requires Valid() && node in nodes
      modifies this, node.prev, node.next
      ensures Valid()
      ensures i < |old(nodes)| && old(nodes)[i] == node
      ensures nodes == old(nodes)[..i] + old(nodes)[i + 1..]
      ensures contents == old(contents)[..i] + old(contents)[i + 1..]
    {
      i :| 0 <= i < |nodes| && nodes[i] == node;
      ghost var ns, vs := nodes, contents;
      Unlink(node, i);
      nodes := ns[..i] + ns[i + 1..];
      contents := vs[..i] + vs[i + 1..];
      EndsSplice(ns, i);
      LinkedSplice(ns, i);
      ValuesSplice(ns, vs, i);
    }

    /** The pointer surgery of RSVC_LIST_ERASE on `nodes[i]`, stated on the nodes as they were ordered before. */
    method Unlink(node: Node<T>, ghost i: nat)
      requires Valid() && i < |nodes| && nodes[i] == node
      modifies this, node.prev, node.next
      ensures nodes == old(nodes) && contents == old(contents)
      ensures forall k :: 0 <= k < |nodes| ==> nodes[k].value == contents[k]
      ensures head == (if i == 0 then (if i == |nodes| - 1 then null else nodes[i + 1]) else nodes[0])
      ensures tail == (if i == |nodes| - 1 then (if i == 0 then null else nodes[i - 1]) else nodes[|nodes| - 1])
      ensures Distinct(nodes)
      ensures forall k :: 0 < k < |nodes| && k != i && k != i + 1 ==> nodes[k].prev == nodes[k - 1]
      ensures forall k :: 0 <= k < |nodes| - 1 && k != i - 1 && k != i ==> nodes[k].next == nodes[k + 1]
      ensures i != 0 ==> nodes[0].prev == null
      ensures i != |nodes| - 1 ==> nodes[|nodes| - 1].next == null
      ensures i + 1 < |nodes| ==> nodes[i + 1].prev == (if i == 0 then null else nodes[i - 1])
      ensures i > 0 ==> nodes[i - 1].next == (if i == |nodes| - 1 then null else nodes[i + 1])
    {
      ghost var ns := nodes;
      ghost var p, q := node.prev, node.next;
      assert p == (if i == 0 then null else ns[i - 1]);
      assert q == (if i == |ns| - 1 then null else ns[i + 1]);
      if node.prev != null {
        node.prev.next := node.next;
      } else {
        head := node.next;
      }
      if node.next != null {
        node.next.prev := node.prev;
      } else {
        tail := node.prev;
      }
      forall k | 0 < k < |ns| && k != i && k != i + 1 ensures ns[k].prev == ns[k - 1] {
        assert ns[k] != q && old(ns[k].prev) == ns[k - 1];
      }
      forall k | 0 <= k < |ns| - 1 && k != i - 1 && k != i ensures ns[k].next == ns[k + 1] {
        assert ns[k] != p && old(ns[k].next) == ns[k + 1];
      }
      if i != 0 {
        assert ns[0] != q && ns[0].prev == old(ns[0].prev);
      }
      if i != |ns| - 1 {
        assert ns[|ns| - 1] != p && ns[|ns| - 1].next == old(ns[|ns| - 1].next);
      }
    }

    /**
     * RSVC_LIST_CLEAR: hands every value to the block in head-to-tail order
     * (returned here as `visited`) and erases each node, leaving head and
     * tail null.
     */
    method Clear() returns (visited: seq<T>)
      requires Valid()
      modifies this, nodes
      ensures Valid() && nodes == [] && contents == [] && head == null && tail == null
      ensures visited == old(contents)
    {
      visited := [];
      while head != null
        invariant Valid()
        invariant forall n :: n in nodes ==> n in old(nodes)
        invariant visited + contents == old(contents)
        decreases |nodes|
      {
        var first := head;
        ghost var prefix, before, values := visited, nodes, contents;
        HeadLinks();
        assert first.next != null ==> first.next in old(nodes);
        visited := visited + [first.value];
        ghost var at := Erase(first);
        assert at == 0 && visited == prefix + [values[0]];
        assert contents == values[1..] by {
          assert values[..0] + values[1..] == values[1..];
        }
        TakeFirst(prefix, values);
      }
    }

    /** The head of a non-empty list is its first node, with no predecessor and the second node (if any) after it. */
    lemma {:induction false} HeadLinks()
      requires Valid() && head != null
      ensures nodes != [] && head == nodes[0] && head.prev == null && head.value == contents[0]
      ensures head.next != null ==> |nodes| > 1 && head.next == nodes[1]
    {
    }

    /** The forward walk from `head` visits exactly `nodes`, and the backward walk from `tail` visits them reversed. */
    lemma {:induction false} Walks()
      requires Valid()
      ensures NextWalk(head, |nodes| + 1) == nodes
      ensures PrevWalk(tail, |nodes| + 1) == Reverse(nodes)
    {
      if nodes != [] {
        NextWalkFrom(0);
        PrevWalkFrom(|nodes| - 1);
        assert nodes[0..] == nodes;
        assert nodes[..|nodes|] == nodes;
      }
    }

    lemma {:induction false} NextWalkFrom(i: nat)
      requires Valid() && i < |nodes|
      ensures NextWalk(nodes[i], |nodes| + 1 - i) == nodes[i..]
      decreases |nodes| - i
    {
      if i + 1 < |nodes| {
        NextWalkFrom(i + 1);
        assert nodes[i..] == [nodes[i]] + nodes[i + 1..];
      } else {
        assert NextWalk<T>(null, |nodes| - i) == [];
        assert nodes[i..] == [nodes[i]];
      }
    }

    lemma {:induction false} PrevWalkFrom(i: nat)
      requires Valid() && i < |nodes|
      ensures PrevWalk(nodes[i], i + 2) == Reverse(nodes[..i + 1])
    {
      var s := nodes[..i + 1];
      assert s[1..] == nodes[1..i + 1];
      if i > 0 {
        PrevWalkFrom(i - 1);
        ReverseSnoc(nodes[..i], nodes[i]);
        assert nodes[..i + 1] == nodes[..i] + [nodes[i]];
      } else {
        assert PrevWalk<T>(null, 1) == [];
        assert s == [nodes[0]];
      }
    }
  }

  /** Moving the first element of `s` to the end of `a`. */
  lemma {:induction false} TakeFirst<T>(a: seq<T>, s: seq<T>)
    requires s != []
    ensures (a + [s[0]]) + s[1..] == a + s
  {
    assert s == [s[0]] + s[1..];
  }

  lemma {:induction false} ReverseSnoc<T>(s: seq<T>, x: T)
    ensures Reverse(s + [x]) == [x] + Reverse(s)
  {
    if s != [] {
      assert (s + [x])[1..] == s[1..] + [x];
      ReverseSnoc(s[1..], x);
    } else {
      assert [x][1..] == [];
    }
  }

  /** Each node's `prev` and `next` point at its neighbours in `ns` (null at the ends). */
  ghost predicate Linked<T>(ns: seq<Node<T>>)
    reads set n | n in ns
  {
    (ns != [] ==> ns[0].prev == null && ns[|ns| - 1].next == null) &&
    (forall i :: 0 < i < |ns| ==> ns[i].prev == ns[i - 1]) &&
    (forall i :: 0 <= i < |ns| - 1 ==> ns[i].next == ns[i + 1])
  }

  ghost predicate Distinct<T>(ns: seq<Node<T>>)
  {
    forall i, j :: 0 <= i < j < |ns| ==> ns[i] != ns[j]
  }

  /** The links after PUSH: the old nodes keep their links except the last one's `next`, which is the new node. */
  lemma {:induction false} LinkedSnoc<T>(ns: seq<Node<T>>, node: Node<T>)
    requires Distinct(ns) && node !in ns && node.next == null
    requires ns == [] ==> node.prev == null
    requires ns != [] ==> ns[0].prev == null && node.prev == ns[|ns| - 1] && ns[|ns| - 1].next == node
    requires forall k :: 0 < k < |ns| ==> ns[k].prev == ns[k - 1]
    requires forall k :: 0 <= k < |ns| - 1 ==> ns[k].next == ns[k + 1]
    ensures Linked(ns + [node]) && Distinct(ns + [node])
  {
    var r := ns + [node];
    forall k | 0 < k < |r| ensures r[k].prev == r[k - 1] {
      assert r[k - 1] == ns[k - 1];
      if k < |ns| {
        assert r[k] == ns[k];
      }
    }
    forall k | 0 <= k < |r| - 1 ensures r[k].next == r[k + 1] {
      assert r[k] == ns[k];
      if k < |ns| - 1 {
        assert r[k + 1] == ns[k + 1];
      }
    }
    assert r[0] == if ns == [] then node else ns[0];
    forall a, b | 0 <= a < b < |r| ensures r[a] != r[b] {
      if b < |ns| {
        assert r[a] == ns[a] && r[b] == ns[b];
      } else {
        assert r[a] in ns;
      }
    }
  }

  /** The links after ERASE of `ns[i]`: its neighbours point at each other and everyone else is untouched. */
  lemma {:induction false} LinkedSplice<T>(ns: seq<Node<T>>, i: nat)
    requires i < |ns| && Distinct(ns)
    requires forall k :: 0 < k < |ns| && k != i && k != i + 1 ==> ns[k].prev == ns[k - 1]
    requires forall k :: 0 <= k < |ns| - 1 && k != i - 1 && k != i ==> ns[k].next == ns[k + 1]
    requires i != 0 ==> ns[0].prev == null
    requires i != |ns| - 1 ==> ns[|ns| - 1].next == null
    requires i + 1 < |ns| ==> ns[i + 1].prev == (if i == 0 then null else ns[i - 1])
    requires i > 0 ==> ns[i - 1].next == (if i == |ns| - 1 then null else ns[i + 1])
    ensures Linked(ns[..i] + ns[i + 1..]) && Distinct(ns[..i] + ns[i + 1..])
  {
    var r := ns[..i] + ns[i + 1..];
    assert forall k :: 0 <= k < i ==> r[k] == ns[k];
    assert forall k :: i <= k < |r| ==> r[k] == ns[k + 1];
    forall k | 0 < k < |r| ensures r[k].prev == r[k - 1] {
      if k > i {
        assert r[k] == ns[k + 1] && r[k - 1] == ns[k];
      } else if k == i {
        assert r[k] == ns[i + 1] && r[k - 1] == ns[i - 1];
      }
    }
    forall k | 0 <= k < |r| - 1 ensures r[k].next == r[k + 1] {
      if k >= i {
        assert r[k] == ns[k + 1] && r[k + 1] == ns[k + 2];
      } else if k == i - 1 {
        assert r[k] == ns[i - 1] && r[k + 1] == ns[i + 1];
      }
    }
    forall a, b | 0 <= a < b < |r| ensures r[a] != r[b] {
      var a', b' := if a < i then a else a + 1, if b < i then b else b + 1;
      assert r[a] == ns[a'] && r[b] == ns[b'];
    }
  }

  /** The first and last of `ns` once index `i` is taken out. */
  lemma {:induction false} EndsSplice<T>(ns: seq<T>, i: nat)
    requires i < |ns|
    ensures var r := ns[..i] + ns[i + 1..];
      && |r| == |ns| - 1
      && (r != [] ==> r[0] == (if i == 0 then ns[1] else ns[0]))
      && (r != [] ==> r[|r| - 1] == (if i == |ns| - 1 then ns[|ns| - 2] else ns[|ns| - 1]))
  {
  }

  /** The values of `ns` are `vs`, and stay so when the same index is taken out of both. */
  lemma {:induction false} ValuesSplice<T>(ns: seq<Node<T>>, vs: seq<T>, i: nat)
    requires i < |ns| == |vs| && forall k :: 0 <= k < |ns| ==> ns[k].value == vs[k]
    ensures var r, w := ns[..i] + ns[i + 1..], vs[..i] + vs[i + 1..];
      |r| == |w| && forall k :: 0 <= k < |r| ==> r[k].value == w[k]
  {
    var r, w := ns[..i] + ns[i + 1..], vs[..i] + vs[i + 1..];
    forall k | 0 <= k < |r| ensures r[k].value == w[k] {
      var k' := if k < i then k else k + 1;
      assert r[k] == ns[k'] && w[k] == vs[k'];
    }
  }

  /** The nodes met by following `next` from `n`, at most `k` of them. */
  ghost function NextWalk<T>(n: Node?<T>, k: nat): seq<Node<T>>
    reads *
  {
    if k == 0 || n == null then [] else [n] + NextWalk(n.next, k - 1)
  }

  /** The nodes met by following `prev` from `n`, at most `k` of them. */
  ghost function PrevWalk<T>(n: Node?<T>, k: nat): seq<Node<T>>
    reads *
  {
    if k == 0 || n == null then [] else [n] + PrevWalk(n.prev, k - 1)
  }
}

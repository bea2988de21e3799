/**
 * What the two Ogg-based formats, src/rsvc/vorbis.c and src/rsvc/opus.c,
 * share: the pages of packets libogg delivers, the one-stream checks of
 * section 6 of RFC 3533 that both apply page by page, the draining of
 * header packets from a page, and the `NAME=value` user comments of
 * section 5 of the Vorbis I standard together with the iterator that both
 * formats write the same way.
 *
 * libogg itself is not part of this model: a file is given as the pages
 * `ogg_sync_pageout` would return from it, each with the packets that
 * `ogg_stream_packetout` completes on it.
 */
module Ogg {
  import opened Common
  import opened Comments

  type Packet = seq<byte>

  /** A page: its beginning-of-stream flag, serial number, granule position and the packets it completes. */
  datatype Page = Page(bos: bool, serial: nat, granule: nat, packets: seq<Packet>)

  const NOT_BOS: string := "ogg file does not begin with bos page"
  const MULTIPLEXED: string := "multiplexed ogg files not supported"
  const UNEXPECTED_EOF: string := "unexpected end of file"

  /** The packets of `pages`, in order. */
  function Flat(pages: seq<Page>): (r: seq<Packet>)
  {
    if pages == [] then [] else pages[0].packets + Flat(pages[1..])
  }

  /** The packets of the first `n` pages, then those of the rest. */
  lemma {:induction false} FlatSplit(pages: seq<Page>, n: nat)
    requires n <= |pages|
    ensures Flat(pages) == Flat(pages[..n]) + Flat(pages[n..])
  {
    if n == 0 {
      assert pages[..0] == [] && pages[0..] == pages;
    } else {
      FlatSplit(pages[1..], n - 1);
      assert pages[1..][..n - 1] == pages[..n][1..];
      assert pages[1..][n - 1..] == pages[n..];
    }
  }

  // ---------------------------------------------------------------------
  // One logical stream

  /** `start_stream`: the first page must begin a stream; its serial number is recorded. */
  function StartStream(page: Page): (r: Result<nat>)
    ensures r.Ok? <==> page.bos
    ensures r.Ok? ==> r.value == page.serial
    ensures r.Err? ==> r.msg == NOT_BOS
  {
    if !page.bos then Err(NOT_BOS) else Ok(page.serial)
  }

  /** `continue_stream`: a later page must neither begin a stream nor carry another serial number. */
  function ContinueStream(page: Page, serial: nat): (r: Result<()>)
    ensures r.Ok? <==> !page.bos && page.serial == serial
    ensures r.Err? ==> r.msg == MULTIPLEXED
  {
    if page.bos || page.serial != serial then Err(MULTIPLEXED) else Ok(())
  }

  /** The check the readers apply to the `k`-th page: the first starts the stream, the others continue it. */
  function PageChecked(pages: seq<Page>, k: nat): (r: Result<()>)
    requires k < |pages|
  {
    if k == 0 then
      match StartStream(pages[0])
      case Err(m) => Err(m)
      case Ok(_) => Ok(())
    else ContinueStream(pages[k], pages[0].serial)
  }

  /** The pages form one unmultiplexed logical stream: it begins on the first page and keeps its serial number. */
  predicate SingleStream(pages: seq<Page>)
  {
    |pages| > 0 && pages[0].bos &&
    forall k :: 0 < k < |pages| ==> !pages[k].bos && pages[k].serial == pages[0].serial
  }

  /** The page-by-page checks accept the first `n` pages exactly when those pages are one logical stream. */
  lemma {:induction false} StreamChecked(pages: seq<Page>, n: nat)
    requires 0 < n <= |pages|
    ensures (forall k :: 0 <= k < n ==> PageChecked(pages, k).Ok?) <==> SingleStream(pages[..n])
  {
    if forall k :: 0 <= k < n ==> PageChecked(pages, k).Ok? {
      assert PageChecked(pages, 0).Ok?;
      forall k | 0 < k < n
        ensures !pages[..n][k].bos && pages[..n][k].serial == pages[..n][0].serial
      {
        assert PageChecked(pages, k).Ok?;
      }
    }
    if SingleStream(pages[..n]) {
      forall k | 0 <= k < n
        ensures PageChecked(pages, k).Ok?
      {
        assert pages[..n][k] == pages[k];
        assert pages[..n][0] == pages[0];
      }
    }
  }

  // ---------------------------------------------------------------------
  // Header packets

  /**
   * Hands the packets `ps` of one page, in order, to a header reader that
   * has accepted `got` so far: at most `limit` packets are accepted, one
   * more is the error `extra`, and `check(k, p)` names the error, if any,
   * of `p` as the `k`-th header packet.
   */
  function Drained(ps: seq<Packet>, got: seq<Packet>, limit: nat, extra: string,
                   check: (nat, Packet) -> Option<string>): (r: Result<seq<Packet>>)
    requires |got| <= limit
    ensures r.Ok? ==> |got| <= |r.value| <= limit
    decreases |ps|
  {
    if ps == [] then Ok(got)
    else if |got| == limit then Err(extra)
    else match check(|got|, ps[0])
      case Some(m) => Err(m)
      case None => Drained(ps[1..], got + [ps[0]], limit, extra, check)
  }

  /**
   * A page drains without error exactly when its packets fit in the room
   * left and each passes its check as the header packet it becomes; they
   * are then accepted in order, after the earlier ones.
   */
  lemma {:induction false} DrainedShape(ps: seq<Packet>, got: seq<Packet>, limit: nat, extra: string,
                                        check: (nat, Packet) -> Option<string>)
    requires |got| <= limit
    ensures Drained(ps, got, limit, extra, check).Ok? <==>
      |got| + |ps| <= limit && forall k :: 0 <= k < |ps| ==> check(|got| + k, ps[k]).None?
    ensures Drained(ps, got, limit, extra, check).Ok? ==> Drained(ps, got, limit, extra, check).value == got + ps
    decreases |ps|
  {
    if ps != [] && |got| < limit && check(|got|, ps[0]).None? {
      var rest := ps[1..];
      DrainedShape(rest, got + [ps[0]], limit, extra, check);
      assert (got + [ps[0]]) + rest == got + ps;
      assert (forall k :: 0 <= k < |rest| ==> check(|got| + 1 + k, rest[k]).None?) <==>
             (forall k :: 1 <= k < |ps| ==> check(|got| + k, ps[k]).None?) by {
        assert forall k :: 0 <= k < |rest| ==> rest[k] == ps[k + 1];
      }
    }
  }

  /** One packet more of the page: the step the draining loop takes. */
  lemma {:induction false} DrainedNext(ps: seq<Packet>, j: nat, got: seq<Packet>, limit: nat, extra: string,
                    check: (nat, Packet) -> Option<string>)
    requires j < |ps| && |got| < limit && check(|got|, ps[j]).None?
    ensures Drained(ps[j..], got, limit, extra, check) == Drained(ps[j + 1..], got + [ps[j]], limit, extra, check)
  {
    assert ps[j..][0] == ps[j];
    assert ps[j..][1..] == ps[j + 1..];
  }

  /** The packet loop over one page (`ogg_stream_packetout` until it has no more). */
  method DrainPage(ps: seq<Packet>, got: seq<Packet>, limit: nat, extra: string,
                   check: (nat, Packet) -> Option<string>) returns (r: Result<seq<Packet>>)
    requires |got| <= limit
    ensures r == Drained(ps, got, limit, extra, check)
  {
    var accepted := got;
    var j := 0;
    while j < |ps|
      invariant j <= |ps| && |accepted| <= limit
      invariant Drained(ps[j..], accepted, limit, extra, check) == Drained(ps, got, limit, extra, check)
    {
      if |accepted| == limit {
        return Err(extra);
      }
      match check(|accepted|, ps[j]) {
        case Some(m) =>
          return Err(m);
        case None =>
      }
      DrainedNext(ps, j, accepted, limit, extra, check);
      accepted := accepted + [ps[j]];
      j := j + 1;
    }
    return Ok(accepted);
  }

  // ---------------------------------------------------------------------
  // User comments

  /** A user comment split at its first '=' into field name and value (`strchr`); none without an '='. */
  function Split(c: string): (r: Option<Comment>)
    ensures r.None? <==> '=' !in c
    ensures r.Some? ==> c == r.value.name + "=" + r.value.value && '=' !in r.value.name
  {
    match FirstIndex(c, '=')
    case None => None
    case Some(i) =>
      assert c == c[..i] + "=" + c[i + 1..];
      Some(Comment(c[..i], c[i + 1..]))
  }

  /** Joining a name without '=' to a value and splitting again gives both back. */
  lemma {:induction false} SplitJoin(name: string, value: string)
    requires '=' !in name
    ensures Split(name + "=" + value) == Some(Comment(name, value))
  {
    var c := name + "=" + value;
    assert c[..|name|] == name;
    FirstIndexIs(c, '=', |name|);
    assert c[|name| + 1..] == value;
  }

  /** The pair a comment yields: none without an '='. */
  function Entry(c: string): (r: seq<Comment>)
    ensures |r| <= 1
  {
    match Split(c) case None => [] case Some(p) => [p]
  }

  /** The (name, value) pairs the comments yield, skipping those without an '='. */
  function Pairs(cs: seq<string>): (r: seq<Comment>)
    ensures |r| <= |cs|
  {
    if cs == [] then [] else Pairs(cs[..|cs| - 1]) + Entry(cs[|cs| - 1])
  }

  /** The pairs of two comment lists one after the other. */
  lemma {:induction false} PairsConcat(a: seq<string>, b: seq<string>)
    ensures Pairs(a + b) == Pairs(a) + Pairs(b)
    decreases |b|
  {
    if b == [] {
      assert a + b == a;
    } else {
      var init, last := b[..|b| - 1], b[|b| - 1];
      PairsConcat(a, init);
      DropLast(a, b);
      assert Pairs(a + b) == Pairs(a + init) + Entry(last);
    }
  }

  lemma {:induction false} DropLast<T>(a: seq<T>, b: seq<T>)
    requires b != []
    ensures (a + b)[..|a + b| - 1] == a + b[..|b| - 1] && (a + b)[|a + b| - 1] == b[|b| - 1]
  {
  }

  lemma {:induction false} TakeFirst<T>(s: seq<T>, i: nat)
    requires i < |s|
    ensures s[i..] == [s[i]] + s[i + 1..] && [s[i]][..0] == []
  {
  }

  /** The pairs from the `i`-th comment on: that comment's pair, if any, then the rest. */
  lemma {:induction false} PairsFrom(cs: seq<string>, i: nat)
    requires i < |cs|
    ensures Pairs(cs[i..]) == Entry(cs[i]) + Pairs(cs[i + 1..])
  {
    TakeFirst(cs, i);
    PairsConcat([cs[i]], cs[i + 1..]);
  }

  /** A comment without an '=' yields nothing: the pairs from it on are those after it. */
  lemma {:induction false} PairsSkip(cs: seq<string>, i: nat)
    requires i < |cs| && Split(cs[i]).None?
    ensures Pairs(cs[i..]) == Pairs(cs[i + 1..])
  {
    PairsFrom(cs, i);
  }

  /** A comment with an '=' yields its pair first. */
  lemma {:induction false} PairsYield(cs: seq<string>, i: nat)
    requires i < |cs| && Split(cs[i]).Some?
    ensures Pairs(cs[i..]) == [Split(cs[i]).value] + Pairs(cs[i + 1..])
  {
    PairsFrom(cs, i);
  }

  lemma {:induction false} PairsNone(cs: seq<string>, i: nat)
    requires i == |cs|
    ensures Pairs(cs[i..]) == []
  {
    assert cs[i..] == [];
  }

  /**
   * The iterator over a comment list (`vorbis_next`, `rsvc_opus_next`):
   * the index of the next comment to look at and the pair last yielded.
   * The comments are taken as they are when the iterator is made; the C
   * reads the live list, so an edit during iteration is not reflected here.
   */
  class CommentIter {
    const comments: seq<string>
    var i: nat
    var name: string
    var value: string

    predicate Valid()
      reads this
    {
      i <= |comments|
    }

    /** `vorbis_begin` / `rsvc_opus_begin`: an iterator at the first comment. */
    constructor (comments: seq<string>)
      ensures Valid() && this.comments == comments && i == 0
    {
      this.comments := comments;
      i := 0;
      name, value := "", "";
    }

    /**
     * Moves to the next comment that has an '=' and yields its pair: the
     * pairs left before the call are this one followed by the pairs left
     * after it. Without such a comment the iteration is over.
     */
    method Next() returns (more: bool)
      requires Valid()
      modifies this
      ensures Valid() && old(i) <= i
      ensures more ==> Pairs(comments[old(i)..]) == [Comment(name, value)] + Pairs(comments[i..])
      ensures !more ==> i == |comments| && Pairs(comments[old(i)..]) == []
    {
      var j := i;
      while j < |comments|
        invariant old(i) <= j <= |comments|
        invariant Pairs(comments[old(i)..]) == Pairs(comments[j..])
      {
        match Split(comments[j]) {
          case Some(p) =>
            PairsYield(comments, j);
            name, value, i := p.name, p.value, j + 1;
            return true;
          case None =>
            PairsSkip(comments, j);
        }
        j := j + 1;
      }
      PairsNone(comments, j);
      i := j;
      return false;
    }
  }
}

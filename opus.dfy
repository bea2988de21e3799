/**
 * Ogg Opus tags, src/rsvc/opus.c: the file is read page by page to its
 * end; the pages must form one logical stream (section 3 of RFC 7845),
 * the first packet must be the identification header and the second the
 * comment header (section 5), and later pages are read but otherwise
 * ignored. The tags are read-only.
 *
 * libopus and libopusfile are not part of this model: `parse(0, p)` stands
 * for `opus_head_parse` accepting `p`, `parse(1, p)` for
 * `opus_tags_parse`, and `unpack` for the comments the latter decodes.
 */
module Opus {
  import opened Common
  import opened Ogg
  import Tag

  const READ_ONLY: string := "opus tags are read-only"
  const BAD_HEAD: string := "bad opus header"
  const BAD_TAGS: string := "bad opus tags"
  const EXTRA_PACKETS: string := "extra packets in header pages"

  /** The number of header packets of an Opus stream. */
  const HEADER_PACKETS: nat := 2

  /** `struct opus_tags`: the stream's serial number, its two header packets and the comments; none of it ever changes. */
  class OpusTags {
    const serial: nat
    const head: Packet
    const tags: Packet
    const comments: seq<string>

    constructor (serial: nat, head: Packet, tags: Packet, comments: seq<string>)
      ensures this.serial == serial && this.head == head && this.tags == tags && this.comments == comments
    {
      this.serial := serial;
      this.head := head;
      this.tags := tags;
      this.comments := comments;
    }

    /** `rsvc_opus_tags_add`: always refused. */
    method Add(name: string, value: string) returns (r: Result<()>)
      ensures r == Err(READ_ONLY)
    {
      return Err(READ_ONLY);
    }

    /** `rsvc_opus_tags_remove`: always refused, with or without a name. */
    method Remove(name: Option<string>) returns (r: Result<()>)
      ensures r == Err(READ_ONLY)
    {
      return Err(READ_ONLY);
    }

    /** `rsvc_opus_tags_save`: succeeds and writes nothing. */
    method Save() returns (r: Result<()>)
      ensures r == Ok(())
    {
      return Ok(());
    }

    /** `rsvc_opus_begin`: an iterator over the comments. */
    method Begin() returns (it: CommentIter)
      ensures fresh(it) && it.Valid() && it.comments == comments && it.i == 0
    {
      it := new CommentIter(comments);
    }
  }

  /**
   * The tag methods of Opus tags (`opus_vptr`), as the generic calls of
   * `Tag` reach them: adding and removing are refused, saving succeeds.
   */
  function TagMethods(): Tag.Methods
  {
    Tag.Format((pairs: seq<Tag.Pair>, name: string, value: string) => Err(READ_ONLY),
               (pairs: seq<Tag.Pair>, name: Option<string>) => Err(READ_ONLY),
               (pairs: seq<Tag.Pair>) => Ok(()))
  }

  /**
   * Writable Opus tags refuse every edit that passes the generic checks,
   * clearing included, with "opus tags are read-only", and saving them
   * succeeds.
   */
  lemma {:induction false} TagMethodsRefuse(pairs: seq<Tag.Pair>, name: string, value: string)
    ensures Tag.Cleared(TagMethods(), true, pairs) == Err(READ_ONLY)
    ensures Tag.NameIsValid(name) ==>
      Tag.Removed(TagMethods(), true, pairs, name) == Err(READ_ONLY)
      && Tag.Added(TagMethods(), true, pairs, name, value) == Err(READ_ONLY)
    ensures Tag.Saved(TagMethods(), true, pairs) == Ok(())
  {
  }

  /** The error, if any, of `p` as the `k`-th header packet: the identification header, then the comment header. */
  function OpusCheck(parse: (nat, Packet) -> bool): (r: (nat, Packet) -> Option<string>)
    ensures forall k, p :: r(k, p) == (if parse(k, p) then None else Some(if k == 0 then BAD_HEAD else BAD_TAGS))
  {
    (k: nat, p: Packet) => if parse(k, p) then None else Some(if k == 0 then BAD_HEAD else BAD_TAGS)
  }

  /**
   * The page loop of `rsvc_opus_open_tags` from the `k`-th page, with the
   * header packets `got` accepted so far: every page is checked to belong
   * to the one stream; the packets of a page are drained only while fewer
   * than two are in; the end of the file comes too early before that.
   */
  function OpusFrom(pages: seq<Page>, k: nat, got: seq<Packet>, check: (nat, Packet) -> Option<string>): (r: Result<seq<Packet>>)
    requires k <= |pages| && |got| <= HEADER_PACKETS
    ensures r.Ok? ==> |r.value| == HEADER_PACKETS
    decreases |pages| - k
  {
    if k == |pages| then
      if |got| < HEADER_PACKETS then Err(UNEXPECTED_EOF) else Ok(got)
    else match PageChecked(pages, k)
      case Err(m) => Err(m)
      case Ok(_) =>
        if |got| < HEADER_PACKETS then
          match Drained(pages[k].packets, got, HEADER_PACKETS, EXTRA_PACKETS, check)
          case Err(m) => Err(m)
          case Ok(g) => OpusFrom(pages, k + 1, g, check)
        else OpusFrom(pages, k + 1, got, check)
  }

  /**
   * Once both header packets are in, the rest of the file only has to stay
   * one logical stream: its packets are never looked at.
   */
  lemma {:induction false} LaterPagesIgnored(pages: seq<Page>, k: nat, got: seq<Packet>, check: (nat, Packet) -> Option<string>)
    requires k <= |pages| && |got| == HEADER_PACKETS
    ensures OpusFrom(pages, k, got, check).Ok? <==> forall j :: k <= j < |pages| ==> PageChecked(pages, j).Ok?
    ensures OpusFrom(pages, k, got, check).Ok? ==> OpusFrom(pages, k, got, check).value == got
    decreases |pages| - k
  {
    if k < |pages| && PageChecked(pages, k).Ok? {
      LaterPagesIgnored(pages, k + 1, got, check);
    }
  }

  /** What a successful read from the `k`-th page has seen: `n` is the page after the one that completed the header. */
  lemma {:induction false} OpusFromShape(pages: seq<Page>, k: nat, got: seq<Packet>, check: (nat, Packet) -> Option<string>)
    returns (n: nat)
    requires k <= |pages| && |got| <= HEADER_PACKETS
    requires OpusFrom(pages, k, got, check).Ok?
    ensures var g := OpusFrom(pages, k, got, check).value;
      k <= n <= |pages| && (|got| < HEADER_PACKETS ==> k < n) && g == got + Flat(pages[k..n]) &&
      (forall j :: k <= j < |pages| ==> PageChecked(pages, j).Ok?) &&
      (forall j :: |got| <= j < HEADER_PACKETS ==> check(j, g[j]).None?)
    decreases |pages| - k
  {
    var g := OpusFrom(pages, k, got, check).value;
    if |got| == HEADER_PACKETS {
      LaterPagesIgnored(pages, k, got, check);
      n := k;
      assert pages[k..k] == [];
    } else {
      var ps := pages[k].packets;
      DrainedShape(ps, got, HEADER_PACKETS, EXTRA_PACKETS, check);
      var got' := got + ps;
      n := OpusFromShape(pages, k + 1, got', check);
      assert pages[k..n][0] == pages[k];
      assert pages[k..n][1..] == pages[k + 1..n];
      assert g == got' + Flat(pages[k + 1..n]);
      forall j | |got| <= j < HEADER_PACKETS
        ensures check(j, g[j]).None?
      {
        if j < |got'| {
          assert g[j] == ps[j - |got|];
        }
      }
    }
  }

  /**
   * A successful read has a file that is one logical stream and whose first
   * pages hold exactly the identification header and the comment header,
   * each accepted as such; the file holds at least these two packets.
   */
  lemma {:induction false} OpusHeader(pages: seq<Page>, parse: (nat, Packet) -> bool) returns (n: nat)
    requires OpusFrom(pages, 0, [], OpusCheck(parse)).Ok?
    ensures var g := OpusFrom(pages, 0, [], OpusCheck(parse)).value;
      0 < n <= |pages| && SingleStream(pages) && g == Flat(pages[..n]) && |g| == 2 &&
      parse(0, g[0]) && parse(1, g[1]) && |Flat(pages)| >= 2
  {
    var check := OpusCheck(parse);
    var g := OpusFrom(pages, 0, [], check).value;
    n := OpusFromShape(pages, 0, [], check);
    StreamChecked(pages, |pages|);
    assert pages[..|pages|] == pages;
    assert pages[0..n] == pages[..n];
    assert check(0, g[0]).None? && check(1, g[1]).None?;
    FlatSplit(pages, n);
  }

  /** A file with fewer than two packets in all is always refused. */
  lemma {:induction false} TooFewPackets(pages: seq<Page>, parse: (nat, Packet) -> bool)
    requires |Flat(pages)| < 2
    ensures OpusFrom(pages, 0, [], OpusCheck(parse)).Err?
  {
    if OpusFrom(pages, 0, [], OpusCheck(parse)).Ok? {
      var n := OpusHeader(pages, parse);
    }
  }

  /** One page more of the loop: checked, and drained while the header is incomplete. */
  lemma {:induction false} OpusNext(pages: seq<Page>, k: nat, got: seq<Packet>, got': seq<Packet>, check: (nat, Packet) -> Option<string>)
    requires k < |pages| && |got| <= HEADER_PACKETS && PageChecked(pages, k).Ok?
    requires |got| < HEADER_PACKETS ==> Drained(pages[k].packets, got, HEADER_PACKETS, EXTRA_PACKETS, check) == Ok(got')
    requires |got| == HEADER_PACKETS ==> got' == got
    ensures |got'| <= HEADER_PACKETS
    ensures OpusFrom(pages, k, got, check) == OpusFrom(pages, k + 1, got', check)
  {
  }

  /**
   * `rsvc_opus_open_tags`: reads every page, checks it, and drains the
   * packets of the header pages; the tags keep the serial number of the
   * stream, the two header packets and the decoded comments.
   */
  method OpenTags(pages: seq<Page>, parse: (nat, Packet) -> bool, unpack: Packet -> seq<string>)
    returns (r: Result<OpusTags>)
    ensures var o := OpusFrom(pages, 0, [], OpusCheck(parse));
      (r.Ok? <==> o.Ok?) && (r.Err? ==> r.msg == o.msg)
    ensures r.Ok? ==> var g := OpusFrom(pages, 0, [], OpusCheck(parse)).value;
      fresh(r.value) && |pages| > 0 && r.value.serial == pages[0].serial &&
      r.value.head == g[0] && r.value.tags == g[1] && r.value.comments == unpack(g[1])
  {
    var check := OpusCheck(parse);
    var k := 0;
    var got: seq<Packet> := [];
    while k < |pages|
      invariant k <= |pages| && |got| <= HEADER_PACKETS
      invariant OpusFrom(pages, k, got, check) == OpusFrom(pages, 0, [], check)
    {
      var checked := PageChecked(pages, k);
      if checked.Err? {
        return Err(checked.msg);
      }
      var got' := got;
      if |got| < HEADER_PACKETS {
        var drained := DrainPage(pages[k].packets, got, HEADER_PACKETS, EXTRA_PACKETS, check);
        if drained.Err? {
          return Err(drained.msg);
        }
        got' := drained.value;
      }
      OpusNext(pages, k, got, got', check);
      got := got';
      k := k + 1;
    }
    if |got| < HEADER_PACKETS {
      return Err(UNEXPECTED_EOF);
    }
    var n := OpusHeader(pages, parse);
    var tags := new OpusTags(pages[0].serial, got[0], got[1], unpack(got[1]));
    return Ok(tags);
  }
}

/**
 * Ogg Vorbis tags and audio information, src/rsvc/vorbis.c: the user
 * comments (section 5 of the Vorbis I standard) and the edits on them, the
 * three header packets (section 4.2 of the same standard) read from the
 * first pages of the one logical stream, and the granule position of the
 * last page, found by reading the file back from its end.
 *
 * libvorbis is not part of this model. `headerin(k, p)` stands for
 * `vorbis_synthesis_headerin` accepting `p` as the `k`-th header packet,
 * `unpack` for the comments it decodes from the second, `ident` for the
 * sample rate and channel count it decodes from the first, and
 * `lastPage(bytes)` for the granule position of the last complete page
 * `ogg_sync_pageseek` finds in `bytes`.
 */
module Vorbis {
  import opened Common
  import opened Comments
  import opened Ogg
  import Wav

  const NOT_VORBIS: string := "ogg file is not a vorbis file"
  const EXTRA_PACKETS: string := "extra packets in ogg header pages"
  const NO_LAST_PAGE: string := "couldn't find last ogg page"

  /** The number of header packets of a Vorbis stream. */
  const HEADER_PACKETS: nat := 3

  const MAX_READ_BACK: nat := 65536
  const READ_BACK_CHUNK_SIZE: nat := 4096
  const READ_BACK_CHUNK_COUNT: nat := MAX_READ_BACK / READ_BACK_CHUNK_SIZE

  // ---------------------------------------------------------------------
  // Removing comments

  /**
   * The test `rsvc_vorbis_tags_remove` applies, as written: a comment is
   * kept when it does not start with `name` AND the character after the
   * first |name| is not '='. A comment shorter than that has no such
   * character; it is taken here as not being '='.
   */
  predicate KeptAsWritten(name: string, c: string)
  {
    !StartsWith(c, name) && !(|c| > |name| && c[|name|] == '=')
  }

  /** The comments `rsvc_vorbis_tags_remove(name)` keeps, as written. */
  function RemovedAsWritten(name: string, cs: seq<string>): (r: seq<string>)
    ensures |r| <= |cs|
  {
    if cs == [] then []
    else RemovedAsWritten(name, cs[..|cs| - 1]) + (if KeptAsWritten(name, cs[|cs| - 1]) then [cs[|cs| - 1]] else [])
  }

  /** The evident intent: a comment goes exactly when it is a `name=` field. */
  predicate Kept(name: string, c: string)
  {
    !StartsWith(c, name + "=")
  }

  /** The comments that are not `name=` fields, in their order. */
  function Removed(name: string, cs: seq<string>): (r: seq<string>)
    ensures |r| <= |cs|
  {
    if cs == [] then []
    else Removed(name, cs[..|cs| - 1]) + (if Kept(name, cs[|cs| - 1]) then [cs[|cs| - 1]] else [])
  }

  /**
   * As written, removing ARTIST also removes ARTISTS (which starts with the
   * name) and ALBUMS (whose seventh character is '='); the intended test
   * removes neither.
   */
  lemma {:induction false} RemoveAsWrittenOverreaches(name: string, cs: seq<string>)
    requires name == "ARTIST" && cs == ["ARTISTS=b", "ALBUMS=x", "TITLE=y"]
    ensures RemovedAsWritten(name, cs) == ["TITLE=y"]
    ensures Removed(name, cs) == cs
  {
    assert StartsWith(cs[0], name);
    assert !StartsWith(cs[1], name) by { assert cs[1][..6][1] != name[1]; }
    assert cs[1][6] == '=';
    assert !StartsWith(cs[2], name) by { assert cs[2][..6][0] != name[0]; }
    assert Kept(name, cs[0]) by { assert cs[0][..7][6] != (name + "=")[6]; }
    assert Kept(name, cs[1]) by { assert cs[1][..7][1] != (name + "=")[1]; }
    assert Kept(name, cs[2]) by { assert cs[2][..7][0] != (name + "=")[0]; }
    assert cs[..1][..0] == [];
    assert cs[..2][..1] == cs[..1];
    assert cs[..|cs| - 1] == cs[..2];
    assert RemovedAsWritten(name, cs[..1]) == [];
    assert RemovedAsWritten(name, cs[..2]) == [];
    assert Removed(name, cs[..1]) == [cs[0]];
    assert Removed(name, cs[..2]) == [cs[0], cs[1]];
  }

  /** A comment is a `name=` field exactly when it splits into that name. */
  lemma {:induction false} KeptSplit(name: string, c: string)
    requires '=' !in name
    ensures !Kept(name, c) <==> (Split(c).Some? && Split(c).value.name == name)
  {
    if !Kept(name, c) {
      assert c == name + "=" + c[|name| + 1..] by {
        assert c[..|name| + 1] == name + "=";
      }
      SplitJoin(name, c[|name| + 1..]);
    }
    if Split(c).Some? && Split(c).value.name == name {
      var p := Split(c).value;
      assert c[..|name| + 1] == name + "=";
    }
  }

  /**
   * After removing `name` (which has no '='), the comments yield the pairs
   * they yielded before, less those named `name`.
   */
  lemma {:induction false} RemovedPairs(name: string, cs: seq<string>)
    requires '=' !in name
    ensures Pairs(Removed(name, cs)) == Without(Pairs(cs), name)
  {
    if cs != [] {
      var init, c := cs[..|cs| - 1], cs[|cs| - 1];
      RemovedPairs(name, init);
      KeptSplit(name, c);
      var kept := if Kept(name, c) then [c] else [];
      assert Removed(name, cs) == Removed(name, init) + kept;
      PairsConcat(Removed(name, init), kept);
      PairsOne(c);
      assert Pairs([]) == [];
      match Split(c) {
        case None =>
          assert Pairs(cs) == Pairs(init);
        case Some(p) =>
          var ps := Pairs(init) + [p];
          assert Pairs(cs) == ps;
          assert ps[..|ps| - 1] == Pairs(init);
          assert Without(ps, name) == Without(Pairs(init), name) + (if p.name == name then [] else [p]);
      }
    }
  }

  /** A single comment yields its pair, if it has one. */
  lemma {:induction false} PairsOne(c: string)
    ensures Pairs([c]) == Entry(c)
  {
    assert [c][..0] == [];
  }

  /** Adding `name=value` (with no '=' in the name) yields one more pair, last. */
  lemma {:induction false} AddedPairs(cs: seq<string>, name: string, value: string)
    requires '=' !in name
    ensures Pairs(cs + [name + "=" + value]) == Pairs(cs) + [Comment(name, value)]
  {
    SplitJoin(name, value);
    assert (cs + [name + "=" + value])[..|cs|] == cs;
  }

  // ---------------------------------------------------------------------
  // The tags object

  /** `struct rsvc_vorbis_tags`: the comments, the stream's serial number, two header packets kept for saving, and the pages after the headers. */
  class VorbisTags {
    var comments: seq<string>
    var serial: nat
    var header: Packet
    var headerCode: Packet
    var pages: seq<Page>

    constructor (comments: seq<string>, serial: nat, header: Packet, headerCode: Packet, pages: seq<Page>)
      ensures this.comments == comments && this.serial == serial && this.header == header
      ensures this.headerCode == headerCode && this.pages == pages
    {
      this.comments := comments;
      this.serial := serial;
      this.header := header;
      this.headerCode := headerCode;
      this.pages := pages;
    }

    /**
     * `rsvc_vorbis_tags_remove`, with the intended test: every comment
     * without a name, else the `name=` fields; the rest keep their order.
     */
    method Remove(name: Option<string>)
      modifies this
      ensures name.None? ==> comments == []
      ensures name.Some? ==> comments == Removed(name.value, old(comments))
      ensures serial == old(serial) && header == old(header) && headerCode == old(headerCode) && pages == old(pages)
    {
      var kept: seq<string> := [];
      if name.Some? {
        var i := 0;
        while i < |comments|
          invariant i <= |comments|
          invariant kept == Removed(name.value, comments[..i])
        {
          var c := comments[i];
          assert comments[..i + 1][..i] == comments[..i];
          if Kept(name.value, c) {
            kept := kept + [c];
          }
          i := i + 1;
        }
        assert comments[..i] == comments;
      }
      comments := kept;
    }

    /** `rsvc_vorbis_tags_add`: appends the comment `name=value`. */
    method Add(name: string, value: string)
      modifies this
      ensures comments == old(comments) + [name + "=" + value]
      ensures serial == old(serial) && header == old(header) && headerCode == old(headerCode) && pages == old(pages)
    {
      comments := comments + [name + "=" + value];
    }

    /** `vorbis_begin`: an iterator over the comments. */
    method Begin() returns (it: CommentIter)
      ensures fresh(it) && it.Valid() && it.comments == comments && it.i == 0
    {
      it := new CommentIter(comments);
    }
  }

  // ---------------------------------------------------------------------
  // Header packets

  /** The error, if any, of `p` as the `k`-th header packet. */
  function VorbisCheck(headerin: (nat, Packet) -> bool): (r: (nat, Packet) -> Option<string>)
    ensures forall k, p :: r(k, p) == (if headerin(k, p) then None else Some(NOT_VORBIS))
  {
    (k: nat, p: Packet) => if headerin(k, p) then None else Some(NOT_VORBIS)
  }

  /** How far the header reader went: the pages it read and the packets it accepted. */
  datatype HeaderRead = HeaderRead(pagesUsed: nat, packets: seq<Packet>)

  /**
   * `read_header` from the `k`-th page, with the packets `got` accepted so
   * far: pages are read while fewer than three packets are in, each page is
   * checked to belong to the one stream, and its packets are drained.
   */
  function HeaderFrom(pages: seq<Page>, k: nat, got: seq<Packet>, check: (nat, Packet) -> Option<string>): (r: Result<HeaderRead>)
    requires k <= |pages| && |got| <= HEADER_PACKETS
    ensures r.Ok? ==> |r.value.packets| == HEADER_PACKETS && k <= r.value.pagesUsed <= |pages|
    decreases |pages| - k
  {
    if |got| == HEADER_PACKETS then Ok(HeaderRead(k, got))
    else if k == |pages| then Err(UNEXPECTED_EOF)
    else match PageChecked(pages, k)
      case Err(m) => Err(m)
      case Ok(_) =>
        match Drained(pages[k].packets, got, HEADER_PACKETS, EXTRA_PACKETS, check)
        case Err(m) => Err(m)
        case Ok(g) => HeaderFrom(pages, k + 1, g, check)
  }

  /** What a successful read from the `k`-th page has seen: the pages it checked and the packets they hold. */
  lemma {:induction false} HeaderFromShape(pages: seq<Page>, k: nat, got: seq<Packet>, check: (nat, Packet) -> Option<string>)
    requires k <= |pages| && |got| <= HEADER_PACKETS
    requires HeaderFrom(pages, k, got, check).Ok?
    ensures var h := HeaderFrom(pages, k, got, check).value;
      k <= h.pagesUsed <= |pages| && (|got| < HEADER_PACKETS ==> k < h.pagesUsed) &&
      h.packets == got + Flat(pages[k..h.pagesUsed]) && |h.packets| == HEADER_PACKETS &&
      (forall j :: k <= j < h.pagesUsed ==> PageChecked(pages, j).Ok?) &&
      (forall j :: |got| <= j < HEADER_PACKETS ==> check(j, h.packets[j]).None?)
    decreases |pages| - k
  {
    var h := HeaderFrom(pages, k, got, check).value;
    if |got| == HEADER_PACKETS {
      assert pages[k..k] == [];
    } else {
      var ps := pages[k].packets;
      DrainedShape(ps, got, HEADER_PACKETS, EXTRA_PACKETS, check);
      var g := got + ps;
      HeaderFromShape(pages, k + 1, g, check);
      assert pages[k..h.pagesUsed][0] == pages[k];
      assert pages[k..h.pagesUsed][1..] == pages[k + 1..h.pagesUsed];
      assert h.packets == g + Flat(pages[k + 1..h.pagesUsed]);
      forall j | |got| <= j < HEADER_PACKETS
        ensures check(j, h.packets[j]).None?
      {
        if j < |g| {
          assert h.packets[j] == ps[j - |got|];
        }
      }
    }
  }

  /**
   * A header read succeeds only on a file whose first pages are one
   * logical stream and hold exactly the three header packets, each
   * accepted as the header it is; the first is kept as the
   * identification header and the third as the codebook header.
   */
  lemma {:induction false} HeaderPackets(pages: seq<Page>, headerin: (nat, Packet) -> bool)
    requires HeaderFrom(pages, 0, [], VorbisCheck(headerin)).Ok?
    ensures var h := HeaderFrom(pages, 0, [], VorbisCheck(headerin)).value;
      0 < h.pagesUsed <= |pages| && SingleStream(pages[..h.pagesUsed]) &&
      h.packets == Flat(pages[..h.pagesUsed]) && |h.packets| == 3 &&
      headerin(0, h.packets[0]) && headerin(1, h.packets[1]) && headerin(2, h.packets[2])
  {
    var check := VorbisCheck(headerin);
    var h := HeaderFrom(pages, 0, [], check).value;
    HeaderFromShape(pages, 0, [], check);
    StreamChecked(pages, h.pagesUsed);
    assert pages[0..h.pagesUsed] == pages[..h.pagesUsed];
    assert check(0, h.packets[0]).None? && check(1, h.packets[1]).None? && check(2, h.packets[2]).None?;
  }

  /** One page more of the header: the step the page loop takes. */
  lemma {:induction false} HeaderNext(pages: seq<Page>, k: nat, got: seq<Packet>, check: (nat, Packet) -> Option<string>)
    requires k < |pages| && |got| < HEADER_PACKETS && PageChecked(pages, k).Ok?
    requires Drained(pages[k].packets, got, HEADER_PACKETS, EXTRA_PACKETS, check).Ok?
    ensures var g := Drained(pages[k].packets, got, HEADER_PACKETS, EXTRA_PACKETS, check).value;
      HeaderFrom(pages, k, got, check) == HeaderFrom(pages, k + 1, g, check)
  {
  }

  /**
   * `read_header`: the page loop and, per page, the packet loop. The first
   * and third packets are returned as the identification and codebook
   * headers `rsvc_vorbis_tags_save` writes back.
   */
  method ReadHeader(pages: seq<Page>, headerin: (nat, Packet) -> bool)
    returns (r: Result<HeaderRead>, header: Packet, headerCode: Packet)
    ensures r == HeaderFrom(pages, 0, [], VorbisCheck(headerin))
    ensures r.Ok? ==> header == r.value.packets[0] && headerCode == r.value.packets[2]
  {
    var check := VorbisCheck(headerin);
    var k := 0;
    var got: seq<Packet> := [];
    header, headerCode := [], [];
    while |got| < HEADER_PACKETS
      invariant k <= |pages| && |got| <= HEADER_PACKETS
      invariant HeaderFrom(pages, k, got, check) == HeaderFrom(pages, 0, [], check)
      decreases |pages| - k
    {
      if k == |pages| {
        return Err(UNEXPECTED_EOF), header, headerCode;
      }
      var checked := PageChecked(pages, k);
      if checked.Err? {
        return Err(checked.msg), header, headerCode;
      }
      var drained := DrainPage(pages[k].packets, got, HEADER_PACKETS, EXTRA_PACKETS, check);
      if drained.Err? {
        return Err(drained.msg), header, headerCode;
      }
      HeaderNext(pages, k, got, check);
      got := drained.value;
      k := k + 1;
    }
    header, headerCode := got[0], got[2];
    r := Ok(HeaderRead(k, got));
  }

  /**
   * `rsvc_vorbis_open_tags`: reads the header, then keeps every page after
   * it; the comments are those decoded from the second header packet.
   */
  method OpenTags(pages: seq<Page>, headerin: (nat, Packet) -> bool, unpack: Packet -> seq<string>)
    returns (r: Result<VorbisTags>)
    ensures var h := HeaderFrom(pages, 0, [], VorbisCheck(headerin));
      (r.Ok? <==> h.Ok?) && (r.Err? ==> r.msg == h.msg)
    ensures r.Ok? ==> var h := HeaderFrom(pages, 0, [], VorbisCheck(headerin)).value;
      fresh(r.value) && r.value.comments == unpack(h.packets[1]) && r.value.serial == pages[0].serial &&
      r.value.header == h.packets[0] && r.value.headerCode == h.packets[2] && r.value.pages == pages[h.pagesUsed..]
  {
    var read, header, headerCode := ReadHeader(pages, headerin);
    if read.Err? {
      return Err(read.msg);
    }
    HeaderPackets(pages, headerin);
    var h := read.value;
    var tags := new VorbisTags(unpack(h.packets[1]), pages[0].serial, header, headerCode, pages[h.pagesUsed..]);
    return Ok(tags);
  }

  // ---------------------------------------------------------------------
  // The last page

  /** The offset `k` chunks back from the end of a file of `size` bytes, or its start. */
  function Back(size: nat, k: nat): (r: nat)
    ensures r <= size
    ensures k == 0 ==> r == size
    ensures r == 0 <==> size <= k * READ_BACK_CHUNK_SIZE
  {
    if size > k * READ_BACK_CHUNK_SIZE then size - k * READ_BACK_CHUNK_SIZE else 0
  }

  /** Going one chunk further back: 4096 bytes before a chunk end, or the start of the file. */
  lemma {:induction false} BackStep(size: nat, k: nat)
    ensures Back(size, k + 1) == (if Back(size, k) > READ_BACK_CHUNK_SIZE then Back(size, k) - READ_BACK_CHUNK_SIZE else 0)
  {
  }

  /** The chunks `chunks[n-1]`, …, `chunks[0]` one after another, as the C loop hands them to the sync buffer. */
  function Fed(chunks: seq<seq<byte>>, n: nat): (r: seq<byte>)
    requires n <= |chunks|
  {
    if n == 0 then [] else chunks[n - 1] + Fed(chunks, n - 1)
  }

  /**
   * `read_last_page` as written, from its `i`-th round: every chunk
   * starts 4096 bytes before the END of the file rather than before the
   * previous chunk, and only the chunks of the earlier rounds are fed to
   * the sync buffer, not the one just read.
   */
  function ReadBackAsWritten(file: seq<byte>, lastPage: seq<byte> -> Option<nat>, i: nat,
                             chunkEnd: nat, chunks: seq<seq<byte>>): (r: Result<nat>)
    requires i <= READ_BACK_CHUNK_COUNT && |chunks| == i
    requires Back(|file|, 1) <= chunkEnd <= |file|
    decreases READ_BACK_CHUNK_COUNT - i
  {
    if chunkEnd == 0 || i == READ_BACK_CHUNK_COUNT then Err(NO_LAST_PAGE)
    else
      var start := Back(|file|, 1);
      var chunks' := chunks + [file[start..chunkEnd]];
      match lastPage(Fed(chunks', i))
      case Some(g) => Ok(g)
      case None => ReadBackAsWritten(file, lastPage, i + 1, start, chunks')
  }

  /**
   * As written, a file of at most 4096 bytes never has its last page
   * found: the first round feeds nothing and the second finds the start
   * of the file already reached.
   */
  lemma {:induction false} SmallFileNotFoundAsWritten(file: seq<byte>, lastPage: seq<byte> -> Option<nat>)
    requires |file| <= READ_BACK_CHUNK_SIZE && lastPage([]) == None
    ensures ReadBackAsWritten(file, lastPage, 0, |file|, []) == Err(NO_LAST_PAGE)
  {
    if |file| > 0 {
      assert Fed([file[0..|file|]], 0) == [];
    }
  }

  /** With the first chunk read and only empty chunks after it, the sync buffer always holds that first chunk. */
  lemma {:induction false} FedFirst(chunks: seq<seq<byte>>, n: nat)
    requires 1 <= n <= |chunks|
    requires forall k :: 1 <= k < |chunks| ==> chunks[k] == []
    ensures Fed(chunks, n) == chunks[0]
  {
    if n > 1 {
      FedFirst(chunks, n - 1);
    } else {
      assert Fed(chunks, 0) == [];
    }
  }

  /**
   * As written, on a larger file the rounds after the first read empty
   * chunks and search only the last 4096 bytes, over and over.
   */
  lemma {:induction false} LastChunkOnlyAsWritten(file: seq<byte>, lastPage: seq<byte> -> Option<nat>, i: nat,
                                                  chunks: seq<seq<byte>>)
    requires |file| > READ_BACK_CHUNK_SIZE && 1 <= i <= READ_BACK_CHUNK_COUNT && |chunks| == i
    requires chunks[0] == file[Back(|file|, 1)..] && forall k :: 1 <= k < i ==> chunks[k] == []
    requires i == 1 || lastPage(file[Back(|file|, 1)..]).None?
    ensures ReadBackAsWritten(file, lastPage, i, Back(|file|, 1), chunks) ==
      match lastPage(file[Back(|file|, 1)..]) case Some(g) => Ok(g) case None => Err(NO_LAST_PAGE)
    decreases READ_BACK_CHUNK_COUNT - i
  {
    var start := Back(|file|, 1);
    if i < READ_BACK_CHUNK_COUNT {
      var chunks' := chunks + [file[start..start]];
      assert file[start..start] == [];
      assert chunks'[0] == chunks[0];
      assert forall k :: 1 <= k < |chunks'| ==> chunks'[k] == [];
      FedFirst(chunks', i);
      assert ReadBackAsWritten(file, lastPage, i, start, chunks) ==
        match lastPage(file[start..]) case Some(g) => Ok(g) case None => ReadBackAsWritten(file, lastPage, i + 1, start, chunks');
      if lastPage(file[start..]).None? {
        LastChunkOnlyAsWritten(file, lastPage, i + 1, chunks');
      }
    }
  }

  /** As written, a file of more than 4096 bytes is searched in its last 4096 bytes only. */
  lemma {:induction false} LargeFileLastChunkAsWritten(file: seq<byte>, lastPage: seq<byte> -> Option<nat>)
    requires |file| > READ_BACK_CHUNK_SIZE && lastPage([]) == None
    ensures ReadBackAsWritten(file, lastPage, 0, |file|, []) ==
      match lastPage(file[|file| - READ_BACK_CHUNK_SIZE..]) case Some(g) => Ok(g) case None => Err(NO_LAST_PAGE)
  {
    var start := Back(|file|, 1);
    assert Fed([file[start..|file|]], 0) == [];
    assert file[start..|file|] == file[start..];
    var chunks: seq<seq<byte>> := [];
    assert chunks + [file[start..|file|]] == [file[start..]];
    assert Fed([file[start..]], 0) == [];
    assert ReadBackAsWritten(file, lastPage, 0, |file|, []) == ReadBackAsWritten(file, lastPage, 1, start, [file[start..]]);
    LastChunkOnlyAsWritten(file, lastPage, 1, [file[start..]]);
  }

  /**
   * `read_last_page` as evidently intended, from its `i`-th round: the
   * last (i+1)·4096 bytes (or the whole file) are searched, until a page
   * is found, the start of the file is reached or 64 KiB have been read.
   */
  function ReadBack(file: seq<byte>, lastPage: seq<byte> -> Option<nat>, i: nat): (r: Result<nat>)
    requires i <= READ_BACK_CHUNK_COUNT
    decreases READ_BACK_CHUNK_COUNT - i
  {
    if Back(|file|, i) == 0 || i == READ_BACK_CHUNK_COUNT then Err(NO_LAST_PAGE)
    else match lastPage(file[Back(|file|, i + 1)..])
      case Some(g) => Ok(g)
      case None => ReadBack(file, lastPage, i + 1)
  }

  /**
   * The granule found is that of the last page of the shortest tail of the
   * file, in steps of 4096 bytes up to 64 KiB, that holds a page; the
   * search fails exactly when no such tail holds one.
   */
  lemma {:induction false} ReadBackFinds(file: seq<byte>, lastPage: seq<byte> -> Option<nat>, i: nat)
    requires i <= READ_BACK_CHUNK_COUNT
    ensures ReadBack(file, lastPage, i).Ok? ==>
      exists n :: i <= n < READ_BACK_CHUNK_COUNT && Back(|file|, n) > 0 &&
        lastPage(file[Back(|file|, n + 1)..]) == Some(ReadBack(file, lastPage, i).value)
    ensures ReadBack(file, lastPage, i).Err? <==>
      forall n :: i <= n < READ_BACK_CHUNK_COUNT && Back(|file|, n) > 0 ==> lastPage(file[Back(|file|, n + 1)..]).None?
    decreases READ_BACK_CHUNK_COUNT - i
  {
    if i < READ_BACK_CHUNK_COUNT && Back(|file|, i) == 0 {
      BackStaysZero(|file|, i);
    } else if i < READ_BACK_CHUNK_COUNT && lastPage(file[Back(|file|, i + 1)..]).None? {
      ReadBackFinds(file, lastPage, i + 1);
    }
  }

  /** Once the start of the file is reached, every further chunk boundary is there too. */
  lemma {:induction false} BackStaysZero(size: nat, i: nat)
    requires Back(size, i) == 0
    ensures forall n :: i <= n ==> Back(size, n) == 0
  {
    forall n | i <= n
      ensures Back(size, n) == 0
    {
      assert i * READ_BACK_CHUNK_SIZE <= n * READ_BACK_CHUNK_SIZE;
    }
  }

  /** The intended search covers a whole file of at most 4096 bytes. */
  lemma {:induction false} SmallFileFound(file: seq<byte>, lastPage: seq<byte> -> Option<nat>)
    requires 0 < |file| <= READ_BACK_CHUNK_SIZE
    ensures ReadBack(file, lastPage, 0) ==
      match lastPage(file) case Some(g) => Ok(g) case None => Err(NO_LAST_PAGE)
  {
    assert file[0..] == file;
  }

  /** The chunks fed from oldest to newest are the tail of the file from the oldest one's start. */
  lemma {:induction false} FedTail(file: seq<byte>, chunks: seq<seq<byte>>, n: nat)
    requires n <= |chunks|
    requires forall k :: 0 <= k < n ==> chunks[k] == file[Back(|file|, k + 1)..Back(|file|, k)]
    ensures Fed(chunks, n) == file[Back(|file|, n)..]
  {
    if n == 0 {
      assert file[|file|..] == [];
    } else {
      FedTail(file, chunks, n - 1);
      BackStep(|file|, n - 1);
      assert file[Back(|file|, n)..] == file[Back(|file|, n)..Back(|file|, n - 1)] + file[Back(|file|, n - 1)..];
    }
  }

  /** Feeds `chunks[i]`, …, `chunks[0]` to a fresh sync buffer. */
  method FeedChunks(chunks: seq<seq<byte>>, i: nat) returns (buffer: seq<byte>)
    requires i < |chunks|
    ensures buffer == Fed(chunks, i + 1)
  {
    buffer := [];
    var j := 0;
    while j <= i
      invariant j <= i + 1
      invariant buffer + Fed(chunks, i + 1 - j) == Fed(chunks, i + 1)
    {
      buffer := buffer + chunks[i - j];
      j := j + 1;
    }
  }

  /** One round more of the intended search, with the chunk just read. */
  lemma {:induction false} ReadBackNext(file: seq<byte>, lastPage: seq<byte> -> Option<nat>, i: nat)
    requires i < READ_BACK_CHUNK_COUNT && Back(|file|, i) > 0
    requires lastPage(file[Back(|file|, i + 1)..]).None?
    ensures ReadBack(file, lastPage, i) == ReadBack(file, lastPage, i + 1)
  {
  }

  /**
   * `read_last_page` as evidently intended: each round reads the 4096
   * bytes before the previous chunk and searches all chunks read so far.
   */
  method ReadLastPage(file: seq<byte>, lastPage: seq<byte> -> Option<nat>) returns (r: Result<nat>)
    ensures r == ReadBack(file, lastPage, 0)
  {
    var chunkEnd := |file|;
    var chunks: seq<seq<byte>> := [];
    var i := 0;
    while true
      invariant i <= READ_BACK_CHUNK_COUNT && |chunks| == i && chunkEnd == Back(|file|, i)
      invariant forall k :: 0 <= k < i ==> chunks[k] == file[Back(|file|, k + 1)..Back(|file|, k)]
      invariant ReadBack(file, lastPage, i) == ReadBack(file, lastPage, 0)
      decreases READ_BACK_CHUNK_COUNT - i
    {
      if chunkEnd == 0 || i == READ_BACK_CHUNK_COUNT {
        return Err(NO_LAST_PAGE);
      }
      BackStep(|file|, i);
      var chunkStart := if chunkEnd > READ_BACK_CHUNK_SIZE then chunkEnd - READ_BACK_CHUNK_SIZE else 0;
      chunks := chunks + [file[chunkStart..chunkEnd]];
      var buffer := FeedChunks(chunks, i);
      FedTail(file, chunks, i + 1);
      match lastPage(buffer) {
        case Some(g) =>
          return Ok(g);
        case None =>
      }
      ReadBackNext(file, lastPage, i);
      chunkEnd := chunkStart;
      i := i + 1;
    }
  }

  // ---------------------------------------------------------------------
  // Audio information

  /**
   * `rsvc_vorbis_audio_info`: the header gives the sample rate and channel
   * count, the last page the samples per channel; samples are 16-bit.
   */
  method AudioInfo(pages: seq<Page>, headerin: (nat, Packet) -> bool, ident: Packet -> (nat, nat),
                   file: seq<byte>, lastPage: seq<byte> -> Option<nat>) returns (r: Result<Wav.AudioInfo>)
    ensures var h := HeaderFrom(pages, 0, [], VorbisCheck(headerin));
      var g := ReadBack(file, lastPage, 0);
      (r.Ok? <==> h.Ok? && g.Ok?) && (h.Err? ==> r == Err(h.msg)) && (h.Ok? && g.Err? ==> r == Err(g.msg))
    ensures r.Ok? ==> var h := HeaderFrom(pages, 0, [], VorbisCheck(headerin)).value;
      var (rate, channels) := ident(h.packets[0]);
      r.value == Wav.AudioInfo(rate, channels, 16, 2 * channels, ReadBack(file, lastPage, 0).value)
  {
    var read, header, _ := ReadHeader(pages, headerin);
    if read.Err? {
      return Err(read.msg);
    }
    var last := ReadLastPage(file, lastPage);
    if last.Err? {
      return Err(last.msg);
    }
    var (rate, channels) := ident(header);
    return Ok(Wav.AudioInfo(rate, channels, 16, 2 * channels, last.value));
  }
}

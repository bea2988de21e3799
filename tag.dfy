/**
 * The generic tag collection of `src/rsvc/tag.c`: the checks every editing
 * call makes before it reaches a format's own operation, the detached tag
 * list that `rsvc_tags_new` creates, copying, and the `%`-code path
 * formatter behind `rsvc_tags_strf`.
 *
 * Strings are the contents of C strings: their characters stand for bytes
 * (0 to 255) and hold no NUL. `char` is signed, as on x86. A tag
 * collection is read through its iterator; here that is the sequence of
 * pairs the iterator yields, in order.
 */
module Tag {
  import opened Common

  /** A name and a value, as a tag iterator yields them. */
  type Pair = (string, string)

  function Min(a: nat, b: nat): nat
  {
    if a < b then a else b
  }

  // ---------------------------------------------------------------------
  // Tag names
  // ---------------------------------------------------------------------

  /** The characters a tag name may hold: upper-case ASCII letters and '_'. */
  predicate NameChar(c: char)
  {
    'A' <= c <= 'Z' || c == '_'
  }

  /** `strspn` over the name characters: the length of the leading run of them. */
  function NameSpan(name: string): (r: nat)
    ensures r <= |name| && forall k | 0 <= k < r :: NameChar(name[k])
    ensures r < |name| ==> !NameChar(name[r])
  {
    if name == [] || !NameChar(name[0]) then 0 else 1 + NameSpan(name[1..])
  }

  /** `tag_name_is_valid`: the run of name characters reaches the end of the name. */
  function NameIsValid(name: string): (r: bool)
    ensures r <==> forall k | 0 <= k < |name| :: NameChar(name[k])
  {
    NameSpan(name) == |name|
  }

  /** `tolower` on ASCII, as `strcasecmp` compares. */
  function Lower(c: char): char
  {
    if 'A' <= c <= 'Z' then (c as int + 32) as char else c
  }

  /** `strcasecmp(a, b) == 0`. */
  predicate SameName(a: string, b: string)
  {
    |a| == |b| && forall k | 0 <= k < |a| :: Lower(a[k]) == Lower(b[k])
  }

  /** Between valid tag names, comparing without case is comparing exactly. */
  lemma {:induction false} SameValidName(a: string, b: string)
    requires NameIsValid(a) && NameIsValid(b)
    ensures SameName(a, b) <==> a == b
  {
    if SameName(a, b) {
      forall k | 0 <= k < |a|
        ensures a[k] == b[k]
      {
        assert Lower(a[k]) == Lower(b[k]);
        assert NameChar(a[k]) && NameChar(b[k]);
      }
    }
  }

  const ReadOnly: string := "tags opened in read-only mode"
  const Unsupported: string := "unsupported format"

  /** The message of `check_tag_name_is_valid`. */
  function InvalidName(name: string): string
  {
    "invalid tag name: " + name
  }

  /**
   * The checks `rsvc_tags_image_clear`, `_remove` and `_add` make before
   * the format's picture operation: that the format has one comes first,
   * then that the tags are open for writing.
   */
  function ImageCheck(hasImages: bool, writable: bool): (r: Result<()>)
    ensures r.Ok? <==> hasImages && writable
    ensures !hasImages ==> r == Err(Unsupported)
    ensures hasImages && !writable ==> r == Err(ReadOnly)
  {
    if !hasImages then Err(Unsupported) else if !writable then Err(ReadOnly) else Ok(())
  }

  // ---------------------------------------------------------------------
  // Detached tags
  // ---------------------------------------------------------------------

  /** The pairs whose name is not `name` (compared without case), in their order. */
  function Unnamed(pairs: seq<Pair>, name: string): (r: seq<Pair>)
    ensures |r| <= |pairs|
    ensures forall p <- r :: p in pairs && !SameName(p.0, name)
  {
    if pairs == [] then []
    else
      var last := pairs[|pairs| - 1];
      Unnamed(pairs[..|pairs| - 1], name) + (if SameName(last.0, name) then [] else [last])
  }

  /** A pair whose name differs is kept, in place: removal filters and nothing else. */
  lemma {:induction false} UnnamedKeeps(pairs: seq<Pair>, name: string)
    requires forall p <- pairs :: !SameName(p.0, name)
    ensures Unnamed(pairs, name) == pairs
  {
    if pairs != [] {
      UnnamedKeeps(pairs[..|pairs| - 1], name);
      assert pairs[..|pairs| - 1] + [pairs[|pairs| - 1]] == pairs;
    }
  }

  /** Removing a name twice removes nothing more. */
  lemma {:induction false} UnnamedTwice(pairs: seq<Pair>, name: string)
    ensures Unnamed(Unnamed(pairs, name), name) == Unnamed(pairs, name)
  {
    UnnamedKeeps(Unnamed(pairs, name), name);
  }

  /**
   * The pairs `rsvc_tags_copy` manages to add: its loop stops at the first
   * pair whose name the add refuses.
   */
  function AddablePrefix(pairs: seq<Pair>): (r: seq<Pair>)
    ensures |r| <= |pairs| && r == pairs[..|r|]
    ensures forall k | 0 <= k < |r| :: NameIsValid(r[k].0)
    ensures |r| < |pairs| ==> !NameIsValid(pairs[|r|].0)
  {
    if pairs == [] || !NameIsValid(pairs[0].0) then []
    else
      var rest := AddablePrefix(pairs[1..]);
      assert [pairs[0]] + rest == pairs[..|rest| + 1];
      [pairs[0]] + rest
  }

  // ---------------------------------------------------------------------
  // Tag collections
  // ---------------------------------------------------------------------

  /**
   * The `add`, `remove` and `save` entries of a collection's
   * `struct rsvc_tags_methods`: those of the detached list that
   * `rsvc_tags_new` creates, or a format's own, given by what they do to
   * the pairs the iterator yields; a format's entry may refuse with its
   * own message. `remove` without a name removes every tag.
   */
  datatype Methods =
    | Detached
    | Format(add: (seq<Pair>, string, string) -> Result<seq<Pair>>,
             remove: (seq<Pair>, Option<string>) -> Result<seq<Pair>>,
             save: seq<Pair> -> Result<()>)

  /** `vptr->add`: the detached list appends the pair and always succeeds. */
  function MethodAdd(m: Methods, pairs: seq<Pair>, name: string, value: string): Result<seq<Pair>>
  {
    match m
    case Detached => Ok(pairs + [(name, value)])
    case Format(add, _, _) => add(pairs, name, value)
  }

  /**
   * `vptr->remove`: the detached list erases every pair with the name,
   * compared without case, or every pair when there is no name; it always
   * succeeds.
   */
  function MethodRemove(m: Methods, pairs: seq<Pair>, name: Option<string>): Result<seq<Pair>>
  {
    match m
    case Detached => Ok(if name.Some? then Unnamed(pairs, name.value) else [])
    case Format(_, remove, _) => remove(pairs, name)
  }

  /** `rsvc_tags_clear`: the writability check, then the method's removal of everything. */
  function Cleared(m: Methods, writable: bool, pairs: seq<Pair>): Result<seq<Pair>>
  {
    if !writable then Err(ReadOnly) else MethodRemove(m, pairs, None)
  }

  /** `rsvc_tags_remove`: the writability check, the name check, then the method. */
  function Removed(m: Methods, writable: bool, pairs: seq<Pair>, name: string): Result<seq<Pair>>
  {
    if !writable then Err(ReadOnly)
    else if !NameIsValid(name) then Err(InvalidName(name))
    else MethodRemove(m, pairs, Some(name))
  }

  /** `rsvc_tags_add`: the writability check, the name check, then the method. */
  function Added(m: Methods, writable: bool, pairs: seq<Pair>, name: string, value: string): Result<seq<Pair>>
  {
    if !writable then Err(ReadOnly)
    else if !NameIsValid(name) then Err(InvalidName(name))
    else MethodAdd(m, pairs, name, value)
  }

  /** `rsvc_tags_save`: read-only tags are not saved; otherwise the method saves, and detached tags have nothing to write. */
  function Saved(m: Methods, writable: bool, pairs: seq<Pair>): Result<()>
  {
    if !writable then Ok(())
    else match m
      case Detached => Ok(())
      case Format(_, _, save) => save(pairs)
  }

  /**
   * The generic checks come before the format is reached, whatever its
   * methods: read-only tags refuse every edit and save without a call,
   * and an invalid name is refused before the method sees it.
   */
  lemma {:induction false} ChecksFirst(m: Methods, pairs: seq<Pair>, name: string, value: string)
    ensures Cleared(m, false, pairs) == Err(ReadOnly) && Saved(m, false, pairs) == Ok(())
    ensures Removed(m, false, pairs, name) == Err(ReadOnly) && Added(m, false, pairs, name, value) == Err(ReadOnly)
    ensures !NameIsValid(name) ==>
      Removed(m, true, pairs, name) == Err(InvalidName(name)) && Added(m, true, pairs, name, value) == Err(InvalidName(name))
    ensures NameIsValid(name) ==>
      Removed(m, true, pairs, name) == MethodRemove(m, pairs, Some(name))
      && Added(m, true, pairs, name, value) == MethodAdd(m, pairs, name, value)
  {
  }

  /**
   * Writable detached tags never refuse a valid name: clearing empties
   * them, removing erases the name's pairs, adding appends, saving
   * succeeds.
   */
  lemma {:induction false} DetachedEdits(pairs: seq<Pair>, name: string, value: string)
    ensures Cleared(Detached, true, pairs) == Ok([]) && Saved(Detached, true, pairs) == Ok(())
    ensures NameIsValid(name) ==>
      Removed(Detached, true, pairs, name) == Ok(Unnamed(pairs, name))
      && Added(Detached, true, pairs, name, value) == Ok(pairs + [(name, value)])
  {
  }

  /** A call's result and the pairs after it: the method's pairs on success, the old ones and its message on refusal. */
  predicate Edited(r: Result<()>, before: seq<Pair>, after: seq<Pair>, e: Result<seq<Pair>>)
  {
    (e.Ok? ==> r == Ok(()) && after == e.value) && (e.Err? ==> r == Err(e.msg) && after == before)
  }

  /**
   * A tag collection, `rsvc_tags_t`: its methods, whether it was opened
   * for writing (the `RSVC_TAG_RDWR` bit of `flags`) and the pairs its
   * iterator yields.
   */
  class Tags {
    const methods: Methods
    const writable: bool
    var pairs: seq<Pair>

    /** `rsvc_tags_new`: an empty detached list, open for writing. */
    constructor ()
      ensures methods.Detached? && writable && pairs == [] && Valid()
    {
      methods := Detached;
      writable := true;
      pairs := [];
    }

    /** The collection a format's `open_tags` hands back. */
    constructor Open(methods: Methods, writable: bool, pairs: seq<Pair>)
      ensures this.methods == methods && this.writable == writable && this.pairs == pairs
    {
      this.methods := methods;
      this.writable := writable;
      this.pairs := pairs;
    }

    /** Every pair went through the name check. */
    ghost predicate Valid()
      reads this
    {
      forall p <- pairs :: NameIsValid(p.0)
    }

    /** `rsvc_tags_save`. */
    method Save() returns (r: Result<()>)
      ensures r == Saved(methods, writable, pairs)
      ensures !writable || methods.Detached? ==> r == Ok(())
    {
      if !writable {
        return Ok(());
      }
      match methods {
        case Detached => r := Ok(());
        case Format(_, _, save) => r := save(pairs);
      }
    }

    /** The pairs a format's method hands back, or its refusal. */
    method Take(e: Result<seq<Pair>>) returns (r: Result<()>)
      modifies this
      ensures Edited(r, old(pairs), pairs, e)
    {
      if e.Err? {
        return Err(e.msg);
      }
      pairs := e.value;
      r := Ok(());
    }

    /** `rsvc_tags_clear`: refused on read-only tags; otherwise the method removes everything. */
    method Clear() returns (r: Result<()>)
      modifies this
      ensures Edited(r, old(pairs), pairs, Cleared(methods, writable, old(pairs)))
      ensures !writable ==> r == Err(ReadOnly) && pairs == old(pairs)
      ensures writable && methods.Detached? ==> r == Ok(()) && pairs == []
      ensures methods.Detached? && old(Valid()) ==> Valid()
    {
      if !writable {
        return Err(ReadOnly);
      }
      if methods.Detached? {
        pairs := [];
        return Ok(());
      }
      r := Take(methods.remove(pairs, None));
    }

    /**
     * `rsvc_tags_remove`: refused on read-only tags, then for an invalid
     * name; otherwise the method removes the name. The detached list
     * erases every pair with that name, compared without case, and the
     * rest keep their order.
     */
    method Remove(name: string) returns (r: Result<()>)
      modifies this
      ensures Edited(r, old(pairs), pairs, Removed(methods, writable, old(pairs), name))
      ensures !writable ==> r == Err(ReadOnly) && pairs == old(pairs)
      ensures writable && !NameIsValid(name) ==> r == Err(InvalidName(name)) && pairs == old(pairs)
      ensures writable && NameIsValid(name) && methods.Detached? ==> r == Ok(()) && pairs == Unnamed(old(pairs), name)
      ensures methods.Detached? && old(Valid()) ==> Valid()
    {
      if !writable {
        return Err(ReadOnly);
      }
      if !NameIsValid(name) {
        return Err(InvalidName(name));
      }
      if !methods.Detached? {
        r := Take(methods.remove(pairs, Some(name)));
        return;
      }
      var list := pairs;
      var kept: seq<Pair> := [];
      var i := 0;
      while i < |list|
        invariant 0 <= i <= |list|
        invariant kept == Unnamed(list[..i], name)
      {
        assert list[..i + 1][..i] == list[..i];
        if !SameName(list[i].0, name) {
          kept := kept + [list[i]];
        }
        i := i + 1;
      }
      assert list[..i] == list;
      pairs := kept;
      r := Ok(());
    }

    /**
     * `rsvc_tags_add`: refused on read-only tags, then for an invalid name;
     * otherwise the method adds the pair. The detached list puts it at
     * the end and changes nothing else.
     */
    method Add(name: string, value: string) returns (r: Result<()>)
      modifies this
      ensures Edited(r, old(pairs), pairs, Added(methods, writable, old(pairs), name, value))
      ensures !writable ==> r == Err(ReadOnly) && pairs == old(pairs)
      ensures writable && !NameIsValid(name) ==> r == Err(InvalidName(name)) && pairs == old(pairs)
      ensures writable && NameIsValid(name) && methods.Detached? ==> r == Ok(()) && pairs == old(pairs) + [(name, value)]
      ensures methods.Detached? && old(Valid()) ==> Valid()
    {
      if !writable {
        return Err(ReadOnly);
      }
      if !NameIsValid(name) {
        return Err(InvalidName(name));
      }
      if !methods.Detached? {
        r := Take(methods.add(pairs, name, value));
        return;
      }
      pairs := pairs + [(name, value)];
      r := Ok(());
    }
  }

  /** The list stays made of valid names whatever the editing calls do. */
  lemma {:induction false} EditsKeepNames(pairs: seq<Pair>, name: string, value: string)
    requires forall p <- pairs :: NameIsValid(p.0)
    ensures forall p <- Unnamed(pairs, name) :: NameIsValid(p.0)
    ensures NameIsValid(name) ==> forall p <- pairs + [(name, value)] :: NameIsValid(p.0)
  {
  }

  /**
   * The adds of `rsvc_tags_copy` after its clear: the pairs in turn, each
   * through `rsvc_tags_add` on writable tags, until one is refused.
   */
  function AddAll(m: Methods, dst: seq<Pair>, src: seq<Pair>): seq<Pair>
    decreases |src|
  {
    if src == [] then dst
    else
      var e := Added(m, true, dst, src[0].0, src[0].1);
      if e.Err? then dst else AddAll(m, e.value, src[1..])
  }

  /** On a detached list the adds append the source's pairs up to the first invalid name. */
  lemma {:induction false} DetachedAddAll(dst: seq<Pair>, src: seq<Pair>)
    ensures AddAll(Detached, dst, src) == dst + AddablePrefix(src)
    decreases |src|
  {
    if src != [] && NameIsValid(src[0].0) {
      DetachedAddAll(dst + [src[0]], src[1..]);
      assert dst + [src[0]] + AddablePrefix(src[1..]) == dst + ([src[0]] + AddablePrefix(src[1..]));
    }
  }

  /** One turn of the copying loop: an add refused ends it, a success moves on. */
  lemma {:induction false} AddAllStep(m: Methods, dst: seq<Pair>, list: seq<Pair>, i: nat)
    requires i < |list|
    ensures var e := Added(m, true, dst, list[i].0, list[i].1);
      AddAll(m, dst, list[i..]) == if e.Err? then dst else AddAll(m, e.value, list[i + 1..])
  {
    assert list[i..][0] == list[i] && list[i..][1..] == list[i + 1..];
  }

  /**
   * `rsvc_tags_copy`: clears `dst`, which read-only tags and a refusing
   * method stop, then adds the pairs of `src` in order until an add is
   * refused, and succeeds even then. The pairs copied are those `src`
   * yields after the clear: when both are the same tags, what the clear
   * left.
   */
  method Copy(dst: Tags, src: Tags) returns (r: Result<()>)
    modifies dst
    ensures var c := Cleared(dst.methods, dst.writable, old(dst.pairs));
      (c.Err? ==> r == Err(c.msg) && dst.pairs == old(dst.pairs))
      && (c.Ok? ==> r == Ok(()) && dst.pairs == AddAll(dst.methods, c.value, if dst == src then c.value else old(src.pairs)))
    ensures !dst.writable ==> r == Err(ReadOnly) && dst.pairs == old(dst.pairs)
    ensures dst.writable && dst.methods.Detached? ==>
      r == Ok(()) && dst.pairs == AddablePrefix(if dst == src then [] else old(src.pairs))
  {
    ghost var c := Cleared(dst.methods, dst.writable, old(dst.pairs));
    var cleared := dst.Clear();
    if cleared.Err? {
      return cleared;
    }
    var list := src.pairs;
    ghost var whole := AddAll(dst.methods, c.value, list);
    var i := 0;
    while i < |list|
      invariant 0 <= i <= |list| && AddAll(dst.methods, dst.pairs, list[i..]) == whole
    {
      AddAllStep(dst.methods, dst.pairs, list, i);
      var added := dst.Add(list[i].0, list[i].1);
      if added.Err? {
        break;
      }
      i := i + 1;
    }
    if i == |list| {
      assert list[i..] == [];
    }
    r := Ok(());
    if dst.methods.Detached? {
      DetachedAddAll(c.value, list);
    }
  }

  // ---------------------------------------------------------------------
  // Format codes
  // ---------------------------------------------------------------------

  /** `rsvc_tag_code_get`: the tag a `%` code stands for. */
  function CodeName(code: char): Option<string>
  {
    match code
    case 'a' => Some("ARTIST")
    case 'A' => Some("ALBUM")
    case 'b' => Some("ALBUMARTIST")
    case 't' => Some("TITLE")
    case 'g' => Some("GENRE")
    case 'G' => Some("GROUPING")
    case 'y' => Some("DATE")
    case 'k' => Some("TRACKNUMBER")
    case 'K' => Some("TRACKTOTAL")
    case 'd' => Some("DISCNUMBER")
    case 'D' => Some("DISCTOTAL")
    case 'S' => Some("SHOW")
    case 'e' => Some("EPISODENUMBER")
    case 'E' => Some("EPISODETOTAL")
    case 'c' => Some("SEASONNUMBER")
    case 'C' => Some("SEASONTOTAL")
    case _ => None
  }

  /** A piece of a parsed format: text copied as it is, or a code. */
  datatype Token = Literal(text: string) | Code(code: char)

  /** `strcspn(s, "%/")`. */
  function LiteralSpan(s: string): (r: nat)
    ensures r <= |s| && forall k | 0 <= k < r :: s[k] != '%' && s[k] != '/'
    ensures r < |s| ==> s[r] == '%' || s[r] == '/'
  {
    if s == [] || s[0] == '%' || s[0] == '/' then 0 else 1 + LiteralSpan(s[1..])
  }

  /** `strspn(s, "/")`. */
  function SlashSpan(s: string): (r: nat)
    ensures r <= |s| && forall k | 0 <= k < r :: s[k] == '/'
    ensures r < |s| ==> s[r] != '/'
    ensures s != [] && s[0] == '/' ==> r > 0
  {
    if s == [] || s[0] != '/' then 0 else 1 + SlashSpan(s[1..])
  }

  /** `printf("%o", n)`. */
  function Octal(n: nat): string
  {
    if n < 8 then [('0' as int + n) as char] else Octal(n / 8) + [('0' as int + n % 8) as char]
  }

  /**
   * The message `parse_format` fails with at code character `c` (NUL when
   * the format ends in '%'): printable ASCII is shown as it is, anything
   * else in octal. A byte from 0x80 is a negative `char`, so it prints as
   * the octal of that negative value taken as an unsigned `int`.
   */
  function BadCode(format: string, c: char): string
  {
    if ' ' <= c && (c as int) < 0x80 then format + ": invalid format code %" + [c]
    else format + ": invalid format code %\\" + Octal(if (c as int) < 0x80 then c as int else UINT32_LIMIT + c as int - 256)
  }

  /** A token in front of a parse result. */
  function Prefixed(t: Token, r: Result<seq<Token>>): Result<seq<Token>>
  {
    match r
    case Ok(ts) => Ok([t] + ts)
    case Err(m) => Err(m)
  }

  /** Tokens already delivered, in front of a parse result. */
  function After(ts: seq<Token>, r: Result<seq<Token>>): Result<seq<Token>>
  {
    match r
    case Ok(rest) => Ok(ts + rest)
    case Err(m) => Err(m)
  }

  lemma {:induction false} AfterPrefixed(ts: seq<Token>, t: Token, r: Result<seq<Token>>)
    ensures After(ts, Prefixed(t, r)) == After(ts + [t], r)
  {
    if r.Ok? {
      assert ts + ([t] + r.value) == ts + [t] + r.value;
    }
  }

  /** Every code a parse delivers names a tag, and every text is non-empty. */
  predicate WellFormed(ts: seq<Token>)
  {
    forall t <- ts :: (t.Code? ==> CodeName(t.code).Some?) && (t.Literal? ==> t.text != [])
  }

  /** The format text a token came from. */
  function Spelled(t: Token): string
  {
    match t
    case Code(c) => ['%', c]
    case Literal(s) => if s == "%" then "%%" else s
  }

  /**
   * The first thing `parse_format` hands its block from position `at` of
   * `format` on, and where the next one starts: a run of other text, a run
   * of '/', "%%" as a literal '%', or a known code. Any other code fails,
   * naming the whole format. The token spells the text it came from.
   */
  function FirstToken(format: string, at: nat): (r: Result<(Token, nat)>)
    requires at < |format|
    ensures r.Ok? ==> at < r.value.1 <= |format| && Spelled(r.value.0) == format[at..r.value.1]
    ensures r.Ok? ==> WellFormed([r.value.0])
  {
    var rest := format[at..];
    var n := LiteralSpan(rest);
    if n > 0 then
      assert rest[..n] != "%" by { assert rest[0] != '%'; }
      Ok((Literal(rest[..n]), at + n))
    else if rest[0] == '/' then
      var m := SlashSpan(rest);
      assert rest[..m] != "%" by { assert rest[0] == '/'; }
      Ok((Literal(rest[..m]), at + m))
    else
      var c := if |rest| > 1 then rest[1] else '\0';
      if c == '%' then Ok((Literal("%"), at + 2))
      else if CodeName(c).Some? then Ok((Code(c), at + 2))
      else Err(BadCode(format, c))
  }

  /** What `parse_format` hands its block from position `at` of `format` on, or the first failure. */
  function TokensFrom(format: string, at: nat): (r: Result<seq<Token>>)
    requires at <= |format|
    ensures r.Ok? ==> WellFormed(r.value)
    decreases |format| - at
  {
    if at == |format| then Ok([])
    else
      match FirstToken(format, at)
      case Err(m) => Err(m)
      case Ok(first) => Prefixed(first.0, TokensFrom(format, first.1))
  }

  /** One step of `TokensFrom`. */
  lemma {:induction false} TokensFromStep(format: string, at: nat, t: Token, next: nat)
    requires at < |format| && FirstToken(format, at) == Ok((t, next))
    ensures TokensFrom(format, at) == Prefixed(t, TokensFrom(format, next))
  {
  }

  function Unparse(ts: seq<Token>): string
  {
    if ts == [] then "" else Spelled(ts[0]) + Unparse(ts[1..])
  }

  lemma {:induction false} UnparseNext(t: Token, ts: seq<Token>)
    ensures Unparse([t] + ts) == Spelled(t) + Unparse(ts)
  {
    assert ([t] + ts)[1..] == ts;
  }

  /** A format that parses is spelled back by its tokens: nothing is lost or invented. */
  lemma {:induction false} FormatRoundTrip(format: string, at: nat)
    requires at <= |format| && TokensFrom(format, at).Ok?
    ensures Unparse(TokensFrom(format, at).value) == format[at..]
    decreases |format| - at
  {
    if at < |format| {
      var first := FirstToken(format, at).value;
      TokensFromStep(format, at, first.0, first.1);
      var rest := TokensFrom(format, first.1).value;
      FormatRoundTrip(format, first.1);
      UnparseNext(first.0, rest);
      SliceSplit(format, at, first.1);
    }
  }

  lemma {:induction false} SliceSplit(s: string, i: nat, j: nat)
    requires i <= j <= |s|
    ensures s[i..] == s[i..j] + s[j..]
  {
  }

  /**
   * `parse_format`: token after token, as `FirstToken` finds them; the
   * first bad code ends the parse.
   */
  method ParseFormat(format: string) returns (r: Result<seq<Token>>)
    ensures r == TokensFrom(format, 0)
  {
    var tokens: seq<Token> := [];
    var at := 0;
    if TokensFrom(format, 0).Ok? {
      assert [] + TokensFrom(format, 0).value == TokensFrom(format, 0).value;
    }
    while at < |format|
      invariant at <= |format|
      invariant TokensFrom(format, 0) == After(tokens, TokensFrom(format, at))
      decreases |format| - at
    {
      match FirstToken(format, at)
      case Err(m) =>
        return Err(m);
      case Ok(next) =>
        AfterPrefixed(tokens, next.0, TokensFrom(format, next.1));
        tokens := tokens + [next.0];
        at := next.1;
    }
    assert tokens + [] == tokens;
    r := Ok(tokens);
  }

  /** `rsvc_tags_validate_strf`: the format parses. */
  method ValidateFormat(format: string) returns (r: Result<()>)
    ensures r.Ok? <==> TokensFrom(format, 0).Ok?
    ensures r.Err? ==> TokensFrom(format, 0) == Err(r.msg)
  {
    var parsed := ParseFormat(format);
    if parsed.Err? {
      return Err(parsed.msg);
    }
    r := Ok(());
  }

  /** The tail "%Ax%%" of the example below: a code, a text run and an escaped '%'. */
  lemma {:induction false} ParseExampleTail(f: string)
    requires f == "%b//%Ax%%"
    ensures TokensFrom(f, 4) == Ok([Code('A'), Literal("x"), Literal("%")])
  {
    assert f[7..] == "%%" && f[6..] == "x%%" && f[4..] == "%Ax%%";
    assert LiteralSpan(f[7..]) == 0 && LiteralSpan(f[6..]) == 1 && LiteralSpan(f[4..]) == 0;
    assert f[6..][..1] == "x";
    assert CodeName('A').Some?;
    TokensFromStep(f, 7, Literal("%"), 9);
    TokensFromStep(f, 6, Literal("x"), 7);
    TokensFromStep(f, 4, Code('A'), 6);
    assert [Literal("%")] + [] == [Literal("%")];
    assert [Literal("x")] + [Literal("%")] == [Literal("x"), Literal("%")];
    assert [Code('A')] + [Literal("x"), Literal("%")] == [Code('A'), Literal("x"), Literal("%")];
  }

  lemma {:induction false} ParseExampleHead(f: string)
    requires f == "%b//%Ax%%"
    ensures FirstToken(f, 0) == Ok((Code('b'), 2))
    ensures FirstToken(f, 2) == Ok((Literal("//"), 4))
  {
    assert CodeName('b') == Some("ALBUMARTIST");
    assert f[0..] == f && f[0] == '%';
    assert f[2..] == "//%Ax%%" && f[2..][..2] == "//";
    assert f[2..][1..] == "/%Ax%%" && f[2..][2..] == "%Ax%%";
    assert SlashSpan(f[2..][2..]) == 0 && SlashSpan(f[2..][1..]) == 1;
    assert LiteralSpan(f[2..]) == 0 && SlashSpan(f[2..]) == 2;
  }

  /** What a format parses into: codes, a run of '/', text and an escaped '%'. */
  lemma {:induction false} ParseExample(f: string)
    requires f == "%b//%Ax%%"
    ensures TokensFrom(f, 0) == Ok([Code('b'), Literal("//")] + [Code('A'), Literal("x"), Literal("%")])
  {
    var tail := [Code('A'), Literal("x"), Literal("%")];
    ParseExampleTail(f);
    ParseExampleHead(f);
    TokensFromStep(f, 2, Literal("//"), 4);
    TokensFromStep(f, 0, Code('b'), 2);
    assert [Code('b')] + ([Literal("//")] + tail) == [Code('b'), Literal("//")] + tail;
  }

  lemma {:induction false} UnknownCodeMessage()
    ensures BadCode("%z", 'z') == "%z: invalid format code %z"
  {
    assert "%z" + ": invalid format code %" + "z" == "%z: invalid format code %z";
  }

  lemma {:induction false} UnknownCodeFirst(f: string)
    requires f == "%z"
    ensures FirstToken(f, 0) == Err(BadCode(f, 'z'))
  {
    assert CodeName('z') == None;
    assert LiteralSpan(f) == 0 && f[0..] == f;
  }

  /** An unknown code fails naming it. */
  lemma {:induction false} UnknownCodeExample(f: string)
    requires f == "%z"
    ensures TokensFrom(f, 0) == Err("%z: invalid format code %z")
  {
    UnknownCodeFirst(f);
    UnknownCodeMessage();
  }

  lemma {:induction false} TrailingPercentMessage()
    ensures BadCode("a%", '\0') == "a%: invalid format code %\\0"
  {
    assert Octal(0) == "0";
    assert "a%" + ": invalid format code %\\" + "0" == "a%: invalid format code %\\0";
  }

  /** A '%' at the very end fails as code NUL, shown in octal. */
  lemma {:induction false} TrailingPercentExample(f: string)
    requires f == "a%"
    ensures TokensFrom(f, 0) == Err("a%: invalid format code %\\0")
  {
    assert CodeName('\0') == None;
    assert f[0..] == f && LiteralSpan(f) == 1 && f[1..] == "%" && LiteralSpan("%") == 0;
    assert f[..1] == "a";
    TrailingPercentMessage();
    assert FirstToken(f, 1) == Err("a%: invalid format code %\\0");
  }

  // ---------------------------------------------------------------------
  // Expanding a format
  // ---------------------------------------------------------------------

  /** Whether a canonical integer: "0", or digits that do not start with '0'. */
  predicate Canonical(s: string)
  {
    s == "0" || (s != [] && '1' <= s[0] <= '9' && AllDigits(s[1..]))
  }

  /** `is_canonical_int`: "0", or a digit 1 to 9 followed by digits. */
  method IsCanonicalInt(s: string) returns (r: bool)
    ensures r <==> Canonical(s)
  {
    if s == "0" {
      return true;
    }
    if s != [] && '1' <= s[0] <= '9' {
      var i := 1;
      while i < |s|
        invariant 1 <= i <= |s|
        invariant AllDigits(s[1..i])
      {
        if s[i] < '0' || '9' < s[i] {
          assert !AllDigits(s[1..]) by { assert s[1..][i - 1] == s[i]; }
          return false;
        }
        assert s[1..i + 1] == s[1..i] + [s[i]];
        i := i + 1;
      }
      return true;
    }
    r := false;
  }

  /** A non-empty run of digits that does not start with '0' has a value of at least one. */
  lemma {:induction false} LeadingDigitValue(s: string)
    requires s != [] && AllDigits(s) && s[0] != '0'
    ensures DecimalValue(s) >= 1
  {
    if |s| > 1 {
      LeadingDigitValue(s[..|s| - 1]);
    }
  }

  /**
   * The canonical integers are exactly the decimal spellings of numbers:
   * a string is canonical when it is what `printf("%zu")` writes for its
   * own value.
   */
  lemma {:induction false} CanonicalIsDecimal(s: string)
    ensures Canonical(s) <==> s != [] && AllDigits(s) && Decimal(DecimalValue(s)) == s
  {
    if s != [] && AllDigits(s) && Decimal(DecimalValue(s)) == s {
      var d := Decimal(DecimalValue(s));
      assert s[0] == '0' ==> DecimalValue(s) == 0;
      assert AllDigits(s[1..]) by { assert forall k | 0 <= k < |s| - 1 :: s[1..][k] == s[k + 1]; }
    }
    if Canonical(s) {
      CanonicalSpelled(s);
    }
  }

  lemma {:induction false} CanonicalSpelled(s: string)
    requires Canonical(s)
    ensures AllDigits(s) && Decimal(DecimalValue(s)) == s
  {
    assert AllDigits(s) by {
      forall k | 0 <= k < |s| ensures IsDigit(s[k]) {
        if k > 0 { assert s[1..][k - 1] == s[k]; }
      }
    }
    if |s| > 1 {
      var init := s[..|s| - 1];
      assert Canonical(init) by {
        assert init[1..] == s[1..][..|s| - 2];
      }
      CanonicalSpelled(init);
      LeadingDigitValue(init);
      var v := DecimalValue(s);
      assert v == DecimalValue(init) * 10 + DigitValue(s[|s| - 1]);
      assert v / 10 == DecimalValue(init) && v % 10 == DigitValue(s[|s| - 1]);
      assert s == init + [s[|s| - 1]];
    }
  }

  /** The zeros `snpathf` writes before a value: enough to pad a canonical integer to `precision`. */
  function Zeros(value: string, precision: nat): (r: string)
    ensures forall k | 0 <= k < |r| :: r[k] == '0'
    ensures Canonical(value) && precision > 0 ==> |r + value| == (if |value| < precision then precision else |value|)
    ensures !Canonical(value) || precision == 0 ==> r == ""
  {
    if precision > 0 && Canonical(value) && |value| < precision then ZeroRun(precision - |value|) else ""
  }

  /** `n` zeros. */
  function ZeroRun(n: nat): (r: string)
    ensures |r| == n && forall k | 0 <= k < n :: r[k] == '0'
  {
    seq(n, _ => '0')
  }

  lemma {:induction false} ZeroRunCons(n: nat, s: string)
    requires n > 0
    ensures ZeroRun(n) + s == "0" + (ZeroRun(n - 1) + s)
  {
  }

  /** Leading zeros do not change the value of a run of digits. */
  lemma {:induction false} LeadingZerosValue(n: nat, s: string)
    requires AllDigits(s)
    ensures AllDigits(ZeroRun(n) + s) && DecimalValue(ZeroRun(n) + s) == DecimalValue(s)
  {
    if n > 0 {
      LeadingZerosValue(n - 1, s);
      ZeroRunCons(n, s);
      ZeroPrefixValue(ZeroRun(n - 1) + s);
      assert AllDigits(ZeroRun(n) + s);
      assert DecimalValue(ZeroRun(n) + s) == DecimalValue("0" + (ZeroRun(n - 1) + s));
    } else {
      assert ZeroRun(n) + s == s;
    }
  }

  /** Padding a canonical number keeps its value. */
  lemma {:induction false} ZerosKeepValue(value: string, precision: nat)
    requires Canonical(value)
    ensures AllDigits(Zeros(value, precision) + value)
    ensures DecimalValue(Zeros(value, precision) + value) == DecimalValue(value)
  {
    CanonicalSpelled(value);
    var z := Zeros(value, precision);
    LeadingZerosValue(|z|, value);
    assert z == ZeroRun(|z|);
  }

  /** The ASCII characters `escape_for_path` keeps. */
  predicate PathSafe(c: char)
  {
    'A' <= c <= 'Z' || 'a' <= c <= 'z' || '0' <= c <= '9'
    || c in {' ', '#', '%', '&', '\'', '(', ')', '*', '+', ',', '-', '@', '[', ']', '^', '_', '{', '|', '}', '~'}
  }

  function EscapeChar(c: char): char
  {
    if c as int >= 0x80 || PathSafe(c) then c else '_'
  }

  /** A value as `escape_for_path` leaves it: same length, every other character replaced by '_'. */
  function Escaped(s: string): (r: string)
    ensures |r| == |s| && forall k | 0 <= k < |s| :: r[k] == EscapeChar(s[k])
  {
    seq(|s|, k requires 0 <= k < |s| => EscapeChar(s[k]))
  }

  /**
   * An escaped value is a safe path component: it holds no '/' and no '.',
   * keeps non-ASCII bytes and whitelisted ASCII, and escaping again
   * changes nothing.
   */
  lemma {:induction false} EscapedSafe(s: string)
    ensures '/' !in Escaped(s) && '.' !in Escaped(s)
    ensures forall k | 0 <= k < |s| :: (Escaped(s)[k] == s[k] <==> s[k] as int >= 0x80 || PathSafe(s[k]) || s[k] == '_')
    ensures Escaped(Escaped(s)) == Escaped(s)
  {
  }

  /** `escape_for_path`: each character is kept or replaced in place. */
  method EscapeForPath(a: array<char>)
    modifies a
    ensures a[..] == Escaped(old(a[..]))
  {
    var i := 0;
    while i < a.Length
      invariant 0 <= i <= a.Length
      invariant forall k | 0 <= k < i :: a[k] == EscapeChar(old(a[k]))
      invariant forall k | i <= k < a.Length :: a[k] == old(a[k])
    {
      if a[i] as int >= 0x80 {
      } else if PathSafe(a[i]) {
      } else {
        a[i] := '_';
      }
      i := i + 1;
    }
  }

  /** The non-empty values of the pairs named `name` (compared without case), in order. */
  function Values(tags: seq<Pair>, name: string): (r: seq<string>)
    ensures forall v <- r :: v != ""
    ensures |r| <= |tags|
  {
    if tags == [] then []
    else
      var p := tags[|tags| - 1];
      Values(tags[..|tags| - 1], name) + (if SameName(p.0, name) && p.1 != "" then [p.1] else [])
  }

  lemma {:induction false} ValuesNext(tags: seq<Pair>, i: nat, name: string)
    requires i < |tags|
    ensures Values(tags[..i + 1], name)
      == Values(tags[..i], name) + (if SameName(tags[i].0, name) && tags[i].1 != "" then [tags[i].1] else [])
  {
    assert tags[..i + 1][..i] == tags[..i];
  }

  /** `any_tags`: some pair is named `name`. */
  predicate AnyNamed(tags: seq<Pair>, name: string)
  {
    exists k | 0 <= k < |tags| :: SameName(tags[k].0, name)
  }

  /** `max_precision`: the longest value named `name`, and at least `minimum`. */
  function Precision(tags: seq<Pair>, name: string, minimum: nat): (r: nat)
    ensures r >= minimum && forall k | 0 <= k < |tags| :: SameName(tags[k].0, name) ==> |tags[k].1| <= r
    ensures r == minimum || exists k | 0 <= k < |tags| :: SameName(tags[k].0, name) && |tags[k].1| == r
  {
    if tags == [] then minimum
    else
      var init := tags[..|tags| - 1];
      var rest := Precision(init, name, minimum);
      var p := tags[|tags| - 1];
      assert forall k | 0 <= k < |init| :: tags[k] == init[k];
      if SameName(p.0, name) && |p.1| > rest then |p.1| else rest
  }

  /** `max_precision`, walking the tags. */
  method MaxPrecision(tags: seq<Pair>, name: string, minimum: nat) returns (r: nat)
    ensures r == Precision(tags, name, minimum)
  {
    r := minimum;
    var i := 0;
    while i < |tags|
      invariant 0 <= i <= |tags| && r == Precision(tags[..i], name, minimum)
    {
      assert tags[..i + 1][..i] == tags[..i];
      if SameName(tags[i].0, name) && |tags[i].1| > r {
        r := |tags[i].1|;
      }
      i := i + 1;
    }
    assert tags[..i] == tags;
  }

  /** `any_tags`, walking the tags until one matches. */
  method AnyTags(tags: seq<Pair>, name: string) returns (r: bool)
    ensures r <==> AnyNamed(tags, name)
  {
    var i := 0;
    while i < |tags|
      invariant 0 <= i <= |tags| && forall k | 0 <= k < i :: !SameName(tags[k].0, name)
    {
      if SameName(tags[i].0, name) {
        return true;
      }
      i := i + 1;
    }
    r := false;
  }

  /** Where `snpathf` stands: nothing yet, a path with content, or a path whose last part came out empty. */
  datatype State = Initial | Content | NoContent

  /** `struct snpath_context`: the state, and the code last expanded (NUL after text). */
  datatype Context = Context(state: State, last: char)

  /** What goes before a code's first value: '-' from disc to track and season to episode, ' ' after another code. */
  function Separator(code: char, last: char): string
  {
    if (code == 'k' && last == 'd') || (code == 'e' && last == 'c') then "-"
    else if last != '\0' then " "
    else ""
  }

  /** The width numbers are padded to: TRACKTOTAL for tracks and episodes, DISCTOTAL for discs and seasons. */
  function CodePrecision(code: char, tags: seq<Pair>): nat
  {
    if code == 'k' || code == 'e' then Precision(tags, "TRACKTOTAL", 2)
    else if code == 'd' || code == 'c' then Precision(tags, "DISCTOTAL", 1)
    else 0
  }

  /** The code whose tag is shown: ALBUMARTIST falls back to ARTIST when there is none. */
  function Shown(code: char, tags: seq<Pair>): char
  {
    if code == 'b' && !AnyNamed(tags, "ALBUMARTIST") then 'a' else code
  }

  /** The values of a code, each after the separator (the first) or ", ", padded and escaped. */
  function Joined(values: seq<string>, separator: string, precision: nat): string
  {
    if values == [] then ""
    else
      var v := values[|values| - 1];
      Joined(values[..|values| - 1], separator, precision)
        + (if |values| == 1 then separator else ", ") + Zeros(v, precision) + Escaped(v)
  }

  /** The text one token adds and the context after it. */
  function Step(t: Token, ctx: Context, tags: seq<Pair>): (string, Context)
    requires t.Code? ==> CodeName(t.code).Some?
  {
    match t
    case Literal(s) =>
      if s == [] then ("", ctx)
      else if s[0] == '/' then (if ctx.state != NoContent then s else "", Context(NoContent, '\0'))
      else (s, Context(Content, '\0'))
    case Code(c) =>
      var shown := Shown(c, tags);
      var values := Values(tags, CodeName(shown).value);
      (Joined(values, Separator(c, ctx.last), CodePrecision(c, tags)),
       if values != [] then Context(Content, shown)
       else if ctx.state == Initial then Context(NoContent, ctx.last)
       else ctx)
  }

  /** The text of a parsed format, and the context at its end. */
  function Expand(ts: seq<Token>, tags: seq<Pair>): (string, Context)
    requires WellFormed(ts)
  {
    if ts == [] then ("", Context(Initial, '\0'))
    else
      var before := Expand(ts[..|ts| - 1], tags);
      var step := Step(ts[|ts| - 1], before.1, tags);
      (before.0 + step.0, step.1)
  }

  /** The whole path: the expanded format, then '.' and the extension when there is one. */
  function PathText(ts: seq<Token>, tags: seq<Pair>, extension: Option<string>): string
    requires WellFormed(ts)
  {
    Expand(ts, tags).0 + (if extension.Some? then "." + extension.value else "")
  }

  // ---------------------------------------------------------------------
  // Writing into a bounded buffer
  // ---------------------------------------------------------------------

  /** The `dst`, `dst_size` and `size_needed` of `snpathf`: what was written, the room left, the size asked for. */
  datatype Cursor = Cursor(written: string, room: nat, needed: nat)

  /** `clipped_cat`: copies what fits, shrinks the room by as much, and counts the whole source as needed. */
  function ClippedCat(c: Cursor, src: string): Cursor
  {
    var n := Min(c.room, |src|);
    Cursor(c.written + src[..n], c.room - n, c.needed + |src|)
  }

  /** A cursor over a buffer of `capacity` characters that has been asked to hold `asked`. */
  predicate Clipped(c: Cursor, capacity: nat, asked: string)
  {
    c.needed == |asked| && |c.written| == Min(capacity, |asked|)
    && c.written == asked[..|c.written|] && c.room == capacity - |c.written|
  }

  /**
   * Appending with `clipped_cat` keeps the buffer a prefix of everything
   * asked for, as long as fits, and counts everything asked for.
   */
  lemma {:induction false} ClippedCatKeeps(c: Cursor, capacity: nat, asked: string, src: string)
    requires Clipped(c, capacity, asked)
    ensures Clipped(ClippedCat(c, src), capacity, asked + src)
  {
    var n := Min(c.room, |src|);
    var all := asked + src;
    if |c.written| == |asked| {
      assert c.written + src[..n] == all[..|asked| + n];
    } else {
      assert n == 0;
      assert c.written + src[..n] == all[..|c.written|];
    }
  }

  /** A buffer with room for everything asked for holds all of it. */
  lemma {:induction false} ClippedAll(c: Cursor, capacity: nat, asked: string)
    requires Clipped(c, capacity, asked) && |asked| <= capacity
    ensures c.written == asked
  {
  }

  /** Three appends in a row. */
  lemma {:induction false} ClippedCat3(c: Cursor, capacity: nat, asked: string, a: string, b: string, d: string)
    requires Clipped(c, capacity, asked)
    ensures Clipped(ClippedCat(ClippedCat(ClippedCat(c, a), b), d), capacity, asked + (a + b + d))
  {
    ClippedCatKeeps(c, capacity, asked, a);
    ClippedCatKeeps(ClippedCat(c, a), capacity, asked + a, b);
    ClippedCatKeeps(ClippedCat(ClippedCat(c, a), b), capacity, asked + a + b, d);
    assert asked + a + b + d == asked + (a + b + d);
  }

  lemma {:induction false} AppendAssoc(a: string, b: string, c: string)
    ensures a + b + c == a + (b + c)
  {
  }

  /** One more value of a code: the separator or ", ", the padding, the escaped value. */
  lemma {:induction false} JoinedNext(values: seq<string>, v: string, separator: string, precision: nat)
    ensures Joined(values + [v], separator, precision)
      == Joined(values, separator, precision) + ((if values == [] then separator else ", ") + Zeros(v, precision) + Escaped(v))
  {
    assert (values + [v])[..|values|] == values;
  }

  /** Writes the zeros that pad `value`, one at a time. */
  method WriteZeros(c: Cursor, ghost capacity: nat, ghost asked: string, value: string, precision: nat) returns (r: Cursor)
    requires Clipped(c, capacity, asked)
    ensures Clipped(r, capacity, asked + Zeros(value, precision))
  {
    r := c;
    var canonical := IsCanonicalInt(value);
    if precision > 0 && canonical {
      var i := |value|;
      while i < precision
        invariant i == |value| || |value| < i <= precision
        invariant Clipped(r, capacity, asked + ZeroRun(i - |value|))
      {
        ClippedCatKeeps(r, capacity, asked + ZeroRun(i - |value|), "0");
        assert asked + ZeroRun(i - |value|) + "0" == asked + ZeroRun(i + 1 - |value|);
        r := ClippedCat(r, "0");
        i := i + 1;
      }
      if |value| >= precision {
        assert asked + ZeroRun(i - |value|) == asked + Zeros(value, precision);
      }
    } else {
      assert asked + Zeros(value, precision) == asked;
    }
  }

  /** One value of a code: its lead (the separator or ", "), its padding zeros, then the value escaped for a path. */
  method WriteValue(c: Cursor, ghost capacity: nat, ghost asked: string, lead: string, value: string, precision: nat)
    returns (r: Cursor)
    requires Clipped(c, capacity, asked)
    ensures Clipped(r, capacity, asked + (lead + Zeros(value, precision) + Escaped(value)))
  {
    ClippedCatKeeps(c, capacity, asked, lead);
    r := ClippedCat(c, lead);
    r := WriteZeros(r, capacity, asked + lead, value, precision);
    var escaped := new char[|value|](k requires 0 <= k < |value| => value[k]);
    assert escaped[..] == value;
    EscapeForPath(escaped);
    ClippedCatKeeps(r, capacity, asked + lead + Zeros(value, precision), escaped[..]);
    r := ClippedCat(r, escaped[..]);
    assert asked + lead + Zeros(value, precision) + Escaped(value) == asked + (lead + Zeros(value, precision) + Escaped(value));
  }

  /**
   * The values of one code: for each pair with the code's name and a
   * non-empty value, the separator (first) or ", ", then padding zeros,
   * then the value escaped for a path. `count` is how many were written.
   */
  method WriteValues(c: Cursor, ghost capacity: nat, ghost asked: string, tags: seq<Pair>, name: string,
                     separator: string, precision: nat) returns (r: Cursor, count: nat)
    requires Clipped(c, capacity, asked)
    ensures Clipped(r, capacity, asked + Joined(Values(tags, name), separator, precision))
    ensures count == |Values(tags, name)|
  {
    r := c;
    count := 0;
    var i := 0;
    while i < |tags|
      invariant 0 <= i <= |tags| && count == |Values(tags[..i], name)|
      invariant Clipped(r, capacity, asked + Joined(Values(tags[..i], name), separator, precision))
    {
      ghost var values := Values(tags[..i], name);
      if SameName(tags[i].0, name) && tags[i].1 != "" {
        var value := tags[i].1;
        var lead := if count == 0 then separator else ", ";
        ghost var piece := lead + Zeros(value, precision) + Escaped(value);
        r := WriteValue(r, capacity, asked + Joined(values, separator, precision), lead, value, precision);
        assert lead == (if values == [] then separator else ", ");
        JoinedNext(values, value, separator, precision);
        AppendAssoc(asked, Joined(values, separator, precision), piece);
        ghost var after := asked + Joined(values + [value], separator, precision);
        assert Clipped(r, capacity, after);
        ValuesNext(tags, i, name);
        assert Clipped(r, capacity, asked + Joined(Values(tags[..i + 1], name), separator, precision));
        count := count + 1;
      } else {
        ValuesNext(tags, i, name);
        assert values + [] == values;
        assert Clipped(r, capacity, asked + Joined(Values(tags[..i + 1], name), separator, precision));
      }
      i := i + 1;
    }
    assert tags[..i] == tags;
  }

  // ---------------------------------------------------------------------
  // snpathf and rsvc_tags_strf
  // ---------------------------------------------------------------------

  /** The block `snpathf` hands `parse_format`: one token written out, the context updated. */
  method Apply(c: Cursor, ghost capacity: nat, ghost asked: string, t: Token, ctx: Context, tags: seq<Pair>)
    returns (r: Cursor, after: Context)
    requires Clipped(c, capacity, asked) && (t.Code? ==> CodeName(t.code).Some?)
    ensures Clipped(r, capacity, asked + Step(t, ctx, tags).0) && after == Step(t, ctx, tags).1
  {
    match t
    case Literal(s) =>
      if |s| == 0 {
        r, after := c, ctx;
        assert asked + "" == asked;
      } else if s[0] == '/' {
        if ctx.state != NoContent {
          ClippedCatKeeps(c, capacity, asked, s);
          r := ClippedCat(c, s);
        } else {
          r := c;
          assert asked + "" == asked;
        }
        after := Context(NoContent, '\0');
      } else {
        ClippedCatKeeps(c, capacity, asked, s);
        r := ClippedCat(c, s);
        after := Context(Content, '\0');
      }
    case Code(code) =>
      var prefix := if (code == 'k' && ctx.last == 'd') || (code == 'e' && ctx.last == 'c') then "-"
        else if ctx.last != '\0' then " " else "";
      var precision := 0;
      var shown := code;
      if code == 'k' || code == 'e' {
        precision := MaxPrecision(tags, "TRACKTOTAL", 2);
      } else if code == 'd' || code == 'c' {
        precision := MaxPrecision(tags, "DISCTOTAL", 1);
      } else if code == 'b' {
        var any := AnyTags(tags, "ALBUMARTIST");
        if !any {
          shown := 'a';
        }
      }
      assert CodeName('a') == Some("ARTIST");
      var count;
      r, count := WriteValues(c, capacity, asked, tags, CodeName(shown).value, prefix, precision);
      if count > 0 {
        after := Context(Content, shown);
      } else if ctx.state == Initial {
        after := Context(NoContent, ctx.last);
      } else {
        after := ctx;
      }
  }

  /** The tail of `snpathf`: '.' and the extension, when there is one. */
  method AppendExtension(c: Cursor, ghost capacity: nat, ghost asked: string, extension: Option<string>) returns (r: Cursor)
    requires Clipped(c, capacity, asked)
    ensures Clipped(r, capacity, asked + (if extension.Some? then "." + extension.value else ""))
  {
    r := c;
    if extension.Some? {
      ClippedCatKeeps(r, capacity, asked, ".");
      r := ClippedCat(r, ".");
      ClippedCatKeeps(r, capacity, asked + ".", extension.value);
      r := ClippedCat(r, extension.value);
      assert asked + "." + extension.value == asked + ("." + extension.value);
    } else {
      assert asked + "" == asked;
    }
  }

  /** The room `snpathf` writes into: all of a buffer of `capacity` but the terminating NUL. */
  function Room(capacity: nat): nat
  {
    if capacity > 0 then capacity - 1 else 0
  }

  /**
   * `snpathf`: expands `format` over `tags`, then ".extension", into a
   * buffer of `capacity` characters. It yields the text written (all of
   * the path that fits, before the terminating NUL) and the size the
   * whole path needs; a format that does not parse fails as the parse
   * does.
   */
  method Snpathf(capacity: nat, format: string, tags: seq<Pair>, extension: Option<string>)
    returns (r: Result<(string, nat)>)
    ensures r.Ok? <==> TokensFrom(format, 0).Ok?
    ensures r.Err? ==> TokensFrom(format, 0) == Err(r.msg)
    ensures r.Ok? ==> var full := PathText(TokensFrom(format, 0).value, tags, extension);
      r.value.1 == |full| && r.value.0 == full[..Min(Room(capacity), |full|)]
  {
    var parsed := ParseFormat(format);
    if parsed.Err? {
      return Err(parsed.msg);
    }
    var tokens := parsed.value;
    var out := Cursor("", Room(capacity), 0);
    var ctx := Context(Initial, '\0');
    var i := 0;
    while i < |tokens|
      invariant 0 <= i <= |tokens| && WellFormed(tokens[..i])
      invariant Clipped(out, Room(capacity), Expand(tokens[..i], tags).0) && ctx == Expand(tokens[..i], tags).1
    {
      assert tokens[i] in tokens;
      assert tokens[..i + 1][..i] == tokens[..i];
      out, ctx := Apply(out, Room(capacity), Expand(tokens[..i], tags).0, tokens[i], ctx, tags);
      i := i + 1;
    }
    assert tokens[..i] == tokens;
    out := AppendExtension(out, Room(capacity), Expand(tokens, tags).0, extension);
    r := Ok((out.written, out.needed));
  }

  /**
   * `rsvc_tags_strf`: sizes the path with a first pass into no buffer,
   * then writes it into a buffer one larger; the result is the whole path.
   */
  method Strf(tags: seq<Pair>, format: string, extension: Option<string>) returns (r: Result<string>)
    ensures r.Ok? <==> TokensFrom(format, 0).Ok?
    ensures r.Err? ==> TokensFrom(format, 0) == Err(r.msg)
    ensures r.Ok? ==> r.value == PathText(TokensFrom(format, 0).value, tags, extension)
  {
    var sized := Snpathf(0, format, tags, extension);
    if sized.Err? {
      return Err(sized.msg);
    }
    var filled := Snpathf(sized.value.1 + 1, format, tags, extension);
    r := match filled
      case Ok(v) => Ok(v.0)
      case Err(m) => Err(m);
  }

  // ---------------------------------------------------------------------
  // What expansion promises
  // ---------------------------------------------------------------------

  /** Text resets the code last expanded, so a code right after text gets no separator. */
  lemma {:induction false} TextResetsSeparator(s: string, ctx: Context, tags: seq<Pair>, code: char)
    requires s != []
    ensures Step(Literal(s), ctx, tags).1.last == '\0'
    ensures code != 'k' && code != 'e' ==> Separator(code, Step(Literal(s), ctx, tags).1.last) == ""
  {
  }

  /**
   * Empty directories are dropped: a run of '/' is written only when
   * something came since the last one, and a code that expands to nothing
   * before any content leaves the path as if the code were not there.
   */
  lemma {:induction false} EmptyDirectoryDropped(s: string, ctx: Context, tags: seq<Pair>)
    requires s != [] && s[0] == '/'
    ensures Step(Literal(s), ctx, tags).0 == (if ctx.state == NoContent then "" else s)
    ensures Step(Literal(s), ctx, tags).1.state == NoContent
  {
  }

  /** A code with no non-empty value writes nothing, and never makes the path count as having content. */
  lemma {:induction false} MissingTagWritesNothing(code: char, ctx: Context, tags: seq<Pair>)
    requires CodeName(code).Some? && Values(tags, CodeName(Shown(code, tags)).value) == []
    ensures Step(Code(code), ctx, tags).0 == ""
    ensures Step(Code(code), ctx, tags).1.state == (if ctx.state == Initial then NoContent else ctx.state)
    ensures Step(Code(code), ctx, tags).1.last == ctx.last
  {
  }

  /** A code with values writes each of them, escaped and padded, after the separator and between ", ". */
  lemma {:induction false} CodeWritesValues(code: char, ctx: Context, tags: seq<Pair>)
    requires CodeName(code).Some?
    ensures var values := Values(tags, CodeName(Shown(code, tags)).value);
      values != [] ==> (Step(Code(code), ctx, tags).1 == Context(Content, Shown(code, tags))
      && |Step(Code(code), ctx, tags).0| >= |Separator(code, ctx.last)| + |values| - 1 + |values[0]|)
  {
    var values := Values(tags, CodeName(Shown(code, tags)).value);
    if values != [] {
      JoinedLength(values, Separator(code, ctx.last), CodePrecision(code, tags));
    }
  }

  /** Joined values are at least as long as the separator, the ", " between them and the first value. */
  lemma {:induction false} JoinedLength(values: seq<string>, separator: string, precision: nat)
    requires values != []
    ensures |Joined(values, separator, precision)| >= |separator| + |values| - 1 + |values[0]|
  {
    if |values| > 1 {
      var init := values[..|values| - 1];
      JoinedLength(init, separator, precision);
      assert init[0] == values[0];
    }
  }

  /** Expanding one more token: the text so far and what the token adds. */
  lemma {:induction false} ExpandNext(ts: seq<Token>, t: Token, tags: seq<Pair>, before: string, ctx: Context, text: string, after: Context)
    requires WellFormed(ts) && (t.Code? ==> CodeName(t.code).Some?) && (t.Literal? ==> t.text != [])
    requires Expand(ts, tags) == (before, ctx) && Step(t, ctx, tags) == (text, after)
    ensures WellFormed(ts + [t]) && Expand(ts + [t], tags) == (before + text, after)
  {
    assert (ts + [t])[..|ts|] == ts;
  }

  /** A single value: the separator, its padding, the value escaped. */
  lemma {:induction false} JoinedOne(v: string, separator: string, precision: nat)
    ensures Joined([v], separator, precision) == separator + Zeros(v, precision) + Escaped(v)
  {
    assert [v][..0] == [];
  }

  /** Tags with no artist of any kind, one album "X" and one track number "1", numbered to two digits. */
  predicate NoArtist(tags: seq<Pair>)
  {
    !AnyNamed(tags, "ALBUMARTIST") && Values(tags, "ARTIST") == [] && Values(tags, "ALBUM") == ["X"]
    && Values(tags, "TRACKNUMBER") == ["1"] && Precision(tags, "TRACKTOTAL", 2) == 2
  }

  lemma {:induction false} NoArtistCodes(tags: seq<Pair>)
    requires NoArtist(tags)
    ensures Step(Code('b'), Context(Initial, '\0'), tags) == ("", Context(NoContent, '\0'))
    ensures Step(Code('A'), Context(NoContent, '\0'), tags) == ("X", Context(Content, 'A'))
  {
    assert CodeName('a') == Some("ARTIST") && CodeName('A') == Some("ALBUM");
    JoinedOne("X", "", 0);
    assert Zeros("X", 0) == "" && Escaped("X") == "X" && "" + "" + "X" == "X";
    assert Separator('A', '\0') == "" && CodePrecision('A', tags) == 0 && Shown('A', tags) == 'A';
  }

  lemma {:induction false} NoArtistTrack(tags: seq<Pair>)
    requires NoArtist(tags)
    ensures Step(Code('k'), Context(NoContent, '\0'), tags) == ("01", Context(Content, 'k'))
  {
    assert CodeName('k') == Some("TRACKNUMBER");
    JoinedOne("1", "", 2);
    assert Canonical("1") && ZeroRun(1) == "0";
    assert Zeros("1", 2) == "0" && Escaped("1") == "1" && "" + "0" + "1" == "01";
    assert Separator('k', '\0') == "" && CodePrecision('k', tags) == 2 && Shown('k', tags) == 'k';
  }

  /**
   * "%b/%A/%k" with no artist at all: the empty artist directory is
   * dropped, the album stays and the track number is padded to two
   * digits.
   */
  /** The artist directory and the album of "%b/%A/%k" with no artist: the album alone. */
  lemma {:induction false} NoArtistFront(tags: seq<Pair>, ts: seq<Token>)
    requires NoArtist(tags) && ts == [Code('b'), Literal("/"), Code('A')]
    ensures WellFormed(ts) && Expand(ts, tags) == ("X", Context(Content, 'A'))
  {
    assert CodeName('b').Some? && CodeName('A').Some?;
    assert ts[..0] == [] && ts[..1] == ts[..0] + [Code('b')] && ts[..2] == ts[..1] + [Literal("/")]
      && ts == ts[..2] + [Code('A')];
    assert "" + "" == "" && "" + "X" == "X";
    NoArtistCodes(tags);
    ExpandNext(ts[..0], Code('b'), tags, "", Context(Initial, '\0'), "", Context(NoContent, '\0'));
    ExpandNext(ts[..1], Literal("/"), tags, "", Context(NoContent, '\0'), "", Context(NoContent, '\0'));
    ExpandNext(ts[..2], Code('A'), tags, "", Context(NoContent, '\0'), "X", Context(Content, 'A'));
  }

  /**
   * "%b/%A/%k" with no artist at all: the empty artist directory is
   * dropped, the album stays and the track number is padded to two
   * digits.
   */
  lemma {:induction false} NoArtistExample(tags: seq<Pair>, ts: seq<Token>)
    requires NoArtist(tags)
    requires ts == [Code('b'), Literal("/"), Code('A'), Literal("/"), Code('k')]
    ensures WellFormed(ts) && Expand(ts, tags).0 == "X/01"
  {
    assert ts[..3] == [Code('b'), Literal("/"), Code('A')];
    NoArtistFront(tags, ts[..3]);
    assert CodeName('k').Some?;
    assert ts[..4] == ts[..3] + [Literal("/")] && ts == ts[..4] + [Code('k')];
    assert "X" + "/" == "X/" && "X/" + "01" == "X/01";
    ExpandNext(ts[..3], Literal("/"), tags, "X", Context(Content, 'A'), "/", Context(NoContent, '\0'));
    NoArtistTrack(tags);
    ExpandNext(ts[..4], Code('k'), tags, "X/", Context(NoContent, '\0'), "01", Context(Content, 'k'));
  }

  /** An album and a track number, and no artist of any kind, are such tags. */
  lemma {:induction false} AlbumTrackHasNoArtist()
    ensures NoArtist([("ALBUM", "X"), ("TRACKNUMBER", "1")])
  {
    var tags := [("ALBUM", "X"), ("TRACKNUMBER", "1")];
    assert !SameName("TRACKNUMBER", "ALBUMARTIST") by { assert Lower("TRACKNUMBER"[0]) != Lower("ALBUMARTIST"[0]); }
    assert !SameName("ALBUM", "TRACKNUMBER") && !SameName("TRACKNUMBER", "TRACKTOTAL") by {
      assert Lower("ALBUM"[0]) != Lower("TRACKNUMBER"[0]);
      assert Lower("TRACKNUMBER"[5]) != Lower("TRACKTOTAL"[5]);
    }
    assert SameName("ALBUM", "ALBUM") && SameName("TRACKNUMBER", "TRACKNUMBER");
    assert tags[..1] == [("ALBUM", "X")];
  }

  /**
   * Padding applies to canonical integers only: with TRACKTOTAL "1000",
   * TRACKNUMBER "21" is written "0021" but "021" stays as it is.
   */
  lemma {:induction false} PaddingExample(tags: seq<Pair>, number: string)
    requires Values(tags, "TRACKNUMBER") == [number] && Precision(tags, "TRACKTOTAL", 2) == 4
    requires number == "21" || number == "021"
    ensures Step(Code('k'), Context(Initial, '\0'), tags).0 == (if number == "21" then "0021" else "021")
  {
    assert CodeName('k') == Some("TRACKNUMBER");
    JoinedOne(number, "", 4);
    assert Escaped(number) == number;
    if number == "21" {
      assert Canonical("21") && ZeroRun(2) == "00" && Zeros("21", 4) == "00";
    } else {
      assert !Canonical("021") && Zeros("021", 4) == "";
    }
  }

  /**
   * An episode number is padded to the width of TRACKTOTAL (at least two
   * digits), whatever EPISODETOTAL says.
   */
  lemma {:induction false} EpisodePaddedByTrackTotal(tags: seq<Pair>)
    requires Values(tags, "EPISODENUMBER") == ["3"] && Precision(tags, "TRACKTOTAL", 2) == 2
    ensures Step(Code('e'), Context(Initial, '\0'), tags).0 == "03"
  {
    assert CodeName('e') == Some("EPISODENUMBER");
    JoinedOne("3", "", 2);
    assert Canonical("3") && ZeroRun(1) == "0" && Zeros("3", 2) == "0" && Escaped("3") == "3";
  }

  /** With no TRACKTOTAL at all, a 100-episode EPISODETOTAL still pads episode 3 to "03". */
  lemma {:induction false} EpisodeTotalIgnored()
    ensures var tags := [("EPISODENUMBER", "3"), ("EPISODETOTAL", "100")];
      Values(tags, "EPISODENUMBER") == ["3"] && Precision(tags, "TRACKTOTAL", 2) == 2
  {
    var tags := [("EPISODENUMBER", "3"), ("EPISODETOTAL", "100")];
    assert !SameName("EPISODETOTAL", "EPISODENUMBER") by {
      assert Lower("EPISODETOTAL"[7]) != Lower("EPISODENUMBER"[7]);
    }
    assert !SameName("EPISODENUMBER", "TRACKTOTAL") && !SameName("EPISODETOTAL", "TRACKTOTAL");
    assert SameName("EPISODENUMBER", "EPISODENUMBER");
    assert tags[..1] == [("EPISODENUMBER", "3")];
  }

  /** Tags of a disc 1, track 2 titled "T", padded to one and two digits. */
  predicate DiscTrackTitle(tags: seq<Pair>)
  {
    Values(tags, "DISCNUMBER") == ["1"] && Values(tags, "TRACKNUMBER") == ["2"] && Values(tags, "TITLE") == ["T"]
    && Precision(tags, "DISCTOTAL", 1) == 1 && Precision(tags, "TRACKTOTAL", 2) == 2
  }

  lemma {:induction false} DiscStep(tags: seq<Pair>)
    requires DiscTrackTitle(tags)
    ensures Step(Code('d'), Context(Initial, '\0'), tags) == ("1", Context(Content, 'd'))
  {
    assert CodeName('d') == Some("DISCNUMBER");
    JoinedOne("1", "", 1);
    assert Canonical("1") && Zeros("1", 1) == "" && Escaped("1") == "1";
    assert "" + "" + "1" == "1";
  }

  lemma {:induction false} TrackStep(tags: seq<Pair>)
    requires DiscTrackTitle(tags)
    ensures Step(Code('k'), Context(Content, 'd'), tags) == ("-02", Context(Content, 'k'))
  {
    assert CodeName('k') == Some("TRACKNUMBER");
    JoinedOne("2", "-", 2);
    assert Canonical("2") && ZeroRun(1) == "0" && Zeros("2", 2) == "0" && Escaped("2") == "2";
    assert "-" + "0" + "2" == "-02";
  }

  lemma {:induction false} TitleStep(tags: seq<Pair>)
    requires DiscTrackTitle(tags)
    ensures Step(Code('t'), Context(Content, 'k'), tags) == (" T", Context(Content, 't'))
  {
    assert CodeName('t') == Some("TITLE");
    TitleJoined();
  }

  lemma {:induction false} TitleJoined()
    ensures Joined(["T"], " ", 0) == " T"
  {
    JoinedOne("T", " ", 0);
    assert Escaped("T") == "T";
    assert " " + "" + "T" == " T";
  }

  /** "%d%k%t": a hyphen from disc to track, a space from track to title. */
  lemma {:induction false} SeparatorExample(tags: seq<Pair>, ts: seq<Token>)
    requires DiscTrackTitle(tags) && ts == [Code('d'), Code('k'), Code('t')]
    ensures WellFormed(ts) && Expand(ts, tags).0 == "1-02 T"
  {
    assert CodeName('d').Some? && CodeName('k').Some? && CodeName('t').Some?;
    assert ts[..0] == [] && ts[..1] == ts[..0] + [Code('d')] && ts[..2] == ts[..1] + [Code('k')]
      && ts == ts[..2] + [Code('t')];
    assert "" + "1" == "1" && "1" + "-02" == "1-02" && "1-02" + " T" == "1-02 T";
    DiscStep(tags);
    TrackStep(tags);
    TitleStep(tags);
    ExpandNext(ts[..0], Code('d'), tags, "", Context(Initial, '\0'), "1", Context(Content, 'd'));
    ExpandNext(ts[..1], Code('k'), tags, "1", Context(Content, 'd'), "-02", Context(Content, 'k'));
    ExpandNext(ts[..2], Code('t'), tags, "1-02", Context(Content, 'k'), " T", Context(Content, 't'));
  }
}

/**
 * The `cloak` tagging tool of src/bin/cloak.c: how `print_tags` escapes a
 * tag value so that each tag takes one logical line, the order in which
 * `apply_ops` edits a file's tags, how `write_image` picks an image and a
 * path for it, and how `tag_files` walks the files.
 */
module Cloak {
  import opened Common
  import Tag
  import Paths
  import CloakOptions

  // ---------------------------------------------------------------------
  // Escaping a tag value (`print_tags`)
  // ---------------------------------------------------------------------

  predicate LineBreak(c: char)
  {
    c == '\r' || c == '\n'
  }

  /** The characters `print_tags` does not copy as they are. */
  predicate Special(c: char)
  {
    c == '\\' || LineBreak(c)
  }

  /** `strcspn(s, "\\\r\n")`. */
  function PlainLength(s: string): (n: nat)
    ensures n <= |s| && (n < |s| ==> Special(s[n]))
  {
    if s == [] || Special(s[0]) then 0 else 1 + PlainLength(s[1..])
  }

  lemma {:induction false} PlainLengthPlain(s: string)
    ensures forall k | 0 <= k < PlainLength(s) :: !Special(s[k])
  {
    if s != [] && !Special(s[0]) {
      PlainLengthPlain(s[1..]);
      assert forall k | 1 <= k < PlainLength(s) :: s[k] == s[1..][k - 1];
    }
  }

  /** `strspn(s, "\\")`. */
  function BackslashLength(s: string): (n: nat)
    ensures n <= |s| && (n < |s| ==> s[n] != '\\')
  {
    if s == [] || s[0] != '\\' then 0 else 1 + BackslashLength(s[1..])
  }

  /** The run `strspn` measures is made of backslashes only. */
  lemma {:induction false} BackslashRun(s: string)
    ensures s[..BackslashLength(s)] == Backslashes(BackslashLength(s))
  {
    if s != [] && s[0] == '\\' {
      BackslashRun(s[1..]);
      assert s[..BackslashLength(s)] == [s[0]] + s[1..][..BackslashLength(s[1..])];
    }
  }

  /** The length of the line break `s` starts with: 2 for CR LF, 1 for a lone CR or LF, else 0. */
  function BreakLength(s: string): (n: nat)
    ensures n <= |s|
    ensures n > 0 <==> s != [] && LineBreak(s[0])
  {
    if |s| >= 2 && s[0] == '\r' && s[1] == '\n' then 2
    else if s != [] && LineBreak(s[0]) then 1
    else 0
  }

  function Backslashes(n: nat): (r: string)
    ensures |r| == n && forall k | 0 <= k < n :: r[k] == '\\'
  {
    if n == 0 then [] else "\\" + Backslashes(n - 1)
  }

  /** What a line break in a value prints as: a backslash ending the line. */
  const Continuation: string := "\\\n"

  /**
   * When a run of backslashes is written twice, given the text after it.
   * `BeforeText` is the test `print_tags` makes: the run is followed by a
   * character that is not a line break. `BeforeBreak` is its negation: the
   * run is followed by a line break or ends the value.
   */
  datatype Doubling = BeforeText | BeforeBreak

  predicate Doubled(rule: Doubling, rest: string)
  {
    match rule
    case BeforeText => rest != [] && !LineBreak(rest[0])
    case BeforeBreak => rest == [] || LineBreak(rest[0])
  }

  /** What a run of `n` backslashes followed by `rest` prints as. */
  function Run(rule: Doubling, n: nat, rest: string): string
  {
    if Doubled(rule, rest) then Backslashes(2 * n) else Backslashes(n)
  }

  /** What a run of `n` backslashes and the line break after it print as. */
  function Tail(rule: Doubling, n: nat, rest: string): string
  {
    Run(rule, n, rest) + (if BreakLength(rest) > 0 then Continuation else "")
  }

  lemma {:induction false} DropNothing(s: string, t: string, p: nat)
    requires p == 0 && t == s[p..]
    ensures t == s
  {
  }

  /** The turn of the loop that starts on `s` moves the cursor forward. */
  lemma {:induction false} TurnAdvances(s: string, p: nat, t: string, b: nat, rest: string, k: nat)
    requires s != [] && p == PlainLength(s) && t == s[p..] && b == BackslashLength(t)
    requires rest == t[b..] && k == BreakLength(rest)
    ensures |rest[k..]| < |s|
  {
    if p == 0 && b == 0 {
      DropNothing(s, t, p);
      DropNothing(t, rest, b);
      assert LineBreak(s[0]);
    }
  }

  /**
   * The escaped text `print_tags` writes for the value `s`, one turn of its
   * loop at a time: the plain run is copied, the backslash run is written
   * once or twice by the rule, and a line break becomes a continuation.
   */
  function Escaped(s: string, rule: Doubling): string
    decreases |s|
  {
    if s == [] then []
    else
      var p := PlainLength(s);
      var t := s[p..];
      var b := BackslashLength(t);
      var rest := t[b..];
      var k := BreakLength(rest);
      TurnAdvances(s, p, t, b, rest, k);
      s[..p] + Tail(rule, b, rest) + Escaped(rest[k..], rule)
  }

  /**
   * The same escaping stated character by character: a plain character
   * is copied, a line break of any kind becomes a continuation, and a run
   * of backslashes is written once or twice by the rule.
   */
  function EscapedRef(s: string, rule: Doubling): string
    decreases |s|
  {
    if s == [] then []
    else if !Special(s[0]) then [s[0]] + EscapedRef(s[1..], rule)
    else if LineBreak(s[0]) then Continuation + EscapedRef(s[BreakLength(s)..], rule)
    else
      var b := BackslashLength(s);
      Run(rule, b, s[b..]) + EscapedRef(s[b..], rule)
  }

  /** A plain prefix is copied by the reference escaping. */
  lemma {:induction false} RefPlainPrefix(s: string, p: nat, rule: Doubling)
    requires p <= |s| && forall k | 0 <= k < p :: !Special(s[k])
    ensures EscapedRef(s, rule) == s[..p] + EscapedRef(s[p..], rule)
  {
    if p > 0 {
      var u := s[1..];
      forall k | 0 <= k < p - 1
        ensures !Special(u[k])
      {
        assert u[k] == s[k + 1];
      }
      RefPlainPrefix(u, p - 1, rule);
      SlicesAfterFirst(s, p, u);
      Join(s[..p] + EscapedRef(s[p..], rule), EscapedRef(s, rule), [s[0]], u[..p - 1],
        EscapedRef(u, rule), EscapedRef(s[p..], rule));
    }
  }

  lemma {:induction false} SlicesAfterFirst(s: string, p: nat, u: string)
    requires 0 < p <= |s| && u == s[1..]
    ensures s[..p] == [s[0]] + u[..p - 1] && u[p - 1..] == s[p..]
  {
  }

  /** After the plain run: the backslash run, then the line break, by the reference escaping. */
  lemma {:induction false} RefSpecial(t: string, rule: Doubling, b: nat, rest: string, k: nat)
    requires t == [] || Special(t[0])
    requires b == BackslashLength(t) && rest == t[b..] && k == BreakLength(rest)
    ensures EscapedRef(t, rule) == Tail(rule, b, rest) + EscapedRef(rest[k..], rule)
  {
    if t != [] {
      if LineBreak(t[0]) {
        assert b == 0 && rest == t;
      } else if rest != [] && LineBreak(rest[0]) {
        assert EscapedRef(rest, rule) == Continuation + EscapedRef(rest[k..], rule);
      } else {
        assert k == 0 && rest[0..] == rest;
      }
    }
  }

  /** One turn of the loop, then the rest. */
  lemma {:induction false} EscapedUnfold(s: string, rule: Doubling, p: nat, t: string, b: nat, rest: string, k: nat)
    requires s != [] && p == PlainLength(s) && t == s[p..] && b == BackslashLength(t)
    requires rest == t[b..] && k == BreakLength(rest)
    ensures Escaped(s, rule) == s[..p] + Tail(rule, b, rest) + Escaped(rest[k..], rule)
  {
  }

  /** One turn of the loop agrees with the reference escaping when the rest does. */
  lemma {:induction false} EscapedTurnIsRef(s: string, rule: Doubling, p: nat, t: string, b: nat, rest: string, k: nat)
    requires s != [] && p == PlainLength(s) && t == s[p..] && b == BackslashLength(t)
    requires rest == t[b..] && k == BreakLength(rest)
    requires Escaped(rest[k..], rule) == EscapedRef(rest[k..], rule)
    ensures Escaped(s, rule) == EscapedRef(s, rule)
  {
    EscapedUnfold(s, rule, p, t, b, rest, k);
    PlainLengthPlain(s);
    RefPlainPrefix(s, p, rule);
    RefSpecial(t, rule, b, rest, k);
    Join(Escaped(s, rule), EscapedRef(s, rule), s[..p], Tail(rule, b, rest), EscapedRef(t, rule), Escaped(rest[k..], rule));
  }

  /** The loop of `print_tags` escapes as the character-by-character definition says. */
  lemma {:induction false} EscapedIsRef(s: string, rule: Doubling)
    ensures Escaped(s, rule) == EscapedRef(s, rule)
    decreases |s|
  {
    if s != [] {
      var p := PlainLength(s);
      var t := s[p..];
      var b := BackslashLength(t);
      var rest := t[b..];
      var k := BreakLength(rest);
      TurnAdvances(s, p, t, b, rest, k);
      EscapedIsRef(rest[k..], rule);
      EscapedTurnIsRef(s, rule, p, t, b, rest, k);
    }
  }

  lemma {:induction false} DropFront(x: string, y: string, z: string)
    requires z == x + y
    ensures z[|x|..] == y
  {
  }

  lemma {:induction false} Join(x: string, y: string, a: string, c: string, z: string, e: string)
    requires x == a + c + e && y == a + z && z == c + e
    ensures x == y
  {
  }

  /** A value with no backslash and no line break prints as it is. */
  lemma {:induction false} EscapePlain(s: string, rule: Doubling)
    requires forall k | 0 <= k < |s| :: !Special(s[k])
    ensures Escaped(s, rule) == s
  {
    EscapedIsRef(s, rule);
    RefPlainPrefix(s, |s|, rule);
    assert s[..|s|] == s && s[|s|..] == [];
  }

  /** CR LF, a lone CR and a lone LF each print as a continuation. */
  lemma {:induction false} EscapeBreaks(s: string, rule: Doubling)
    ensures Escaped("\r\n" + s, rule) == Continuation + Escaped(s, rule)
    ensures Escaped("\n" + s, rule) == Continuation + Escaped(s, rule)
    ensures s == [] || s[0] != '\n' ==> Escaped("\r" + s, rule) == Continuation + Escaped(s, rule)
  {
    EscapedIsRef("\r\n" + s, rule);
    EscapedIsRef("\n" + s, rule);
    EscapedIsRef("\r" + s, rule);
    EscapedIsRef(s, rule);
    assert ("\r\n" + s)[2..] == s && ("\n" + s)[1..] == s && ("\r" + s)[1..] == s;
  }

  /**
   * As `print_tags` is written, a run of backslashes is written twice when
   * text other than a line break follows it, and once when a line break
   * follows it or it ends the value.
   */
  lemma {:induction false} EscapeBackslashRun(n: nat, s: string)
    requires n > 0 && (s == [] || s[0] != '\\')
    ensures Escaped(Backslashes(n) + s, BeforeText) ==
      (if s != [] && !LineBreak(s[0]) then Backslashes(2 * n) else Backslashes(n)) + Escaped(s, BeforeText)
  {
    var v := Backslashes(n) + s;
    assert BackslashLength(v) == n by {
      BackslashesThen(n, s);
    }
    assert v[n..] == s;
    EscapedIsRef(v, BeforeText);
    EscapedIsRef(s, BeforeText);
  }

  lemma {:induction false} BackslashesThen(n: nat, s: string)
    ensures BackslashLength(Backslashes(n) + s) == n + BackslashLength(s)
  {
    if n > 0 {
      assert (Backslashes(n) + s)[1..] == Backslashes(n - 1) + s;
      BackslashesThen(n - 1, s);
    } else {
      assert Backslashes(0) + s == s;
    }
  }

  /**
   * The escaped text holds no CR, and every LF in it follows a backslash:
   * whatever the value, the tag takes one line of output plus continuations.
   */
  predicate OneLogicalLine(t: string)
  {
    forall i | 0 <= i < |t| :: LineAt(t, i)
  }

  /** The condition `OneLogicalLine` puts on position `i` of `t`. */
  predicate LineAt(t: string, i: nat)
    requires i < |t|
  {
    t[i] != '\r' && (t[i] == '\n' ==> i > 0 && t[i - 1] == '\\')
  }

  lemma {:induction false} OneLogicalLineAppend(a: string, b: string)
    requires OneLogicalLine(a) && OneLogicalLine(b)
    ensures OneLogicalLine(a + b)
  {
    var t := a + b;
    forall i | 0 <= i < |t|
      ensures LineAt(t, i)
    {
      if i >= |a| {
        var j := i - |a|;
        assert LineAt(b, j);
        assert t[i] == b[j];
        if j > 0 {
          assert t[i - 1] == b[j - 1];
        }
      } else {
        assert LineAt(a, i);
        assert t[i] == a[i];
        if i > 0 {
          assert t[i - 1] == a[i - 1];
        }
      }
    }
  }

  lemma {:induction false} EscapedRefOneLine(s: string, rule: Doubling)
    ensures OneLogicalLine(EscapedRef(s, rule))
    decreases |s|
  {
    if s != [] {
      if !Special(s[0]) {
        EscapedRefOneLine(s[1..], rule);
        OneLogicalLineAppend([s[0]], EscapedRef(s[1..], rule));
      } else if LineBreak(s[0]) {
        EscapedRefOneLine(s[BreakLength(s)..], rule);
        OneLogicalLineAppend(Continuation, EscapedRef(s[BreakLength(s)..], rule));
      } else {
        var b := BackslashLength(s);
        EscapedRefOneLine(s[b..], rule);
        OneLogicalLineAppend(Run(rule, b, s[b..]), EscapedRef(s[b..], rule));
      }
    }
  }

  /** Whatever the value and the rule, its escaped text takes one logical line. */
  lemma {:induction false} EscapedOneLine(s: string, rule: Doubling)
    ensures OneLogicalLine(Escaped(s, rule))
  {
    EscapedIsRef(s, rule);
    EscapedRefOneLine(s, rule);
  }

  // ---------------------------------------------------------------------
  // Reading a listing back
  // ---------------------------------------------------------------------

  /** A value with every CR LF and lone CR turned into LF: what a reader can tell apart. */
  function Normalized(v: string): string
    decreases |v|
  {
    if v == [] then []
    else if LineBreak(v[0]) then "\n" + Normalized(v[BreakLength(v)..])
    else [v[0]] + Normalized(v[1..])
  }

  function Prefixed(prefix: string, r: Option<(string, string)>): (p: Option<(string, string)>)
    ensures p.Some? <==> r.Some?
    ensures p.Some? ==> p.value == (prefix + r.value.0, r.value.1)
  {
    match r
    case None => None
    case Some(x) => Some((prefix + x.0, x.1))
  }

  /**
   * Reads one escaped value up to the line break that ends it, and returns
   * the value and the text after that line break. A run of backslashes
   * before a line break stands for half as many backslashes, and for a
   * line break in the value as well when the run is odd; any other
   * character stands for itself.
   */
  function ReadValue(t: string): (r: Option<(string, string)>)
    ensures r.Some? ==> |r.value.1| < |t|
    decreases |t|
  {
    if t == [] then None
    else if t[0] == '\n' then Some(([], t[1..]))
    else if t[0] != '\\' then Prefixed([t[0]], ReadValue(t[1..]))
    else
      var n := BackslashLength(t);
      var u := t[n..];
      if u != [] && u[0] == '\n' then
        if n % 2 == 0 then Some((Backslashes(n / 2), u[1..]))
        else Prefixed(Backslashes(n / 2) + "\n", ReadValue(u[1..]))
      else Prefixed(Backslashes(n), ReadValue(u))
  }

  lemma {:induction false} NormalizedBackslashes(n: nat, w: string)
    ensures Normalized(Backslashes(n) + w) == Backslashes(n) + Normalized(w)
  {
    if n > 0 {
      assert (Backslashes(n) + w)[1..] == Backslashes(n - 1) + w;
      NormalizedBackslashes(n - 1, w);
    } else {
      assert Backslashes(0) + w == w;
    }
  }

  lemma {:induction false} BackslashesSnoc(n: nat)
    ensures Backslashes(n) + "\\" == Backslashes(n + 1)
  {
    if n > 0 {
      BackslashesSnoc(n - 1);
    }
  }

  /** Reading back a plain character. */
  lemma {:induction false} ReadPlain(c: char, x: string)
    requires c != '\\' && c != '\n'
    ensures ReadValue([c] + x) == Prefixed([c], ReadValue(x))
  {
    assert ([c] + x)[1..] == x;
  }

  /** Reading back a run of `n` backslashes and what follows it. */
  lemma {:induction false} ReadRun(n: nat, x: string)
    requires n > 0 && (x == [] || x[0] != '\\')
    ensures ReadValue(Backslashes(n) + x) ==
      if x != [] && x[0] == '\n' then
        if n % 2 == 0 then Some((Backslashes(n / 2), x[1..]))
        else Prefixed(Backslashes(n / 2) + "\n", ReadValue(x[1..]))
      else Prefixed(Backslashes(n), ReadValue(x))
  {
    var t := Backslashes(n) + x;
    BackslashesThen(n, x);
    assert t[0] == '\\';
    assert t[n..] == x;
  }

  /** An even run before a line break ends the value. */
  lemma {:induction false} ReadEnded(n: nat, t: string, rest: string)
    requires n > 0 && n % 2 == 0 && t == Backslashes(n) + ("\n" + rest)
    ensures ReadValue(t) == Some((Backslashes(n / 2), rest))
  {
    ReadRun(n, "\n" + rest);
    assert ("\n" + rest)[1..] == rest;
  }

  /** An odd run before a line break stands for a line break in the value. */
  lemma {:induction false} ReadContinued(n: nat, t: string, x: string)
    requires n % 2 == 1 && t == Backslashes(n) + ("\n" + x)
    ensures ReadValue(t) == Prefixed(Backslashes(n / 2) + "\n", ReadValue(x))
  {
    ReadRun(n, "\n" + x);
    assert ("\n" + x)[1..] == x;
  }

  /** A run before any other character stands for itself. */
  lemma {:induction false} ReadThrough(n: nat, t: string, y: string)
    requires n > 0 && t == Backslashes(n) + y && y != [] && !Special(y[0])
    ensures ReadValue(t) == Prefixed(Backslashes(n), ReadValue(y))
  {
    ReadRun(n, y);
  }

  /** The reference escaping of a value that starts with a run of backslashes. */
  lemma {:induction false} RefRun(v: string, rule: Doubling, b: nat, w: string)
    requires v != [] && v[0] == '\\' && b == BackslashLength(v) && w == v[b..]
    ensures EscapedRef(v, rule) == Run(rule, b, w) + EscapedRef(w, rule)
  {
  }

  /** The reference escaping of a value that starts with a line break. */
  lemma {:induction false} RefBreak(v: string, rule: Doubling, k: nat, e: string)
    requires v != [] && LineBreak(v[0]) && k == BreakLength(v) && e == EscapedRef(v[k..], rule)
    ensures EscapedRef(v, rule) == Continuation + e
  {
  }

  lemma {:induction false} NormalizedBreak(v: string, k: nat)
    requires v != [] && LineBreak(v[0]) && k == BreakLength(v)
    ensures Normalized(v) == "\n" + Normalized(v[k..])
  {
  }

  /** Reading back `2 * b + 1` backslashes and a line break: `b` backslashes and a line break. */
  lemma {:induction false} ReadOddRun(b: nat, t: string, x: string, y: string, rest: string)
    requires t == Backslashes(2 * b) + Continuation + x
    requires ReadValue(x) == Some((y, rest))
    ensures ReadValue(t) == Some((Backslashes(b) + "\n" + y, rest))
  {
    BackslashesSnoc(2 * b);
    assert t == Backslashes(2 * b + 1) + ("\n" + x);
    ReadContinued(2 * b + 1, t, x);
  }

  /** The round trip when the value starts with a line break. */
  lemma {:induction false} RoundTripBreak(v: string, rest: string, k: nat, e: string)
    requires v != [] && LineBreak(v[0]) && k == BreakLength(v) && e == EscapedRef(v[k..], BeforeBreak)
    requires ReadValue(e + "\n" + rest) == Some((Normalized(v[k..]), rest))
    ensures ReadValue(EscapedRef(v, BeforeBreak) + "\n" + rest) == Some((Normalized(v), rest))
  {
    var x := e + "\n" + rest;
    var t := EscapedRef(v, BeforeBreak) + "\n" + rest;
    RefBreak(v, BeforeBreak, k, e);
    assert t == Backslashes(0) + Continuation + x;
    ReadOddRun(0, t, x, Normalized(v[k..]), rest);
    NormalizedBreak(v, k);
    assert Backslashes(0) + "\n" + Normalized(v[k..]) == "\n" + Normalized(v[k..]);
  }

  /** The round trip for a run of backslashes that ends the value. */
  lemma {:induction false} RoundTripRunEnd(v: string, rest: string, b: nat)
    requires v != [] && v[0] == '\\' && b == BackslashLength(v) && v[b..] == []
    ensures ReadValue(EscapedRef(v, BeforeBreak) + "\n" + rest) == Some((Normalized(v), rest))
  {
    var w := v[b..];
    RefRun(v, BeforeBreak, b, w);
    BackslashRun(v);
    assert v == Backslashes(b) + w;
    NormalizedBackslashes(b, w);
    assert Normalized(v) == Backslashes(b) by {
      assert Backslashes(b) + w == Backslashes(b);
    }
    var t := EscapedRef(v, BeforeBreak) + "\n" + rest;
    assert t == Backslashes(2 * b) + ("\n" + rest);
    ReadEnded(2 * b, t, rest);
    assert (2 * b) / 2 == b;
  }

  /** What a run of backslashes and a line break at the front of a value normalize to. */
  lemma {:induction false} NormalizedRunBreak(v: string, b: nat, w: string, k: nat)
    requires v != [] && v[0] == '\\' && b == BackslashLength(v) && w == v[b..]
    requires w != [] && LineBreak(w[0]) && k == BreakLength(w)
    ensures Normalized(v) == Backslashes(b) + "\n" + Normalized(w[k..])
  {
    RunSplit(v, b, w);
    NormalizedBackslashes(b, w);
    NormalizedBreak(w, k);
  }

  lemma {:induction false} RunSplit(v: string, b: nat, w: string)
    requires b == BackslashLength(v) && w == v[b..]
    ensures v == Backslashes(b) + w
  {
    BackslashRun(v);
    assert v == v[..b] + v[b..];
  }

  lemma {:induction false} ContinuedThenRest(t: string, r: string, e: string, x: string, rest: string)
    requires t == r + (Continuation + e) + "\n" + rest && x == e + "\n" + rest
    ensures t == r + Continuation + x
  {
  }

  /** The round trip for a run of backslashes before a line break. */
  lemma {:induction false} RoundTripRunBreak(v: string, rest: string, b: nat, w: string, k: nat, e: string)
    requires v != [] && v[0] == '\\' && b == BackslashLength(v) && w == v[b..]
    requires w != [] && LineBreak(w[0]) && k == BreakLength(w) && e == EscapedRef(w[k..], BeforeBreak)
    requires ReadValue(e + "\n" + rest) == Some((Normalized(w[k..]), rest))
    ensures ReadValue(EscapedRef(v, BeforeBreak) + "\n" + rest) == Some((Normalized(v), rest))
  {
    var x := e + "\n" + rest;
    var t := EscapedRef(v, BeforeBreak) + "\n" + rest;
    RefRun(v, BeforeBreak, b, w);
    RefBreak(w, BeforeBreak, k, e);
    assert Run(BeforeBreak, b, w) == Backslashes(2 * b);
    ContinuedThenRest(t, Backslashes(2 * b), e, x, rest);
    ReadOddRun(b, t, x, Normalized(w[k..]), rest);
    NormalizedRunBreak(v, b, w, k);
  }

  /** The reference escaping of a value that starts with a plain character starts with it. */
  lemma {:induction false} RefFirst(w: string, rule: Doubling)
    requires w != [] && !Special(w[0])
    ensures EscapedRef(w, rule) != [] && EscapedRef(w, rule)[0] == w[0]
  {
  }

  lemma {:induction false} PrefixThen(ev: string, x: string, e: string, rest: string)
    requires ev == x + e
    ensures ev + "\n" + rest == x + (e + "\n" + rest)
  {
  }

  /** What a run of backslashes before other text at the front of a value normalizes to. */
  lemma {:induction false} NormalizedRunText(v: string, b: nat, w: string)
    requires v != [] && v[0] == '\\' && b == BackslashLength(v) && w == v[b..]
    ensures Normalized(v) == Backslashes(b) + Normalized(w)
  {
    BackslashRun(v);
    assert v == Backslashes(b) + w;
    NormalizedBackslashes(b, w);
  }

  /** The round trip for a run of backslashes before any other character. */
  lemma {:induction false} RoundTripRunText(v: string, rest: string, b: nat, w: string)
    requires v != [] && v[0] == '\\' && b == BackslashLength(v) && w == v[b..]
    requires w != [] && !LineBreak(w[0])
    requires ReadValue(EscapedRef(w, BeforeBreak) + "\n" + rest) == Some((Normalized(w), rest))
    ensures ReadValue(EscapedRef(v, BeforeBreak) + "\n" + rest) == Some((Normalized(v), rest))
  {
    var e := EscapedRef(w, BeforeBreak);
    RefRun(v, BeforeBreak, b, w);
    RefFirst(w, BeforeBreak);
    PrefixThen(EscapedRef(v, BeforeBreak), Backslashes(b), e, rest);
    ReadThrough(b, EscapedRef(v, BeforeBreak) + "\n" + rest, e + "\n" + rest);
    NormalizedRunText(v, b, w);
  }

  /**
   * With runs doubled before a line break or the end, every value is read
   * back from its escaped text, up to the kind of its line breaks.
   */
  lemma {:induction false} RoundTrip(v: string, rest: string)
    ensures ReadValue(EscapedRef(v, BeforeBreak) + "\n" + rest) == Some((Normalized(v), rest))
    decreases |v|
  {
    if v == [] {
      assert EscapedRef(v, BeforeBreak) + "\n" + rest == "\n" + rest;
    } else if !Special(v[0]) {
      RoundTrip(v[1..], rest);
      var x := EscapedRef(v[1..], BeforeBreak) + "\n" + rest;
      assert EscapedRef(v, BeforeBreak) + "\n" + rest == [v[0]] + x;
      ReadPlain(v[0], x);
    } else if LineBreak(v[0]) {
      var k := BreakLength(v);
      RoundTrip(v[k..], rest);
      RoundTripBreak(v, rest, k, EscapedRef(v[k..], BeforeBreak));
    } else {
      var b := BackslashLength(v);
      var w := v[b..];
      if w == [] {
        RoundTripRunEnd(v, rest, b);
      } else if LineBreak(w[0]) {
        var k := BreakLength(w);
        RoundTrip(w[k..], rest);
        RoundTripRunBreak(v, rest, b, w, k, EscapedRef(w[k..], BeforeBreak));
      } else {
        RoundTrip(w, rest);
        RoundTripRunText(v, rest, b, w);
      }
    }
  }

  // ---------------------------------------------------------------------
  // The listing of `print_tags`
  // ---------------------------------------------------------------------

  /** One tag as `print_tags` writes it: `NAME=value`, escaped, then a line break. */
  function Line(pair: Tag.Pair, rule: Doubling): string
  {
    pair.0 + "=" + Escaped(pair.1, rule) + "\n"
  }

  /** The lines of all tags, in the order the iterator yields them. */
  function Listing(pairs: seq<Tag.Pair>, rule: Doubling): string
    decreases |pairs|
  {
    if pairs == [] then [] else Line(pairs[0], rule) + Listing(pairs[1..], rule)
  }

  /** `strcspn(t, "=")`: where a line's name ends. */
  function NameLength(t: string): (n: nat)
    ensures n <= |t| && (n < |t| ==> t[n] == '=')
    ensures forall k | 0 <= k < n :: t[k] != '='
  {
    if t == [] || t[0] == '=' then 0 else 1 + NameLength(t[1..])
  }

  /** Reads a listing back into its pairs: a name up to `=`, then an escaped value. */
  function ReadListing(t: string): Option<seq<Tag.Pair>>
    decreases |t|
  {
    if t == [] then Some([])
    else
      var n := NameLength(t);
      if n == |t| then None
      else
        match ReadValue(t[n + 1..])
        case None => None
        case Some(x) =>
          match ReadListing(x.1)
          case None => None
          case Some(ps) => Some([(t[..n], x.0)] + ps)
  }

  /** The pairs with each value's line breaks normalized. */
  function NormalizedPairs(pairs: seq<Tag.Pair>): (r: seq<Tag.Pair>)
    ensures |r| == |pairs|
    ensures forall k | 0 <= k < |r| :: r[k] == (pairs[k].0, Normalized(pairs[k].1))
  {
    if pairs == [] then []
    else [(pairs[0].0, Normalized(pairs[0].1))] + NormalizedPairs(pairs[1..])
  }

  lemma {:induction false} NameLengthOf(name: string, u: string, t: string)
    requires '=' !in name && t == name + "=" + u
    ensures NameLength(t) == |name| && t[..|name|] == name && t[|name| + 1..] == u
  {
    assert t[|name|] == '=';
  }

  /** One line read back, then the lines after it. */
  lemma {:induction false} ReadListingStep(t: string, name: string, u: string, v: string, rest: string, ps: seq<Tag.Pair>)
    requires '=' !in name && t == name + "=" + u
    requires ReadValue(u) == Some((v, rest)) && ReadListing(rest) == Some(ps)
    ensures ReadListing(t) == Some([(name, v)] + ps)
  {
    NameLengthOf(name, u, t);
  }

  lemma {:induction false} ListingCons(pairs: seq<Tag.Pair>, rule: Doubling, e: string, u: string)
    requires pairs != [] && e == Escaped(pairs[0].1, rule) && u == e + "\n" + Listing(pairs[1..], rule)
    ensures Listing(pairs, rule) == pairs[0].0 + "=" + u
  {
  }

  lemma {:induction false} NormalizedPairsCons(pairs: seq<Tag.Pair>)
    requires pairs != []
    ensures NormalizedPairs(pairs) == [(pairs[0].0, Normalized(pairs[0].1))] + NormalizedPairs(pairs[1..])
  {
  }

  /**
   * With runs doubled before a line break or the end, a listing reads back
   * as the tags it was written from, up to the kind of their line breaks.
   */
  lemma {:induction false} ListingRoundTrip(pairs: seq<Tag.Pair>)
    requires forall p <- pairs :: '=' !in p.0
    ensures ReadListing(Listing(pairs, BeforeBreak)) == Some(NormalizedPairs(pairs))
    decreases |pairs|
  {
    if pairs != [] {
      var p := pairs[0];
      var x := Listing(pairs[1..], BeforeBreak);
      assert forall q <- pairs[1..] :: q in pairs;
      ListingRoundTrip(pairs[1..]);
      EscapedIsRef(p.1, BeforeBreak);
      RoundTrip(p.1, x);
      var u := EscapedRef(p.1, BeforeBreak) + "\n" + x;
      ListingCons(pairs, BeforeBreak, EscapedRef(p.1, BeforeBreak), u);
      ReadListingStep(Listing(pairs, BeforeBreak), p.0, u, Normalized(p.1), x, NormalizedPairs(pairs[1..]));
      NormalizedPairsCons(pairs);
    }
  }

  /** A run that ends a value is doubled only by `BeforeBreak`. */
  lemma {:induction false} EscapedTrailingRun(v: string, n: nat, rule: Doubling)
    requires n > 0 && v == Backslashes(n)
    ensures Escaped(v, rule) == if rule == BeforeText then v else Backslashes(2 * n)
  {
    BackslashesThen(n, []);
    assert v + [] == v && v[n..] == [];
    RefRun(v, rule, n, []);
    EscapedIsRef(v, rule);
  }

  /** A run before a line break is doubled only by `BeforeBreak`. */
  lemma {:induction false} RefRunBreak(v: string, n: nat, u: string, w: string, rule: Doubling)
    requires n > 0 && u == "\n" + w && v == Backslashes(n) + u
    requires forall k | 0 <= k < |w| :: !Special(w[k])
    ensures EscapedRef(v, rule) == Run(rule, n, u) + Continuation + w
  {
    BackslashesThen(n, u);
    DropFront(Backslashes(n), u, v);
    DropFront("\n", w, u);
    RefPlainPrefix(w, |w|, rule);
    RefBreak(u, rule, 1, w);
    RefRun(v, rule, n, u);
  }

  lemma {:induction false} EscapedRunBreak(v: string, n: nat, u: string, w: string, rule: Doubling)
    requires n > 0 && u == "\n" + w && v == Backslashes(n) + u && w != []
    requires forall k | 0 <= k < |w| :: !Special(w[k])
    ensures Escaped(v, rule) == (if rule == BeforeText then Backslashes(n) else Backslashes(2 * n)) + Continuation + w
  {
    RefRunBreak(v, n, u, w, rule);
    EscapedIsRef(v, rule);
  }

  lemma {:induction false} ListingOfTwo(pairs: seq<Tag.Pair>, rule: Doubling, e: string, f: string)
    requires |pairs| == 2 && e == Escaped(pairs[0].1, rule) && f == Escaped(pairs[1].1, rule)
    ensures Listing(pairs, rule) == pairs[0].0 + "=" + e + "\n" + (pairs[1].0 + "=" + f + "\n")
  {
    assert Listing(pairs[1..], rule) == Line(pairs[1], rule) + Listing(pairs[2..], rule);
  }

  lemma {:induction false} ListingOfOne(pairs: seq<Tag.Pair>, rule: Doubling, e: string)
    requires |pairs| == 1 && e == Escaped(pairs[0].1, rule)
    ensures Listing(pairs, rule) == pairs[0].0 + "=" + e + "\n"
  {
  }

  /** The second line of the ambiguity below is plain text. */
  lemma {:induction false} PlainAfterBreak(m: string, w: string)
    requires Tag.NameIsValid(m) && w == m + "="
    ensures w != [] && forall k | 0 <= k < |w| :: !Special(w[k])
  {
    assert forall k | 0 <= k < |m| :: w[k] == m[k];
  }

  lemma {:induction false} Regroup(n: string, x: string, w: string, y: string)
    requires y == x + "\n" + w
    ensures n + "=" + x + "\n" + (w + [] + "\n") == n + "=" + y + "\n"
  {
  }

  lemma {:induction false} ContinuationSplit(x: string, z: string, w: string)
    requires z == x + "\\"
    ensures x + Continuation + w == z + "\n" + w
  {
    assert Continuation == "\\" + "\n";
  }

  lemma {:induction false} EscapedEmpty(v: string, rule: Doubling)
    requires v == []
    ensures Escaped(v, rule) == []
  {
  }

  lemma {:induction false} AmbiguousBeforeText(n: string, m: string, j: nat, a: seq<Tag.Pair>, b: seq<Tag.Pair>,
                            w: string, v1: string, v2: string, e: string)
    requires Tag.NameIsValid(m) && j > 0 && w == m + "=" && e == []
    requires v1 == Backslashes(j + 1) && v2 == Backslashes(j) + ("\n" + w)
    requires a == [(n, v1), (m, e)] && b == [(n, v2)]
    ensures Listing(a, BeforeText) == Listing(b, BeforeText)
  {
    PlainAfterBreak(m, w);
    EscapedTrailingRun(v1, j + 1, BeforeText);
    EscapedRunBreak(v2, j, "\n" + w, w, BeforeText);
    EscapedEmpty(e, BeforeText);
    var y := Backslashes(j) + Continuation + w;
    ListingOfTwo(a, BeforeText, v1, []);
    ListingOfOne(b, BeforeText, y);
    BackslashesSnoc(j);
    ContinuationSplit(Backslashes(j), v1, w);
    Regroup(n, v1, w, y);
  }

  lemma {:induction false} TrailingRunListingLength(n: string, m: string, j: nat, a: seq<Tag.Pair>, v1: string, e: string)
    requires v1 == Backslashes(j + 1) && e == [] && a == [(n, v1), (m, e)]
    ensures |Listing(a, BeforeBreak)| == |n| + |m| + 2 * j + 6
  {
    EscapedTrailingRun(v1, j + 1, BeforeBreak);
    EscapedEmpty(e, BeforeBreak);
    ListingOfTwo(a, BeforeBreak, Backslashes(2 * j + 2), []);
  }

  lemma {:induction false} BrokenListingLength(n: string, m: string, j: nat, b: seq<Tag.Pair>, w: string, v2: string)
    requires Tag.NameIsValid(m) && j > 0 && w == m + "="
    requires v2 == Backslashes(j) + ("\n" + w) && b == [(n, v2)]
    ensures |Listing(b, BeforeBreak)| == |n| + |m| + 2 * j + 5
  {
    PlainAfterBreak(m, w);
    EscapedRunBreak(v2, j, "\n" + w, w, BeforeBreak);
    ListingOfOne(b, BeforeBreak, Backslashes(2 * j) + Continuation + w);
  }

  lemma {:induction false} AmbiguousBeforeBreak(n: string, m: string, j: nat, a: seq<Tag.Pair>, b: seq<Tag.Pair>,
                             w: string, v1: string, v2: string, e: string)
    requires Tag.NameIsValid(m) && j > 0 && w == m + "=" && e == []
    requires v1 == Backslashes(j + 1) && v2 == Backslashes(j) + ("\n" + w)
    requires a == [(n, v1), (m, e)] && b == [(n, v2)]
    ensures |Listing(a, BeforeBreak)| == |Listing(b, BeforeBreak)| + 1
  {
    TrailingRunListingLength(n, m, j, a, v1, e);
    BrokenListingLength(n, m, j, b, w, v2);
  }

  /**
   * With runs doubled before text, as `print_tags` does, two different tag
   * lists print the same listing: a value ending in `j + 1` backslashes
   * before a tag `m` with an empty value, and a value holding `j`
   * backslashes, a line break and the text `m=`. Doubling before a line
   * break or the end tells them apart.
   */
  lemma {:induction false} ListingAsWrittenAmbiguous(n: string, m: string, j: nat, a: seq<Tag.Pair>, b: seq<Tag.Pair>)
    requires Tag.NameIsValid(n) && Tag.NameIsValid(m) && j > 0
    requires a == [(n, Backslashes(j + 1)), (m, "")] && b == [(n, Backslashes(j) + ("\n" + (m + "=")))]
    ensures a != b
    ensures Listing(a, BeforeText) == Listing(b, BeforeText)
    ensures Listing(a, BeforeBreak) != Listing(b, BeforeBreak)
  {
    assert |a| != |b|;
    var w := m + "=";
    AmbiguousBeforeText(n, m, j, a, b, w, Backslashes(j + 1), Backslashes(j) + ("\n" + w), []);
    AmbiguousBeforeBreak(n, m, j, a, b, w, Backslashes(j + 1), Backslashes(j) + ("\n" + w), []);
  }

  // ---------------------------------------------------------------------
  // The loops of `print_tags`
  // ---------------------------------------------------------------------

  /** The backslashes one turn writes: the run once, or twice when the rule says so. */
  lemma {:induction false} RunWritten(t: string, b: nat, rule: Doubling, run: string)
    requires b == BackslashLength(t)
    requires run == if b > 0 && Doubled(rule, t[b..]) then t[..b] + t[..b] else t[..b]
    ensures run == Run(rule, b, t[b..])
  {
    BackslashRun(t);
    BackslashesTwice(b);
  }

  lemma {:induction false} BackslashesTwice(n: nat)
    ensures Backslashes(n) + Backslashes(n) == Backslashes(2 * n)
  {
    if n > 0 {
      BackslashesTwice(n - 1);
      BackslashesSnoc(2 * n - 2);
      BackslashesSnoc(2 * n - 1);
      assert Backslashes(n) + Backslashes(n) == "\\" + (Backslashes(n - 1) + Backslashes(n - 1)) + "\\";
    }
  }

  /** The backslashes and the continuation one turn writes. */
  lemma {:induction false} TailWritten(rule: Doubling, b: nat, rest: string, run: string, brk: string)
    requires run == Run(rule, b, rest) && brk == (if BreakLength(rest) > 0 then Continuation else "")
    ensures run + brk == Tail(rule, b, rest)
  {
  }

  /** One turn of the loop, as the method writes it, then the rest. */
  lemma {:induction false} EscapeTurn(s: string, rule: Doubling, p: nat, t: string, b: nat, rest: string, k: nat, piece: string)
    requires s != [] && p == PlainLength(s) && t == s[p..] && b == BackslashLength(t)
    requires rest == t[b..] && k == BreakLength(rest)
    requires piece == s[..p] + Tail(rule, b, rest)
    ensures Escaped(s, rule) == piece + Escaped(rest[k..], rule) && |rest[k..]| < |s|
  {
    EscapedUnfold(s, rule, p, t, b, rest, k);
    TurnAdvances(s, p, t, b, rest, k);
  }

  lemma {:induction false} AppendStep(out: string, piece: string, whole: string, next: string, total: string)
    requires out + whole == total && whole == piece + next
    ensures (out + piece) + next == total
  {
  }

  /** The inner loop of `print_tags` on one value. */
  method EscapeValue(value: string, rule: Doubling) returns (out: string)
    ensures out == Escaped(value, rule)
  {
    out := [];
    var rest := value;
    while rest != []
      invariant out + Escaped(rest, rule) == Escaped(value, rule)
      decreases |rest|
    {
      var p := PlainLength(rest);
      var t := rest[p..];
      var b := BackslashLength(t);
      var run := t[..b];
      if b > 0 && Doubled(rule, t[b..]) {
        run := run + t[..b];
      }
      RunWritten(t, b, rule, run);
      var after := t[b..];
      var brk := "";
      var next := after;
      if |after| >= 2 && after[0] == '\r' && after[1] == '\n' {
        brk := Continuation;
        next := after[2..];
      } else if after != [] && LineBreak(after[0]) {
        brk := Continuation;
        next := after[1..];
      }
      TailWritten(rule, b, after, run, brk);
      var piece := rest[..p] + (run + brk);
      EscapeTurn(rest, rule, p, t, b, after, BreakLength(after), piece);
      AppendStep(out, piece, Escaped(rest, rule), Escaped(next, rule), Escaped(value, rule));
      out := out + piece;
      rest := next;
    }
  }

  /** The listing from tag `i` on is its line, then the listing after it. */
  lemma {:induction false} ListingFrom(pairs: seq<Tag.Pair>, i: nat, rule: Doubling, line: string)
    requires i < |pairs| && line == Line(pairs[i], rule)
    ensures Listing(pairs[i..], rule) == line + Listing(pairs[i + 1..], rule)
  {
    assert pairs[i..][1..] == pairs[i + 1..];
  }

  /**
   * `print_tags`, with runs doubled before a line break or the end: one
   * line per tag, in the order of the tags.
   */
  method PrintTags(tags: Tag.Tags) returns (out: string)
    ensures out == Listing(tags.pairs, BeforeBreak)
  {
    var pairs := tags.pairs;
    out := [];
    var i := 0;
    while i < |pairs|
      invariant 0 <= i <= |pairs|
      invariant out + Listing(pairs[i..], BeforeBreak) == Listing(pairs, BeforeBreak)
    {
      var value := EscapeValue(pairs[i].1, BeforeBreak);
      var line := pairs[i].0 + "=" + value + "\n";
      ListingFrom(pairs, i, BeforeBreak, line);
      AppendStep(out, line, Listing(pairs[i..], BeforeBreak), Listing(pairs[i + 1..], BeforeBreak),
        Listing(pairs, BeforeBreak));
      out := out + line;
      i := i + 1;
    }
    assert pairs[i..] == [];
  }
}

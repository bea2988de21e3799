/**
 * The command-line tokenizer of `src/rsvc/options.c` and the helpers that
 * option callbacks use to store values.
 *
 * `rsvc_options` walks `argv` from its second element and reports each
 * option and argument to a callback. A callback may ask for the option's
 * value through a `get_value` block, which can consume the next element of
 * `argv`. Here a set of callbacks is described by what it does: whether it
 * asks for a value for a given option, and whether it refuses (returns
 * false, with a message) given everything reported before. A callback that
 * asks for a value and is told that none is left fails with that message.
 * The parse reports a trace of events, or the message of the first failure.
 */
module Options {
  import opened Common

  /** What the tokenizer reports to a callback. */
  datatype Event =
    | Long(name: string, value: Option<string>)
    | Short(opt: char, value: Option<string>)
    | Argument(arg: string)

  datatype Callbacks = Callbacks(
    wantsLong: string -> bool,
    wantsShort: char -> bool,
    refuses: (seq<Event>, Event) -> Option<string>)

  /** Callbacks that never return false. */
  ghost predicate Accepting(cb: Callbacks)
  {
    forall trace, e :: cb.refuses(trace, e).None?
  }

  /** Hands `e` to its callback after the events of `trace`. */
  function Deliver(cb: Callbacks, trace: seq<Event>, e: Event): (r: Result<seq<Event>>)
    ensures r.Ok? <==> cb.refuses(trace, e).None?
    ensures r.Ok? ==> r.value == trace + [e]
    ensures r.Err? ==> r.msg == cb.refuses(trace, e).value
  {
    match cb.refuses(trace, e)
    case Some(m) => Err(m)
    case None => Ok(trace + [e])
  }

  /** A delivery, followed by the index of the next element to scan. */
  function Then(r: Result<seq<Event>>, next: nat): Result<(seq<Event>, nat)>
  {
    match r
    case Ok(trace) => Ok((trace, next))
    case Err(m) => Err(m)
  }

  /** An element that starts with "--" and is not "--" itself. */
  predicate IsLong(arg: string)
  {
    |arg| >= 2 && arg[..2] == "--" && arg != "--"
  }

  /** An element that starts with '-' and has another character: a cluster of short options. */
  predicate IsCluster(arg: string)
  {
    |arg| >= 2 && arg[0] == '-' && !IsLong(arg) && arg != "--"
  }

  // ---------------------------------------------------------------------
  // The `get_value` blocks
  // ---------------------------------------------------------------------

  /**
   * The `get_value` of "--name" at index `i`: the first request takes the
   * next element (failing if there is none), a repeated request returns the
   * element the index now points at. The pair holds the value and the index
   * after the request.
   */
  function LongValue(argv: seq<string>, i: nat, name: string, used: bool): (r: Result<(string, nat)>)
    requires i < |argv|
    ensures r.Ok? ==> r.value.1 < |argv| && r.value.0 == argv[r.value.1]
    ensures !used ==> (r.Ok? <==> i + 1 < |argv|)
    ensures !used && r.Ok? ==> r.value.1 == i + 1
    ensures r.Err? ==> r.msg == "option --" + name + ": argument required"
  {
    if used then Ok((argv[i], i))
    else if i + 1 == |argv| then Err("option --" + name + ": argument required")
    else Ok((argv[i + 1], i + 1))
  }

  /** Asking twice for the value of "--name" returns the same element and consumes no more. */
  lemma {:induction false} LongValueRepeats(argv: seq<string>, i: nat, name: string, v: string, j: nat)
    requires i < |argv| && LongValue(argv, i, name, false) == Ok((v, j))
    ensures j < |argv| && LongValue(argv, j, name, true) == Ok((v, j))
  {
  }

  /**
   * The `get_value` of the `j`-th character of `cluster`, scanned while the
   * index is `i`: the rest of the cluster when there is any, else the next
   * element. `val` is the value handed out by an earlier request, if any.
   */
  function ShortValue(argv: seq<string>, i: nat, cluster: string, j: nat, val: Option<string>): (r: Result<(string, nat)>)
    requires i < |argv| && 1 <= j < |cluster|
    ensures r.Ok? ==> r.value.1 < |argv| && (r.value.1 == i || r.value.1 == i + 1)
    ensures val.Some? ==> r == Ok((val.value, i))
    ensures val.None? && j + 1 < |cluster| ==> r == Ok((cluster[j + 1..], i))
    ensures val.None? && j + 1 == |cluster| ==>
      r == if i + 1 < |argv| then Ok((argv[i + 1], i + 1))
           else Err("option -" + [cluster[j]] + ": argument required")
  {
    match val
    case Some(v) => Ok((v, i))
    case None =>
      if j + 1 < |cluster| then Ok((cluster[j + 1..], i))
      else if i + 1 == |argv| then Err("option -" + [cluster[j]] + ": argument required")
      else Ok((argv[i + 1], i + 1))
  }

  /** Asking twice for the value of a short option returns the same text and consumes no more. */
  lemma {:induction false} ShortValueRepeats(argv: seq<string>, i: nat, cluster: string, j: nat, v: string, k: nat)
    requires i < |argv| && 1 <= j < |cluster| && ShortValue(argv, i, cluster, j, None) == Ok((v, k))
    ensures k < |argv| && ShortValue(argv, k, cluster, j, Some(v)) == Ok((v, k))
  {
  }

  // ---------------------------------------------------------------------
  // One element of argv
  // ---------------------------------------------------------------------

  /** "--name=value", "--name" or "--name value" at index `i`. */
  function LongStep(argv: seq<string>, cb: Callbacks, i: nat, trace: seq<Event>): (r: Result<(seq<Event>, nat)>)
    requires i < |argv| && IsLong(argv[i])
    ensures r.Ok? ==> i + 1 <= r.value.1 <= i + 2 && r.value.1 <= |argv|
    ensures r.Ok? ==> |r.value.0| == |trace| + 1 && r.value.0[..|trace|] == trace
  {
    var opt := argv[i][2..];
    match FirstIndex(opt, '=')
    case Some(eq) =>
      var name := opt[..eq];
      if cb.wantsLong(name) then Then(Deliver(cb, trace, Long(name, Some(opt[eq + 1..]))), i + 1)
      else
        (match cb.refuses(trace, Long(name, None))
         case Some(m) => Err(m)
         case None => Err("option --" + name + ": no argument permitted"))
    case None =>
      if cb.wantsLong(opt) then
        match LongValue(argv, i, opt, false)
        case Err(m) => Err(m)
        case Ok(got) => Then(Deliver(cb, trace, Long(opt, Some(got.0))), got.1 + 1)
      else Then(Deliver(cb, trace, Long(opt, None)), i + 1)
  }

  /**
   * The characters of the cluster `argv[i]` from the `j`-th on: each is
   * reported in turn until one asks for a value, which ends the cluster.
   */
  function ClusterFrom(argv: seq<string>, cb: Callbacks, i: nat, j: nat, trace: seq<Event>): (r: Result<(seq<Event>, nat)>)
    requires i < |argv| && 1 <= j <= |argv[i]|
    ensures r.Ok? ==> i + 1 <= r.value.1 <= i + 2 && r.value.1 <= |argv|
    ensures r.Ok? ==> |r.value.0| >= |trace| && r.value.0[..|trace|] == trace
    decreases |argv[i]| - j
  {
    if j == |argv[i]| then Ok((trace, i + 1))
    else
      var c := argv[i][j];
      if cb.wantsShort(c) then
        match ShortValue(argv, i, argv[i], j, None)
        case Err(m) => Err(m)
        case Ok(got) => Then(Deliver(cb, trace, Short(c, Some(got.0))), got.1 + 1)
      else
        match Deliver(cb, trace, Short(c, None))
        case Err(m) => Err(m)
        case Ok(t) =>
          var r := ClusterFrom(argv, cb, i, j + 1, t);
          assert r.Ok? ==> r.value.0[..|trace|] == r.value.0[..|t|][..|trace|];
          r
  }

  /** One element other than "--": its events, and the index of the next element. */
  function Step(argv: seq<string>, cb: Callbacks, i: nat, trace: seq<Event>): (r: Result<(seq<Event>, nat)>)
    requires i < |argv| && argv[i] != "--"
    ensures r.Ok? ==> i + 1 <= r.value.1 <= i + 2 && r.value.1 <= |argv|
    ensures r.Ok? ==> |r.value.0| >= |trace| && r.value.0[..|trace|] == trace
  {
    var arg := argv[i];
    if IsLong(arg) then LongStep(argv, cb, i, trace)
    else if |arg| >= 2 && arg[0] == '-' then ClusterFrom(argv, cb, i, 1, trace)
    else Then(Deliver(cb, trace, Argument(arg)), i + 1)
  }

  /** After "--": every remaining element is an argument. */
  function Rest(argv: seq<string>, cb: Callbacks, i: nat, trace: seq<Event>): Result<seq<Event>>
    decreases |argv| - i
  {
    if i >= |argv| then Ok(trace)
    else
      match Deliver(cb, trace, Argument(argv[i]))
      case Err(m) => Err(m)
      case Ok(t) => Rest(argv, cb, i + 1, t)
  }

  function ParseFrom(argv: seq<string>, cb: Callbacks, i: nat, trace: seq<Event>): Result<seq<Event>>
    decreases |argv| - i
  {
    if i >= |argv| then Ok(trace)
    else if argv[i] == "--" then Rest(argv, cb, i + 1, trace)
    else
      match Step(argv, cb, i, trace)
      case Err(m) => Err(m)
      case Ok(next) => ParseFrom(argv, cb, next.1, next.0)
  }

  /** The whole parse: `argv[0]`, the program name, is skipped. */
  function Parse(argv: seq<string>, cb: Callbacks): Result<seq<Event>>
  {
    ParseFrom(argv, cb, 1, [])
  }

  // ---------------------------------------------------------------------
  // rsvc_options
  // ---------------------------------------------------------------------

  /** The scan of `rsvc_options`. */
  method Tokenize(argv: seq<string>, cb: Callbacks) returns (r: Result<seq<Event>>)
    ensures r == Parse(argv, cb)
  {
    var trace: seq<Event> := [];
    var i := 1;
    var ended := false;
    while i < |argv| && !ended
      invariant 1 <= i
      invariant !ended ==> Parse(argv, cb) == ParseFrom(argv, cb, i, trace)
      invariant ended ==> Parse(argv, cb) == Rest(argv, cb, i, trace)
      decreases |argv| - i, if ended then 0 else 1
    {
      if argv[i] == "--" {
        i := i + 1;
        ended := true;
      } else {
        var step := Element(argv, cb, i, trace);
        match step {
          case Err(m) => return Err(m);
          case Ok(next) =>
            trace := next.0;
            i := next.1;
        }
      }
    }
    while i < |argv|
      invariant Parse(argv, cb) == Rest(argv, cb, i, trace)
      decreases |argv| - i
    {
      match cb.refuses(trace, Argument(argv[i])) {
        case Some(m) => return Err(m);
        case None =>
      }
      trace := trace + [Argument(argv[i])];
      i := i + 1;
    }
    return Ok(trace);
  }

  /** One element other than "--", as the body of the first loop of `rsvc_options` handles it. */
  method Element(argv: seq<string>, cb: Callbacks, i: nat, trace: seq<Event>) returns (r: Result<(seq<Event>, nat)>)
    requires i < |argv| && argv[i] != "--"
    ensures r == Step(argv, cb, i, trace)
  {
    var arg := argv[i];
    if IsLong(arg) {
      var opt := arg[2..];
      var eq := FirstIndex(opt, '=');
      var e: Event;
      var next := i;
      if eq.Some? {
        var name := opt[..eq.value];
        var used := cb.wantsLong(name);
        e := if used then Long(name, Some(opt[eq.value + 1..])) else Long(name, None);
        match cb.refuses(trace, e) {
          case Some(m) => return Err(m);
          case None =>
        }
        if !used {
          return Err("option --" + name + ": no argument permitted");
        }
        return Ok((trace + [e], i + 1));
      } else if cb.wantsLong(opt) {
        if next + 1 == |argv| {
          return Err("option --" + opt + ": argument required");
        }
        next := next + 1;
        e := Long(opt, Some(argv[next]));
      } else {
        e := Long(opt, None);
      }
      match cb.refuses(trace, e) {
        case Some(m) => return Err(m);
        case None =>
      }
      return Ok((trace + [e], next + 1));
    } else if |arg| >= 2 && arg[0] == '-' {
      r := Cluster(argv, cb, i, trace);
    } else {
      match cb.refuses(trace, Argument(arg)) {
        case Some(m) => return Err(m);
        case None =>
      }
      return Ok((trace + [Argument(arg)], i + 1));
    }
  }

  /** The inner loop of `rsvc_options` over the characters of a cluster. */
  method Cluster(argv: seq<string>, cb: Callbacks, i: nat, trace: seq<Event>) returns (r: Result<(seq<Event>, nat)>)
    requires i < |argv| && |argv[i]| >= 2
    ensures r == ClusterFrom(argv, cb, i, 1, trace)
  {
    var arg := argv[i];
    var val: Option<string> := None;
    var at: nat := i;
    var t := trace;
    var j := 1;
    while j < |arg| && val.None?
      invariant 1 <= j <= |arg|
      invariant val.None? ==> at == i && ClusterFrom(argv, cb, i, 1, trace) == ClusterFrom(argv, cb, i, j, t)
      invariant val.Some? ==> at < |argv| && ClusterFrom(argv, cb, i, 1, trace) == Ok((t, (at + 1) as nat))
      decreases |arg| - j
    {
      var c := arg[j];
      var e: Event;
      if cb.wantsShort(c) {
        if j + 1 < |arg| {
          val := Some(arg[j + 1..]);
        } else {
          if at + 1 == |argv| {
            return Err("option -" + [c] + ": argument required");
          }
          at := at + 1;
          val := Some(argv[at]);
        }
        e := Short(c, val);
      } else {
        e := Short(c, None);
      }
      match cb.refuses(t, e) {
        case Some(m) => return Err(m);
        case None =>
      }
      t := t + [e];
      j := j + 1;
    }
    return Ok((t, at + 1));
  }

  // ---------------------------------------------------------------------
  // What the parse does
  // ---------------------------------------------------------------------

  /** The events of a run of plain arguments. */
  function Arguments(args: seq<string>): (r: seq<Event>)
    ensures |r| == |args| && forall k :: 0 <= k < |args| ==> r[k] == Argument(args[k])
  {
    seq(|args|, k requires 0 <= k < |args| => Argument(args[k]))
  }

  lemma {:induction false} RestAccepted(argv: seq<string>, cb: Callbacks, i: nat, trace: seq<Event>)
    requires Accepting(cb) && i <= |argv|
    ensures Rest(argv, cb, i, trace) == Ok(trace + Arguments(argv[i..]))
    decreases |argv| - i
  {
    if i < |argv| {
      RestAccepted(argv, cb, i + 1, trace + [Argument(argv[i])]);
      assert trace + [Argument(argv[i])] + Arguments(argv[i + 1..]) == trace + Arguments(argv[i..]);
    } else {
      assert trace + Arguments(argv[i..]) == trace;
    }
  }

  /** "--" ends the options: every later element is an argument, in order, even one that starts with '-'. */
  lemma {:induction false} DashDashEndsOptions(argv: seq<string>, cb: Callbacks, i: nat, trace: seq<Event>)
    requires Accepting(cb) && i < |argv| && argv[i] == "--"
    ensures ParseFrom(argv, cb, i, trace) == Ok(trace + Arguments(argv[i + 1..]))
  {
    RestAccepted(argv, cb, i + 1, trace);
  }

  /** "--name=value": the value is offered to the callback, which must take it. */
  lemma {:induction false} LongWithValue(argv: seq<string>, cb: Callbacks, i: nat, trace: seq<Event>, name: string, value: string)
    requires Accepting(cb) && i < |argv| && argv[i] == "--" + name + "=" + value && '=' !in name
    ensures argv[i] != "--"
    ensures Step(argv, cb, i, trace) ==
      if cb.wantsLong(name) then Ok((trace + [Long(name, Some(value))], i + 1))
      else Err("option --" + name + ": no argument permitted")
  {
    var opt := argv[i][2..];
    assert opt == name + "=" + value;
    assert opt[|name|] == '=';
    assert FirstIndex(opt, '=') == Some(|name|) by {
      assert forall k :: 0 <= k < |name| ==> opt[k] == name[k];
    }
    assert opt[..|name|] == name && opt[|name| + 1..] == value;
  }

  /** "--name" whose callback wants a value takes the next element, or fails when there is none. */
  lemma {:induction false} LongWithNext(argv: seq<string>, cb: Callbacks, i: nat, trace: seq<Event>, name: string)
    requires Accepting(cb) && i < |argv| && argv[i] == "--" + name && name != [] && '=' !in name
    requires cb.wantsLong(name)
    ensures argv[i] != "--"
    ensures Step(argv, cb, i, trace) ==
      if i + 1 < |argv| then Ok((trace + [Long(name, Some(argv[i + 1]))], i + 2))
      else Err("option --" + name + ": argument required")
  {
    assert argv[i][2..] == name;
    assert argv[i][..2] == "--";
  }

  /** A short option's characters that do not ask for a value. */
  function Flags(cs: string): (r: seq<Event>)
    ensures |r| == |cs| && forall k :: 0 <= k < |cs| ==> r[k] == Short(cs[k], None)
  {
    seq(|cs|, k requires 0 <= k < |cs| => Short(cs[k], None))
  }

  lemma {:induction false} ClusterFlags(argv: seq<string>, cb: Callbacks, i: nat, j: nat, trace: seq<Event>, k: nat)
    requires Accepting(cb) && i < |argv| && 1 <= j <= k <= |argv[i]|
    requires forall m :: j <= m < k ==> !cb.wantsShort(argv[i][m])
    ensures ClusterFrom(argv, cb, i, j, trace) == ClusterFrom(argv, cb, i, k, trace + Flags(argv[i][j..k]))
    decreases k - j
  {
    if j < k {
      var t := trace + [Short(argv[i][j], None)];
      ClusterFlags(argv, cb, i, j + 1, t, k);
      assert t + Flags(argv[i][j + 1..k]) == trace + Flags(argv[i][j..k]);
    } else {
      assert trace + Flags(argv[i][j..k]) == trace;
    }
  }

  /**
   * "-" followed by `cs`: the characters before the first one that asks
   * for a value are reported as flags; that one gets the rest of the
   * cluster, or the next element when it is the last character.
   */
  lemma {:induction false} ClusterWithValue(argv: seq<string>, cb: Callbacks, i: nat, trace: seq<Event>, cs: string, k: nat)
    requires Accepting(cb) && i < |argv| && argv[i] == "-" + cs
    requires k < |cs| && cb.wantsShort(cs[k]) && forall m :: 0 <= m < k ==> !cb.wantsShort(cs[m])
    requires k + 1 < |cs| || i + 1 < |argv|
    ensures ClusterFrom(argv, cb, i, 1, trace) ==
      Ok((trace + Flags(cs[..k]) + [Short(cs[k], Some(if k + 1 < |cs| then cs[k + 1..] else argv[i + 1]))],
          if k + 1 < |cs| then i + 1 else i + 2))
  {
    assert forall m :: 1 <= m < k + 1 ==> argv[i][m] == cs[m - 1];
    ClusterFlags(argv, cb, i, 1, trace, k + 1);
    assert argv[i][1..k + 1] == cs[..k];
    assert argv[i][k + 2..] == cs[k + 1..];
  }

  /** A cluster in which no character asks for a value: all of them are flags. */
  lemma {:induction false} ClusterOfFlags(argv: seq<string>, cb: Callbacks, i: nat, trace: seq<Event>, cs: string)
    requires Accepting(cb) && i < |argv| && argv[i] == "-" + cs && cs != []
    requires forall m :: 0 <= m < |cs| ==> !cb.wantsShort(cs[m])
    ensures ClusterFrom(argv, cb, i, 1, trace) == Ok((trace + Flags(cs), i + 1))
  {
    assert forall m :: 1 <= m < |cs| + 1 ==> argv[i][m] == cs[m - 1];
    ClusterFlags(argv, cb, i, 1, trace, |cs| + 1);
    assert argv[i][1..|cs| + 1] == cs;
  }

  /** A lone "-" and any element that does not start with '-' is an argument. */
  lemma {:induction false} PlainArgument(argv: seq<string>, cb: Callbacks, i: nat, trace: seq<Event>)
    requires i < |argv| && (argv[i] == "-" || argv[i] == [] || argv[i][0] != '-')
    ensures argv[i] != "--"
    ensures Step(argv, cb, i, trace) == Then(Deliver(cb, trace, Argument(argv[i])), i + 1)
  {
    if |argv[i]| >= 2 {
      assert argv[i][..2][0] == argv[i][0];
    }
  }

  /** A callback that returns false ends the whole parse with its message. */
  lemma {:induction false} RefusalStops(argv: seq<string>, cb: Callbacks, i: nat, trace: seq<Event>, m: string)
    requires i < |argv| && argv[i] != "--" && !IsLong(argv[i]) && !IsCluster(argv[i])
    requires cb.refuses(trace, Argument(argv[i])) == Some(m)
    ensures ParseFrom(argv, cb, i, trace) == Err(m)
  {
  }

  lemma {:induction false} ClusterSame(argv: seq<string>, other: seq<string>, cb: Callbacks, i: nat, j: nat, trace: seq<Event>)
    requires |argv| == |other| && i < |argv| && 1 <= j <= |argv[i]|
    requires forall k :: i <= k < |argv| ==> argv[k] == other[k]
    ensures ClusterFrom(argv, cb, i, j, trace) == ClusterFrom(other, cb, i, j, trace)
    decreases |argv[i]| - j
  {
    if j < |argv[i]| && !cb.wantsShort(argv[i][j]) && cb.refuses(trace, Short(argv[i][j], None)).None? {
      ClusterSame(argv, other, cb, i, j + 1, trace + [Short(argv[i][j], None)]);
    }
  }

  lemma {:induction false} RestSame(argv: seq<string>, other: seq<string>, cb: Callbacks, i: nat, trace: seq<Event>)
    requires |argv| == |other| && forall k :: i <= k < |argv| ==> argv[k] == other[k]
    ensures Rest(argv, cb, i, trace) == Rest(other, cb, i, trace)
    decreases |argv| - i
  {
    if i < |argv| && cb.refuses(trace, Argument(argv[i])).None? {
      RestSame(argv, other, cb, i + 1, trace + [Argument(argv[i])]);
    }
  }

  lemma {:induction false} ParseFromSame(argv: seq<string>, other: seq<string>, cb: Callbacks, i: nat, trace: seq<Event>)
    requires |argv| == |other| && forall k :: i <= k < |argv| ==> argv[k] == other[k]
    ensures ParseFrom(argv, cb, i, trace) == ParseFrom(other, cb, i, trace)
    decreases |argv| - i
  {
    if i < |argv| {
      if argv[i] == "--" {
        RestSame(argv, other, cb, i + 1, trace);
      } else {
        if !IsLong(argv[i]) && |argv[i]| >= 2 && argv[i][0] == '-' {
          ClusterSame(argv, other, cb, i, 1, trace);
        }
        assert Step(argv, cb, i, trace) == Step(other, cb, i, trace);
        var s := Step(argv, cb, i, trace);
        if s.Ok? {
          ParseFromSame(argv, other, cb, s.value.1, s.value.0);
        }
      }
    }
  }

  /** The parse never looks at `argv[0]`, the program name. */
  lemma {:induction false} ProgramNameIgnored(argv: seq<string>, other: seq<string>, cb: Callbacks)
    requires |argv| == |other| >= 1 && argv[1..] == other[1..]
    ensures Parse(argv, cb) == Parse(other, cb)
  {
    forall k | 1 <= k < |argv|
      ensures argv[k] == other[k]
    {
      assert argv[k] == argv[1..][k - 1];
    }
    ParseFromSame(argv, other, cb, 1, []);
  }

  // ---------------------------------------------------------------------
  // Option helpers
  // ---------------------------------------------------------------------

  /** The code of the first table entry named `opt`. */
  function Lookup<T>(table: seq<(string, T)>, opt: string): (r: Option<T>)
    ensures r.Some? ==> exists k :: 0 <= k < |table| && table[k] == (opt, r.value)
    ensures r.None? ==> forall k :: 0 <= k < |table| ==> table[k].0 != opt
  {
    if table == [] then None
    else if table[0].0 == opt then Some(table[0].1)
    else Lookup(table[1..], opt)
  }

  /**
   * `rsvc_long_option`: the short code the table gives a long name, for
   * the caller's short-option callback; the first entry with that name
   * wins.
   */
  method LongOption<T(==)>(table: seq<(string, T)>, opt: string) returns (r: Result<T>)
    ensures r.Ok? <==> Lookup(table, opt).Some?
    ensures r.Ok? ==> r.value == Lookup(table, opt).value
    ensures r.Ok? <==> exists k :: 0 <= k < |table| && table[k].0 == opt
    ensures r.Ok? ==> exists k :: (0 <= k < |table| && table[k] == (opt, r.value) &&
      forall m :: 0 <= m < k ==> table[m].0 != opt)
    ensures r.Err? ==> r.msg == "illegal option --" + opt
  {
    var k := 0;
    while k < |table|
      invariant k <= |table| && forall m :: 0 <= m < k ==> table[m].0 != opt
      invariant Lookup(table, opt) == Lookup(table[k..], opt)
    {
      assert table[k..] == [table[k]] + table[k + 1..];
      if table[k].0 == opt {
        return Ok(table[k].1);
      }
      k := k + 1;
    }
    return Err("illegal option --" + opt);
  }

  /** The conversion of a `long` to a 32-bit `int`: wraps modulo 2^32. */
  function Int32(v: int): (r: int)
    ensures -0x8000_0000 <= r < 0x8000_0000
    ensures (r - v) % UINT32_LIMIT == 0
    ensures -0x8000_0000 <= v < 0x8000_0000 ==> r == v
  {
    (v + 0x8000_0000) % UINT32_LIMIT - 0x8000_0000
  }

  /** What `rsvc_integer_option` stores, or why it refuses. */
  function IntegerRead(got: Result<string>): (r: Result<int>)
    ensures r.Ok? ==> got.Ok? && -0x8000_0000 <= r.value < 0x8000_0000
  {
    match got
    case Err(m) => Err(m)
    case Ok(value) =>
      if StrTol(value).1 < |value| then Err("an integer is required") else Ok(Int32(StrTol(value).0))
  }

  /** What `rsvc_integer_option` stores as evidently intended: an empty value is refused as well. */
  function RequiredRead(got: Result<string>): (r: Result<int>)
    ensures r.Ok? ==> got.Ok? && got.value != [] && -0x8000_0000 <= r.value < 0x8000_0000
  {
    match got
    case Err(m) => Err(m)
    case Ok(value) =>
      if value == [] || StrTol(value).1 < |value| then Err("an integer is required") else Ok(Int32(StrTol(value).0))
  }

  /**
   * `rsvc_integer_option`: `got` is what `get_value` returned. The value is
   * read with `strtol`, must have nothing after the number, and replaces
   * `integer`; on any failure `integer` is kept.
   */
  method IntegerOption(integer: int, got: Result<string>) returns (r: Result<int>, stored: int)
    ensures r == IntegerRead(got) && stored == (if r.Ok? then r.value else integer)
    ensures got.Err? ==> r == Err(got.msg) && stored == integer
    ensures got.Ok? ==> (r.Ok? <==> StrTol(got.value).1 == |got.value|)
    ensures r.Ok? ==> stored == r.value == Int32(StrTol(got.value).0)
    ensures got.Ok? && r.Err? ==> r.msg == "an integer is required" && stored == integer
  {
    stored := integer;
    match got {
      case Err(m) => return Err(m), stored;
      case Ok(value) =>
        var read := StrTol(value);
        if read.1 < |value| {
          return Err("an integer is required"), stored;
        }
        stored := Int32(read.0);
        return Ok(stored), stored;
    }
  }

  /** An empty value has no trailing characters after `strtol`'s (empty) number, so it reads as 0. */
  lemma {:induction false} EmptyIntegerAccepted()
    ensures StrTol("").1 == |""| && Int32(StrTol("").0) == 0
  {
  }

  /** A well-formed integer value: an optional sign and at least one digit, nothing else. */
  predicate IntegerText(value: string)
  {
    var sign := if value != [] && (value[0] == '+' || value[0] == '-') then 1 else 0;
    |value| > sign && AllDigits(value[sign..])
  }

  /** `rsvc_integer_option` as evidently intended: an empty value is not an integer. */
  method RequireInteger(integer: int, got: Result<string>) returns (r: Result<int>, stored: int)
    ensures r == RequiredRead(got) && stored == (if r.Ok? then r.value else integer)
    ensures got.Err? ==> r == Err(got.msg) && stored == integer
    ensures got.Ok? ==> (r.Ok? <==> got.value != [] && StrTol(got.value).1 == |got.value|)
    ensures r.Ok? ==> got.Ok? && got.value != [] && stored == r.value == Int32(StrTol(got.value).0)
    ensures got.Ok? && IntegerText(got.value) ==> r.Ok?
    ensures got.Ok? && r.Err? ==> r.msg == "an integer is required" && stored == integer
  {
    stored := integer;
    match got {
      case Err(m) => return Err(m), stored;
      case Ok(value) =>
        var read := StrTol(value);
        if read.1 == 0 || read.1 < |value| {
          return Err("an integer is required"), stored;
        }
        IntegerTextRead(value);
        stored := Int32(read.0);
        return Ok(stored), stored;
    }
  }

  /** `strtol` reads a well-formed integer value to its end. */
  lemma {:induction false} IntegerTextRead(value: string)
    ensures IntegerText(value) ==> StrTol(value).1 == |value|
  {
    if IntegerText(value) {
      assert Span(value, IsSpace) == 0;
      assert value[0..] == value;
      var sign := if value[0] == '+' || value[0] == '-' then 1 else 0;
      SpanAll(value[sign..], IsDigit);
    }
  }
}

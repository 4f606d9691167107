/** The argument parser: one pass over the arguments, calling handlers, then a
  * rewrite of the argument list in place.
  *
  * A handler may answer according to all calls made before; `calls` is that
  * history.  The registered names are kept in the order in which the maps that
  * hold them are iterated.
  */
module ArgumentParser {
  import opened Wrappers

  datatype Call = FlagCall(name: string, isSet: bool) | OptCall(name: string, value: string)

  /** Whether a handler accepts a call, after the calls made before. */
  type Handlers = (seq<Call>, Call) -> bool

  /** A flag whose handler takes no argument is called only when the flag is set. */
  datatype Flag = Flag(name: string, calledIfNotSet: bool)

  datatype OptionalOpt = OptionalOpt(name: string, defaultValue: string, calledIfNotSet: bool)

  datatype Config = Config(flags: seq<Flag>, opts: seq<string>, optionalOpts: seq<OptionalOpt>, accepts: Handlers)

  datatype Error =
    | DanglingEscape
    | InvalidFlag(name: string)
    | MissingValue(name: string)
    | InvalidValue(name: string, value: string)
    | NotOptional(name: string)

  datatype Outcome =
    | Done(unknown: seq<string>, handled: set<string>, calls: seq<Call>)
    | Failed(error: Error, calls: seq<Call>)

  datatype Kind = AFlag(flag: Flag) | AnOpt | AnOptionalOpt(opt: OptionalOpt) | Unregistered

  const ESCAPE := "--"

  function FindFlag(flags: seq<Flag>, name: string): Option<Flag> {
    if flags == [] then None else if flags[0].name == name then Some(flags[0]) else FindFlag(flags[1..], name)
  }

  function FindOptionalOpt(opts: seq<OptionalOpt>, name: string): Option<OptionalOpt> {
    if opts == [] then None else if opts[0].name == name then Some(opts[0]) else FindOptionalOpt(opts[1..], name)
  }

  function Lookup(cfg: Config, name: string): Kind {
    var f := FindFlag(cfg.flags, name);
    if f.Some? then AFlag(f.value)
    else if name in cfg.opts then AnOpt
    else
      var o := FindOptionalOpt(cfg.optionalOpts, name);
      if o.Some? then AnOptionalOpt(o.value) else Unregistered
  }

  /** The calls that reach the user's handler: some wrappers answer by themselves. */
  function FlagCalls(f: Flag, value: bool): seq<Call> {
    if value || f.calledIfNotSet then [FlagCall(f.name, value)] else []
  }

  function OptionalOptCalls(o: OptionalOpt, value: string): seq<Call> {
    if value != o.defaultValue || o.calledIfNotSet then [OptCall(o.name, value)] else []
  }

  /** All calls are accepted, one after the other. */
  predicate Accepted(accepts: Handlers, calls: seq<Call>, more: seq<Call>)
    decreases |more|
  {
    more == [] || (accepts(calls, more[0]) && Accepted(accepts, calls + [more[0]], more[1..]))
  }

  // ----- The scanner -----

  function Prepend(unknown: seq<string>, handled: set<string>, r: Outcome): Outcome {
    match r
    case Done(u, h, c) => Done(unknown + u, handled + h, c)
    case Failed(_, _) => r
  }

  function Scan(cfg: Config, args: seq<string>, calls: seq<Call>): Outcome
    decreases |args|
  {
    if args == [] then Done([], {}, calls)
    else if args[0] == ESCAPE then
      if |args| < 2 then Failed(DanglingEscape, calls)
      else Prepend([args[1]], {}, Scan(cfg, args[2..], calls))
    else
      match Lookup(cfg, args[0])
      case AFlag(f) =>
        var more := FlagCalls(f, true);
        if !Accepted(cfg.accepts, calls, more) then Failed(InvalidFlag(f.name), calls + more)
        else Prepend([], {args[0]}, Scan(cfg, args[1..], calls + more))
      case AnOpt =>
        if |args| < 2 then Failed(MissingValue(args[0]), calls)
        else
          var more := [OptCall(args[0], args[1])];
          if !Accepted(cfg.accepts, calls, more) then Failed(InvalidValue(args[0], args[1]), calls + more)
          else Prepend([], {args[0]}, Scan(cfg, args[2..], calls + more))
      case AnOptionalOpt(o) =>
        if |args| < 2 then Failed(MissingValue(o.name), calls)
        else
          var more := OptionalOptCalls(o, args[1]);
          if !Accepted(cfg.accepts, calls, more) then Failed(InvalidValue(o.name, args[1]), calls + more)
          else Prepend([], {args[0]}, Scan(cfg, args[2..], calls + more))
      case Unregistered =>
        Prepend([args[0]], {}, Scan(cfg, args[1..], calls))
  }

  /** The handlers of what was not set are called with false. */
  function UnsetFlags(cfg: Config, flags: seq<Flag>, r: Outcome): Outcome
    decreases |flags|
  {
    if flags == [] || r.Failed? then r
    else if flags[0].name in r.handled then UnsetFlags(cfg, flags[1..], r)
    else
      var more := FlagCalls(flags[0], false);
      if !Accepted(cfg.accepts, r.calls, more) then Failed(InvalidFlag(flags[0].name), r.calls + more)
      else UnsetFlags(cfg, flags[1..], Done(r.unknown, r.handled, r.calls + more))
  }

  function MissingOpts(opts: seq<string>, r: Outcome): Outcome
    decreases |opts|
  {
    if opts == [] || r.Failed? then r
    else if opts[0] in r.handled then MissingOpts(opts[1..], r)
    else Failed(NotOptional(opts[0]), r.calls)
  }

  /** The handlers of what was not set are called with the default value. */
  function UnsetOptionalOpts(cfg: Config, opts: seq<OptionalOpt>, r: Outcome): Outcome
    decreases |opts|
  {
    if opts == [] || r.Failed? then r
    else if opts[0].name in r.handled then UnsetOptionalOpts(cfg, opts[1..], r)
    else
      var more := OptionalOptCalls(opts[0], opts[0].defaultValue);
      if !Accepted(cfg.accepts, r.calls, more) then
        Failed(InvalidValue(opts[0].name, opts[0].defaultValue), r.calls + more)
      else UnsetOptionalOpts(cfg, opts[1..], Done(r.unknown, r.handled, r.calls + more))
  }

  function Outcomes(cfg: Config, args: seq<string>, calls: seq<Call>): Outcome {
    UnsetOptionalOpts(cfg, cfg.optionalOpts,
      MissingOpts(cfg.opts, UnsetFlags(cfg, cfg.flags, Scan(cfg, args, calls))))
  }

  // ----- What an argument list says -----

  datatype Item =
    | Escaped(arg: string)
    | Plain(arg: string)
    | Set(name: string)
    | Assign(name: string, value: string)

  /** Each item is of the kind its first word has; a plain argument is neither registered nor the escape. */
  predicate Fits(cfg: Config, item: Item) {
    match item
    case Escaped(_) => true
    case Plain(a) => a != ESCAPE && Lookup(cfg, a).Unregistered?
    case Set(n) => n != ESCAPE && Lookup(cfg, n).AFlag?
    case Assign(n, _) => n != ESCAPE && (Lookup(cfg, n).AnOpt? || Lookup(cfg, n).AnOptionalOpt?)
  }

  ghost predicate AllFit(cfg: Config, items: seq<Item>) {
    forall i :: 0 <= i < |items| ==> Fits(cfg, items[i])
  }

  function Written(item: Item): seq<string> {
    match item
    case Escaped(a) => [ESCAPE, a]
    case Plain(a) => [a]
    case Set(n) => [n]
    case Assign(n, v) => [n, v]
  }

  function Render(items: seq<Item>): seq<string> {
    if items == [] then [] else Written(items[0]) + Render(items[1..])
  }

  function Positionals(items: seq<Item>): seq<string> {
    if items == [] then []
    else (if items[0].Escaped? || items[0].Plain? then [items[0].arg] else []) + Positionals(items[1..])
  }

  function Names(items: seq<Item>): set<string> {
    if items == [] then {}
    else (if items[0].Set? || items[0].Assign? then {items[0].name} else {}) + Names(items[1..])
  }

  function CallsOf(cfg: Config, item: Item): seq<Call> {
    match item
    case Set(n) =>
      var k := Lookup(cfg, n);
      if k.AFlag? then FlagCalls(k.flag, true) else []
    case Assign(n, v) =>
      var k := Lookup(cfg, n);
      if k.AnOptionalOpt? then OptionalOptCalls(k.opt, v) else [OptCall(n, v)]
    case _ => []
  }

  function Calls(cfg: Config, items: seq<Item>): seq<Call> {
    if items == [] then [] else CallsOf(cfg, items[0]) + Calls(cfg, items[1..])
  }

  /** Reads an argument list as items; None when its last word lacks its companion. */
  function Itemize(cfg: Config, args: seq<string>): Option<seq<Item>>
    decreases |args|
  {
    if args == [] then Some([])
    else
      var k := Lookup(cfg, args[0]);
      if args[0] != ESCAPE && (k.AFlag? || k.Unregistered?) then
        var rest :- Itemize(cfg, args[1..]);
        Some([if k.AFlag? then Set(args[0]) else Plain(args[0])] + rest)
      else if |args| < 2 then None
      else
        var rest :- Itemize(cfg, args[2..]);
        Some([if args[0] == ESCAPE then Escaped(args[1]) else Assign(args[0], args[1])] + rest)
  }

  lemma FirstItem(cfg: Config, item: Item, rest: seq<string>)
    requires Fits(cfg, item)
    ensures var more := Itemize(cfg, rest);
            Itemize(cfg, Written(item) + rest) == if more.Some? then Some([item] + more.value) else None
  {
    hide Lookup;
    var args := Written(item) + rest;
    assert args[|Written(item)|..] == rest;
    assert args[0] == Written(item)[0];
  }

  lemma {:induction false} ItemizeRendered(cfg: Config, items: seq<Item>)
    requires AllFit(cfg, items)
    ensures Itemize(cfg, Render(items)) == Some(items)
    decreases |items|
  {
    hide Fits, Written, Itemize;
    if items == [] {
      EmptyItemizes(cfg);
    } else {
      ItemizeRendered(cfg, items[1..]);
      FirstItem(cfg, items[0], Render(items[1..]));
      assert [items[0]] + items[1..] == items;
    }
  }

  lemma EmptyItemizes(cfg: Config)
    ensures Itemize(cfg, []) == Some([])
  {
  }

  lemma RenderCons(item: Item, items: seq<Item>)
    ensures Render([item] + items) == Written(item) + Render(items)
  {
    assert ([item] + items)[1..] == items;
  }

  lemma {:induction false} RenderItemized(cfg: Config, args: seq<string>)
    requires Itemize(cfg, args).Some?
    ensures AllFit(cfg, Itemize(cfg, args).value) && Render(Itemize(cfg, args).value) == args
    decreases |args|
  {
    hide Lookup, Render;
    if args == [] {
      NothingRendered();
    } else {
      var items := Itemize(cfg, args).value;
      var item := items[0];
      var n := |Written(item)|;
      assert n <= |args| && Written(item) == args[..n] && Fits(cfg, item);
      RenderItemized(cfg, args[n..]);
      RenderCons(item, items[1..]);
      assert [item] + items[1..] == items;
      assert args[..n] + args[n..] == args;
    }
  }

  lemma NothingRendered()
    ensures Render([]) == []
  {
  }

  /** An argument list can be read as items in one way at most: reading undoes writing, both ways. */
  lemma ItemizeIff(cfg: Config, args: seq<string>, items: seq<Item>)
    ensures Itemize(cfg, args) == Some(items) <==> AllFit(cfg, items) && Render(items) == args
  {
    if Itemize(cfg, args) == Some(items) {
      RenderItemized(cfg, args);
    }
    if AllFit(cfg, items) && Render(items) == args {
      ItemizeRendered(cfg, items);
    }
  }

  lemma {:induction false} AcceptedConcat(accepts: Handlers, calls: seq<Call>, a: seq<Call>, b: seq<Call>)
    ensures Accepted(accepts, calls, a + b) <==> Accepted(accepts, calls, a) && Accepted(accepts, calls + a, b)
    decreases |a|
  {
    if a == [] {
      assert a + b == b && calls + a == calls;
    } else {
      assert (a + b)[1..] == a[1..] + b;
      assert (calls + [a[0]]) + a[1..] == calls + a;
      AcceptedConcat(accepts, calls + [a[0]], a[1..], b);
    }
  }

  function PositionalOf(item: Item): seq<string> {
    if item.Escaped? || item.Plain? then [item.arg] else []
  }

  function NameOf(item: Item): set<string> {
    if item.Set? || item.Assign? then {item.name} else {}
  }

  /** What the scan does with the first item. */
  lemma ScanFirst(cfg: Config, item: Item, rest: seq<string>, calls: seq<Call>)
    requires Fits(cfg, item)
    ensures var more, args := CallsOf(cfg, item), Written(item) + rest;
            if Accepted(cfg.accepts, calls, more)
            then Scan(cfg, args, calls) == Prepend(PositionalOf(item), NameOf(item), Scan(cfg, rest, calls + more))
            else Scan(cfg, args, calls).Failed?
  {
    hide Lookup, FlagCalls, OptionalOptCalls;
    var args := Written(item) + rest;
    assert args[|Written(item)|..] == rest;
    assert args[0] == Written(item)[0] && (|Written(item)| == 2 ==> args[1] == Written(item)[1]);
    assert calls + [] == calls;
  }

  /** A scan of the arguments does what their items say. */
  ghost predicate Reads(cfg: Config, args: seq<string>, calls: seq<Call>) {
    var items, r := Itemize(cfg, args), Scan(cfg, args, calls);
    && (r.Done? <==> items.Some? && Accepted(cfg.accepts, calls, Calls(cfg, items.value)))
    && (r.Done? ==> r == Done(Positionals(items.value), Names(items.value), calls + Calls(cfg, items.value)))
  }

  lemma ReadsCons(cfg: Config, item: Item, rest: seq<string>, calls: seq<Call>)
    requires Fits(cfg, item) && Reads(cfg, rest, calls + CallsOf(cfg, item))
    ensures Reads(cfg, Written(item) + rest, calls)
  {
    hide Scan, Itemize, Fits, Accepted, CallsOf, Written;
    FirstItem(cfg, item, rest);
    ScanFirst(cfg, item, rest, calls);
    var more := CallsOf(cfg, item);
    if Itemize(cfg, rest).Some? {
      var items := Itemize(cfg, rest).value;
      assert ([item] + items)[1..] == items;
      AcceptedConcat(cfg.accepts, calls, more, Calls(cfg, items));
      assert calls + (more + Calls(cfg, items)) == (calls + more) + Calls(cfg, items);
    }
  }

  lemma ReadsNothing(cfg: Config, calls: seq<Call>)
    ensures Reads(cfg, [], calls)
  {
    assert calls + [] == calls;
  }

  lemma ReadsDangling(cfg: Config, args: seq<string>, calls: seq<Call>)
    requires |args| == 1 && (args[0] == ESCAPE || Lookup(cfg, args[0]).AnOpt? || Lookup(cfg, args[0]).AnOptionalOpt?)
    ensures Reads(cfg, args, calls)
  {
    hide Lookup;
  }

  lemma {:induction false} ScanReads(cfg: Config, args: seq<string>, calls: seq<Call>)
    ensures Reads(cfg, args, calls)
    decreases |args|
  {
    hide Reads, Lookup;
    if args == [] {
      ReadsNothing(cfg, calls);
    } else {
      var k := Lookup(cfg, args[0]);
      if args[0] != ESCAPE && (k.AFlag? || k.Unregistered?) {
        var item := if k.AFlag? then Set(args[0]) else Plain(args[0]);
        assert Written(item) + args[1..] == args;
        ScanReads(cfg, args[1..], calls + CallsOf(cfg, item));
        ReadsCons(cfg, item, args[1..], calls);
      } else if |args| >= 2 {
        var item := if args[0] == ESCAPE then Escaped(args[1]) else Assign(args[0], args[1]);
        assert Written(item) + args[2..] == args;
        ScanReads(cfg, args[2..], calls + CallsOf(cfg, item));
        ReadsCons(cfg, item, args[2..], calls);
      } else {
        ReadsDangling(cfg, args, calls);
      }
    }
  }

  /** Whatever items are written, the scan finds them again: it leaves the plain and the escaped arguments in
    * order, has handled exactly the names set, and has made exactly the calls they ask for; it fails exactly
    * when a handler refuses one of these calls. */
  lemma ScanRendered(cfg: Config, items: seq<Item>, calls: seq<Call>)
    requires AllFit(cfg, items)
    ensures var r := Scan(cfg, Render(items), calls);
            if Accepted(cfg.accepts, calls, Calls(cfg, items))
            then r == Done(Positionals(items), Names(items), calls + Calls(cfg, items))
            else r.Failed?
  {
    hide Scan, Itemize, Accepted, Fits, Render;
    ItemizeRendered(cfg, items);
    ScanReads(cfg, Render(items), calls);
  }

  function Escape(args: seq<string>): seq<string> {
    if args == [] then [] else [ESCAPE, args[0]] + Escape(args[1..])
  }

  /** Whatever the arguments are, each one behind the escape survives the scan, and no handler is called. */
  lemma {:induction false} EscapedSurvive(cfg: Config, args: seq<string>, calls: seq<Call>)
    ensures Scan(cfg, Escape(args), calls) == Done(args, {}, calls)
    decreases |args|
  {
    if args != [] {
      EscapedSurvive(cfg, args[1..], calls);
      ScanFirst(cfg, Escaped(args[0]), Escape(args[1..]), calls);
      assert calls + [] == calls && [args[0]] + args[1..] == args;
    }
  }

  // ----- What was not set -----

  function UnsetFlagCalls(flags: seq<Flag>, handled: set<string>): seq<Call> {
    if flags == [] then []
    else (if flags[0].name in handled then [] else FlagCalls(flags[0], false)) + UnsetFlagCalls(flags[1..], handled)
  }

  function DefaultCalls(opts: seq<OptionalOpt>, handled: set<string>): seq<Call> {
    if opts == [] then []
    else (if opts[0].name in handled then [] else OptionalOptCalls(opts[0], opts[0].defaultValue))
         + DefaultCalls(opts[1..], handled)
  }

  lemma {:induction false} UnsetFlagsCall(cfg: Config, flags: seq<Flag>, r: Outcome)
    requires r.Done?
    ensures var more := UnsetFlagCalls(flags, r.handled);
            UnsetFlags(cfg, flags, r).Done? <==> Accepted(cfg.accepts, r.calls, more)
    ensures UnsetFlags(cfg, flags, r).Done? ==>
              UnsetFlags(cfg, flags, r) == Done(r.unknown, r.handled, r.calls + UnsetFlagCalls(flags, r.handled))
    decreases |flags|
  {
    hide FlagCalls;
    if flags == [] {
      assert r.calls + [] == r.calls;
    } else {
      var more := if flags[0].name in r.handled then [] else FlagCalls(flags[0], false);
      var tail := UnsetFlagCalls(flags[1..], r.handled);
      assert r.calls + [] == r.calls;
      AcceptedConcat(cfg.accepts, r.calls, more, tail);
      UnsetFlagsCall(cfg, flags[1..], Done(r.unknown, r.handled, r.calls + more));
      assert r.calls + (more + tail) == (r.calls + more) + tail;
    }
  }

  lemma {:induction false} DefaultsCall(cfg: Config, opts: seq<OptionalOpt>, r: Outcome)
    requires r.Done?
    ensures UnsetOptionalOpts(cfg, opts, r).Done? <==> Accepted(cfg.accepts, r.calls, DefaultCalls(opts, r.handled))
    ensures UnsetOptionalOpts(cfg, opts, r).Done? ==>
              UnsetOptionalOpts(cfg, opts, r) == Done(r.unknown, r.handled, r.calls + DefaultCalls(opts, r.handled))
    decreases |opts|
  {
    hide OptionalOptCalls;
    if opts == [] {
      assert r.calls + [] == r.calls;
    } else {
      var more := if opts[0].name in r.handled then [] else OptionalOptCalls(opts[0], opts[0].defaultValue);
      var tail := DefaultCalls(opts[1..], r.handled);
      assert r.calls + [] == r.calls;
      AcceptedConcat(cfg.accepts, r.calls, more, tail);
      DefaultsCall(cfg, opts[1..], Done(r.unknown, r.handled, r.calls + more));
      assert r.calls + (more + tail) == (r.calls + more) + tail;
    }
  }

  lemma {:induction false} NoneMissingIff(opts: seq<string>, r: Outcome)
    requires r.Done?
    ensures MissingOpts(opts, r) == r || MissingOpts(opts, r).Failed?
    ensures MissingOpts(opts, r).Done? <==> forall o :: o in opts ==> o in r.handled
    decreases |opts|
  {
    if opts != [] {
      NoneMissingIff(opts[1..], r);
      assert forall o :: o in opts <==> o == opts[0] || o in opts[1..];
    }
  }

  /** Parsing succeeds exactly when the arguments read as items, every mandatory option is among them, and the
    * handlers accept the calls for the items, then false for each flag not set, then the default of each
    * optional option not set; these are then all calls made, and the plain and escaped arguments are left. */
  lemma ParsesIff(cfg: Config, args: seq<string>, calls: seq<Call>)
    ensures var items, r := Itemize(cfg, args), Outcomes(cfg, args, calls);
            && (r.Done? <==>
                  items.Some? && (forall o :: o in cfg.opts ==> o in Names(items.value)) &&
                  Accepted(cfg.accepts, calls, AllCalls(cfg, items.value)))
            && (r.Done? ==>
                  r == Done(Positionals(items.value), Names(items.value), calls + AllCalls(cfg, items.value)))
  {
    hide Scan, Itemize, Accepted, UnsetFlags, UnsetOptionalOpts, MissingOpts;
    hide Calls, UnsetFlagCalls, DefaultCalls, Positionals, Names;
    ScanReads(cfg, args, calls);
    FailedStays(cfg, Scan(cfg, args, calls));
    if Itemize(cfg, args).Some? {
      var items := Itemize(cfg, args).value;
      var a, h := Calls(cfg, items), Names(items);
      var b, c := UnsetFlagCalls(cfg.flags, h), DefaultCalls(cfg.optionalOpts, h);
      AcceptedConcat(cfg.accepts, calls, a, b + c);
      AcceptedConcat(cfg.accepts, calls + a, b, c);
      if Accepted(cfg.accepts, calls, a) {
        var r0 := Done(Positionals(items), h, calls + a);
        UnsetFlagsCall(cfg, cfg.flags, r0);
        var r1 := UnsetFlags(cfg, cfg.flags, r0);
        FailedStays(cfg, r1);
        if r1.Done? {
          NoneMissingIff(cfg.opts, r1);
          FailedStays(cfg, MissingOpts(cfg.opts, r1));
          DefaultsCall(cfg, cfg.optionalOpts, r1);
          assert calls + (a + (b + c)) == ((calls + a) + b) + c;
        }
      }
    }
  }

  lemma FailedStays(cfg: Config, r: Outcome)
    ensures r.Failed? ==>
              && UnsetFlags(cfg, cfg.flags, r) == r && MissingOpts(cfg.opts, r) == r
              && UnsetOptionalOpts(cfg, cfg.optionalOpts, r) == r
  {
  }

  /** The calls for the items, then for the flags not set, then for the optional options not set. */
  function AllCalls(cfg: Config, items: seq<Item>): seq<Call> {
    Calls(cfg, items) + (UnsetFlagCalls(cfg.flags, Names(items)) + DefaultCalls(cfg.optionalOpts, Names(items)))
  }

  // ----- Optional options whose handler is not called -----

  /** Looking the name of an optional option up finds that option: names are registered once. */
  ghost predicate Consistent(cfg: Config) {
    forall i :: 0 <= i < |cfg.optionalOpts| ==>
      Lookup(cfg, cfg.optionalOpts[i].name) == AnOptionalOpt(cfg.optionalOpts[i])
  }

  /** The handler of the option with the name has been called. */
  ghost predicate CalledFor(calls: seq<Call>, name: string) {
    exists k :: 0 <= k < |calls| && calls[k].OptCall? && calls[k].name == name
  }

  lemma CalledForEither(a: seq<Call>, b: seq<Call>, name: string)
    ensures CalledFor(a + b, name) <==> CalledFor(a, name) || CalledFor(b, name)
  {
    var c := a + b;
    if CalledFor(a, name) {
      var k :| 0 <= k < |a| && a[k].OptCall? && a[k].name == name;
      assert c[k] == a[k];
    }
    if CalledFor(b, name) {
      var k :| 0 <= k < |b| && b[k].OptCall? && b[k].name == name;
      assert c[|a| + k] == b[k];
    }
    if CalledFor(c, name) {
      var k :| 0 <= k < |c| && c[k].OptCall? && c[k].name == name;
      assert c[k] == if k < |a| then a[k] else b[k - |a|];
    }
  }

  /** The item makes the program call the handler of the option. */
  ghost predicate Triggers(o: OptionalOpt, item: Item) {
    item.Assign? && item.name == o.name && (item.value != o.defaultValue || o.calledIfNotSet)
  }

  lemma CalledForItem(cfg: Config, item: Item, o: OptionalOpt)
    requires Fits(cfg, item) && Lookup(cfg, o.name) == AnOptionalOpt(o)
    ensures CalledFor(CallsOf(cfg, item), o.name) <==> Triggers(o, item)
  {
    if item.Assign? {
      FoundOptionalOpt(cfg.optionalOpts, item.name);
    }
    hide Lookup, FindOptionalOpt;
    var calls := CallsOf(cfg, item);
    if Triggers(o, item) {
      assert calls[0] == OptCall(o.name, item.value);
    }
  }

  lemma {:induction false} CalledForItems(cfg: Config, items: seq<Item>, o: OptionalOpt)
    requires AllFit(cfg, items) && Lookup(cfg, o.name) == AnOptionalOpt(o)
    ensures CalledFor(Calls(cfg, items), o.name) <==> exists k :: 0 <= k < |items| && Triggers(o, items[k])
    decreases |items|
  {
    hide Lookup, CallsOf, Triggers, Fits, CalledFor;
    if items == [] {
      NobodyCalled(o.name);
    } else {
      var rest := items[1..];
      CalledForItem(cfg, items[0], o);
      CalledForItems(cfg, rest, o);
      CalledForEither(CallsOf(cfg, items[0]), Calls(cfg, rest), o.name);
      if k :| 0 <= k < |rest| && Triggers(o, rest[k]) {
        assert items[k + 1] == rest[k];
      }
      if k :| 0 <= k < |items| && Triggers(o, items[k]) && k > 0 {
        assert rest[k - 1] == items[k];
      }
    }
  }

  lemma NobodyCalled(name: string)
    ensures !CalledFor([], name)
  {
  }

  lemma {:induction false} FlagsCallNoOption(flags: seq<Flag>, handled: set<string>, name: string)
    ensures !CalledFor(UnsetFlagCalls(flags, handled), name)
    decreases |flags|
  {
    if flags != [] {
      FlagsCallNoOption(flags[1..], handled, name);
      CalledForEither(if flags[0].name in handled then [] else FlagCalls(flags[0], false),
        UnsetFlagCalls(flags[1..], handled), name);
    }
  }

  lemma {:induction false} CalledForDefault(opts: seq<OptionalOpt>, handled: set<string>, o: OptionalOpt)
    requires forall i :: 0 <= i < |opts| && opts[i].name == o.name ==> opts[i] == o
    ensures CalledFor(DefaultCalls(opts, handled), o.name) <==> o in opts && o.name !in handled && o.calledIfNotSet
    decreases |opts|
  {
    if opts != [] {
      CalledForDefault(opts[1..], handled, o);
      var first := if opts[0].name in handled then [] else OptionalOptCalls(opts[0], opts[0].defaultValue);
      CalledForEither(first, DefaultCalls(opts[1..], handled), o.name);
      assert o in opts <==> opts[0] == o || o in opts[1..];
      if opts[0] == o && o.name !in handled && o.calledIfNotSet {
        assert first[0] == OptCall(o.name, o.defaultValue);
      }
    }
  }

  lemma {:induction false} HandledIff(cfg: Config, items: seq<Item>, o: OptionalOpt)
    requires AllFit(cfg, items) && Lookup(cfg, o.name) == AnOptionalOpt(o)
    ensures o.name in Names(items) <==> exists k :: 0 <= k < |items| && items[k].Assign? && items[k].name == o.name
    decreases |items|
  {
    hide Lookup;
    if items != [] {
      var rest := items[1..];
      HandledIff(cfg, rest, o);
      assert Fits(cfg, items[0]);
      if k :| 0 <= k < |rest| && rest[k].Assign? && rest[k].name == o.name {
        assert items[k + 1] == rest[k];
      }
      if k :| 0 <= k < |items| && items[k].Assign? && items[k].name == o.name && k > 0 {
        assert rest[k - 1] == items[k];
      }
    }
  }

  /** A successful parse leaves the handler of an optional option uncalled exactly when the option is not to be
    * called when not set and every value given for it is the default. */
  lemma HandlerUncalledIff(cfg: Config, args: seq<string>, calls: seq<Call>, o: OptionalOpt)
    requires Consistent(cfg) && o in cfg.optionalOpts && Outcomes(cfg, args, calls).Done?
    ensures Itemize(cfg, args).Some?
    ensures var more, items := AllCalls(cfg, Itemize(cfg, args).value), Itemize(cfg, args).value;
            && Outcomes(cfg, args, calls).calls == calls + more
            && (!CalledFor(more, o.name) <==>
                  !o.calledIfNotSet && forall k :: 0 <= k < |items| && items[k].Assign? && items[k].name == o.name ==>
                                         items[k].value == o.defaultValue)
  {
    hide Outcomes, Itemize, Lookup, CalledFor, Calls, UnsetFlagCalls, DefaultCalls, Names, AllFit;
    ParsesIff(cfg, args, calls);
    var items := Itemize(cfg, args).value;
    RenderItemized(cfg, args);
    var i :| 0 <= i < |cfg.optionalOpts| && cfg.optionalOpts[i] == o;
    forall j | 0 <= j < |cfg.optionalOpts| && cfg.optionalOpts[j].name == o.name ensures cfg.optionalOpts[j] == o {
      assert AnOptionalOpt(cfg.optionalOpts[j]) == AnOptionalOpt(o);
    }
    var a, b, c := Calls(cfg, items), UnsetFlagCalls(cfg.flags, Names(items)), DefaultCalls(cfg.optionalOpts, Names(items));
    CalledForItems(cfg, items, o);
    FlagsCallNoOption(cfg.flags, Names(items), o.name);
    CalledForDefault(cfg.optionalOpts, Names(items), o);
    HandledIff(cfg, items, o);
    CalledForEither(b, c, o.name);
    CalledForEither(a, b + c, o.name);
  }

  /** Given outright with its default value, such an option is handled without a call. */
  lemma DefaultGivenOutright(cfg: Config, calls: seq<Call>, o: OptionalOpt)
    requires Lookup(cfg, o.name) == AnOptionalOpt(o) && !o.calledIfNotSet && o.name != ESCAPE
    ensures Scan(cfg, [o.name, o.defaultValue], calls) == Done([], {o.name}, calls)
  {
    hide Lookup;
    var args := [o.name, o.defaultValue];
    assert args[2..] == [];
    assert Scan(cfg, [], calls) == Done([], {}, calls);
    assert calls + [] == calls && {o.name} + {} == {o.name};
    assert Accepted(cfg.accepts, calls, []);
  }

  // ----- All calls, name by name -----

  /** Every name is registered once, as one thing. */
  ghost predicate Registered(cfg: Config) {
    && (forall i :: 0 <= i < |cfg.flags| ==> Lookup(cfg, cfg.flags[i].name) == AFlag(cfg.flags[i]))
    && (forall i, j :: 0 <= i < j < |cfg.flags| ==> cfg.flags[i].name != cfg.flags[j].name)
    && (forall o :: o in cfg.opts ==> Lookup(cfg, o) == AnOpt)
    && (forall i :: 0 <= i < |cfg.optionalOpts| ==> Lookup(cfg, cfg.optionalOpts[i].name) == AnOptionalOpt(cfg.optionalOpts[i]))
    && (forall i, j :: 0 <= i < j < |cfg.optionalOpts| ==> cfg.optionalOpts[i].name != cfg.optionalOpts[j].name)
  }

  /** The calls of the handler with the name, in order. */
  function CallsFor(calls: seq<Call>, name: string): seq<Call> {
    if calls == [] then [] else (if calls[0].name == name then [calls[0]] else []) + CallsFor(calls[1..], name)
  }

  /** How often the flag is set by the items. */
  function TimesSet(items: seq<Item>, name: string): nat {
    if items == [] then 0 else (if items[0] == Set(name) then 1 else 0) + TimesSet(items[1..], name)
  }

  /** The values the items assign to the option, in order. */
  function Values(items: seq<Item>, name: string): seq<string> {
    if items == [] then []
    else (if items[0].Assign? && items[0].name == name then [items[0].value] else []) + Values(items[1..], name)
  }

  function Times(call: Call, n: nat): (s: seq<Call>)
    ensures |s| == n && forall k :: 0 <= k < n ==> s[k] == call
  {
    seq(n, k => call)
  }

  /** One call for each value, except those to be skipped. */
  function ValueCalls(name: string, values: seq<string>, skipped: Option<string>): seq<Call> {
    if values == [] then []
    else (if Some(values[0]) == skipped then [] else [OptCall(name, values[0])]) + ValueCalls(name, values[1..], skipped)
  }

  lemma {:induction false} CallsForConcat(a: seq<Call>, b: seq<Call>, name: string)
    ensures CallsFor(a + b, name) == CallsFor(a, name) + CallsFor(b, name)
    decreases |a|
  {
    if a == [] {
      assert a + b == b && [] + CallsFor(b, name) == CallsFor(b, name);
    } else {
      assert (a + b)[1..] == a[1..] + b;
      CallsForConcat(a[1..], b, name);
    }
  }

  lemma CallsForFew(calls: seq<Call>, name: string)
    requires |calls| <= 1
    ensures CallsFor(calls, name) == if calls != [] && calls[0].name == name then calls else []
  {
    if calls != [] {
      assert calls[1..] == [] && [calls[0]] + [] == calls;
      assert CallsFor(calls[1..], name) == [];
    }
  }

  lemma {:induction false} FoundFlag(flags: seq<Flag>, name: string)
    ensures var f := FindFlag(flags, name); f.Some? ==> f.value.name == name && f.value in flags
    decreases |flags|
  {
    if flags != [] {
      FoundFlag(flags[1..], name);
    }
  }

  lemma {:induction false} FoundOptionalOpt(opts: seq<OptionalOpt>, name: string)
    ensures var o := FindOptionalOpt(opts, name); o.Some? ==> o.value.name == name && o.value in opts
    decreases |opts|
  {
    if opts != [] {
      FoundOptionalOpt(opts[1..], name);
    }
  }

  /** What one item makes the program call for the name. */
  function ItemCalls(k: Kind, item: Item, name: string): seq<Call> {
    if k.AFlag? && item == Set(name) then [FlagCall(name, true)]
    else if k.AnOpt? && item.Assign? && item.name == name then [OptCall(name, item.value)]
    else if k.AnOptionalOpt? && item.Assign? && item.name == name && (item.value != k.opt.defaultValue || k.opt.calledIfNotSet)
    then [OptCall(name, item.value)]
    else []
  }

  lemma CallsForItem(cfg: Config, item: Item, name: string)
    requires Fits(cfg, item)
    ensures CallsFor(CallsOf(cfg, item), name) == ItemCalls(Lookup(cfg, name), item, name)
  {
    if item.Set? || item.Assign? {
      FoundFlag(cfg.flags, item.name);
      FoundOptionalOpt(cfg.optionalOpts, item.name);
    }
    CallsForFew(CallsOf(cfg, item), name);
    hide FindFlag, FindOptionalOpt, CallsFor;
  }

  /** What the items make the program call for the name. */
  function GivenCalls(k: Kind, items: seq<Item>, name: string): seq<Call> {
    match k
    case AFlag(_) => Times(FlagCall(name, true), TimesSet(items, name))
    case AnOpt => ValueCalls(name, Values(items, name), None)
    case AnOptionalOpt(o) =>
      ValueCalls(name, Values(items, name), if o.calledIfNotSet then None else Some(o.defaultValue))
    case Unregistered => []
  }

  lemma ValuesFirst(items: seq<Item>, name: string)
    requires items != []
    ensures Values(items, name) ==
            if items[0].Assign? && items[0].name == name then [items[0].value] + Values(items[1..], name)
            else Values(items[1..], name)
  {
    assert [] + Values(items[1..], name) == Values(items[1..], name);
  }

  lemma ValueCallsFirst(name: string, value: string, values: seq<string>, skipped: Option<string>)
    ensures ValueCalls(name, [value] + values, skipped) ==
            (if Some(value) == skipped then [] else [OptCall(name, value)]) + ValueCalls(name, values, skipped)
  {
    assert ([value] + values)[1..] == values;
  }

  lemma GivenCallsFirst(k: Kind, items: seq<Item>, name: string)
    requires items != []
    ensures GivenCalls(k, items, name) == ItemCalls(k, items[0], name) + GivenCalls(k, items[1..], name)
  {
    hide Values, ValueCalls, Times;
    ValuesFirst(items, name);
    var given := GivenCalls(k, items[1..], name);
    assert [] + given == given;
    if items[0].Assign? && items[0].name == name {
      match k {
        case AnOpt => ValueCallsFirst(name, items[0].value, Values(items[1..], name), None);
        case AnOptionalOpt(o) =>
          ValueCallsFirst(name, items[0].value, Values(items[1..], name), if o.calledIfNotSet then None else Some(o.defaultValue));
        case _ =>
      }
    } else if k.AFlag? && items[0] == Set(name) {
      assert [FlagCall(name, true)] + Times(FlagCall(name, true), TimesSet(items[1..], name))
             == Times(FlagCall(name, true), TimesSet(items, name));
    }
  }

  lemma {:induction false} CallsForItems(cfg: Config, items: seq<Item>, name: string)
    requires AllFit(cfg, items)
    ensures CallsFor(Calls(cfg, items), name) == GivenCalls(Lookup(cfg, name), items, name)
    decreases |items|
  {
    hide Lookup, CallsOf, Fits, ItemCalls, GivenCalls;
    if items == [] {
      NothingGiven(Lookup(cfg, name), name);
    } else {
      CallsForItem(cfg, items[0], name);
      CallsForItems(cfg, items[1..], name);
      CallsForConcat(CallsOf(cfg, items[0]), Calls(cfg, items[1..]), name);
      GivenCallsFirst(Lookup(cfg, name), items, name);
    }
  }

  lemma NothingGiven(k: Kind, name: string)
    ensures GivenCalls(k, [], name) == [] && CallsFor([], name) == []
  {
  }

  lemma {:induction false} NoFlagFound(flags: seq<Flag>, name: string)
    requires forall i :: 0 <= i < |flags| ==> flags[i].name != name
    ensures FindFlag(flags, name).None?
    decreases |flags|
  {
    if flags != [] {
      NoFlagFound(flags[1..], name);
    }
  }

  lemma {:induction false} NoOptionalOptFound(opts: seq<OptionalOpt>, name: string)
    requires forall i :: 0 <= i < |opts| ==> opts[i].name != name
    ensures FindOptionalOpt(opts, name).None?
    decreases |opts|
  {
    if opts != [] {
      NoOptionalOptFound(opts[1..], name);
    }
  }

  lemma {:induction false} CallsForUnsetFlags(flags: seq<Flag>, handled: set<string>, name: string)
    requires forall i, j :: 0 <= i < j < |flags| ==> flags[i].name != flags[j].name
    ensures var f := FindFlag(flags, name);
            CallsFor(UnsetFlagCalls(flags, handled), name) ==
            if f.Some? && name !in handled && f.value.calledIfNotSet then [FlagCall(name, false)] else []
    decreases |flags|
  {
    if flags != [] {
      var first := if flags[0].name in handled then [] else FlagCalls(flags[0], false);
      var rest := UnsetFlagCalls(flags[1..], handled);
      CallsForUnsetFlags(flags[1..], handled, name);
      CallsForConcat(first, rest, name);
      CallsForFew(first, name);
      if flags[0].name == name {
        NoFlagFound(flags[1..], name);
      }
      assert first + [] == first && [] + CallsFor(rest, name) == CallsFor(rest, name);
    }
  }

  lemma {:induction false} CallsForDefaults(opts: seq<OptionalOpt>, handled: set<string>, name: string)
    requires forall i, j :: 0 <= i < j < |opts| ==> opts[i].name != opts[j].name
    ensures var o := FindOptionalOpt(opts, name);
            CallsFor(DefaultCalls(opts, handled), name) ==
            if o.Some? && name !in handled && o.value.calledIfNotSet then [OptCall(name, o.value.defaultValue)] else []
    decreases |opts|
  {
    if opts != [] {
      var first := if opts[0].name in handled then [] else OptionalOptCalls(opts[0], opts[0].defaultValue);
      var rest := DefaultCalls(opts[1..], handled);
      CallsForDefaults(opts[1..], handled, name);
      CallsForConcat(first, rest, name);
      CallsForFew(first, name);
      if opts[0].name == name {
        NoOptionalOptFound(opts[1..], name);
      }
      assert first + [] == first && [] + CallsFor(rest, name) == CallsFor(rest, name);
    }
  }

  lemma {:induction false} NamedIff(items: seq<Item>, name: string)
    ensures name in Names(items) <==> TimesSet(items, name) > 0 || Values(items, name) != []
    decreases |items|
  {
    if items != [] {
      NamedIff(items[1..], name);
    }
  }

  lemma {:induction false} SetOrAssigned(cfg: Config, items: seq<Item>, name: string)
    requires AllFit(cfg, items)
    ensures TimesSet(items, name) > 0 ==> Lookup(cfg, name).AFlag?
    ensures Values(items, name) != [] ==> Lookup(cfg, name).AnOpt? || Lookup(cfg, name).AnOptionalOpt?
    decreases |items|
  {
    hide Lookup;
    if items != [] {
      SetOrAssigned(cfg, items[1..], name);
      assert Fits(cfg, items[0]);
    }
  }

  /** The calls a parse is to make for the name, if the items are these.  A flag: true each time it is set, or false
    * once when it is not set and is called then.  A mandatory option: each value assigned.  An optional option:
    * each value assigned, or the default when there is none, without those equal to the default when it is not
    * called for it. */
  function DueCalls(k: Kind, items: seq<Item>, name: string): seq<Call> {
    match k
    case AFlag(f) =>
      if TimesSet(items, name) > 0 then Times(FlagCall(name, true), TimesSet(items, name))
      else if f.calledIfNotSet then [FlagCall(name, false)]
      else []
    case AnOpt => ValueCalls(name, Values(items, name), None)
    case AnOptionalOpt(o) =>
      ValueCalls(name, if Values(items, name) == [] then [o.defaultValue] else Values(items, name),
        if o.calledIfNotSet then None else Some(o.defaultValue))
    case Unregistered => []
  }

  lemma LookupFinds(cfg: Config, name: string)
    requires Registered(cfg)
    ensures FindFlag(cfg.flags, name) == match Lookup(cfg, name) case AFlag(f) => Some(f) case _ => None
    ensures FindOptionalOpt(cfg.optionalOpts, name) == match Lookup(cfg, name) case AnOptionalOpt(o) => Some(o) case _ => None
  {
    FoundFlag(cfg.flags, name);
    FoundOptionalOpt(cfg.optionalOpts, name);
    hide FindFlag, FindOptionalOpt;
    if FindOptionalOpt(cfg.optionalOpts, name).Some? {
      var o := FindOptionalOpt(cfg.optionalOpts, name).value;
      var i :| 0 <= i < |cfg.optionalOpts| && cfg.optionalOpts[i] == o;
      assert Lookup(cfg, cfg.optionalOpts[i].name) == AnOptionalOpt(o);
    }
  }

  /** A successful parse makes, for each name, exactly the calls due for it, in the order of the arguments. */
  lemma CallsByName(cfg: Config, args: seq<string>, calls: seq<Call>, name: string)
    requires Registered(cfg) && Outcomes(cfg, args, calls).Done?
    ensures Itemize(cfg, args).Some? && calls <= Outcomes(cfg, args, calls).calls
    ensures CallsFor(Outcomes(cfg, args, calls).calls[|calls|..], name) ==
            DueCalls(Lookup(cfg, name), Itemize(cfg, args).value, name)
  {
    ParsesIff(cfg, args, calls);
    RenderItemized(cfg, args);
    var items := Itemize(cfg, args).value;
    assert Outcomes(cfg, args, calls).calls[|calls|..] == AllCalls(cfg, items);
    hide Outcomes, Itemize, Lookup, CallsFor, Calls, UnsetFlagCalls, DefaultCalls, Names, AllFit, GivenCalls, FindFlag, FindOptionalOpt;
    var a, b, c := Calls(cfg, items), UnsetFlagCalls(cfg.flags, Names(items)), DefaultCalls(cfg.optionalOpts, Names(items));
    CallsForItems(cfg, items, name);
    CallsForUnsetFlags(cfg.flags, Names(items), name);
    CallsForDefaults(cfg.optionalOpts, Names(items), name);
    LookupFinds(cfg, name);
    NamedIff(items, name);
    SetOrAssigned(cfg, items, name);
    CallsForConcat(b, c, name);
    CallsForConcat(a, b + c, name);
    hide Registered, AllCalls;
    DueIsGivenThenUnset(Lookup(cfg, name), items, name);
  }

  lemma DueIsGivenThenUnset(k: Kind, items: seq<Item>, name: string)
    requires TimesSet(items, name) > 0 ==> k.AFlag?
    requires Values(items, name) != [] ==> k.AnOpt? || k.AnOptionalOpt?
    ensures var unset := TimesSet(items, name) == 0 && Values(items, name) == [];
            var b := if k.AFlag? && unset && k.flag.calledIfNotSet then [FlagCall(name, false)] else [];
            var c := if k.AnOptionalOpt? && unset && k.opt.calledIfNotSet then [OptCall(name, k.opt.defaultValue)] else [];
            DueCalls(k, items, name) == GivenCalls(k, items, name) + (b + c)
  {
    var given := GivenCalls(k, items, name);
    assert given + ([] + []) == given;
    match k {
      case AFlag(f) => assert [] + ([FlagCall(name, false)] + []) == [FlagCall(name, false)];
      case AnOptionalOpt(o) =>
        if Values(items, name) == [] {
          assert [o.defaultValue][1..] == [];
          assert [] + ([] + [OptCall(name, o.defaultValue)]) == [OptCall(name, o.defaultValue)];
          assert [OptCall(name, o.defaultValue)] + [] == [OptCall(name, o.defaultValue)];
        }
      case _ =>
    }
  }

  // ----- Why a scan fails -----

  /** What comes next in the arguments makes the scan fail: the escape or an option without its companion, or an item
    * whose handler refuses the call. */
  ghost predicate FailsNext(cfg: Config, rest: seq<string>, calls: seq<Call>, r: Outcome)
    requires r.Failed?
  {
    match r.error
    case DanglingEscape => rest == [ESCAPE] && r.calls == calls
    case MissingValue(n) =>
      rest == [n] && n != ESCAPE && (Lookup(cfg, n).AnOpt? || Lookup(cfg, n).AnOptionalOpt?) && r.calls == calls
    case InvalidFlag(n) =>
      && rest != [] && rest[0] == n && Fits(cfg, Set(n))
      && !cfg.accepts(calls, FlagCall(n, true)) && r.calls == calls + [FlagCall(n, true)]
    case InvalidValue(n, v) =>
      && |rest| >= 2 && rest[0] == n && rest[1] == v && Fits(cfg, Assign(n, v))
      && !cfg.accepts(calls, OptCall(n, v)) && r.calls == calls + [OptCall(n, v)]
    case NotOptional(_) => false
  }

  /** The item the arguments begin with, if its companion is there. */
  function HeadItem(cfg: Config, args: seq<string>): Option<Item>
    requires args != []
  {
    var k := Lookup(cfg, args[0]);
    if args[0] != ESCAPE && k.AFlag? then Some(Set(args[0]))
    else if args[0] != ESCAPE && k.Unregistered? then Some(Plain(args[0]))
    else if |args| < 2 then None
    else Some(if args[0] == ESCAPE then Escaped(args[1]) else Assign(args[0], args[1]))
  }

  lemma HeadItemFits(cfg: Config, args: seq<string>)
    requires args != [] && HeadItem(cfg, args).Some?
    ensures var item := HeadItem(cfg, args).value;
            Fits(cfg, item) && |Written(item)| <= |args| && args == Written(item) + args[|Written(item)|..]
  {
    hide Lookup;
  }

  lemma OneRefused(accepts: Handlers, calls: seq<Call>, more: seq<Call>)
    requires |more| <= 1
    ensures Accepted(accepts, calls, more) <==> more == [] || accepts(calls, more[0])
  {
    if more != [] {
      assert Accepted(accepts, calls + [more[0]], more[1..]);
    }
  }

  lemma FailsAtOnce(cfg: Config, args: seq<string>, calls: seq<Call>)
    requires args != [] && Scan(cfg, args, calls).Failed?
    requires var item := HeadItem(cfg, args); item.None? || !Accepted(cfg.accepts, calls, CallsOf(cfg, item.value))
    ensures FailsNext(cfg, args, calls, Scan(cfg, args, calls))
  {
    FoundFlag(cfg.flags, args[0]);
    FoundOptionalOpt(cfg.optionalOpts, args[0]);
    if HeadItem(cfg, args).Some? {
      OneRefused(cfg.accepts, calls, CallsOf(cfg, HeadItem(cfg, args).value));
    }
    hide FindFlag, FindOptionalOpt, Accepted;
    if |args| == 1 {
      assert args == [args[0]];
    }
  }

  lemma RestFails(cfg: Config, item: Item, items: seq<Item>, rest: seq<string>, calls: seq<Call>)
    ensures Render([item] + items) + rest == Written(item) + (Render(items) + rest)
    ensures Calls(cfg, [item] + items) == CallsOf(cfg, item) + Calls(cfg, items)
    ensures calls + Calls(cfg, [item] + items) == (calls + CallsOf(cfg, item)) + Calls(cfg, items)
  {
    hide CallsOf, Written;
    assert ([item] + items)[1..] == items;
  }

  /** A scan that fails has gone through some items, with all their calls made and accepted, and then met what makes
    * it fail; nothing else has been called but the handler that refused. */
  lemma {:induction false} WhyScanFails(cfg: Config, args: seq<string>, calls: seq<Call>)
    returns (items: seq<Item>, rest: seq<string>)
    requires Scan(cfg, args, calls).Failed?
    ensures AllFit(cfg, items) && args == Render(items) + rest && Accepted(cfg.accepts, calls, Calls(cfg, items))
    ensures FailsNext(cfg, rest, calls + Calls(cfg, items), Scan(cfg, args, calls))
    decreases |args|
  {
    hide FailsNext, Lookup, Fits, CallsOf, HeadItem;
    ScanOfNothing(cfg, calls);
    var item := HeadItem(cfg, args);
    if item.None? || !Accepted(cfg.accepts, calls, CallsOf(cfg, item.value)) {
      FailsAtOnce(cfg, args, calls);
      items, rest := [], args;
      assert [] + rest == rest && calls + [] == calls;
    } else {
      HeadItemFits(cfg, args);
      var tail := args[|Written(item.value)|..];
      ScanFirst(cfg, item.value, tail, calls);
      hide Scan, Written;
      var more;
      more, rest := WhyScanFails(cfg, tail, calls + CallsOf(cfg, item.value));
      items := [item.value] + more;
      RestFails(cfg, item.value, more, rest, calls);
      AcceptedConcat(cfg.accepts, calls, CallsOf(cfg, item.value), Calls(cfg, more));
    }
  }

  lemma ScanOfNothing(cfg: Config, calls: seq<Call>)
    ensures Scan(cfg, [], calls).Done?
  {
  }

  lemma {:induction false} WhyUnsetFlagsFail(cfg: Config, flags: seq<Flag>, r: Outcome)
    requires r.Done? && UnsetFlags(cfg, flags, r).Failed?
    ensures var r' := UnsetFlags(cfg, flags, r);
            && r'.error.InvalidFlag? && r.calls <= r'.calls && r'.calls != []
            && r'.calls[|r'.calls| - 1] == FlagCall(r'.error.name, false)
            && !cfg.accepts(r'.calls[..|r'.calls| - 1], FlagCall(r'.error.name, false))
            && r'.error.name !in r.handled && Flag(r'.error.name, true) in flags
    decreases |flags|
  {
    hide Accepted;
    var more := if flags[0].name in r.handled then [] else FlagCalls(flags[0], false);
    OneRefused(cfg.accepts, r.calls, more);
    assert r.calls + [] == r.calls;
    if Accepted(cfg.accepts, r.calls, more) {
      WhyUnsetFlagsFail(cfg, flags[1..], Done(r.unknown, r.handled, r.calls + more));
    } else {
      assert (r.calls + more)[..|r.calls|] == r.calls;
    }
  }

  lemma {:induction false} WhyOptsAreMissing(opts: seq<string>, r: Outcome)
    requires r.Done? && MissingOpts(opts, r).Failed?
    ensures var r' := MissingOpts(opts, r);
            r'.error.NotOptional? && r'.calls == r.calls && r'.error.name in opts && r'.error.name !in r.handled
    decreases |opts|
  {
    if opts[0] in r.handled {
      WhyOptsAreMissing(opts[1..], r);
    }
  }

  lemma {:induction false} WhyDefaultsFail(cfg: Config, opts: seq<OptionalOpt>, r: Outcome)
    requires r.Done? && UnsetOptionalOpts(cfg, opts, r).Failed?
    ensures var r' := UnsetOptionalOpts(cfg, opts, r);
            && r'.error.InvalidValue? && r.calls <= r'.calls && r'.calls != []
            && r'.calls[|r'.calls| - 1] == OptCall(r'.error.name, r'.error.value)
            && !cfg.accepts(r'.calls[..|r'.calls| - 1], OptCall(r'.error.name, r'.error.value))
            && r'.error.name !in r.handled && OptionalOpt(r'.error.name, r'.error.value, true) in opts
    decreases |opts|
  {
    hide Accepted;
    var more := if opts[0].name in r.handled then [] else OptionalOptCalls(opts[0], opts[0].defaultValue);
    OneRefused(cfg.accepts, r.calls, more);
    assert r.calls + [] == r.calls;
    if Accepted(cfg.accepts, r.calls, more) {
      WhyDefaultsFail(cfg, opts[1..], Done(r.unknown, r.handled, r.calls + more));
    } else {
      assert (r.calls + more)[..|r.calls|] == r.calls;
    }
  }

  /** A parse that fails after its scan names a flag not set whose handler refused false, a mandatory option not
    * given, or an optional option not given whose handler refused the default. */
  lemma WhyParseFails(cfg: Config, args: seq<string>, calls: seq<Call>)
    requires Scan(cfg, args, calls).Done? && Outcomes(cfg, args, calls).Failed?
    ensures var r, handled := Outcomes(cfg, args, calls), Scan(cfg, args, calls).handled;
            match r.error
            case InvalidFlag(n) =>
              n !in handled && Flag(n, true) in cfg.flags && r.calls != [] && r.calls[|r.calls| - 1] == FlagCall(n, false)
              && !cfg.accepts(r.calls[..|r.calls| - 1], FlagCall(n, false))
            case NotOptional(n) => n in cfg.opts && n !in handled
            case InvalidValue(n, v) =>
              n !in handled && OptionalOpt(n, v, true) in cfg.optionalOpts
              && r.calls != [] && r.calls[|r.calls| - 1] == OptCall(n, v)
              && !cfg.accepts(r.calls[..|r.calls| - 1], OptCall(n, v))
            case _ => false
  {
    hide Scan, UnsetFlags, MissingOpts, UnsetOptionalOpts;
    var r0 := Scan(cfg, args, calls);
    var r1 := UnsetFlags(cfg, cfg.flags, r0);
    var r2 := MissingOpts(cfg.opts, r1);
    FailedStays(cfg, r1);
    FailedStays(cfg, r2);
    UnsetFlagsCall(cfg, cfg.flags, r0);
    if r1.Failed? {
      WhyUnsetFlagsFail(cfg, cfg.flags, r0);
    } else {
      NoneMissingIff(cfg.opts, r1);
      if r2.Failed? {
        WhyOptsAreMissing(cfg.opts, r1);
      } else {
        WhyDefaultsFail(cfg, cfg.optionalOpts, r2);
      }
    }
  }

  // ----- The parser -----

  /** The arguments after the program's name. */
  function Args(argv: seq<string>, argc: nat): seq<string>
    requires argc <= |argv|
  {
    if argc <= 1 then [] else argv[1..argc]
  }

  /** The arguments from index i on. */
  function ArgsFrom(argv: seq<string>, argc: nat, i: nat): seq<string>
    requires argc <= |argv|
  {
    if i >= argc then [] else argv[i..argc]
  }

  lemma ArgsSplit(argv: seq<string>, argc: nat, i: nat)
    requires i < argc <= |argv|
    ensures var args := ArgsFrom(argv, argc, i);
            && args != [] && args[0] == argv[i] && args[1..] == ArgsFrom(argv, argc, i + 1)
            && (|args| < 2 <==> i + 1 >= argc)
            && (i + 1 < argc ==> args[1] == argv[i + 1] && args[2..] == ArgsFrom(argv, argc, i + 2))
  {
  }

  lemma PrependTwice(u: seq<string>, h: set<string>, u': seq<string>, h': set<string>, r: Outcome)
    ensures Prepend(u, h, Prepend(u', h', r)) == Prepend(u + u', h + h', r)
  {
    if r.Done? {
      assert u + (u' + r.unknown) == (u + u') + r.unknown;
      assert h + (h' + r.handled) == (h + h') + r.handled;
    }
  }

  lemma {:induction false} FindFlagWith(flags: seq<Flag>, position: nat, f: Flag, name: string)
    requires position <= |flags| && FindFlag(flags, f.name).None?
    ensures FindFlag(flags[..position] + [f] + flags[position..], name) ==
            if name == f.name then Some(f) else FindFlag(flags, name)
    decreases position
  {
    var more := flags[..position] + [f] + flags[position..];
    if position == 0 {
      assert more[1..] == flags;
    } else {
      FindFlagWith(flags[1..], position - 1, f, name);
      assert more[1..] == flags[1..][..position - 1] + [f] + flags[1..][position - 1..];
    }
  }

  lemma {:induction false} FindOptionalOptWith(opts: seq<OptionalOpt>, position: nat, o: OptionalOpt, name: string)
    requires position <= |opts| && FindOptionalOpt(opts, o.name).None?
    ensures FindOptionalOpt(opts[..position] + [o] + opts[position..], name) ==
            if name == o.name then Some(o) else FindOptionalOpt(opts, name)
    decreases position
  {
    var more := opts[..position] + [o] + opts[position..];
    if position == 0 {
      assert more[1..] == opts;
    } else {
      FindOptionalOptWith(opts[1..], position - 1, o, name);
      assert more[1..] == opts[1..][..position - 1] + [o] + opts[1..][position - 1..];
    }
  }

  /** The scan of the rest, behind what has been scanned, in terms of the next argument. */
  lemma ScanStep(cfg: Config, args: seq<string>, calls: seq<Call>, unknown: seq<string>, handled: set<string>)
    requires args != []
    ensures var r, arg := Prepend(unknown, handled, Scan(cfg, args, calls)), args[0];
            var f, o := FindFlag(cfg.flags, arg), FindOptionalOpt(cfg.optionalOpts, arg);
            if arg == ESCAPE then
              r == if |args| < 2 then Failed(DanglingEscape, calls)
                   else Prepend(unknown + [args[1]], handled, Scan(cfg, args[2..], calls))
            else if f.Some? then
              var more := FlagCalls(f.value, true);
              r == if !Accepted(cfg.accepts, calls, more) then Failed(InvalidFlag(f.value.name), calls + more)
                   else Prepend(unknown, handled + {arg}, Scan(cfg, args[1..], calls + more))
            else if arg in cfg.opts then
              if |args| < 2 then r == Failed(MissingValue(arg), calls)
              else
                var more := [OptCall(arg, args[1])];
                r == if !Accepted(cfg.accepts, calls, more) then Failed(InvalidValue(arg, args[1]), calls + more)
                     else Prepend(unknown, handled + {arg}, Scan(cfg, args[2..], calls + more))
            else if o.Some? then
              if |args| < 2 then r == Failed(MissingValue(o.value.name), calls)
              else
                var more := OptionalOptCalls(o.value, args[1]);
                r == if !Accepted(cfg.accepts, calls, more) then Failed(InvalidValue(o.value.name, args[1]), calls + more)
                     else Prepend(unknown, handled + {arg}, Scan(cfg, args[2..], calls + more))
            else
              r == Prepend(unknown + [arg], handled, Scan(cfg, args[1..], calls))
  {
    hide Accepted, FlagCalls, OptionalOptCalls, FindFlag, FindOptionalOpt, Prepend;
    var arg := args[0];
    var f, o := FindFlag(cfg.flags, arg), FindOptionalOpt(cfg.optionalOpts, arg);
    FailedIsFailed(unknown, handled, Scan(cfg, args, calls));
    assert unknown + [] == unknown && handled + {} == handled;
    if arg == ESCAPE {
      if |args| >= 2 {
        PrependTwice(unknown, handled, [args[1]], {}, Scan(cfg, args[2..], calls));
      }
    } else if f.Some? {
      PrependTwice(unknown, handled, [], {arg}, Scan(cfg, args[1..], calls + FlagCalls(f.value, true)));
    } else if arg in cfg.opts {
      if |args| >= 2 {
        PrependTwice(unknown, handled, [], {arg}, Scan(cfg, args[2..], calls + [OptCall(arg, args[1])]));
      }
    } else if o.Some? {
      if |args| >= 2 {
        PrependTwice(unknown, handled, [], {arg}, Scan(cfg, args[2..], calls + OptionalOptCalls(o.value, args[1])));
      }
    } else {
      PrependTwice(unknown, handled, [arg], {}, Scan(cfg, args[1..], calls));
    }
  }

  lemma FailedIsFailed(unknown: seq<string>, handled: set<string>, r: Outcome)
    ensures r.Failed? ==> Prepend(unknown, handled, r) == r
  {
  }

  /** A list with one more element somewhere. */
  function Within<T>(s: seq<T>, position: nat, x: T): (r: seq<T>)
    requires position <= |s|
    ensures |r| == |s| + 1 && r[position] == x
    ensures forall i :: 0 <= i < |s| ==> r[if i < position then i else i + 1] == s[i]
    ensures forall i :: 0 <= i < |r| && i != position ==> r[i] == s[if i < position then i else i - 1]
  {
    s[..position] + [x] + s[position..]
  }

  lemma FlagIsRegistered(cfg: Config, position: nat, f: Flag)
    requires Registered(cfg) && Lookup(cfg, f.name).Unregistered? && position <= |cfg.flags|
    ensures Registered(cfg.(flags := Within(cfg.flags, position, f)))
  {
    hide Within, FindFlag, FindOptionalOpt;
    var cfg' := cfg.(flags := Within(cfg.flags, position, f));
    forall n ensures Lookup(cfg', n) == if n == f.name then AFlag(f) else Lookup(cfg, n) {
      FlagLookup(cfg, position, f, n);
    }
    hide Lookup;
    forall i | 0 <= i < |cfg.flags| ensures cfg.flags[i].name != f.name {
      assert Lookup(cfg, cfg.flags[i].name).AFlag?;
    }
  }

  lemma FlagLookup(cfg: Config, position: nat, f: Flag, n: string)
    requires Lookup(cfg, f.name).Unregistered? && position <= |cfg.flags|
    ensures Lookup(cfg.(flags := Within(cfg.flags, position, f)), n) == if n == f.name then AFlag(f) else Lookup(cfg, n)
  {
    FindFlagWith(cfg.flags, position, f, n);
    hide FindFlag, FindOptionalOpt;
  }

  lemma OptIsRegistered(cfg: Config, position: nat, name: string)
    requires Registered(cfg) && Lookup(cfg, name).Unregistered? && position <= |cfg.opts|
    ensures Registered(cfg.(opts := Within(cfg.opts, position, name)))
  {
    hide Within, FindFlag, FindOptionalOpt;
    var cfg' := cfg.(opts := Within(cfg.opts, position, name));
    forall n ensures Lookup(cfg', n) == if n == name then AnOpt else Lookup(cfg, n) {
      OptLookup(cfg, position, name, n);
    }
    hide Lookup;
    forall o | o in cfg'.opts ensures Lookup(cfg', o) == AnOpt {
      WithinHas(cfg.opts, position, name, o);
    }
  }

  lemma WithinHas(s: seq<string>, position: nat, x: string, y: string)
    requires position <= |s|
    ensures y in Within(s, position, x) <==> y == x || y in s
  {
    assert s == s[..position] + s[position..];
  }

  lemma OptLookup(cfg: Config, position: nat, name: string, n: string)
    requires Lookup(cfg, name).Unregistered? && position <= |cfg.opts|
    ensures Lookup(cfg.(opts := Within(cfg.opts, position, name)), n) == if n == name then AnOpt else Lookup(cfg, n)
  {
    WithinHas(cfg.opts, position, name, n);
    hide FindFlag, FindOptionalOpt, Within;
  }

  lemma OptionalOptIsRegistered(cfg: Config, position: nat, o: OptionalOpt)
    requires Registered(cfg) && Lookup(cfg, o.name).Unregistered? && position <= |cfg.optionalOpts|
    ensures Registered(cfg.(optionalOpts := Within(cfg.optionalOpts, position, o)))
  {
    hide Within, FindFlag, FindOptionalOpt;
    var cfg' := cfg.(optionalOpts := Within(cfg.optionalOpts, position, o));
    forall n ensures Lookup(cfg', n) == if n == o.name then AnOptionalOpt(o) else Lookup(cfg, n) {
      OptionalOptLookup(cfg, position, o, n);
    }
    hide Lookup;
    forall i | 0 <= i < |cfg.optionalOpts| ensures cfg.optionalOpts[i].name != o.name {
      assert Lookup(cfg, cfg.optionalOpts[i].name).AnOptionalOpt?;
    }
  }

  lemma OptionalOptLookup(cfg: Config, position: nat, o: OptionalOpt, n: string)
    requires Lookup(cfg, o.name).Unregistered? && position <= |cfg.optionalOpts|
    ensures Lookup(cfg.(optionalOpts := Within(cfg.optionalOpts, position, o)), n) ==
            if n == o.name then AnOptionalOpt(o) else Lookup(cfg, n)
  {
    FindOptionalOptWith(cfg.optionalOpts, position, o, n);
    hide FindFlag, FindOptionalOpt;
  }

  class ArgParser {
    const accepts: Handlers
    var flagHandlers: seq<Flag>
    var optHandlers: seq<string>
    var optionalOptInfos: seq<OptionalOpt>
    var calls: seq<Call>
    var errMsg: Option<Error>

    ghost function Cfg(): Config
      reads this
    {
      Config(flagHandlers, optHandlers, optionalOptInfos, accepts)
    }

    /** A name can be registered once; the empty name and the escape cannot be. */
    ghost predicate NameIsOkey(name: string)
      reads this
    {
      name != "" && name != ESCAPE && Lookup(Cfg(), name).Unregistered?
    }

    constructor (accepts: Handlers)
      ensures Cfg() == Config([], [], [], accepts) && Consistent(Cfg()) && Registered(Cfg()) && calls == [] && errMsg == None
    {
      this.accepts, flagHandlers, optHandlers, optionalOptInfos, calls, errMsg := accepts, [], [], [], [], None;
    }

    /** The position in the order of iteration is up to the map. */
    method AddFlag(name: string, calledIfNotSet: bool, position: nat)
      requires NameIsOkey(name) && position <= |flagHandlers|
      modifies this`flagHandlers
      ensures forall n :: Lookup(Cfg(), n) == if n == name then AFlag(Flag(name, calledIfNotSet)) else old(Lookup(Cfg(), n))
      ensures old(Consistent(Cfg())) ==> Consistent(Cfg())
      ensures old(Registered(Cfg())) ==> Registered(Cfg())
    {
      var f := Flag(name, calledIfNotSet);
      forall n ensures FindFlag(flagHandlers[..position] + [f] + flagHandlers[position..], n) ==
                       if n == name then Some(f) else FindFlag(flagHandlers, n)
      {
        FindFlagWith(flagHandlers, position, f, n);
      }
      if Registered(Cfg()) {
        FlagIsRegistered(Cfg(), position, f);
      }
      flagHandlers := flagHandlers[..position] + [f] + flagHandlers[position..];
    }

    method AddOpt(name: string, position: nat)
      requires NameIsOkey(name) && position <= |optHandlers|
      modifies this`optHandlers
      ensures forall n :: Lookup(Cfg(), n) == if n == name then AnOpt else old(Lookup(Cfg(), n))
      ensures old(Consistent(Cfg())) ==> Consistent(Cfg())
      ensures old(Registered(Cfg())) ==> Registered(Cfg())
    {
      assert optHandlers == optHandlers[..position] + optHandlers[position..];
      if Registered(Cfg()) {
        OptIsRegistered(Cfg(), position, name);
      }
      optHandlers := optHandlers[..position] + [name] + optHandlers[position..];
    }

    method AddOptionalOpt(name: string, defaultValue: string, calledIfNotSet: bool, position: nat)
      requires NameIsOkey(name) && position <= |optionalOptInfos|
      modifies this`optionalOptInfos
      ensures forall n :: Lookup(Cfg(), n) ==
                if n == name then AnOptionalOpt(OptionalOpt(name, defaultValue, calledIfNotSet)) else old(Lookup(Cfg(), n))
      ensures OptionalOpt(name, defaultValue, calledIfNotSet) in optionalOptInfos
      ensures old(Consistent(Cfg())) ==> Consistent(Cfg())
      ensures old(Registered(Cfg())) ==> Registered(Cfg())
    {
      var o := OptionalOpt(name, defaultValue, calledIfNotSet);
      forall n ensures FindOptionalOpt(optionalOptInfos[..position] + [o] + optionalOptInfos[position..], n) ==
                       if n == name then Some(o) else FindOptionalOpt(optionalOptInfos, n)
      {
        FindOptionalOptWith(optionalOptInfos, position, o, n);
      }
      if Registered(Cfg()) {
        OptionalOptIsRegistered(Cfg(), position, o);
      }
      optionalOptInfos := optionalOptInfos[..position] + [o] + optionalOptInfos[position..];
    }

    method CallFlag(f: Flag, value: bool) returns (ok: bool)
      modifies this`calls
      ensures calls == old(calls) + FlagCalls(f, value)
      ensures ok == Accepted(accepts, old(calls), FlagCalls(f, value))
    {
      ok := true;
      if value || f.calledIfNotSet {
        var call := FlagCall(f.name, value);
        ok := accepts(calls, call);
        calls := calls + [call];
      }
    }

    method CallOpt(name: string, value: string) returns (ok: bool)
      modifies this`calls
      ensures calls == old(calls) + [OptCall(name, value)]
      ensures ok == Accepted(accepts, old(calls), [OptCall(name, value)])
    {
      var call := OptCall(name, value);
      ok := accepts(calls, call);
      calls := calls + [call];
    }

    method CallOptionalOpt(o: OptionalOpt, value: string) returns (ok: bool)
      modifies this`calls
      ensures calls == old(calls) + OptionalOptCalls(o, value)
      ensures ok == Accepted(accepts, old(calls), OptionalOptCalls(o, value))
    {
      ok := true;
      if value != o.defaultValue || o.calledIfNotSet {
        ok := CallOpt(o.name, value);
      }
    }

    /** The loop over the arguments. */
    method ScanArgs(argc: nat, argv: array<string>) returns (ok: bool, unknown: seq<string>, handledArgs: set<string>)
      requires argc <= argv.Length
      modifies this`calls, this`errMsg
      ensures var r := Scan(Cfg(), Args(argv[..], argc), old(calls));
              if ok then r == Done(unknown, handledArgs, calls) && errMsg == old(errMsg)
              else errMsg.Some? && r == Failed(errMsg.value, calls)
    {
      hide Accepted, FlagCalls, OptionalOptCalls, FindFlag, FindOptionalOpt, ArgsFrom, Scan, Prepend, Lookup;
      ok, unknown, handledArgs := true, [], {};
      ghost var all, cfg := argv[..], Cfg();
      ghost var whole := Scan(cfg, Args(all, argc), calls);
      var i := 1;
      ScanAtFirst(cfg, all, argc, calls);
      while i < argc
        invariant Cfg() == cfg && errMsg == old(errMsg)
        invariant whole == Prepend(unknown, handledArgs, Scan(cfg, ArgsFrom(all, argc, i), calls))
        decreases argc - i
      {
        ArgsSplit(all, argc, i);
        ScanStep(cfg, ArgsFrom(all, argc, i), calls, unknown, handledArgs);
        var arg := argv[i];
        if arg == ESCAPE {
          if i + 1 >= argc {
            errMsg := Some(DanglingEscape);
            return false, unknown, handledArgs;
          }
          unknown, i := unknown + [argv[i + 1]], i + 2;
          continue;
        }
        var f := FindFlag(flagHandlers, arg);
        if f.Some? {
          var accepted := CallFlag(f.value, true);
          if !accepted {
            errMsg := Some(InvalidFlag(f.value.name));
            return false, unknown, handledArgs;
          }
          handledArgs, i := handledArgs + {arg}, i + 1;
          continue;
        }
        if arg in optHandlers {
          if i + 1 >= argc {
            errMsg := Some(MissingValue(arg));
            return false, unknown, handledArgs;
          }
          var accepted := CallOpt(arg, argv[i + 1]);
          if !accepted {
            errMsg := Some(InvalidValue(arg, argv[i + 1]));
            return false, unknown, handledArgs;
          }
          handledArgs, i := handledArgs + {arg}, i + 2;
          continue;
        }
        var o := FindOptionalOpt(optionalOptInfos, arg);
        if o.Some? {
          if i + 1 >= argc {
            errMsg := Some(MissingValue(o.value.name));
            return false, unknown, handledArgs;
          }
          var accepted := CallOptionalOpt(o.value, argv[i + 1]);
          if !accepted {
            errMsg := Some(InvalidValue(o.value.name, argv[i + 1]));
            return false, unknown, handledArgs;
          }
          handledArgs, i := handledArgs + {arg}, i + 2;
          continue;
        }
        unknown, i := unknown + [arg], i + 1;
      }
      ScanAtLast(cfg, all, argc, i, calls, unknown, handledArgs);
    }

    /** The loops over what was not set. */
    method CallUnset(ghost unknown: seq<string>, handledArgs: set<string>) returns (ok: bool)
      modifies this`calls, this`errMsg
      ensures var r := UnsetOptionalOpts(Cfg(), optionalOptInfos,
                         MissingOpts(optHandlers, UnsetFlags(Cfg(), flagHandlers, Done(unknown, handledArgs, old(calls)))));
              if ok then r == Done(unknown, handledArgs, calls) && errMsg == old(errMsg)
              else errMsg.Some? && r == Failed(errMsg.value, calls)
    {
      hide Accepted, FlagCalls, OptionalOptCalls;
      ghost var whole := UnsetFlags(Cfg(), flagHandlers, Done(unknown, handledArgs, calls));
      for i := 0 to |flagHandlers|
        invariant errMsg == old(errMsg)
        invariant whole == UnsetFlags(Cfg(), flagHandlers[i..], Done(unknown, handledArgs, calls))
      {
        var it := flagHandlers[i];
        assert flagHandlers[i..][0] == it && flagHandlers[i..][1..] == flagHandlers[i + 1..];
        if it.name !in handledArgs {
          var accepted := CallFlag(it, false);
          if !accepted {
            errMsg := Some(InvalidFlag(it.name));
            FailedStays(Cfg(), whole);
            return false;
          }
        }
      }
      assert whole == Done(unknown, handledArgs, calls);
      ghost var next := MissingOpts(optHandlers, whole);
      for i := 0 to |optHandlers|
        invariant errMsg == old(errMsg)
        invariant next == MissingOpts(optHandlers[i..], whole)
      {
        var it := optHandlers[i];
        assert optHandlers[i..][0] == it && optHandlers[i..][1..] == optHandlers[i + 1..];
        if it !in handledArgs {
          errMsg := Some(NotOptional(it));
          FailedStays(Cfg(), next);
          return false;
        }
      }
      assert next == whole;
      ghost var last := UnsetOptionalOpts(Cfg(), optionalOptInfos, next);
      for i := 0 to |optionalOptInfos|
        invariant errMsg == old(errMsg)
        invariant last == UnsetOptionalOpts(Cfg(), optionalOptInfos[i..], Done(unknown, handledArgs, calls))
      {
        var it := optionalOptInfos[i];
        assert optionalOptInfos[i..][0] == it && optionalOptInfos[i..][1..] == optionalOptInfos[i + 1..];
        if it.name !in handledArgs {
          var accepted := CallOptionalOpt(it, it.defaultValue);
          if !accepted {
            errMsg := Some(InvalidValue(it.name, it.defaultValue));
            return false;
          }
        }
      }
      return true;
    }

    /** Parses the arguments.  On success what is left of them is written back behind the program's name; on
      * failure the list is as it was.  A null entry follows the arguments in the list. */
    method Parse(argc: nat, argv: array<string>) returns (ok: bool, newArgc: nat)
      requires argc < argv.Length
      modifies this`calls, this`errMsg, argv
      ensures newArgc <= argv.Length
      ensures var r := Outcomes(Cfg(), Args(old(argv[..]), argc), old(calls));
              && ok == r.Done? && calls == r.calls
              && (ok ==> Args(argv[..], newArgc) == r.unknown && newArgc >= 1 && errMsg == old(errMsg))
              && (!ok ==> newArgc == argc && errMsg == Some(r.error))
      ensures forall k :: 0 <= k < argv.Length && (!ok || k == 0 || k >= newArgc) ==> argv[k] == old(argv[k])
    {
      hide Scan, UnsetFlags, MissingOpts, UnsetOptionalOpts;
      ghost var all := argv[..];
      var unknown, handledArgs;
      ok, unknown, handledArgs := ScanArgs(argc, argv);
      newArgc := argc;
      FailedStays(Cfg(), Scan(Cfg(), Args(all, argc), old(calls)));
      if !ok {
        return;
      }
      LeftIsShorter(Cfg(), Args(all, argc), old(calls));
      ghost var calls1 := calls;
      ok := CallUnset(unknown, handledArgs);
      UnsetKeepsUnknown(Cfg(), Done(unknown, handledArgs, calls1));
      if !ok {
        return;
      }
      newArgc := |unknown| + 1;
      for i := 0 to |unknown|
        invariant forall k :: 1 <= k <= i ==> argv[k] == unknown[k - 1]
        invariant forall k :: 0 <= k < argv.Length && (k == 0 || k > i) ==> argv[k] == all[k]
        modifies argv
      {
        argv[1 + i] := unknown[i];
      }
      assert Args(argv[..], newArgc) == unknown;
    }
  }

  lemma ScanAtFirst(cfg: Config, argv: seq<string>, argc: nat, calls: seq<Call>)
    requires argc <= |argv|
    ensures Scan(cfg, Args(argv, argc), calls) == Prepend([], {}, Scan(cfg, ArgsFrom(argv, argc, 1), calls))
  {
    hide Scan;
    var r := Scan(cfg, Args(argv, argc), calls);
    assert Args(argv, argc) == ArgsFrom(argv, argc, 1);
    assert r.Done? ==> [] + r.unknown == r.unknown && {} + r.handled == r.handled;
  }

  lemma ScanAtLast(
    cfg: Config, argv: seq<string>, argc: nat, i: nat, calls: seq<Call>, unknown: seq<string>, handled: set<string>)
    requires argc <= |argv| && i >= argc
    ensures Prepend(unknown, handled, Scan(cfg, ArgsFrom(argv, argc, i), calls)) == Done(unknown, handled, calls)
  {
    assert unknown + [] == unknown && handled + {} == handled;
  }

  /** No more arguments are left than were given. */
  lemma LeftIsShorter(cfg: Config, args: seq<string>, calls: seq<Call>)
    ensures Scan(cfg, args, calls).Done? ==> |Scan(cfg, args, calls).unknown| <= |args|
  {
    hide Scan, Itemize, Accepted;
    ScanReads(cfg, args, calls);
    if Itemize(cfg, args).Some? {
      ItemizeIff(cfg, args, Itemize(cfg, args).value);
      FewPositionals(Itemize(cfg, args).value);
    }
  }

  lemma {:induction false} FewPositionals(items: seq<Item>)
    ensures |Positionals(items)| <= |Render(items)|
  {
    if items != [] {
      FewPositionals(items[1..]);
    }
  }

  lemma UnsetKeepsUnknown(cfg: Config, r: Outcome)
    requires r.Done?
    ensures var r' := UnsetOptionalOpts(cfg, cfg.optionalOpts, MissingOpts(cfg.opts, UnsetFlags(cfg, cfg.flags, r)));
            r'.Done? ==> r'.unknown == r.unknown
  {
    UnsetFlagsCall(cfg, cfg.flags, r);
    var r1 := UnsetFlags(cfg, cfg.flags, r);
    if r1.Done? {
      NoneMissingIff(cfg.opts, r1);
      DefaultsCall(cfg, cfg.optionalOpts, r1);
    }
    FailedStays(cfg, r1);
    FailedStays(cfg, MissingOpts(cfg.opts, r1));
  }
}

/** The iterator over a tree of options: an explicit stack, with a state per entry. */
module OptionIterator {
  import opened Wrappers
  import opened OptionTree

  datatype State = Itself | IterAnOptions | IterOptionCollections

  datatype Entry = Entry(root: Collection, name: string, state: State, optionIt: nat, collectionIt: nat)

  /** What an iterator points at; no node at the end. */
  datatype Current = Current(name: string, node: Option<Node>)

  const END := Current("", None)

  ghost predicate ValidEntry(e: Entry) {
    && (e.state == IterAnOptions ==> e.optionIt <= |e.root.options|)
    && (e.state == IterOptionCollections ==> e.collectionIt <= |e.root.subs|)
  }

  /** Below the top, each entry is at the collection that the entry above it walks. */
  ghost predicate ValidStack(stack: seq<Entry>) {
    && (forall k :: 0 <= k < |stack| ==> ValidEntry(stack[k]))
    && (forall k :: 0 <= k < |stack| - 1 ==>
          stack[k].state == IterOptionCollections && stack[k].collectionIt < |stack[k].root.subs|)
  }

  /** The entry's iterator points at an option or a collection. */
  ghost predicate Positioned(e: Entry) {
    && (e.state == IterAnOptions ==> e.optionIt < |e.root.options|)
    && (e.state == IterOptionCollections ==> e.collectionIt < |e.root.subs|)
  }

  /** Between steps the iterator rests on an option or on a collection not yet entered. */
  ghost predicate AtRest(stack: seq<Entry>) {
    && ValidStack(stack)
    && (stack != [] ==>
          stack[|stack| - 1].state != IterOptionCollections && Positioned(stack[|stack| - 1]))
  }

  /** The entry after its iterator moved on within its state. */
  function Moved(e: Entry): Entry {
    match e.state
    case Itself => e
    case IterAnOptions => e.(optionIt := e.optionIt + 1)
    case IterOptionCollections => e.(collectionIt := e.collectionIt + 1)
  }

  /** The name and node an entry stands for. */
  function ValueAt(e: Entry): Value
    requires Positioned(e)
  {
    match e.state
    case Itself => Value(e.name, Sub(e.root))
    case IterAnOptions =>
      Value(ConcatStr(e.name, e.root.options[e.optionIt].name), Leaf(e.root.options[e.optionIt].option))
    case IterOptionCollections =>
      Value(ConcatStr(e.name, e.root.subs[e.collectionIt].name), Sub(e.root.subs[e.collectionIt].collection))
  }

  function CurrentOf(v: Value): Current {
    Current(v.name, Some(v.node))
  }

  /** What is left to visit from the position of a top entry on. */
  function FromTop(e: Entry, leavesOnly: bool): seq<Value>
    requires ValidEntry(e)
  {
    match e.state
    case Itself => Flatten(e.root, e.name, leavesOnly)
    case IterAnOptions =>
      OptionValues(e.root.options[e.optionIt..], e.name) + FlattenSubs(e.root.subs, e.name, leavesOnly)
    case IterOptionCollections => FlattenSubs(e.root.subs[e.collectionIt..], e.name, leavesOnly)
  }

  /** What is left to visit in the entries below, after the collections they are in. */
  function Pending(below: seq<Entry>, leavesOnly: bool): seq<Value>
    requires forall k :: 0 <= k < |below| ==> below[k].collectionIt < |below[k].root.subs|
    decreases |below|
  {
    if below == [] then []
    else
      var e := below[|below| - 1];
      FlattenSubs(e.root.subs[e.collectionIt + 1..], e.name, leavesOnly) + Pending(below[..|below| - 1], leavesOnly)
  }

  function Todo(stack: seq<Entry>, leavesOnly: bool): seq<Value>
    requires ValidStack(stack)
  {
    if stack == [] then []
    else FromTop(stack[|stack| - 1], leavesOnly) + Pending(stack[..|stack| - 1], leavesOnly)
  }

  /** What is left to visit after the present position. */
  function Remaining(stack: seq<Entry>, leavesOnly: bool): seq<Value>
    requires AtRest(stack)
  {
    if stack == [] then [] else Todo(stack[|stack| - 1 := Moved(stack[|stack| - 1])], leavesOnly)
  }

  function Weight(c: Collection): nat
    decreases c, 1
  {
    3 + WeightSubs(c.subs)
  }

  function WeightSubs(subs: seq<NamedCollection>): nat
    decreases subs, 0
  {
    if subs == [] then 0 else 1 + Weight(subs[0].collection) + WeightSubs(subs[1..])
  }

  function TopWeight(e: Entry): nat
    requires ValidEntry(e)
  {
    match e.state
    case Itself => Weight(e.root)
    case IterAnOptions => 2 + WeightSubs(e.root.subs)
    case IterOptionCollections => 1 + WeightSubs(e.root.subs[e.collectionIt..])
  }

  function PendingWeight(below: seq<Entry>): nat
    requires forall k :: 0 <= k < |below| ==> below[k].collectionIt < |below[k].root.subs|
    decreases |below|
  {
    if below == [] then 0
    else
      var e := below[|below| - 1];
      1 + WeightSubs(e.root.subs[e.collectionIt + 1..]) + PendingWeight(below[..|below| - 1])
  }

  /** Bounds the number of state changes still possible. */
  function StackWeight(stack: seq<Entry>): nat
    requires ValidStack(stack)
  {
    if stack == [] then 0 else TopWeight(stack[|stack| - 1]) + PendingWeight(stack[..|stack| - 1])
  }

  /** One change of state, and whether another one has to follow. */
  function NextState(stack: seq<Entry>, leavesOnly: bool): (seq<Entry>, bool)
    requires ValidStack(stack) && stack != []
  {
    var n := |stack| - 1;
    var top := stack[n];
    if top.state == Itself then
      (stack[n := top.(state := IterAnOptions, optionIt := 0)], true)
    else if top.state == IterAnOptions && top.optionIt == |top.root.options| then
      (stack[n := top.(state := IterOptionCollections, collectionIt := 0)], true)
    else if top.state == IterOptionCollections && top.collectionIt < |top.root.subs| then
      (stack + [EntryFor(top)], leavesOnly)
    else if top.state == IterOptionCollections && n > 0 then
      (stack[..n][n - 1 := Moved(stack[n - 1])], true)
    else if top.state == IterOptionCollections then
      ([], false)
    else
      (stack, false)
  }

  /** The entry for the collection the top entry is at. */
  function EntryFor(top: Entry): Entry
    requires top.state == IterOptionCollections && Positioned(top)
  {
    var sub := top.root.subs[top.collectionIt];
    Entry(sub.collection, ConcatStr(top.name, sub.name), Itself, 0, 0)
  }

  /** The stack rests where the next value to visit is, or is empty when nothing is left. */
  ghost predicate Stopped(stack: seq<Entry>, rest: seq<Value>, leavesOnly: bool) {
    && AtRest(stack)
    && if rest == [] then stack == []
       else stack != [] && rest[0] == ValueAt(stack[|stack| - 1]) && Remaining(stack, leavesOnly) == rest[1..]
  }

  lemma Assoc(a: seq<Value>, b: seq<Value>, c: seq<Value>)
    ensures (a + b) + c == a + (b + c)
  {
  }

  lemma ReplaceTop(stack: seq<Entry>, e: Entry, leavesOnly: bool)
    requires ValidStack(stack) && stack != [] && ValidEntry(e)
    ensures var stack' := stack[|stack| - 1 := e];
            && ValidStack(stack')
            && Todo(stack', leavesOnly) == FromTop(e, leavesOnly) + Pending(stack[..|stack| - 1], leavesOnly)
            && StackWeight(stack') == TopWeight(e) + PendingWeight(stack[..|stack| - 1])
  {
    assert stack[|stack| - 1 := e][..|stack| - 1] == stack[..|stack| - 1];
  }

  lemma SubsFlatten(subs: seq<NamedCollection>, name: string, leavesOnly: bool)
    requires subs != []
    ensures var full := ConcatStr(name, subs[0].name);
            FlattenSubs(subs, name, leavesOnly) ==
            ((if leavesOnly then [] else [Value(full, Sub(subs[0].collection))]) + Flatten(subs[0].collection, full, leavesOnly))
            + FlattenSubs(subs[1..], name, leavesOnly)
  {
    hide Flatten;
  }

  /** Entering a collection visits it first, unless collections are left out. */
  lemma EnterCollection(stack: seq<Entry>, leavesOnly: bool)
    requires ValidStack(stack) && stack != []
    requires stack[|stack| - 1].state == IterOptionCollections && Positioned(stack[|stack| - 1])
    ensures var top := stack[|stack| - 1];
            var entered := stack + [EntryFor(top)];
            && AtRest(entered)
            && Todo(stack, leavesOnly) == (if leavesOnly then [] else [ValueAt(top)]) + Todo(entered, leavesOnly)
            && StackWeight(entered) < StackWeight(stack)
  {
    var n := |stack| - 1;
    var top := stack[n];
    var entered := stack + [EntryFor(top)];
    assert entered[..|entered| - 1] == stack;
    var subs := top.root.subs[top.collectionIt..];
    assert subs[1..] == top.root.subs[top.collectionIt + 1..];
    var inside := Flatten(subs[0].collection, ConcatStr(top.name, subs[0].name), leavesOnly);
    var after, below := FlattenSubs(subs[1..], top.name, leavesOnly), Pending(stack[..n], leavesOnly);
    assert Todo(entered, leavesOnly) == inside + (after + below);
    var head := if leavesOnly then [] else [ValueAt(top)];
    SubsFlatten(subs, top.name, leavesOnly);
    hide Flatten, FlattenSubs, FlattenSub, Pending;
    assert Todo(stack, leavesOnly) == ((head + inside) + after) + below;
    Assoc(head, inside, after);
    Assoc(head, inside + after, below);
    Assoc(inside, after, below);
  }

  /** Leaving a collection goes on with the next one beside it. */
  lemma LeaveCollection(stack: seq<Entry>, leavesOnly: bool)
    requires ValidStack(stack) && |stack| > 1
    requires stack[|stack| - 1].state == IterOptionCollections && !Positioned(stack[|stack| - 1])
    ensures var left := stack[..|stack| - 1][|stack| - 2 := Moved(stack[|stack| - 2])];
            && ValidStack(left)
            && Todo(stack, leavesOnly) == Todo(left, leavesOnly)
            && StackWeight(left) < StackWeight(stack)
  {
    var n := |stack| - 1;
    var below := stack[..n];
    ReplaceTop(below, Moved(stack[n - 1]), leavesOnly);
    assert below[n - 1] == stack[n - 1];
    var top := stack[n];
    assert top.root.subs[top.collectionIt..] == [];
    assert Todo(stack, leavesOnly) == [] + Pending(below, leavesOnly);
  }

  lemma RestsAt(stack: seq<Entry>, leavesOnly: bool)
    requires AtRest(stack) && stack != []
    ensures stack[|stack| - 1].state == IterAnOptions ==>
              Todo(stack, leavesOnly) == [ValueAt(stack[|stack| - 1])] + Remaining(stack, leavesOnly)
    ensures stack[|stack| - 1].state == Itself ==> Todo(stack, leavesOnly) == Remaining(stack, leavesOnly)
  {
    hide Flatten, FlattenSubs, Pending;
    var n := |stack| - 1;
    var top := stack[n];
    ReplaceTop(stack, Moved(top), leavesOnly);
    if top.state == IterAnOptions {
      assert top.root.options[top.optionIt..][1..] == top.root.options[top.optionIt + 1..];
      var rest := OptionValues(top.root.options[top.optionIt + 1..], top.name);
      Assoc([ValueAt(top)], rest, FlattenSubs(top.root.subs, top.name, leavesOnly));
      Assoc([ValueAt(top)], rest + FlattenSubs(top.root.subs, top.name, leavesOnly), Pending(stack[..n], leavesOnly));
    } else {
      assert stack[n := top] == stack;
    }
  }

  /** Each change of state either leaves the rest of the walk as it is and gets closer to the next stop, or stops. */
  lemma NextStateKeeps(stack: seq<Entry>, leavesOnly: bool)
    requires ValidStack(stack) && stack != []
    ensures var (stack', again) := NextState(stack, leavesOnly);
            && ValidStack(stack')
            && (again ==> stack' != [] && Todo(stack', leavesOnly) == Todo(stack, leavesOnly)
                          && StackWeight(stack') < StackWeight(stack))
            && (!again ==> Stopped(stack', Todo(stack, leavesOnly), leavesOnly))
  {
    var n := |stack| - 1;
    var top := stack[n];
    if top.state == Itself {
      ReplaceTop(stack, top.(state := IterAnOptions, optionIt := 0), leavesOnly);
      assert top.root.options[0..] == top.root.options;
    } else if top.state == IterAnOptions && top.optionIt == |top.root.options| {
      ReplaceTop(stack, top.(state := IterOptionCollections, collectionIt := 0), leavesOnly);
      assert top.root.subs[0..] == top.root.subs;
      var after := FlattenSubs(top.root.subs, top.name, leavesOnly);
      assert [] + after == after;
    } else if top.state == IterOptionCollections && top.collectionIt < |top.root.subs| {
      EnterCollection(stack, leavesOnly);
      RestsAt(stack + [EntryFor(top)], leavesOnly);
      if leavesOnly {
        assert [] + Todo(stack + [EntryFor(top)], true) == Todo(stack + [EntryFor(top)], true);
      }
    } else if top.state == IterOptionCollections && n > 0 {
      LeaveCollection(stack, leavesOnly);
    } else if top.state == IterOptionCollections {
      assert top.root.subs[top.collectionIt..] == [];
    } else {
      RestsAt(stack, leavesOnly);
    }
  }

  lemma MovedOnIsRest(stack: seq<Entry>, leavesOnly: bool)
    requires AtRest(stack) && stack != []
    ensures var stack' := stack[|stack| - 1 := Moved(stack[|stack| - 1])];
            ValidStack(stack') && Todo(stack', leavesOnly) == Remaining(stack, leavesOnly)
  {
  }

  class Iterator {
    const leavesOnly: bool
    var stack: seq<Entry>
    var curr: Current

    /** The iterator points at the first of the values left to visit, or is at the end. */
    ghost predicate Shows(todo: seq<Value>)
      reads this
    {
      && AtRest(stack)
      && if todo == [] then stack == [] && curr == END
         else stack != [] && curr == CurrentOf(todo[0]) && Remaining(stack, leavesOnly) == todo[1..]
    }

    /** An iterator at the start of the walk over everything below the collection. */
    constructor (startPoint: Collection, leavesOnly: bool)
      ensures this.leavesOnly == leavesOnly
      ensures Shows(Flatten(startPoint, "", leavesOnly))
    {
      this.leavesOnly := leavesOnly;
      stack := [Entry(startPoint, "", Itself, 0, 0)];
      curr := END;
      new;
      assert stack[..0] == [];
      assert Remaining(stack, leavesOnly) == Flatten(startPoint, "", leavesOnly) by {
        var s := stack[0 := stack[0]];
        assert s == stack;
        assert Flatten(startPoint, "", leavesOnly) + [] == Flatten(startPoint, "", leavesOnly);
      }
      Advance();
    }

    /** Moves to the next node, or to the end. */
    method Advance()
      requires AtRest(stack) && stack != []
      modifies this
      ensures Shows(Remaining(old(stack), leavesOnly))
    {
      hide Todo, Remaining, NextState, StackWeight, Pending, FromTop, Moved, ValueAt, ValidStack;
      ghost var rest := Remaining(stack, leavesOnly);
      MovedOnIsRest(stack, leavesOnly);
      GoNextInState();
      var again := true;
      while again
        invariant ValidStack(stack)
        invariant again ==> stack != [] && Todo(stack, leavesOnly) == rest
        invariant !again ==> Stopped(stack, rest, leavesOnly)
        decreases again, StackWeight(stack)
      {
        NextStateKeeps(stack, leavesOnly);
        again := GoNextStateIfNeed();
      }
      SetupCurrValue();
    }

    method GoNextInState()
      requires stack != []
      modifies this`stack
      ensures stack == old(stack)[|old(stack)| - 1 := Moved(old(stack)[|old(stack)| - 1])]
    {
      var top := stack[|stack| - 1];
      match top.state
      case IterAnOptions =>
        stack := stack[|stack| - 1 := top.(optionIt := top.optionIt + 1)];
      case IterOptionCollections =>
        stack := stack[|stack| - 1 := top.(collectionIt := top.collectionIt + 1)];
      case Itself =>
    }

    method GoNextStateIfNeed() returns (again: bool)
      requires ValidStack(stack) && stack != []
      modifies this`stack
      ensures (stack, again) == NextState(old(stack), leavesOnly)
    {
      var n := |stack| - 1;
      var info := stack[n];
      if info.state == Itself {
        stack := stack[n := info.(state := IterAnOptions, optionIt := 0)];
        return true;
      }
      if info.state == IterAnOptions && info.optionIt == |info.root.options| {
        stack := stack[n := info.(state := IterOptionCollections, collectionIt := 0)];
        return true;
      }
      if info.state == IterOptionCollections {
        if info.collectionIt != |info.root.subs| {
          var sub := info.root.subs[info.collectionIt];
          stack := stack + [Entry(sub.collection, ConcatStr(info.name, sub.name), Itself, 0, 0)];
          return leavesOnly;
        } else {
          stack := stack[..n];
          if stack != [] {
            var below := stack[n - 1];
            stack := stack[n - 1 := below.(collectionIt := below.collectionIt + 1)];
            return true;
          }
        }
      }
      return false;
    }

    method SetupCurrValue()
      requires stack != [] ==> Positioned(stack[|stack| - 1])
      modifies this`curr
      ensures curr == if stack == [] then END else CurrentOf(ValueAt(stack[|stack| - 1]))
    {
      if stack == [] {
        curr := END;
      } else {
        var info := stack[|stack| - 1];
        match info.state
        case Itself =>
          curr := Current(info.name, Some(Sub(info.root)));
        case IterAnOptions =>
          var it := info.root.options[info.optionIt];
          curr := Current(ConcatStr(info.name, it.name), Some(Leaf(it.option)));
        case IterOptionCollections =>
          var it := info.root.subs[info.collectionIt];
          curr := Current(ConcatStr(info.name, it.name), Some(Sub(it.collection)));
      }
    }
  }

  /** A range loop over the tree visits exactly the flattened tree, in order. */
  method Visit(root: Collection, leavesOnly: bool) returns (visited: seq<Value>)
    ensures visited == Flatten(root, "", leavesOnly)
  {
    hide Flatten, Remaining, AtRest;
    var it := new Iterator(root, leavesOnly);
    visited := [];
    ghost var todo := Flatten(root, "", leavesOnly);
    ghost var all := todo;
    while it.curr.node.Some?
      invariant fresh(it) && it.leavesOnly == leavesOnly
      invariant visited + todo == all && it.Shows(todo)
      decreases |todo|
    {
      VisitOne(visited, todo);
      visited := visited + [Value(it.curr.name, it.curr.node.value)];
      it.Advance();
      todo := todo[1..];
    }
  }

  lemma VisitOne(visited: seq<Value>, todo: seq<Value>)
    requires todo != []
    ensures visited + todo == (visited + [todo[0]]) + todo[1..]
  {
  }
}

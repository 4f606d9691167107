/** Dotted names: adding options under valid names, and finding them again. */
module OptionNames {
  import opened Wrappers
  import opened OptionTree

  predicate NameChar(c: char) {
    'a' <= c <= 'z' || 'A' <= c <= 'Z' || '0' <= c <= '9' || c == '_'
  }

  predicate ValidName(name: string) {
    name != [] && forall k :: 0 <= k < |name| ==> NameChar(name[k])
  }

  /** Names are valid and, within a collection, belong to one child only. */
  ghost predicate WellNamed(c: Collection)
    decreases c
  {
    && (forall k :: 0 <= k < |c.options| ==> ValidName(c.options[k].name))
    && (forall k :: 0 <= k < |c.subs| ==> ValidName(c.subs[k].name) && WellNamed(c.subs[k].collection))
    && (forall i, j :: 0 <= i < j < |c.options| ==> c.options[i].name != c.options[j].name)
    && (forall i, j :: 0 <= i < j < |c.subs| ==> c.subs[i].name != c.subs[j].name)
    && (forall i, j :: 0 <= i < |c.options| && 0 <= j < |c.subs| ==> c.options[i].name != c.subs[j].name)
  }

  function FindOption(options: seq<NamedOption>, name: string): Option<AnOption> {
    if options == [] then None
    else if options[0].name == name then Some(options[0].option)
    else FindOption(options[1..], name)
  }

  function FindSub(subs: seq<NamedCollection>, name: string): Option<Collection> {
    if subs == [] then None
    else if subs[0].name == name then Some(subs[0].collection)
    else FindSub(subs[1..], name)
  }

  /** Index of the first dot at or after start, or -1. */
  function FindDot(s: string, start: nat): (dot: int)
    ensures dot == -1 || (start <= dot < |s| && s[dot] == '.')
    ensures forall k :: start <= k < (if dot < 0 then |s| else dot) ==> s[k] != '.'
    decreases |s| - start
  {
    if start >= |s| then -1 else if s[start] == '.' then start else FindDot(s, start + 1)
  }

  /** The child of a collection with the given name, among the options or among the collections. */
  function FindChild(c: Collection, name: string, leaf: bool): Option<Node> {
    if leaf then
      var o :- FindOption(c.options, name);
      Some(Leaf(o))
    else
      var s :- FindSub(c.subs, name);
      Some(Sub(s))
  }

  /** Look-up of a dotted name from position start on, segment by segment.  None stands for a failed assertion. */
  function Resolve(c: Collection, name: string, start: nat, leaf: bool): Option<Node>
    requires start <= |name|
    decreases |name| - start
  {
    var dot := FindDot(name, start);
    if dot >= 0 then
      var sub :- FindSub(c.subs, name[start..dot]);
      Resolve(sub, name, dot + 1, leaf)
    else FindChild(c, name[start..], leaf)
  }

  /** The look-up the program performs: it cuts every segment from the beginning of the name. */
  function GetOption(c: Collection, name: string, start: nat, leaf: bool): Option<Node>
    requires start <= |name|
    decreases |name| - start
  {
    var dot := FindDot(name, start);
    if dot >= 0 then
      var sub :- FindSub(c.subs, name[..dot]);
      GetOption(sub, name, dot + 1, leaf)
    else FindChild(c, name[start..], leaf)
  }

  predicate AtMostOneDot(name: string) {
    var dot := FindDot(name, 0);
    dot < 0 || FindDot(name, dot + 1) < 0
  }

  lemma {:induction false} FindSubAt(subs: seq<NamedCollection>, k: nat)
    requires k < |subs| && forall i, j :: 0 <= i < j < |subs| ==> subs[i].name != subs[j].name
    ensures FindSub(subs, subs[k].name) == Some(subs[k].collection)
  {
    if k > 0 {
      FindSubAt(subs[1..], k - 1);
    }
  }

  lemma {:induction false} FindOptionAt(options: seq<NamedOption>, k: nat)
    requires k < |options| && forall i, j :: 0 <= i < j < |options| ==> options[i].name != options[j].name
    ensures FindOption(options, options[k].name) == Some(options[k].option)
  {
    if k > 0 {
      FindOptionAt(options[1..], k - 1);
    }
  }

  lemma {:induction false} FindSubOnlyNames(subs: seq<NamedCollection>, name: string)
    ensures FindSub(subs, name).Some? ==>
              exists k :: 0 <= k < |subs| && subs[k].name == name && FindSub(subs, name) == Some(subs[k].collection)
    decreases |subs|
  {
    if subs != [] && subs[0].name != name {
      FindSubOnlyNames(subs[1..], name);
      if FindSub(subs, name).Some? {
        var k :| 0 <= k < |subs[1..]| && subs[1..][k].name == name && FindSub(subs[1..], name) == Some(subs[1..][k].collection);
        assert subs[k + 1] == subs[1..][k];
      }
    }
  }

  /** The program's look-up finds what segment-wise look-up finds for names with at most one dot, and
    * nothing at all for names with more. */
  lemma GetOptionIsResolveIff(c: Collection, name: string, leaf: bool)
    requires WellNamed(c)
    ensures GetOption(c, name, 0, leaf) == if AtMostOneDot(name) then Resolve(c, name, 0, leaf) else None
  {
    var dot := FindDot(name, 0);
    if dot >= 0 {
      assert name[..dot] == name[0..dot];
      var found := FindSub(c.subs, name[..dot]);
      var dot2 := FindDot(name, dot + 1);
      if found.Some? && dot2 >= 0 {
        FindSubOnlyNames(c.subs, name[..dot]);
        DottedIsNoName(found.value, name[..dot2], dot);
      }
    }
  }

  lemma DottedIsNoName(c: Collection, name: string, dot: nat)
    requires WellNamed(c) && dot < |name| && name[dot] == '.'
    ensures FindSub(c.subs, name).None?
  {
    FindSubOnlyNames(c.subs, name);
  }

  // ----- Names the iterator yields -----

  /** Where the part of a name below a prefix begins. */
  function Below(prefix: string): nat {
    if prefix == [] then 0 else |prefix| + 1
  }

  /** The name is the prefix followed by a dot and more, or anything when there is no prefix. */
  ghost predicate Extends(name: string, prefix: string) {
    prefix == [] || (|name| > |prefix| && prefix <= name && name[|prefix|] == '.')
  }

  /** The segment that begins at start. */
  function Segment(name: string, start: nat): string
    requires start <= |name|
  {
    var dot := FindDot(name, start);
    if dot >= 0 then name[start..dot] else name[start..]
  }

  lemma NameHasNoDot(name: string)
    requires ValidName(name)
    ensures forall k :: 0 <= k < |name| ==> name[k] != '.'
  {
  }

  lemma SegmentOfChild(prefix: string, child: string, name: string)
    requires ValidName(child)
    requires name == ConcatStr(prefix, child) || Extends(name, ConcatStr(prefix, child))
    ensures Below(prefix) <= |name| && Segment(name, Below(prefix)) == child
    ensures name == ConcatStr(prefix, child) ==> FindDot(name, Below(prefix)) < 0
    ensures name != ConcatStr(prefix, child) ==> FindDot(name, Below(prefix)) == |ConcatStr(prefix, child)|
  {
    var full := ConcatStr(prefix, child);
    var s := Below(prefix);
    NameHasNoDot(child);
    assert full[s..] == child && full <= name;
    forall k | s <= k < |full| ensures name[k] != '.' {
      assert name[k] == full[k] == child[k - s];
    }
    if name != full {
      assert FindDot(name, s) == |full|;
      assert name[s..|full|] == full[s..];
    }
  }

  lemma {:induction false} FlattenExtends(c: Collection, prefix: string, leavesOnly: bool)
    requires WellNamed(c)
    ensures forall v :: v in Flatten(c, prefix, leavesOnly) ==> Extends(v.name, prefix)
    decreases c, 1
  {
    forall v | v in Flatten(c, prefix, leavesOnly) ensures Extends(v.name, prefix) {
      if v in OptionValues(c.options, prefix) {
      } else {
        FlattenSubsExtend(c.subs, prefix, leavesOnly);
      }
    }
  }

  ghost predicate SubsNamed(subs: seq<NamedCollection>)
    decreases subs
  {
    && (forall k :: 0 <= k < |subs| ==> ValidName(subs[k].name) && WellNamed(subs[k].collection))
    && (forall i, j :: 0 <= i < j < |subs| ==> subs[i].name != subs[j].name)
  }

  lemma {:induction false} FlattenSubsExtend(subs: seq<NamedCollection>, prefix: string, leavesOnly: bool)
    requires SubsNamed(subs)
    ensures forall v :: v in FlattenSubs(subs, prefix, leavesOnly) ==> Extends(v.name, prefix)
    decreases subs, 0
  {
    if subs != [] {
      FlattenSubExtends(subs[0], prefix, leavesOnly);
      FlattenSubsExtend(subs[1..], prefix, leavesOnly);
    }
  }

  lemma {:induction false} FlattenSubExtends(sub: NamedCollection, prefix: string, leavesOnly: bool)
    requires ValidName(sub.name) && WellNamed(sub.collection)
    ensures forall v :: v in FlattenSub(sub, prefix, leavesOnly) ==>
              && Extends(v.name, prefix)
              && (v.name == ConcatStr(prefix, sub.name) || Extends(v.name, ConcatStr(prefix, sub.name)))
    decreases sub, 2
  {
    hide Flatten, WellNamed, ValidName;
    var full := ConcatStr(prefix, sub.name);
    FlattenExtends(sub.collection, full, leavesOnly);
    NameIsNotEmpty(sub.name);
  }

  lemma NameIsNotEmpty(name: string)
    requires ValidName(name)
    ensures name != []
  {
  }

  /** The node of every name the iterator yields is found again by its name. */
  lemma {:induction false} ResolveFinds(c: Collection, prefix: string, v: Value)
    requires WellNamed(c) && v in Flatten(c, prefix, false)
    ensures Below(prefix) <= |v.name| && Resolve(c, v.name, Below(prefix), v.node.Leaf?) == Some(v.node)
    decreases c
  {
    if v in OptionValues(c.options, prefix) {
      var k :| 0 <= k < |c.options| && v == OptionValues(c.options, prefix)[k];
      SegmentOfChild(prefix, c.options[k].name, v.name);
      FindOptionAt(c.options, k);
    } else {
      var k := SubOf(c.subs, prefix, v);
      var sub := c.subs[k];
      var full := ConcatStr(prefix, sub.name);
      FlattenSubExtends(sub, prefix, false);
      SegmentOfChild(prefix, sub.name, v.name);
      FindSubAt(c.subs, k);
      if v != Value(full, Sub(sub.collection)) {
        FlattenExtends(sub.collection, full, false);
        ResolveFinds(sub.collection, full, v);
      }
    }
  }

  lemma {:induction false} SubOf(subs: seq<NamedCollection>, prefix: string, v: Value) returns (k: nat)
    requires v in FlattenSubs(subs, prefix, false)
    ensures k < |subs| && v in FlattenSub(subs[k], prefix, false)
    decreases |subs|
  {
    hide FlattenSub;
    if v in FlattenSub(subs[0], prefix, false) {
      k := 0;
    } else {
      k := SubOf(subs[1..], prefix, v);
      k := k + 1;
    }
  }

  /** Looking a yielded name up as the program does finds its node exactly when the name has at most one dot. */
  lemma GetOptionFindsIff(c: Collection, v: Value)
    requires WellNamed(c) && v in Flatten(c, "", false)
    ensures Resolve(c, v.name, 0, v.node.Leaf?) == Some(v.node)
    ensures GetOption(c, v.name, 0, v.node.Leaf?) == Some(v.node) <==> AtMostOneDot(v.name)
  {
    ResolveFinds(c, "", v);
    GetOptionIsResolveIff(c, v.name, v.node.Leaf?);
  }

  lemma {:induction false} InSubs(subs: seq<NamedCollection>, k: nat, prefix: string, v: Value, leavesOnly: bool)
    requires k < |subs| && v in FlattenSub(subs[k], prefix, leavesOnly)
    ensures v in FlattenSubs(subs, prefix, leavesOnly)
    decreases |subs|
  {
    hide FlattenSub;
    if k > 0 {
      InSubs(subs[1..], k - 1, prefix, v, leavesOnly);
    }
  }

  /** The name goes on below the prefix at the position. */
  ghost predicate GoesOn(name: string, prefix: string, start: nat) {
    start == Below(prefix) <= |name| && (prefix == [] || name[..start] == prefix + ".")
  }

  lemma WholeName(name: string, prefix: string, start: nat, segment: string)
    requires GoesOn(name, prefix, start) && segment == name[start..]
    ensures ConcatStr(prefix, segment) == name
  {
    assert name == name[..start] + name[start..];
  }

  lemma NextSegment(name: string, prefix: string, start: nat, dot: nat)
    requires GoesOn(name, prefix, start) && start < dot < |name| && name[dot] == '.'
    ensures GoesOn(name, ConcatStr(prefix, name[start..dot]), dot + 1)
  {
    assert name[..dot + 1] == name[..start] + name[start..dot] + ".";
  }

  lemma OptionIsYielded(c: Collection, prefix: string, k: nat)
    requires k < |c.options|
    ensures Value(ConcatStr(prefix, c.options[k].name), Leaf(c.options[k].option)) in Flatten(c, prefix, false)
  {
    hide FlattenSubs;
    var vs := OptionValues(c.options, prefix);
    assert vs[k] in vs;
  }

  lemma SubIsYielded(c: Collection, prefix: string, k: nat)
    requires k < |c.subs|
    ensures var full := ConcatStr(prefix, c.subs[k].name);
            && Value(full, Sub(c.subs[k].collection)) in Flatten(c, prefix, false)
            && forall v :: v in Flatten(c.subs[k].collection, full, false) ==> v in Flatten(c, prefix, false)
  {
    var full := ConcatStr(prefix, c.subs[k].name);
    var self, inside := [Value(full, Sub(c.subs[k].collection))], Flatten(c.subs[k].collection, full, false);
    assert FlattenSub(c.subs[k], prefix, false) == self + inside;
    assert Flatten(c, prefix, false) == OptionValues(c.options, prefix) + FlattenSubs(c.subs, prefix, false);
    hide Flatten, FlattenSub, FlattenSubs, OptionValues;
    forall v | v in self + inside ensures v in Flatten(c, prefix, false) {
      InSubs(c.subs, k, prefix, v, false);
    }
    assert self[0] in self;
  }

  lemma ChildIsYielded(c: Collection, prefix: string, segment: string, node: Node)
    requires FindChild(c, segment, node.Leaf?) == Some(node)
    ensures Value(ConcatStr(prefix, segment), node) in Flatten(c, prefix, false)
  {
    hide Flatten;
    if node.Leaf? {
      FindOptionOnlyNames(c.options, segment);
      var k :| 0 <= k < |c.options| && c.options[k].name == segment && FindOption(c.options, segment) == Some(c.options[k].option);
      OptionIsYielded(c, prefix, k);
    } else {
      FindSubOnlyNames(c.subs, segment);
      var k :| 0 <= k < |c.subs| && c.subs[k].name == segment && FindSub(c.subs, segment) == Some(c.subs[k].collection);
      SubIsYielded(c, prefix, k);
    }
  }

  lemma FoundSub(c: Collection, segment: string) returns (k: nat)
    requires WellNamed(c) && FindSub(c.subs, segment).Some?
    ensures k < |c.subs| && c.subs[k].name == segment && FindSub(c.subs, segment) == Some(c.subs[k].collection)
    ensures segment != [] && WellNamed(c.subs[k].collection)
  {
    FindSubOnlyNames(c.subs, segment);
    k :| 0 <= k < |c.subs| && c.subs[k].name == segment && FindSub(c.subs, segment) == Some(c.subs[k].collection);
    NameIsNotEmpty(c.subs[k].name);
  }

  /** Every node that segment-wise look-up finds is yielded under its name. */
  lemma {:induction false} ResolvedIsYielded(c: Collection, name: string, prefix: string, start: nat, node: Node)
    requires WellNamed(c) && GoesOn(name, prefix, start) && Resolve(c, name, start, node.Leaf?) == Some(node)
    ensures Value(name, node) in Flatten(c, prefix, false)
    decreases |name| - start
  {
    assert start <= |name|;
    hide Flatten, GoesOn, FindSub, FindChild, WellNamed;
    var dot := FindDot(name, start);
    if dot >= 0 {
      var k := FoundSub(c, name[start..dot]);
      NextSegment(name, prefix, start, dot);
      ResolvedIsYielded(c.subs[k].collection, name, ConcatStr(prefix, name[start..dot]), dot + 1, node);
      SubIsYielded(c, prefix, k);
    } else {
      WholeName(name, prefix, start, name[start..]);
      ChildIsYielded(c, prefix, name[start..], node);
    }
  }

  /** What is yielded, with the collections, are exactly the nodes that segment-wise look-up finds, under the names
    * by which it finds them. */
  lemma YieldedIff(c: Collection, name: string, node: Node)
    requires WellNamed(c)
    ensures Value(name, node) in Flatten(c, "", false) <==> Resolve(c, name, 0, node.Leaf?) == Some(node)
  {
    if Value(name, node) in Flatten(c, "", false) {
      ResolveFinds(c, "", Value(name, node));
    }
    if Resolve(c, name, 0, node.Leaf?) == Some(node) {
      ResolvedIsYielded(c, name, "", 0, node);
    }
  }

  function LeafOf(v: Value): seq<Value> {
    if v.node.Leaf? then [v] else []
  }

  /** The leaves of the values, in order. */
  function Leaves(vs: seq<Value>): seq<Value> {
    if vs == [] then [] else LeafOf(vs[0]) + Leaves(vs[1..])
  }

  lemma {:induction false} LeavesConcat(a: seq<Value>, b: seq<Value>)
    ensures Leaves(a + b) == Leaves(a) + Leaves(b)
    decreases |a|
  {
    hide LeafOf;
    if a == [] {
      assert a + b == b && [] + Leaves(b) == Leaves(b);
    } else {
      assert (a + b)[1..] == a[1..] + b && (a + b)[0] == a[0];
      LeavesConcat(a[1..], b);
      assert LeafOf(a[0]) + (Leaves(a[1..]) + Leaves(b)) == (LeafOf(a[0]) + Leaves(a[1..])) + Leaves(b);
    }
  }

  lemma {:induction false} OptionsAreLeaves(options: seq<NamedOption>, prefix: string)
    ensures Leaves(OptionValues(options, prefix)) == OptionValues(options, prefix)
  {
    if options != [] {
      OptionsAreLeaves(options[1..], prefix);
      var vs := OptionValues(options, prefix);
      assert vs[1..] == OptionValues(options[1..], prefix);
      assert [vs[0]] + vs[1..] == vs;
    }
  }

  /** Without the collections, what is left are the leaves, in the same order. */
  lemma {:induction false} LeavesOnlyAreLeaves(c: Collection, prefix: string)
    ensures Flatten(c, prefix, true) == Leaves(Flatten(c, prefix, false))
    decreases c, 1
  {
    OptionsAreLeaves(c.options, prefix);
    SubsLeaves(c.subs, prefix);
    LeavesConcat(OptionValues(c.options, prefix), FlattenSubs(c.subs, prefix, false));
  }

  lemma {:induction false} SubsLeaves(subs: seq<NamedCollection>, prefix: string)
    ensures FlattenSubs(subs, prefix, true) == Leaves(FlattenSubs(subs, prefix, false))
    decreases subs, 0
  {
    if subs != [] {
      SubLeaves(subs[0], prefix);
      SubsLeaves(subs[1..], prefix);
      LeavesConcat(FlattenSub(subs[0], prefix, false), FlattenSubs(subs[1..], prefix, false));
    }
  }

  lemma {:induction false} SubLeaves(sub: NamedCollection, prefix: string)
    ensures FlattenSub(sub, prefix, true) == Leaves(FlattenSub(sub, prefix, false))
    decreases sub, 2
  {
    var full := ConcatStr(prefix, sub.name);
    var inside := Flatten(sub.collection, full, false);
    LeavesOnlyAreLeaves(sub.collection, full);
    LeavesConcat([Value(full, Sub(sub.collection))], inside);
    assert Leaves([Value(full, Sub(sub.collection))]) == [] by {
      assert [Value(full, Sub(sub.collection))][1..] == [];
    }
    assert [] + Leaves(inside) == Leaves(inside) && [] + Flatten(sub.collection, full, true) == Flatten(sub.collection, full, true);
  }

  /** Where the k-th sub-collection stands behind the options: after everything below the earlier ones. */
  function Offset(subs: seq<NamedCollection>, prefix: string, k: nat): nat
    requires k <= |subs|
  {
    if k == 0 then 0 else |FlattenSub(subs[0], prefix, false)| + Offset(subs[1..], prefix, k - 1)
  }

  lemma {:induction false} SubStandsAt(subs: seq<NamedCollection>, prefix: string, k: nat)
    requires k < |subs|
    ensures var at, inside := Offset(subs, prefix, k), FlattenSub(subs[k], prefix, false);
            && at + |inside| == Offset(subs, prefix, k + 1) <= |FlattenSubs(subs, prefix, false)|
            && FlattenSubs(subs, prefix, false)[at..at + |inside|] == inside
    decreases k
  {
    hide FlattenSub;
    var first, rest := FlattenSub(subs[0], prefix, false), FlattenSubs(subs[1..], prefix, false);
    if k == 0 {
      assert Offset(subs[1..], prefix, 0) == 0;
    } else {
      SubStandsAt(subs[1..], prefix, k - 1);
      var at, inside := Offset(subs[1..], prefix, k - 1), FlattenSub(subs[k], prefix, false);
      assert (first + rest)[|first| + at..|first| + at + |inside|] == rest[at..at + |inside|];
    }
  }

  /** The options of a collection come first, in the order of their map. */
  lemma OptionsComeFirst(c: Collection, prefix: string, leavesOnly: bool, i: nat)
    requires i < |c.options|
    ensures var vs := Flatten(c, prefix, leavesOnly);
            |c.options| <= |vs| && vs[i] == Value(ConcatStr(prefix, c.options[i].name), Leaf(c.options[i].option))
  {
    var options, subs := OptionValues(c.options, prefix), FlattenSubs(c.subs, prefix, leavesOnly);
    assert (options + subs)[i] == options[i];
  }

  /** Then the sub-collections in the order of theirs, each followed at once by everything below it. */
  lemma ContentsFollow(c: Collection, prefix: string, k: nat)
    requires k < |c.subs|
    ensures var vs, at, full := Flatten(c, prefix, false), |c.options| + Offset(c.subs, prefix, k), ConcatStr(prefix, c.subs[k].name);
            var inside := Flatten(c.subs[k].collection, full, false);
            && at + 1 + |inside| == |c.options| + Offset(c.subs, prefix, k + 1) <= |vs|
            && vs[at] == Value(full, Sub(c.subs[k].collection)) && vs[at + 1..at + 1 + |inside|] == inside
  {
    hide *;
    SubStandsAt(c.subs, prefix, k);
    FlattenIs(c, prefix);
    FlattenSubIs(c.subs[k], prefix);
    var full := ConcatStr(prefix, c.subs[k].name);
    Behind(OptionValues(c.options, prefix), FlattenSubs(c.subs, prefix, false), Offset(c.subs, prefix, k),
      Value(full, Sub(c.subs[k].collection)), Flatten(c.subs[k].collection, full, false));
  }

  lemma FlattenIs(c: Collection, prefix: string)
    ensures Flatten(c, prefix, false) == OptionValues(c.options, prefix) + FlattenSubs(c.subs, prefix, false)
  {
  }

  lemma FlattenSubIs(sub: NamedCollection, prefix: string)
    ensures var full := ConcatStr(prefix, sub.name);
            FlattenSub(sub, prefix, false) == [Value(full, Sub(sub.collection))] + Flatten(sub.collection, full, false)
  {
  }

  lemma Behind(options: seq<Value>, subs: seq<Value>, at: nat, v: Value, inside: seq<Value>)
    requires at + 1 + |inside| <= |subs| && subs[at..at + 1 + |inside|] == [v] + inside
    ensures (options + subs)[|options| + at] == v
    ensures (options + subs)[|options| + at + 1..|options| + at + 1 + |inside|] == inside
  {
    var part := subs[at..at + 1 + |inside|];
    assert subs[at] == part[0];
    assert part[1..] == inside;
    assert subs[at + 1..at + 1 + |inside|] == part[1..];
  }

  ghost predicate DistinctNames(vs: seq<Value>) {
    forall i, j :: 0 <= i < j < |vs| ==> vs[i].name != vs[j].name
  }

  ghost predicate Apart(a: seq<Value>, b: seq<Value>) {
    forall i, j :: 0 <= i < |a| && 0 <= j < |b| ==> a[i].name != b[j].name
  }

  lemma DistinctConcat(a: seq<Value>, b: seq<Value>)
    requires DistinctNames(a) && DistinctNames(b) && Apart(a, b)
    ensures DistinctNames(a + b)
  {
  }

  /** Below different children the names differ in their first segment. */
  lemma SubsSegments(subs: seq<NamedCollection>, prefix: string, v: Value, leavesOnly: bool)
    requires SubsNamed(subs) && v in FlattenSubs(subs, prefix, leavesOnly)
    ensures Below(prefix) <= |v.name| && exists k :: 0 <= k < |subs| && Segment(v.name, Below(prefix)) == subs[k].name
    decreases |subs|
  {
    if v in FlattenSub(subs[0], prefix, leavesOnly) {
      FlattenSubExtends(subs[0], prefix, leavesOnly);
      SegmentOfChild(prefix, subs[0].name, v.name);
      assert Segment(v.name, Below(prefix)) == subs[0].name;
    } else {
      SubsSegments(subs[1..], prefix, v, leavesOnly);
      var k :| 0 <= k < |subs[1..]| && Segment(v.name, Below(prefix)) == subs[1..][k].name;
      assert subs[k + 1] == subs[1..][k];
    }
  }

  /** All names yielded below a collection are different. */
  lemma {:induction false} NamesAreDistinct(c: Collection, prefix: string, leavesOnly: bool)
    requires WellNamed(c)
    ensures DistinctNames(Flatten(c, prefix, leavesOnly))
    decreases c, 1
  {
    var opts, subs := OptionValues(c.options, prefix), FlattenSubs(c.subs, prefix, leavesOnly);
    SubNamesAreDistinct(c.subs, prefix, leavesOnly);
    forall i, j | 0 <= i < |opts| && 0 <= j < |subs| ensures opts[i].name != subs[j].name {
      SegmentOfChild(prefix, c.options[i].name, opts[i].name);
      SubsSegments(c.subs, prefix, subs[j], leavesOnly);
    }
    forall i, j | 0 <= i < j < |opts| ensures opts[i].name != opts[j].name {
      SegmentOfChild(prefix, c.options[i].name, opts[i].name);
      SegmentOfChild(prefix, c.options[j].name, opts[j].name);
    }
    DistinctConcat(opts, subs);
  }

  lemma {:induction false} SubNamesAreDistinct(subs: seq<NamedCollection>, prefix: string, leavesOnly: bool)
    requires SubsNamed(subs)
    ensures DistinctNames(FlattenSubs(subs, prefix, leavesOnly))
    decreases subs, 0
  {
    if subs != [] {
      var first, rest := FlattenSub(subs[0], prefix, leavesOnly), FlattenSubs(subs[1..], prefix, leavesOnly);
      OneSubNamesAreDistinct(subs[0], prefix, leavesOnly);
      SubNamesAreDistinct(subs[1..], prefix, leavesOnly);
      FlattenSubExtends(subs[0], prefix, leavesOnly);
      forall i, j | 0 <= i < |first| && 0 <= j < |rest| ensures first[i].name != rest[j].name {
        assert first[i] in first;
        SegmentOfChild(prefix, subs[0].name, first[i].name);
        SubsSegments(subs[1..], prefix, rest[j], leavesOnly);
      }
      DistinctConcat(first, rest);
    }
  }

  lemma {:induction false} OneSubNamesAreDistinct(sub: NamedCollection, prefix: string, leavesOnly: bool)
    requires ValidName(sub.name) && WellNamed(sub.collection)
    ensures DistinctNames(FlattenSub(sub, prefix, leavesOnly))
    decreases sub, 2
  {
    var full := ConcatStr(prefix, sub.name);
    var inside := Flatten(sub.collection, full, leavesOnly);
    NamesAreDistinct(sub.collection, full, leavesOnly);
    FlattenExtends(sub.collection, full, leavesOnly);
    var self := if leavesOnly then [] else [Value(full, Sub(sub.collection))];
    forall i, j | 0 <= i < |self| && 0 <= j < |inside| ensures self[i].name != inside[j].name {
      assert inside[j] in inside;
    }
    DistinctConcat(self, inside);
  }

  // ----- Adding an option -----

  ghost predicate NameTaken(c: Collection, name: string) {
    || (exists k :: 0 <= k < |c.options| && c.options[k].name == name)
    || (exists k :: 0 <= k < |c.subs| && c.subs[k].name == name)
  }

  /** Adds a child; `at` is where the map's iterator will meet it.  None stands for a failed assertion. */
  function WithChild(c: Collection, name: string, child: Node, at: nat): (r: Option<Collection>)
    requires at <= if child.Leaf? then |c.options| else |c.subs|
  {
    if !ValidName(name) || FindOption(c.options, name).Some? || FindSub(c.subs, name).Some? then None
    else
      match child
      case Leaf(o) => Some(c.(options := Inserted(c.options, at, NamedOption(name, o))))
      case Sub(s) => Some(c.(subs := Inserted(c.subs, at, NamedCollection(name, s))))
  }

  lemma {:induction false} FindSubNone(subs: seq<NamedCollection>, name: string)
    requires FindSub(subs, name).None?
    ensures forall k :: 0 <= k < |subs| ==> subs[k].name != name
  {
    if subs != [] {
      FindSubNone(subs[1..], name);
      forall k | 0 < k < |subs| ensures subs[k].name != name {
        assert subs[k] == subs[1..][k - 1];
      }
    }
  }

  lemma {:induction false} FindOptionNone(options: seq<NamedOption>, name: string)
    requires FindOption(options, name).None?
    ensures forall k :: 0 <= k < |options| ==> options[k].name != name
  {
    if options != [] {
      FindOptionNone(options[1..], name);
      forall k | 0 < k < |options| ensures options[k].name != name {
        assert options[k] == options[1..][k - 1];
      }
    }
  }

  lemma {:induction false} FindSubInserted(subs: seq<NamedCollection>, at: nat, n: NamedCollection, name: string)
    requires at <= |subs| && forall k :: 0 <= k < |subs| ==> subs[k].name != n.name
    ensures FindSub(Inserted(subs, at, n), name) == if name == n.name then Some(n.collection) else FindSub(subs, name)
    decreases at
  {
    var all := Inserted(subs, at, n);
    if at == 0 {
      assert all[1..] == subs;
    } else {
      assert all[1..] == Inserted(subs[1..], at - 1, n);
      FindSubInserted(subs[1..], at - 1, n, name);
    }
  }

  lemma {:induction false} FindOptionInserted(options: seq<NamedOption>, at: nat, n: NamedOption, name: string)
    requires at <= |options| && forall k :: 0 <= k < |options| ==> options[k].name != n.name
    ensures FindOption(Inserted(options, at, n), name) == if name == n.name then Some(n.option) else FindOption(options, name)
    decreases at
  {
    var all := Inserted(options, at, n);
    if at == 0 {
      assert all[1..] == options;
    } else {
      assert all[1..] == Inserted(options[1..], at - 1, n);
      FindOptionInserted(options[1..], at - 1, n, name);
    }
  }

  /** Wherever the map puts it, an added child is found by its name, every other child is found as
    * before, and names stay valid and unique. */
  lemma AddOptionKeeps(c: Collection, name: string, child: Node, at: nat, other: string, leaf: bool)
    requires at <= if child.Leaf? then |c.options| else |c.subs|
    requires WellNamed(c) && (child.Sub? ==> WellNamed(child.collection))
    ensures WithChild(c, name, child, at).Some? <==> ValidName(name) && !NameTaken(c, name)
    ensures WithChild(c, name, child, at).Some? ==>
              var c' := WithChild(c, name, child, at).value;
              && WellNamed(c')
              && FindChild(c', name, child.Leaf?) == Some(child)
              && (other != name ==> FindChild(c', other, leaf) == FindChild(c, other, leaf))
  {
    if ValidName(name) {
      if FindOption(c.options, name).None? && FindSub(c.subs, name).None? {
        FindOptionNone(c.options, name);
        FindSubNone(c.subs, name);
        match child {
          case Leaf(o) =>
            OptionInsertedIsWellNamed(c, name, o, at);
            FindOptionInserted(c.options, at, NamedOption(name, o), name);
            FindOptionInserted(c.options, at, NamedOption(name, o), other);
          case Sub(s) =>
            SubInsertedIsWellNamed(c, name, s, at);
            FindSubInserted(c.subs, at, NamedCollection(name, s), name);
            FindSubInserted(c.subs, at, NamedCollection(name, s), other);
        }
      } else {
        FindSubOnlyNames(c.subs, name);
        FindOptionOnlyNames(c.options, name);
      }
    }
  }

  /** The check of a name, character by character; false stands for a failed assertion. */
  method EnsureNameValid(name: string) returns (ok: bool)
    ensures ok <==> ValidName(name)
  {
    if name == [] {
      return false;
    }
    for i := 0 to |name|
      invariant forall k :: 0 <= k < i ==> NameChar(name[k])
    {
      if !NameChar(name[i]) {
        return false;
      }
    }
    return true;
  }

  class AOptionCollection {
    var root: Collection

    constructor (desc: string)
      ensures root == Collection(desc, [], []) && WellNamed(root)
    {
      root := Collection(desc, [], []);
    }

    /** Adds a child in place; answers false where an assertion fails, and then nothing has changed. */
    method AddOption(name: string, child: Node, at: nat) returns (ok: bool)
      requires WellNamed(root) && (child.Sub? ==> WellNamed(child.collection))
      requires at <= if child.Leaf? then |root.options| else |root.subs|
      modifies this
      ensures WellNamed(root)
      ensures ok <==> ValidName(name) && !NameTaken(old(root), name)
      ensures !ok ==> root == old(root)
      ensures ok ==> Some(root) == WithChild(old(root), name, child, at)
      ensures ok ==> FindChild(root, name, child.Leaf?) == Some(child) && root.desc == old(root).desc
      ensures forall other, leaf :: other != name ==> FindChild(root, other, leaf) == FindChild(old(root), other, leaf)
    {
      hide WellNamed, NameTaken, FindOption, FindSub, ValidName;
      ghost var was, added := root, WithChild(root, name, child, at);
      forall other, leaf
        ensures added.Some? && other != name ==> FindChild(added.value, other, leaf) == FindChild(was, other, leaf)
      {
        AddOptionKeeps(was, name, child, at, other, leaf);
      }
      AddOptionKeeps(was, name, child, at, name, true);
      ok := EnsureNameValid(name);
      if !ok || FindOption(root.options, name).Some? || FindSub(root.subs, name).Some? {
        return false;
      }
      match child
      case Leaf(o) =>
        root := root.(options := Inserted(root.options, at, NamedOption(name, o)));
      case Sub(s) =>
        root := root.(subs := Inserted(root.subs, at, NamedCollection(name, s)));
    }
  }

  lemma {:induction false} FindOptionOnlyNames(options: seq<NamedOption>, name: string)
    ensures FindOption(options, name).Some? ==>
              exists k :: 0 <= k < |options| && options[k].name == name && FindOption(options, name) == Some(options[k].option)
    decreases |options|
  {
    if options != [] && options[0].name != name {
      FindOptionOnlyNames(options[1..], name);
      if FindOption(options, name).Some? {
        var k :| 0 <= k < |options[1..]| && options[1..][k].name == name
                 && FindOption(options[1..], name) == Some(options[1..][k].option);
        assert options[k + 1] == options[1..][k];
      }
    }
  }

  /** The element at position k after one was inserted at `at`. */
  function Inserted<T>(s: seq<T>, at: nat, x: T): (r: seq<T>)
    requires at <= |s|
    ensures |r| == |s| + 1
    ensures forall k :: 0 <= k < |r| ==> r[k] == if k < at then s[k] else if k == at then x else s[k - 1]
  {
    s[..at] + [x] + s[at..]
  }

  lemma OptionInsertedIsWellNamed(c: Collection, name: string, o: AnOption, at: nat)
    requires at <= |c.options| && WellNamed(c) && ValidName(name) && !NameTaken(c, name)
    ensures WellNamed(c.(options := Inserted(c.options, at, NamedOption(name, o))))
  {
  }

  lemma SubInsertedIsWellNamed(c: Collection, name: string, s: Collection, at: nat)
    requires at <= |c.subs| && WellNamed(c) && WellNamed(s) && ValidName(name) && !NameTaken(c, name)
    ensures WellNamed(c.(subs := Inserted(c.subs, at, NamedCollection(name, s))))
  {
    hide ValidName;
    var c' := c.(subs := Inserted(c.subs, at, NamedCollection(name, s)));
    forall i, j | 0 <= i < j < |c'.subs| ensures c'.subs[i].name != c'.subs[j].name {
    }
  }

  lemma {:induction false} YieldedInSubs(subs: seq<NamedCollection>, k: nat, name: string, v: Value)
    requires k < |subs| && v in Flatten(subs[k].collection, ConcatStr(name, subs[k].name), false)
    ensures v in FlattenSubs(subs, name, false)
    decreases |subs|
  {
    hide Flatten;
    if k == 0 {
      assert v in FlattenSub(subs[0], name, false);
    } else {
      YieldedInSubs(subs[1..], k - 1, name, v);
    }
  }

  /** What is yielded below a sub-collection is yielded below the collection. */
  lemma YieldedBelow(c: Collection, k: nat, name: string, v: Value)
    requires k < |c.subs| && v in Flatten(c.subs[k].collection, ConcatStr(name, c.subs[k].name), false)
    ensures v in Flatten(c, name, false)
  {
    YieldedInSubs(c.subs, k, name, v);
  }

  /** A tree of three levels with one leaf. */
  function ThreeLevels(o: AnOption): Collection {
    Collection("", [], [NamedCollection("a", TwoLevels(o))])
  }

  function TwoLevels(o: AnOption): Collection {
    Collection("", [], [NamedCollection("b", OneLevel(o))])
  }

  function OneLevel(o: AnOption): Collection {
    Collection("", [NamedOption("c", o)], [])
  }

  lemma LeafIsYielded(o: AnOption)
    ensures Value("a.b.c", Leaf(o)) in Flatten(ThreeLevels(o), "", false)
  {
    var v := Value("a.b.c", Leaf(o));
    assert OptionValues(OneLevel(o).options, "a.b")[0] == v;
    assert v in Flatten(OneLevel(o), "a.b", false);
    hide Flatten;
    assert "a" + "." + "b" == "a.b" && ConcatStr("a", "b") == "a.b" && ConcatStr("", "a") == "a";
    YieldedBelow(TwoLevels(o), 0, "a", v);
    YieldedBelow(ThreeLevels(o), 0, "", v);
  }

  lemma ThreeLevelsAreWellNamed(o: AnOption)
    ensures WellNamed(ThreeLevels(o))
  {
    assert WellNamed(OneLevel(o));
    assert WellNamed(TwoLevels(o));
  }

  /** The iterator yields the name of the leaf, and the program does not find it. */
  lemma DeepNameIsLost(o: AnOption)
    ensures WellNamed(ThreeLevels(o)) && Value("a.b.c", Leaf(o)) in Flatten(ThreeLevels(o), "", false)
    ensures Resolve(ThreeLevels(o), "a.b.c", 0, true) == Some(Leaf(o))
    ensures GetOption(ThreeLevels(o), "a.b.c", 0, true) == None
  {
    hide WellNamed, Flatten, ThreeLevels, Resolve, GetOption;
    ThreeLevelsAreWellNamed(o);
    LeafIsYielded(o);
    assert FindDot("a.b.c", 0) == 1 && FindDot("a.b.c", 2) == 3;
    GetOptionFindsIff(ThreeLevels(o), Value("a.b.c", Leaf(o)));
    GetOptionIsResolveIff(ThreeLevels(o), "a.b.c", true);
  }
}

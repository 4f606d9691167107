/** Trees of named options, and the order in which they are to be visited. */
module OptionTree {

  datatype AnOption = AnOption(desc: string)

  datatype NamedOption = NamedOption(name: string, option: AnOption)

  datatype NamedCollection = NamedCollection(name: string, collection: Collection)

  /** The two maps of a collection, in the order their iterators go through them. */
  datatype Collection = Collection(desc: string, options: seq<NamedOption>, subs: seq<NamedCollection>)

  datatype Node = Leaf(option: AnOption) | Sub(collection: Collection)

  /** A dotted name and the node it names. */
  datatype Value = Value(name: string, node: Node)

  function ConcatStr(s: string, t: string): string {
    if s == [] then t else s + "." + t
  }

  function OptionValues(options: seq<NamedOption>, name: string): (vs: seq<Value>)
    ensures |vs| == |options|
    ensures forall k :: 0 <= k < |vs| ==> vs[k] == Value(ConcatStr(name, options[k].name), Leaf(options[k].option))
  {
    if options == [] then []
    else [Value(ConcatStr(name, options[0].name), Leaf(options[0].option))] + OptionValues(options[1..], name)
  }

  /** Everything below a collection called `name`: its options, then each sub-collection followed by
    * everything below it.  With `leavesOnly` the collections themselves are left out. */
  function Flatten(c: Collection, name: string, leavesOnly: bool): seq<Value>
    decreases c, 1
  {
    OptionValues(c.options, name) + FlattenSubs(c.subs, name, leavesOnly)
  }

  function FlattenSubs(subs: seq<NamedCollection>, name: string, leavesOnly: bool): seq<Value>
    decreases subs, 0
  {
    if subs == [] then []
    else FlattenSub(subs[0], name, leavesOnly) + FlattenSubs(subs[1..], name, leavesOnly)
  }

  function FlattenSub(sub: NamedCollection, name: string, leavesOnly: bool): seq<Value>
    decreases sub, 2
  {
    var full := ConcatStr(name, sub.name);
    (if leavesOnly then [] else [Value(full, Sub(sub.collection))]) + Flatten(sub.collection, full, leavesOnly)
  }
}

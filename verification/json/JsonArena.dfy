/** What the two passes of the parser leave in memory, as functions of the tree.

    Nodes are numbered in allocation order, which is the preorder of the tree.
    `Emit(false, ...)` gives the nodes after pass 1: kinds, counts and sizes.
    `Emit(true, ...)` gives them after pass 2: every buffer exactly full. */
module JsonArena {
  import opened Parts
  import opened JsonGrammar

  datatype Kind = KNull | KBool | KInt | KDouble | KStr | KArr | KObj

  /** A parsed value in memory. `length` counts elements, entries or characters;
      `nameBytes` the bytes of all names of an object, with their terminators.
      `capacity` is the size of the buffer of values, or of characters, that pass 2
      allocates; `values`, `names` and `memory` are the parts written so far, and
      `objectMem` is the offset in `memory` at which the next name goes. */
  datatype Node = Node(kind: Kind, parent: int, length: nat, nameBytes: nat, integer: int, boolean: bool,
                       capacity: nat, values: seq<int>, names: seq<(nat, nat)>, memory: string, objectMem: nat)

  /** A zeroed node. */
  function Fresh(kind: Kind, parent: int): Node {
    Node(kind, parent, 0, 0, 0, false, 0, [], [], "", 0)
  }

  /** The names, each followed by its terminator. */
  function NameMemory(names: seq<string>): (r: string)
    ensures |r| == NameBytes(names)
  {
    if names == [] then "" else NameMemory(names[..|names| - 1]) + names[|names| - 1] + [NUL]
  }

  function NameBytes(names: seq<string>): nat {
    if names == [] then 0 else NameBytes(names[..|names| - 1]) + |names[|names| - 1]| + 1
  }

  /** Offset and length of each name in the name memory. */
  function NameSpans(names: seq<string>): (r: seq<(nat, nat)>)
    ensures |r| == |names|
  {
    if names == [] then []
    else NameSpans(names[..|names| - 1]) + [(NameBytes(names[..|names| - 1]), |names[|names| - 1]|)]
  }

  predicate IsContainer(v: Json) {
    v.Arr? || v.Obj?
  }

  function Children(v: Json): seq<Json> {
    if v.Arr? || v.Obj? then v.items else []
  }

  /** Number of nodes of a value. */
  function Size(v: Json): (r: nat)
    ensures r >= 1
    decreases v, 0
  {
    match v
    case Arr(items) => 1 + SizeAll(items)
    case Obj(_, items) => 1 + SizeAll(items)
    case _ => 1
  }

  function SizeAll(items: seq<Json>): nat
    decreases items, 1
  {
    if items == [] then 0 else SizeAll(items[..|items| - 1]) + Size(items[|items| - 1])
  }

  /** Node number of each child, the first of them being `base`. */
  function Offsets(items: seq<Json>, base: nat): (r: seq<int>)
    ensures |r| == |items|
  {
    if items == [] then [] else Offsets(items[..|items| - 1], base) + [base + SizeAll(items[..|items| - 1])]
  }

  /** The node of an array or object with `names` and `items`, whose values buffer
      has size `capacity` and whose names buffer has size `nameBytes`; `partial` is
      the part of a further name already stored. */
  function ContainerNode(fill: bool, isObject: bool, names: seq<string>, items: seq<Json>, partial: string,
                         parent: int, base: nat, capacity: nat, nameBytes: nat): Node
  {
    var n := Fresh(if isObject then KObj else KArr, parent).(length := |items|);
    if fill then
      n.(nameBytes := nameBytes, capacity := capacity, values := Offsets(items, base + 1), names := NameSpans(names),
         memory := NameMemory(names) + partial, objectMem := NameBytes(names))
    else n.(nameBytes := NameBytes(names))
  }

  /** The node of a value. */
  function Head(fill: bool, v: Json, parent: int, base: nat): Node {
    match v
    case Null => Fresh(KNull, parent)
    case Bool(b) => Fresh(KBool, parent).(boolean := b)
    case Int(n) => Fresh(KInt, parent).(integer := n)
    case Double(g) => Fresh(KDouble, parent).(memory := g)
    case Str(s) =>
      if fill then Fresh(KStr, parent).(length := |s|, capacity := |s| + 1, memory := s + [NUL])
      else Fresh(KStr, parent).(length := |s|)
    case Arr(items) => ContainerNode(fill, false, [], items, "", parent, base, |items|, 0)
    case Obj(names, items) => ContainerNode(fill, true, names, items, "", parent, base, |items|, NameBytes(names))
  }

  /** All nodes of a value, in preorder, the first being number `base`. */
  function Emit(fill: bool, v: Json, parent: int, base: nat): (r: seq<Node>)
    ensures |r| == Size(v)
    decreases v, 0
  {
    match v
    case Arr(items) => [Head(fill, v, parent, base)] + EmitAll(fill, items, base, base + 1)
    case Obj(_, items) => [Head(fill, v, parent, base)] + EmitAll(fill, items, base, base + 1)
    case _ => [Head(fill, v, parent, base)]
  }

  function EmitAll(fill: bool, items: seq<Json>, parent: int, base: nat): (r: seq<Node>)
    ensures |r| == SizeAll(items)
    decreases items, 1
  {
    if items == [] then []
    else
      var init := items[..|items| - 1];
      EmitAll(fill, init, parent, base) + Emit(fill, items[|items| - 1], parent, base + SizeAll(init))
  }

  // ------------------------------------------------------------ open containers

  /** A container being read. An object whose value is pending has one more name
      than values; `partial` is the part of a name read so far. */
  datatype Frame =
    | FArr(done: seq<Json>)
    | FObj(names: seq<string>, done: seq<Json>, partial: string)

  function FrameNames(f: Frame): seq<string> {
    if f.FObj? then f.names else []
  }

  /** Number of nodes allocated for the open containers and their complete children. */
  function StackSize(stack: seq<Frame>): nat {
    if stack == [] then 0
    else StackSize(stack[..|stack| - 1]) + 1 + SizeAll(stack[|stack| - 1].done)
  }

  /** Node number of the innermost open container, -1 if there is none. */
  function TopIndex(stack: seq<Frame>): int {
    if stack == [] then -1 else StackSize(stack[..|stack| - 1])
  }

  /** The node of an open container; `plan` is the result of pass 1. */
  function FrameNode(fill: bool, f: Frame, parent: int, base: nat, plan: seq<Node>): Node {
    var cap := if base < |plan| then plan[base].length else 0;
    var bytes := if base < |plan| then plan[base].nameBytes else 0;
    ContainerNode(fill, f.FObj?, FrameNames(f), f.done, if f.FObj? then f.partial else "", parent, base, cap, bytes)
  }

  function StackNodes(fill: bool, stack: seq<Frame>, plan: seq<Node>): (r: seq<Node>)
    ensures |r| == StackSize(stack)
  {
    if stack == [] then []
    else
      var init := stack[..|stack| - 1];
      var base := StackSize(init);
      StackNodes(fill, init, plan)
        + [FrameNode(fill, stack[|stack| - 1], TopIndex(init), base, plan)]
        + EmitAll(fill, stack[|stack| - 1].done, base, base + 1)
  }

  // ------------------------------------------------------------- basic lemmas

  lemma EmitAllSnoc(fill: bool, items: seq<Json>, v: Json, parent: int, base: nat)
    ensures SizeAll(items + [v]) == SizeAll(items) + Size(v)
    ensures EmitAll(fill, items + [v], parent, base)
            == EmitAll(fill, items, parent, base) + Emit(fill, v, parent, base + SizeAll(items))
    ensures Offsets(items + [v], base) == Offsets(items, base) + [base + SizeAll(items)]
  {
    hide Emit, Size;
    assert (items + [v])[..|items|] == items;
  }

  lemma NamesSnoc(names: seq<string>, s: string)
    ensures NameBytes(names + [s]) == NameBytes(names) + |s| + 1
    ensures NameMemory(names + [s]) == NameMemory(names) + s + [NUL]
    ensures NameSpans(names + [s]) == NameSpans(names) + [(NameBytes(names), |s|)]
  {
    assert (names + [s])[..|names|] == names;
  }

  /** The names of a prefix take no more memory than all names. */
  lemma {:induction false} NameBytesPrefix(p: seq<string>, names: seq<string>)
    requires p <= names
    ensures NameBytes(p) <= NameBytes(names)
    ensures |p| < |names| ==> NameBytes(p) + |names[|p|]| + 1 <= NameBytes(names)
    decreases |names|
  {
    if p == names {
    } else {
      var init := names[..|names| - 1];
      assert p <= init;
      NameBytesPrefix(p, init);
      if |p| < |init| { assert init[|p|] == names[|p|]; } else { assert p == init; }
    }
  }

  /** Among the nodes of all children stand those of each child, after those of its
      elder siblings. */
  lemma {:induction false} EmitAllHas(fill: bool, p: seq<Json>, items: seq<Json>, parent: int, base: nat)
    requires p <= items && |p| < |items|
    ensures SizeAll(p) + Size(items[|p|]) <= SizeAll(items)
    ensures Has(EmitAll(fill, items, parent, base), Emit(fill, items[|p|], parent, base + SizeAll(p)), SizeAll(p))
    decreases |items|
  {
    hide Emit, Has, Size;
    var init := items[..|items| - 1];
    var before := EmitAll(fill, init, parent, base);
    var last := Emit(fill, items[|items| - 1], parent, base + SizeAll(init));
    assert EmitAll(fill, items, parent, base) == before + last;
    assert SizeAll(items) == SizeAll(init) + Size(items[|items| - 1]);
    hide EmitAll, SizeAll;
    if |p| < |init| {
      EmitAllHas(fill, p, init, parent, base);
      HasInLeft(before, last, Emit(fill, items[|p|], parent, base + SizeAll(p)), SizeAll(p));
    } else {
      assert p == init;
      HasLast(before, last);
    }
  }
}

/** Reading a tree back from the nodes that the parser leaves in memory. */
module JsonReader {
  import opened Parts
  import opened JsonGrammar
  import opened JsonArena

  /** The value of node k: strings end at their length, children and names are found
      where the node says. */
  function Read(nodes: seq<Node>, k: nat): Json
    requires k < |nodes|
    decreases |nodes| - k, 1, 0
  {
    var n := nodes[k];
    match n.kind
    case KNull => Null
    case KBool => Bool(n.boolean)
    case KInt => Int(n.integer)
    case KDouble => Double(n.memory)
    case KStr => Str(Cut(n.memory, 0, n.length))
    case KArr => Arr(ReadAll(nodes, k, n.values))
    case KObj => Obj(ReadNames(n.memory, n.names), ReadAll(nodes, k, n.values))
  }

  function ReadAll(nodes: seq<Node>, k: nat, values: seq<int>): seq<Json>
    requires k < |nodes|
    decreases |nodes| - k, 0, |values|
  {
    if values == [] then []
    else
      var last := values[|values| - 1];
      ReadAll(nodes, k, values[..|values| - 1]) + [if k < last < |nodes| then Read(nodes, last) else Null]
  }

  function ReadNames(memory: string, spans: seq<(nat, nat)>): seq<string> {
    if spans == [] then []
    else
      var last := spans[|spans| - 1];
      ReadNames(memory, spans[..|spans| - 1]) + [Cut(memory, last.0, last.1)]
  }

  function Cut(memory: string, from: nat, length: nat): string {
    if from + length <= |memory| then memory[from..from + length] else ""
  }

  /** Whatever holds the filled nodes of a value at their place reads back as the value. */
  lemma {:induction false} ReadBack(nodes: seq<Node>, v: Json, parent: int, k: nat)
    requires Has(nodes, Emit(true, v, parent, k), k)
    ensures k < |nodes| && Read(nodes, k) == v
    decreases v, 1
  {
    if v.Arr? || v.Obj? {
      ChildrenAreThere(nodes, v, parent, k);
      ReadBackAll(nodes, v.items, v.items, k);
      ContainerBack(nodes, v, parent, k);
    } else {
      HasFirst(nodes, Emit(true, v, parent, k), k);
      LeafBack(nodes, v, parent, k);
    }
  }

  lemma LeafBack(nodes: seq<Node>, v: Json, parent: int, k: nat)
    requires !IsContainer(v) && k < |nodes| && nodes[k] == Head(true, v, parent, k)
    ensures Read(nodes, k) == v
  {
    if v.Str? {
      assert (v.s + [NUL])[..|v.s|] == v.s;
    }
  }

  lemma ContainerBack(nodes: seq<Node>, v: Json, parent: int, k: nat)
    requires IsContainer(v) && k < |nodes| && nodes[k] == Head(true, v, parent, k)
    requires ReadAll(nodes, k, Offsets(v.items, k + 1)) == v.items
    ensures Read(nodes, k) == v
  {
    hide ReadAll, Offsets, NameMemory, NameBytes, NameSpans, ReadNames;
    if v.Obj? {
      NamesBack(v.names, [], NameMemory(v.names));
    }
  }

  lemma ChildrenAreThere(nodes: seq<Node>, v: Json, parent: int, k: nat)
    requires IsContainer(v) && Has(nodes, Emit(true, v, parent, k), k)
    ensures Has(nodes, EmitAll(true, v.items, k, k + 1), k + 1) && nodes[k] == Head(true, v, parent, k)
  {
    var head, rest := [Head(true, v, parent, k)], EmitAll(true, v.items, k, k + 1);
    assert Emit(true, v, parent, k) == head + rest;
    hide Emit, EmitAll, Has, Head;
    HasPart(nodes, k, head, rest);
    HasFirst(nodes, head, k);
  }

  lemma {:induction false} ReadBackAll(nodes: seq<Node>, p: seq<Json>, items: seq<Json>, k: nat)
    requires p <= items && k < |nodes|
    requires Has(nodes, EmitAll(true, items, k, k + 1), k + 1)
    ensures ReadAll(nodes, k, Offsets(p, k + 1)) == p
    decreases items, 0, |p|
  {
    hide Read, Emit, EmitAll, Has, Size;
    if p != [] {
      var init, last := p[..|p| - 1], p[|p| - 1];
      var at := k + 1 + SizeAll(init);
      assert items[|init|] == last;
      EmitAllHas(true, init, items, k, k + 1);
      HasInHas(nodes, EmitAll(true, items, k, k + 1), Emit(true, last, k, at), k + 1, SizeAll(init));
      ReadBack(nodes, last, k, at);
      ReadBackAll(nodes, init, items, k);
      var offsets := Offsets(p, k + 1);
      assert offsets[..|offsets| - 1] == Offsets(init, k + 1);
    }
  }

  lemma {:induction false} NamesBack(names: seq<string>, rest: string, memory: string)
    requires memory == NameMemory(names) + rest
    ensures ReadNames(memory, NameSpans(names)) == names
    decreases |names|
  {
    if names != [] {
      var init, last := names[..|names| - 1], names[|names| - 1];
      NamesBack(init, last + [NUL] + rest, memory);
      var spans := NameSpans(names);
      assert spans[..|spans| - 1] == NameSpans(init);
      assert memory == NameMemory(init) + last + ([NUL] + rest);
    }
  }

  /** What a successful parse leaves in memory holds the parsed value. */
  lemma ParsedReadsBack(v: Json)
    ensures Read(Emit(true, v, -1, 0), 0) == v
  {
    ReadBack(Emit(true, v, -1, 0), v, -1, 0);
  }
}

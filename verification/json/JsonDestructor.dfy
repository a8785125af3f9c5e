/** json_builder_free: the destructor that takes a tree apart without recursion.

    Every allocation of a tree is a `Block`. The loop gives each block back with
    `Release`, whose precondition says that it has not been given back before, and
    neither has the node it belongs to. */
module JsonDestructor {
  import opened JsonArena
  import opened JsonHeap
  import opened JsonBuilder

  /** The allocations behind a tree of builder values. */
  datatype Block =
    | NodeOf(n: Value)
    | ValuesOf(n: Value)
    | StringOf(n: Value)
    | NameOf(n: Value, i: nat)

  /** The blocks of node n, when it has had `entries` names. */
  ghost function OwnedBy(n: Value, entries: nat): (r: set<Block>)
    reads n`kind
    ensures forall b | b in r :: b.n == n
  {
    {NodeOf(n)} +
    (if IsParent(n.kind) then {ValuesOf(n)} else {}) +
    (if n.kind == KStr then {StringOf(n)} else {}) +
    (if n.kind == KObj then set i: nat | i < entries :: NameOf(n, i) else {})
  }

  /** The blocks of the nodes D. */
  ghost function Blocks(D: set<Value>): set<Block>
    reads D`kind, D`names
  {
    BlocksWith(map n | n in D :: |n.names|)
  }

  /** The blocks of some nodes, when they have had so many names. */
  ghost function BlocksWith(entries: map<Value, nat>): set<Block>
    reads entries.Keys`kind
  {
    Union(map n | n in entries :: OwnedBy(n, entries[n]))
  }

  ghost function Union(m: map<Value, set<Block>>): set<Block> {
    set n, b | n in m && b in m[n] :: b
  }

  /** The blocks by kind: each node is one, a container has its values besides, a string its
      characters, and each entry of an object its name. */
  lemma BlocksExact(D: set<Value>)
    ensures forall n :: NodeOf(n) in Blocks(D) <==> n in D
    ensures forall n :: ValuesOf(n) in Blocks(D) <==> n in D && (n.kind == KArr || n.kind == KObj)
    ensures forall n :: StringOf(n) in Blocks(D) <==> n in D && n.kind == KStr
    ensures forall n, i: nat :: NameOf(n, i) in Blocks(D) <==> n in D && n.kind == KObj && i < |n.names|
  {
    var entries := map n | n in D :: |n.names|;
    var owned := map n | n in D :: OwnedBy(n, entries[n]);
    hide OwnedBy;
    forall b: Block
      ensures b in Blocks(D) <==> b.n in D && b in OwnedBy(b.n, |b.n.names|)
    {
      if b.n in D {
        assert owned[b.n] == OwnedBy(b.n, |b.n.names|);
      }
    }
    forall n: Value
      ensures NodeOf(n) in OwnedBy(n, |n.names|)
      ensures ValuesOf(n) in OwnedBy(n, |n.names|) <==> n.kind == KArr || n.kind == KObj
      ensures StringOf(n) in OwnedBy(n, |n.names|) <==> n.kind == KStr
      ensures forall i: nat :: NameOf(n, i) in OwnedBy(n, |n.names|) <==> n.kind == KObj && i < |n.names|
    {
      OwnedExact(n);
    }
  }

  lemma OwnedExact(n: Value)
    ensures NodeOf(n) in OwnedBy(n, |n.names|)
    ensures ValuesOf(n) in OwnedBy(n, |n.names|) <==> n.kind == KArr || n.kind == KObj
    ensures StringOf(n) in OwnedBy(n, |n.names|) <==> n.kind == KStr
    ensures forall i: nat :: NameOf(n, i) in OwnedBy(n, |n.names|) <==> n.kind == KObj && i < |n.names|
  {
  }

  // ---------------------------------------------------------------- descendants

  /** n is `root` or below it. */
  ghost predicate Under(n: Value, root: Value, S: set<Value>)
    requires n in S && Linked(S)
    reads S`parent, S`kind, S`values, S`names, S`rank, S`tree
    decreases n.tree.rank - n.rank
  {
    assert LinksOk(n, S);
    n == root || (n.parent != null && (assert LinksOk(n.parent, S); Under(n.parent, root, S)))
  }

  ghost function Descendants(root: Value, S: set<Value>): set<Value>
    requires root in S && Linked(S)
    reads S`parent, S`kind, S`values, S`names, S`rank, S`tree
  {
    set n | n in S && Under(n, root, S)
  }

  /** The path up from a node to one above it. */
  ghost function PathTo(n: Value, root: Value, S: set<Value>): (r: seq<Value>)
    requires n in S && Linked(S) && Under(n, root, S)
    reads S`parent, S`kind, S`values, S`names, S`rank, S`tree
    ensures Climbs(r, S) && r[0] == n && r[|r| - 1] == root
    decreases n.tree.rank - n.rank
  {
    assert LinksOk(n, S);
    if n == root then [n]
    else
      assert LinksOk(n.parent, S);
      [n] + PathTo(n.parent, root, S)
  }

  /** A node is below another exactly if a way up leads there. */
  lemma {:induction false} UnderExact(n: Value, root: Value, S: set<Value>)
    requires n in S && Linked(S)
    ensures Under(n, root, S) <==> exists path :: Climbs(path, S) && path[0] == n && path[|path| - 1] == root
  {
    if Under(n, root, S) {
      var path := PathTo(n, root, S);
      assert Climbs(path, S);
    }
    forall path | Climbs(path, S) && path[0] == n && path[|path| - 1] == root
      ensures Under(n, root, S)
    {
      ClimbedUnder(path, S);
    }
  }

  lemma {:induction false} ClimbedUnder(path: seq<Value>, S: set<Value>)
    requires Climbs(path, S) && Linked(S)
    ensures Under(path[0], path[|path| - 1], S)
    decreases path
  {
    assert LinksOk(path[0], S);
    if |path| > 1 {
      assert path[0].parent == path[1];
      ClimbedUnder(path[1..], S);
    }
  }

  /** A root's descendants are the nodes of its tree. */
  lemma {:induction false} TreeIsUnder(n: Value, root: Value, S: set<Value>)
    requires n in S && root in S && Linked(S) && n.tree == root
    ensures Under(n, root, S)
    decreases n.tree.rank - n.rank
  {
    assert LinksOk(n, S);
    if n.parent != null {
      assert LinksOk(n.parent, S);
      TreeIsUnder(n.parent, root, S);
    }
  }

  /** What is not below a root is a forest of its own. */
  lemma RestIsForest(root: Value, S: set<Value>)
    requires root in S && Valid(S) && root.parent == null
    ensures Valid(S - Descendants(root, S))
  {
    var rest := S - Descendants(root, S);
    forall n | n in rest
      ensures LinksOk(n, rest)
    {
      assert LinksOk(n, S);
      if n.tree == root {
        TreeIsUnder(n, root, S);
      }
      assert LinksOk(n.tree, S);
      forall i | 0 <= i < |n.values|
        ensures n.values[i] in rest
      {
        assert LinksOk(n.values[i], S);
      }
    }
  }

  // -------------------------------------------------------------------- the loop

  lemma UnionGrows(m: map<Value, set<Block>>, m': map<Value, set<Block>>, value: Value, more: set<Block>)
    requires value in m && m'.Keys == m.Keys && m'[value] == m[value] + more
    requires forall n | n in m && n != value :: m'[n] == m[n]
    ensures Union(m') == Union(m) + more
  {
    forall b | b in Union(m) + more
      ensures b in Union(m')
    {
      if b in more {
        assert b in m'[value];
      } else {
        var n :| n in m && b in m[n];
        assert b in m'[n];
      }
    }
  }

  /** A bound on the ranks of some nodes. */
  lemma {:induction false} Highest(nodes: set<Value>) returns (top: nat)
    ensures forall m | m in nodes :: m.rank <= top
    decreases nodes
  {
    if nodes == {} {
      top := 0;
    } else {
      var m :| m in nodes;
      var rest := Highest(nodes - {m});
      top := if rest < m.rank then m.rank else rest;
    }
  }

  /** The walk of the destructor: the nodes `live` are not freed yet, those on `stack`
      are open, outermost first, and `entries` holds how many names each node had at first. */
  datatype Walk = Walk(root: Value, live: set<Value>, stack: seq<Value>, entries: map<Value, nat>) {
    /** The open node around the one at depth i. */
    ghost function Above(i: nat): Value?
      requires i <= |stack|
    {
      if i == 0 then null else stack[i - 1]
    }

    ghost function Top(): Value
      requires stack != []
    {
      stack[|stack| - 1]
    }

    ghost predicate Dying()
      reads live`parent, live`kind, live`values, live`names, live`rank
    {
      OpenOk() && forall n {:trigger Held(n)} | n in live :: Held(n)
    }

    /** The open nodes form a path down from the root. */
    ghost predicate OpenOk()
      reads live`parent, live`rank
    {
      && (stack != [] ==> stack[0] == root)
      && (forall i | 0 <= i < |stack| :: stack[i] in live)
      && (forall i {:trigger Above(i)} | 0 <= i < |stack| :: stack[i].parent == Above(i))
      && (forall i, j | 0 <= i < j < |stack| :: stack[j].rank < stack[i].rank)
    }

    /** The children of a live node are live and closed, and each closed node is
        still a child. */
    ghost predicate Held(n: Value)
      reads live`parent, live`kind, live`values, live`names, live`rank, n`parent, n`kind, n`values, n`names, n`rank
    {
      && (!IsParent(n.kind) ==> n.values == [])
      && |n.names| == (if n.kind == KObj then |n.values| else 0)
      && (n in entries && |n.names| <= entries[n] && (n.kind != KObj ==> entries[n] == 0))
      && (forall i | 0 <= i < |n.values| ::
            var c := n.values[i]; c in live && c.parent == n && c.rank < n.rank && c !in stack)
      && (forall i, j | 0 <= i < j < |n.values| :: n.values[i] != n.values[j])
      && (n in stack || (n.parent != null && n.parent in live && n in n.parent.values && n.rank < n.parent.rank))
    }

    /** The blocks of node n that are gone. */
    ghost function Gone(n: Value): (r: set<Block>)
      requires n in entries
      reads n`kind, n`names
    {
      if n in live then set i: nat | |n.names| <= i < entries[n] :: NameOf(n, i) else OwnedBy(n, entries[n])
    }

    ghost function AllGone(): map<Value, set<Block>>
      reads entries.Keys`kind, entries.Keys`names
    {
      map n | n in entries :: Gone(n)
    }

    ghost function Freed(): (r: set<Block>)
      reads entries.Keys`kind, entries.Keys`names
    {
      Union(AllGone())
    }

    /** A block of a live node is free only when it is a name that was cut off. */
    lemma StillThere(n: Value)
      requires n in live && Held(n)
      ensures forall b | b in Freed() && b.n == n :: b.NameOf? && b.i >= |n.names|
    {
    }

    // Down: the last child of the innermost open node is detached and opened.

    ghost function Down(child: Value): Walk {
      this.(stack := stack + [child])
    }

    twostate predicate Detached(child: Value)
      requires stack != []
      reads live`parent, live`kind, live`values, live`names, live`rank, stack`values, stack`names, stack`kind
    {
      var value := Top();
      && old(value.values) == value.values + [child]
      && (forall n | n in live && n != value :: n.values == old(n.values) && n.names == old(n.names))
      && (forall n | n in live :: n.parent == old(n.parent) && n.kind == old(n.kind) && n.rank == old(n.rank))
      && |value.names| == if value.kind == KObj then |value.values| else 0
    }

    /** The last child of the innermost open node. */
    ghost function Last(): Value
      requires stack != [] && Top().values != []
      reads Top()`values
    {
      Top().values[|Top().values| - 1]
    }

    twostate lemma HeldDown(n: Value)
      requires stack != [] && old(Top().values != []) && Detached(old(Last())) && n in live && Top() in live
      requires old(Held(n)) && old(Held(Top()))
      ensures Down(old(Last())).Held(n)
    {
      assert n.values <= old(n.values);
    }

    /** What a detachment needs to know of the innermost open node. */
    lemma TopFacts()
      requires stack != [] && Dying() && Top().values != []
      ensures IsParent(Top().kind) && |Top().names| == if Top().kind == KObj then |Top().values| else 0
      ensures Last() in live && Last().parent == Top() && Last().rank < Top().rank
      ensures Top() in live && NodeOf(Top()) !in Freed() && forall i: nat | i < |Top().names| ::
                NameOf(Top(), i) !in Freed()
    {
      assert Held(Top());
      StillThere(Top());
    }

    twostate lemma DyingDown(child: Value)
      requires stack != [] && old(Dying()) && old(Top().values != []) && child == old(Last()) && Detached(child)
      requires old(child in live && child.parent == Top() && child.rank < Top().rank)
      ensures Down(child).Dying()
    {
      hide Held;
      assert Down(child).OpenOk() by {
        OpenDown(child);
      }
      hide OpenOk;
      forall n | n in live
        ensures Down(child).Held(n)
      {
        HeldDown(n);
      }
    }

    lemma OpenDown(child: Value)
      requires stack != [] && OpenOk() && child in live && child.parent == Top() && child.rank < Top().rank
      ensures Down(child).OpenOk()
    {
      Deeper(child);
      var down := Down(child);
      forall i | 0 <= i < |down.stack|
        ensures down.stack[i].parent == down.Above(i)
      {
        assert i < |stack| ==> Above(i) == down.Above(i);
      }
    }

    lemma Deeper(child: Value)
      requires stack != [] && OpenOk() && child.rank < Top().rank
      ensures forall i | 0 <= i < |stack| :: child.rank < stack[i].rank
    {
      forall i | 0 <= i < |stack|
        ensures child.rank < stack[i].rank
      {
        assert i == |stack| - 1 || stack[|stack| - 1].rank < stack[i].rank;
      }
    }

    /** The name of a detached entry. */
    ghost function Cut(): set<Block>
      requires stack != []
      reads Top()`kind, Top()`names
    {
      if Top().kind == KObj then {NameOf(Top(), |Top().names|)} else {}
    }

    twostate lemma FreedDown(child: Value)
      requires stack != [] && Detached(child) && old(Dying())
      requires forall n | n in entries && n !in live :: n.kind == old(n.kind) && n.names == old(n.names)
      ensures Down(child).Freed() == old(Freed()) + Cut()
    {
      assert old(Held(Top()));
      assert Down(child).AllGone() == AllGone();
      assert Gone(Top()) == old(Gone(Top())) + Cut();
      UnionGrows(old(AllGone()), AllGone(), Top(), Cut());
    }

    // Up: the innermost open node has no children left, and is freed.

    ghost function Up(): Walk
      requires stack != []
    {
      this.(live := live - {Top()}, stack := stack[..|stack| - 1])
    }

    lemma DyingUp()
      requires stack != [] && Dying() && Top().values == []
      ensures Up().Dying() && Top().parent == Above(|stack| - 1) && Top() in live
      ensures Up().stack != [] ==> Up().Top() in Up().live
    {
      OpenUp();
      hide OpenOk;
      forall n | n in Up().live
        ensures Up().Held(n)
      {
        HeldUp(n);
      }
    }

    lemma OpenUp()
      requires stack != [] && OpenOk()
      ensures Up().OpenOk() && Top().parent == Above(|stack| - 1) && Top() in live
      ensures Up().stack != [] ==> Up().Top() in Up().live
    {
      var value, up := Top(), Up();
      forall i | 0 <= i < |up.stack|
        ensures up.stack[i] in up.live && up.stack[i].parent == up.Above(i)
      {
        assert up.stack[i] == stack[i] && up.Above(i) == Above(i) && stack[|stack| - 1].rank < stack[i].rank;
      }
    }

    lemma HeldUp(n: Value)
      requires stack != [] && Top().values == [] && Held(n) && n != Top()
      ensures Up().Held(n)
    {
      assert stack == Up().stack + [Top()];
    }

    /** Only containers have children. */
    lemma TopEmpty()
      requires stack != [] && Dying() && (IsParent(Top().kind) ==> Top().values == [])
      ensures Top().values == []
    {
      assert stack[|stack| - 1] in live && Held(Top());
    }

    lemma FreedUp()
      requires stack != [] && Dying() && Top().values == []
      ensures Up().Freed() == Freed() + OwnedBy(Top(), 0)
      ensures Freed() !! OwnedBy(Top(), 0)
    {
      hide Union, IsParent;
      assert Held(Top());
      StillThere(Top());
      assert Up().Gone(Top()) == Gone(Top()) + OwnedBy(Top(), 0);
      UnionGrows(AllGone(), Up().AllGone(), Top(), OwnedBy(Top(), 0));
    }

    /** When no node is open, none is left. */
    lemma {:induction false} NoneLeft(n: Value, top: nat)
      requires stack == [] && Dying() && n in live && forall m | m in live :: m.rank <= top
      ensures false
      decreases top - n.rank
    {
      assert Held(n);
      NoneLeft(n.parent, top);
    }

    /** At the end every block is gone. */
    lemma Over()
      requires stack == [] && Dying()
      ensures Freed() == BlocksWith(entries)
    {
      var top := Highest(live);
      forall n | n in live
        ensures false
      {
        NoneLeft(n, top);
      }
      assert AllGone() == map n | n in entries :: OwnedBy(n, entries[n]);
    }
  }

  /** free: the block must not have been freed, nor the node through which it was reached. */
  ghost method Release(b: Block, freed: set<Block>) returns (freed': set<Block>)
    requires b !in freed && NodeOf(b.n) !in freed
    ensures freed' == freed + {b}
  {
    freed' := freed + {b};
  }

  method GoDown(value: Value, ghost w: Walk, ghost freed: set<Block>)
    returns (child: Value, ghost w': Walk, ghost freed': set<Block>)
    requires w.stack != [] && value == w.Top() && IsParent(value.kind) && value.values != []
    requires freed == w.Freed() && w.Dying()
    modifies value`values, value`names
    ensures w' == w.Down(child) && child.rank < value.rank && child in w.live
    ensures freed' == w'.Freed() && w'.Dying()
  {
    hide Walk.Freed, Union, Walk.AllGone, Walk.Dying, Walk.Held;
    w.TopFacts();
    var last := |value.values| - 1;
    child := value.values[last];
    freed' := freed;
    if value.kind == KObj {
      freed' := Release(NameOf(value, last), freed);
      value.names := value.names[..last];
    }
    value.values := value.values[..last];
    w' := w.Down(child);
    w.DyingDown(child);
    w.FreedDown(child);
  }

  /** Frees what an exhausted node owns, and then the node. */
  ghost method ReleaseNode(value: Value, freed: set<Block>) returns (freed': set<Block>)
    requires freed !! OwnedBy(value, 0)
    ensures freed' == freed + OwnedBy(value, 0)
  {
    freed' := freed;
    if IsParent(value.kind) {
      freed' := Release(ValuesOf(value), freed');
    }
    if value.kind == KStr {
      freed' := Release(StringOf(value), freed');
    }
    freed' := Release(NodeOf(value), freed');
  }

  method GoUp(value: Value, ghost w: Walk, ghost freed: set<Block>)
    returns (parent: Value?, ghost w': Walk, ghost freed': set<Block>)
    requires w.stack != [] && value == w.Top() && (IsParent(value.kind) ==> value.values == [])
    requires freed == w.Freed() && w.Dying()
    ensures w' == w.Up() && parent == w.Up().Above(|w.Up().stack|) && value in w.live
    ensures w'.stack != [] ==> w'.Top() in w'.live
    ensures freed' == w'.Freed() && w'.Dying()
  {
    hide Walk.Freed, Union, Walk.AllGone, Walk.Dying, Walk.Held, Walk.OpenOk, OwnedBy;
    w.TopEmpty();
    w.DyingUp();
    w.FreedUp();
    w' := w.Up();
    parent := value.parent;
    freed' := ReleaseNode(value, freed);
  }

  ghost predicate LinksFrom(n: Value, live: set<Value>)
    reads n`kind, n`values, n`names, n`rank, live`parent, live`rank
  {
    && (!IsParent(n.kind) ==> n.values == [])
    && |n.names| == (if n.kind == KObj then |n.values| else 0)
    && (forall i | 0 <= i < |n.values| ::
          var c := n.values[i]; c in live && c.parent == n && c.rank < n.rank)
    && (forall i, j | 0 <= i < j < |n.values| :: n.values[i] != n.values[j])
  }

  /** The nodes `all` are one tree below `root`. */
  ghost predicate Family(root: Value, all: set<Value>)
    reads root, all`parent, all`kind, all`values, all`names, all`rank
  {
    && root in all
    && (forall n {:trigger LinksFrom(n, all)} | n in all :: LinksFrom(n, all) && n.rank <= root.rank)
    && (forall n {:trigger HangsFrom(n, all)} | n in all && n != root :: HangsFrom(n, all))
  }

  ghost predicate HangsFrom(n: Value, all: set<Value>)
    reads n`parent, n`rank, all`values, all`rank
  {
    n.parent != null && n.parent in all && n in n.parent.values && n.rank < n.parent.rank
  }

  /** The descendants of a node hang together. */
  lemma {:induction false} Together(root: Value, S: set<Value>, n: Value)
    requires root in S && Linked(S) && n in Descendants(root, S)
    ensures n.rank <= root.rank
    ensures LinksFrom(n, Descendants(root, S))
    ensures n != root ==> HangsFrom(n, Descendants(root, S))
    decreases n.tree.rank - n.rank
  {
    assert LinksOk(n, S);
    forall i | 0 <= i < |n.values|
      ensures Under(n.values[i], root, S)
    {
      assert LinksOk(n.values[i], S);
    }
    if n != root {
      assert LinksOk(n.parent, S);
      Together(root, S, n.parent);
    }
  }

  lemma AllTogether(root: Value, S: set<Value>)
    requires root in S && Linked(S)
    ensures Family(root, Descendants(root, S))
  {
    forall n | n in Descendants(root, S)
      ensures LinksFrom(n, Descendants(root, S)) && n.rank <= root.rank
      ensures n != root ==> HangsFrom(n, Descendants(root, S))
    {
      Together(root, S, n);
    }
  }

  /** The destructor starts with one open node and nothing freed. */
  lemma WalkStarts(w: Walk)
    requires w.stack == [w.root] && w.entries == map n | n in w.live :: |n.names|
    requires w.root.parent == null && Family(w.root, w.live)
    ensures w.Dying() && w.Freed() == {}
  {
    forall n | n in w.live
      ensures w.Held(n)
    {
      assert LinksFrom(n, w.live) && (n != w.root ==> HangsFrom(n, w.live));
    }
  }

  /** A root stays one when it is cut off from its own parent. */
  twostate lemma CutOff(w: Walk)
    requires old(Family(w.root, w.live)) && w.root.parent == null
    requires forall n | n in w.live ::
               && n.values == old(n.values) && n.names == old(n.names) && n.kind == old(n.kind) && n.rank == old(n.rank)
               && (n != w.root ==> n.parent == old(n.parent))
    ensures Family(w.root, w.live)
  {
    forall n | n in w.live
      ensures LinksFrom(n, w.live) && (n != w.root ==> HangsFrom(n, w.live))
    {
      assert old(LinksFrom(n, w.live)) && (n != w.root ==> old(HangsFrom(n, w.live)));
      assert forall i | 0 <= i < |n.values| :: n.values[i] != w.root;
    }
  }

  /** The loop of the destructor. */
  method Run(start: Value, ghost w0: Walk) returns (ghost freed: set<Block>)
    requires start in w0.live && w0.stack == [start] && w0.live == w0.entries.Keys && w0.Freed() == {} && w0.Dying()
    modifies w0.live`values, w0.live`names
    ensures freed == BlocksWith(w0.entries)
  {
    hide Union, BlocksWith, Walk.AllGone, Walk.Freed, Walk.Dying, Walk.Held, OwnedBy;
    var value: Value? := start;
    freed := {};
    ghost var w := w0;
    while value != null
      invariant w.entries == w0.entries && w.live <= w0.live && value == w.Above(|w.stack|)
      invariant w.stack != [] ==> w.Top() in w.live
      invariant freed == w.Freed() && w.Dying()
      decreases w.live, if value == null then 0 else value.rank
    {
      if IsParent(value.kind) && value.values != [] {
        value, w, freed := GoDown(value, w, freed);
      } else {
        value, w, freed := GoUp(value, w, freed);
      }
    }
    w.Over();
  }

  /** Frees the tree below `root`: exactly the blocks of its nodes, each once. */
  method BuilderFree(root: Value?, ghost S: set<Value>) returns (ghost freed: set<Block>)
    requires Valid(S) && (root != null ==> root in S)
    modifies S`parent, S`values, S`names
    ensures root == null ==> freed == {} && Valid(S)
    ensures root != null ==> freed == old(Blocks(Descendants(root, S)))
    ensures root != null && old(root.parent) == null ==> Valid(S - old(Descendants(root, S)))
  {
    if root == null {
      return {};
    }
    ghost var all := Descendants(root, S);
    AllTogether(root, S);
    if root.parent == null {
      RestIsForest(root, S);
    }
    hide Linked, LinksOk, Under, Valid, Blocks, Family;
    freed := FreeTree(root, all);
  }

  method FreeTree(root: Value, ghost all: set<Value>) returns (ghost freed: set<Block>)
    requires Family(root, all)
    modifies root`parent, all`values, all`names
    ensures freed == old(Blocks(all))
  {
    root.parent := null;
    ghost var w := Walk(root, all, [root], map n | n in all :: |n.names|);
    hide Family, LinksFrom, OwnedBy, BlocksWith, Union;
    CutOff(w);
    WalkStarts(w);
    hide Walk.Dying, Walk.Freed, Walk.Held;
    freed := Run(root, w);
  }
}

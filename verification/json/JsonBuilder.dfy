/** The operations of json-builder.c that change trees in place: allocation, push,
    merge and the destructor. */
module JsonBuilder {
  import opened JsonGrammar
  import opened JsonArena
  import opened JsonHeap

  // ------------------------------------------------------------------ allocation

  /** A new container with room for `length` children. */
  method ContainerNew(isObject: bool, length: nat, ghost S: set<Value>) returns (v: Value)
    requires Valid(S)
    ensures fresh(v) && v.parent == null && v.values == [] && v.names == []
    ensures v.kind == (if isObject then KObj else KArr) && v.capacity == v.additional == length
    ensures Valid(S + {v}) && Tree(v, S + {v}) == if isObject then Obj([], []) else Arr([])
  {
    hide Valid, Tree;
    v := new Value(if isObject then KObj else KArr);
    v.capacity, v.additional := length, length;
    NewOk(v, S);
  }

  /** A new string. */
  method StringNew(str: string, ghost S: set<Value>) returns (v: Value)
    requires Valid(S)
    ensures fresh(v) && v.parent == null
    ensures Valid(S + {v}) && Tree(v, S + {v}) == Str(str)
  {
    hide Valid, Tree;
    v := new Value(KStr);
    v.str := str;
    NewOk(v, S);
  }

  /** A new integer. */
  method IntegerNew(integer: int, ghost S: set<Value>) returns (v: Value)
    requires Valid(S)
    ensures fresh(v) && v.parent == null
    ensures Valid(S + {v}) && Tree(v, S + {v}) == Int(integer)
  {
    hide Valid, Tree;
    v := new Value(KInt);
    v.integer := integer;
    NewOk(v, S);
  }

  /** A new double, which %g prints as g. */
  method DoubleNew(g: string, ghost S: set<Value>) returns (v: Value)
    requires Valid(S)
    ensures fresh(v) && v.parent == null
    ensures Valid(S + {v}) && Tree(v, S + {v}) == Double(g)
  {
    hide Valid, Tree;
    v := new Value(KDouble);
    v.str := g;
    NewOk(v, S);
  }

  /** A new boolean. */
  method BooleanNew(b: bool, ghost S: set<Value>) returns (v: Value)
    requires Valid(S)
    ensures fresh(v) && v.parent == null
    ensures Valid(S + {v}) && Tree(v, S + {v}) == Bool(b)
  {
    hide Valid, Tree;
    v := new Value(KBool);
    v.boolean := b;
    NewOk(v, S);
  }

  /** A new null. */
  method NullNew(ghost S: set<Value>) returns (v: Value)
    requires Valid(S)
    ensures fresh(v) && v.parent == null
    ensures Valid(S + {v}) && Tree(v, S + {v}) == Null
  {
    hide Valid, Tree;
    v := new Value(KNull);
    NewOk(v, S);
  }

  /** The JSON value of a node without children. */
  ghost function Childless(v: Value): Json
    reads v`kind, v`integer, v`boolean, v`str
  {
    match v.kind
    case KNull => Null
    case KBool => Bool(v.boolean)
    case KInt => Int(v.integer)
    case KDouble => Double(v.str)
    case KStr => Str(v.str)
    case KArr => Arr([])
    case KObj => Obj([], [])
  }

  /** A root without children joins the forest. */
  lemma NewOk(v: Value, S: set<Value>)
    requires Valid(S) && v !in S
    requires v.parent == null && v.values == [] && v.names == [] && v.tree == v && v.lengthIterated == 0
    requires v.capacity == v.additional
    ensures Valid(S + {v}) && Tree(v, S + {v}) == Childless(v)
  {
    forall n | n in S + {v}
      ensures LinksOk(n, S + {v})
    {
      if n in S {
        assert LinksOk(n, S);
      }
    }
  }

  // ------------------------------------------------------------ what is no forest

  /** Each node of the path is the parent of the one before. */
  ghost predicate Climbs(path: seq<Value>, S: set<Value>)
    reads S`parent
  {
    && path != [] && (forall i | 0 <= i < |path| :: path[i] in S)
    && forall i | 0 <= i < |path| - 1 :: path[i].parent == path[i + 1]
  }

  /** The path from a node to the root of its tree. */
  ghost function PathUp(n: Value, S: set<Value>): (r: seq<Value>)
    requires n in S && Linked(S)
    reads S`parent, S`kind, S`values, S`names, S`rank, S`tree
    ensures Climbs(r, S) && r[0] == n && r[|r| - 1] == n.tree
    decreases n.tree.rank - n.rank
  {
    assert LinksOk(n, S);
    if n.parent == null then [n]
    else
      assert LinksOk(n.parent, S);
      [n] + PathUp(n.parent, S)
  }

  /** Two different places in containers hold the same node. */
  ghost predicate SamePlace(n: Value, i: int, m: Value, j: int)
    reads n`values, m`values
  {
    0 <= i < |n.values| && 0 <= j < |m.values| && (n != m || i != j) && n.values[i] == m.values[j]
  }

  /** Nodes among which the way to the parents never ends. */
  ghost predicate Circular(C: set<Value>)
    reads C`parent
  {
    C != {} && forall n | n in C :: n.parent != null && n.parent in C
  }

  /** Links that no forest has: a node in two places, a cycle, or a child outside. */
  ghost predicate Tangled(S: set<Value>)
    reads S`parent, S`values
  {
    || (exists n, i, m, j :: n in S && m in S && SamePlace(n, i, m, j))
    || (exists C | C <= S :: Circular(C))
    || (exists n, c :: n in S && c in n.values && c !in S)
  }

  /** Tangled nodes are not linked, whatever ranks and trees are given to them. */
  lemma TangledIsNoForest(S: set<Value>)
    requires Tangled(S)
    ensures !Linked(S)
  {
    if Linked(S) {
      forall n, i, m, j | n in S && m in S
        ensures !SamePlace(n, i, m, j)
      {
        OnePlace(S, n, i, m, j);
      }
      forall C | C <= S
        ensures !Circular(C)
      {
        if Circular(C) {
          var n :| n in C;
          RanksClimb(C, S, n);
        }
      }
      forall n, c | n in S && c in n.values
        ensures c in S
      {
        assert LinksOk(n, S);
      }
    }
  }

  lemma OnePlace(S: set<Value>, n: Value, i: int, m: Value, j: int)
    requires n in S && m in S && Linked(S)
    ensures !SamePlace(n, i, m, j)
  {
    assert LinksOk(n, S) && LinksOk(m, S);
  }

  /** Ranks grow towards the parents, and are bounded by that of the root. */
  lemma {:induction false} RanksClimb(C: set<Value>, S: set<Value>, n: Value)
    requires n in C && C <= S && Circular(C) && Linked(S)
    ensures false
    decreases n.tree.rank - n.rank
  {
    assert LinksOk(n, S) && LinksOk(n.parent, S);
    RanksClimb(C, S, n.parent);
  }

  // ------------------------------------------------------------------------ push

  /** Value becomes a child of `host`: all nodes of the host's tree rise above it,
      and its own nodes change trees. */
  ghost method Adopt(host: Value, value: Value, S: set<Value>)
    requires host in S && value in S
    modifies S`rank, S`tree
    ensures forall n | n in S ::
              n.rank == if old(n.tree == host.tree) then old(n.rank) + old(value.rank) + 1 else old(n.rank)
    ensures forall n | n in S :: n.tree == if old(n.tree == value) then old(host.tree) else old(n.tree)
  {
    var up := value.rank + 1;
    var tree := host.tree;
    forall n | n in S && n.tree == tree {
      n.rank := n.rank + up;
    }
    forall n | n in S && n.tree == value {
      n.tree := tree;
    }
  }

  /** Takes one slot of a container, growing its buffer by one when none is left. */
  method TakeSlot(host: Value)
    requires IsParent(host.kind) && RoomOk(host)
    modifies host`additional, host`capacity
    ensures host.capacity == |host.values| + 1 + host.additional
    ensures host.capacity == if old(host.additional) > 0 then old(host.capacity) else |host.values| + 1
  {
    if host.additional > 0 {
      host.additional := host.additional - 1;
    } else {
      host.capacity := |host.values| + 1;
    }
  }

  /** Appends a tree to an array. When it is a whole one, and not the array's own, the
      forest stays valid; otherwise the nodes are no forest any more. */
  method ArrayPush(host: Value, value: Value, ghost S: set<Value>)
    requires host in S && value in S && host.kind == KArr && Valid(S)
    modifies S`rank, S`tree, host`additional, host`capacity, host`values, value`parent
    ensures host.values == old(host.values) + [value] && value.parent == host && RoomOk(host)
    ensures if old(Push(host, value, S).Sound()) then Valid(S) else Tangled(S)
    ensures old(Push(host, value, S).Sound()) ==>
              Tree(host, S) == Arr(old(Trees(host, |host.values|, S)) + [old(Tree(value, S))])
    ensures old(Push(host, value, S).Sound()) ==>
              forall n | n in S && old(Push(host, value, S).Apart(n)) :: Tree(n, S) == old(Tree(n, S))
  {
    hide Tree, Trees, LinksOk, Linked, Valid, Idle, Push.Apart, Push.Done, RoomOk, Tangled;
    HostFacts(host, S);
    ghost var push, sound := Push(host, value, S), Push(host, value, S).Sound();
    ghost var path := PathUp(host, S);
    push.Before();
    AttachElement(host, value, S);
    if sound {
      push.Settled();
    } else {
      push.Tangles(path);
    }
  }

  /** The changes that appending an element makes. */
  method AttachElement(host: Value, value: Value, ghost S: set<Value>)
    requires host in S && value in S && host.kind == KArr && RoomOk(host) && host.names == []
    modifies S`rank, S`tree, host`additional, host`capacity, host`values, value`parent
    ensures old(Push(host, value, S).Sound()) ==> Push(host, value, S).Done()
    ensures RoomOk(host)
    ensures host.values == old(host.values) + [value] && value.parent == host
  {
    ghost var sound := Push(host, value, S).Sound();
    TakeSlot(host);
    host.values := host.values + [value];
    value.parent := host;
    if sound {
      Adopt(host, value, S);
    }
  }

  /** Appends an entry to an object, with the same conditions and effects. */
  method ObjectPush(host: Value, name: string, value: Value, ghost S: set<Value>)
    requires host in S && value in S && host.kind == KObj && Valid(S)
    modifies S`rank, S`tree, host`additional, host`capacity, host`values, host`names, value`parent
    ensures host.values == old(host.values) + [value] && host.names == old(host.names) + [name]
    ensures value.parent == host && RoomOk(host)
    ensures if old(Push(host, value, S).Sound()) then Valid(S) else Tangled(S)
    ensures old(Push(host, value, S).Sound()) ==>
              Tree(host, S) == Obj(host.names, old(Trees(host, |host.values|, S)) + [old(Tree(value, S))])
    ensures old(Push(host, value, S).Sound()) ==>
              forall n | n in S && old(Push(host, value, S).Apart(n)) :: Tree(n, S) == old(Tree(n, S))
  {
    hide Tree, Trees, LinksOk, Linked, Valid, Idle, Push.Apart, Push.Done, RoomOk, Tangled;
    HostFacts(host, S);
    ghost var push, sound := Push(host, value, S), Push(host, value, S).Sound();
    ghost var path := PathUp(host, S);
    push.Before();
    AttachEntry(host, name, value, S);
    if sound {
      push.Settled();
    } else {
      push.Tangles(path);
    }
  }

  /** The changes that appending an entry makes. */
  method AttachEntry(host: Value, name: string, value: Value, ghost S: set<Value>)
    requires host in S && value in S && host.kind == KObj && RoomOk(host) && |host.names| == |host.values|
    modifies S`rank, S`tree, host`additional, host`capacity, host`values, host`names, value`parent
    ensures old(Push(host, value, S).Sound()) ==> Push(host, value, S).Done()
    ensures RoomOk(host)
    ensures host.values == old(host.values) + [value] && host.names == old(host.names) + [name] && value.parent == host
  {
    ghost var sound := Push(host, value, S).Sound();
    TakeSlot(host);
    host.values, host.names := host.values + [value], host.names + [name];
    value.parent := host;
    if sound {
      Adopt(host, value, S);
    }
  }

  lemma HostFacts(host: Value, S: set<Value>)
    requires host in S && Valid(S)
    ensures Linked(S) && RoomOk(host)
    ensures |host.names| == if host.kind == KObj then |host.values| else 0
  {
    assert LinksOk(host, S);
  }

  /** A push of the tree `value` onto `host` in the forest `nodes`. */
  datatype Push = Push(host: Value, value: Value, nodes: set<Value>) {
    ghost predicate Within() {
      host in nodes && value in nodes
    }

    /** The value is a whole tree, and not that of the host. */
    ghost predicate Sound()
      reads value`parent, host`tree
    {
      value.parent == null && value != host.tree
    }

    /** What holds before a push that is not sound. */
    lemma Before()
      requires Within() && Linked(nodes)
      ensures value.parent != null ==> value.parent in nodes && value in value.parent.values
    {
      assert LinksOk(value, nodes);
    }

    /** A push that is not sound leaves two places for the value, or a cycle. */
    twostate lemma Tangles(path: seq<Value>)
      requires Within() && old(!Sound() && Climbs(path, nodes))
      requires old(path[0] == host && path[|path| - 1] == host.tree)
      requires old(value.parent != null ==> value.parent in nodes && value in value.parent.values)
      requires host.values == old(host.values) + [value] && value.parent == host
      requires forall n | n in nodes && n != host :: n.values == old(n.values)
      requires forall n | n in nodes && n != value :: n.parent == old(n.parent)
      ensures Tangled(nodes)
    {
      var k := |old(host.values)|;
      assert host.values[k] == value;
      if old(value.parent) != null {
        var q := old(value.parent);
        var i :| 0 <= i < |old(q.values)| && old(q.values[i]) == value;
        assert q.values[i] == value;
        assert SamePlace(q, i, host, k);
      } else {
        forall n | n in path
          ensures n.parent != null && n.parent in path
        {
          var i :| 0 <= i < |path| && path[i] == n;
          assert i < |path| - 1 ==> old(path[i].parent) == path[i + 1];
        }
        var C := set n | n in path;
        assert path[0] in C && C <= nodes && Circular(C);
      }
    }

    /** What the push changes among the links. */
    twostate predicate Done()
      requires Within()
      reads nodes`parent, nodes`kind, nodes`values, nodes`names, nodes`rank, nodes`tree
    {
      && old(value.parent) == null && value != old(host.tree) && IsParent(host.kind)
      && (forall n | n in nodes ::
            && n.kind == old(n.kind)
            && n.values == (if n == host then old(n.values) + [value] else old(n.values))
            && n.parent == (if n == value then host else old(n.parent))
            && n.rank == (if old(n.tree == host.tree) then old(n.rank) + old(value.rank) + 1 else old(n.rank))
            && n.tree == if old(n.tree) == value then old(host.tree) else old(n.tree))
      && (forall n | n in nodes && n != host :: n.names == old(n.names))
      && |host.names| == if host.kind == KObj then |host.values| else 0
    }

    /** The nodes whose trees hold no copy of the host. */
    ghost predicate Apart(n: Value)
      requires Within()
      reads n`tree, n`rank, host`tree, host`rank
    {
      n.tree == host.tree ==> n.rank < host.rank
    }

    /** A push keeps the forest valid, and extends the tree of the host only. */
    twostate lemma Settled()
      requires Within() && Done() && SameContents(nodes)
      requires forall n | n in nodes :: n.lengthIterated == old(n.lengthIterated)
      requires forall n | n in nodes && n != host :: n.capacity == old(n.capacity) && n.additional == old(n.additional)
      requires RoomOk(host)
      requires old(Valid(nodes))
      ensures Valid(nodes) && Linked(nodes) && old(Linked(nodes))
      ensures forall n | n in nodes && old(Apart(n)) :: Tree(n, nodes) == old(Tree(n, nodes))
      ensures var items := old(Trees(host, |host.values|, nodes)) + [old(Tree(value, nodes))];
              Tree(host, nodes) == if host.kind == KArr then Arr(items) else Obj(host.names, items)
    {
      hide Tree, Trees, LinksOk, Linked, Done, RoomOk;
      StaysValid();
      assert old(Linked(nodes));
      Grows();
    }

    /** After a push the nodes form a forest again, with room in every container. */
    twostate lemma StaysValid()
      requires Within() && Done()
      requires forall n | n in nodes :: n.lengthIterated == old(n.lengthIterated)
      requires forall n | n in nodes && n != host :: n.capacity == old(n.capacity) && n.additional == old(n.additional)
      requires RoomOk(host)
      requires old(Valid(nodes))
      ensures Valid(nodes) && Linked(nodes)
    {
      forall n | n in nodes
        ensures LinksOk(n, nodes)
      {
        LinksKept(n);
      }
      assert Linked(nodes);
      hide Linked;
      forall n | n in nodes
        ensures RoomOk(n)
      {
        assert old(RoomOk(n));
      }
    }

    twostate lemma LinksKept(n: Value)
      requires Within() && n in nodes && Done() && old(Linked(nodes))
      ensures LinksOk(n, nodes)
    {
      if n == host {
        HostKept();
      } else {
        OtherKept(n);
      }
    }

    twostate lemma HostKept()
      requires Within() && Done() && old(Linked(nodes))
      ensures LinksOk(host, nodes)
    {
      assert old(LinksOk(value, nodes)) && old(LinksOk(host, nodes)) && old(LinksOk(host.tree, nodes));
    }

    twostate lemma OtherKept(n: Value)
      requires Within() && n in nodes && n != host && Done() && old(Linked(nodes))
      ensures LinksOk(n, nodes)
    {
      assert old(LinksOk(n, nodes)) && old(LinksOk(value, nodes)) && old(LinksOk(host, nodes));
      assert old(LinksOk(n.tree, nodes)) && old(LinksOk(host.tree, nodes));
    }

    /** The pushed value is the new last item, and only the trees of `host` and of its
        ancestors change. */
    twostate lemma Grows()
      requires Within() && Done() && SameContents(nodes) && old(Linked(nodes)) && Linked(nodes)
      ensures forall n | n in nodes && old(Apart(n)) :: Tree(n, nodes) == old(Tree(n, nodes))
      ensures var items := old(Trees(host, |host.values|, nodes)) + [old(Tree(value, nodes))];
              Tree(host, nodes) == if host.kind == KArr then Arr(items) else Obj(host.names, items)
    {
      hide Trees, LinksOk, Apart, Linked;
      forall n | n in nodes && old(Apart(n))
        ensures Tree(n, nodes) == old(Tree(n, nodes))
      {
        SameTree(n);
      }
      Children();
    }

    twostate lemma Children()
      requires Within() && Done() && old(Linked(nodes)) && Linked(nodes)
      requires forall n | n in nodes && old(Apart(n)) :: Tree(n, nodes) == old(Tree(n, nodes))
      ensures Trees(host, |host.values|, nodes) == old(Trees(host, |host.values|, nodes)) + [old(Tree(value, nodes))]
    {
      hide Tree, LinksOk, Apart;
      var was, last := old(Trees(host, |host.values|, nodes)), old(Tree(value, nodes));
      var now := Trees(host, |host.values|, nodes);
      forall i | 0 <= i < |now|
        ensures now[i] == (was + [last])[i]
      {
        Child(i);
      }
    }

    twostate lemma Child(i: nat)
      requires Within() && Done() && i < |host.values| && old(Linked(nodes))
      ensures var c := host.values[i];
              && c in nodes && old(Apart(c)) && i <= |old(host.values)|
              && c == if i < |old(host.values)| then old(host.values[i]) else value
    {
      assert old(LinksOk(host, nodes)) && old(LinksOk(value, nodes));
    }

    /** A node apart from the host stands for the same value as before. */
    twostate lemma {:induction false} SameTree(n: Value)
      requires Within() && n in nodes && old(Linked(nodes)) && old(Apart(n)) && Done() && SameContents(nodes)
      requires Linked(nodes)
      ensures Tree(n, nodes) == old(Tree(n, nodes))
      decreases old(n.rank)
    {
      hide Trees, LinksOk, Apart, Linked;
      Below(n);
      forall i | 0 <= i < |n.values|
        ensures Tree(n.values[i], nodes) == old(Tree(n.values[i], nodes))
      {
        SameTree(n.values[i]);
      }
      assert Trees(n, |n.values|, nodes) == old(Trees(n, |n.values|, nodes));
    }

    twostate lemma Below(n: Value)
      requires Within() && n in nodes && old(Linked(nodes)) && old(Apart(n)) && Done()
      ensures n != host && n.values == old(n.values)
      ensures forall i | 0 <= i < |n.values| ::
                var c := n.values[i]; c in nodes && old(Apart(c)) && old(c.rank < n.rank)
    {
      assert old(LinksOk(n, nodes));
    }
  }

  /** The nodes keep what they hold. */
  twostate predicate SameContents(S: set<Value>)
    reads S`integer, S`boolean, S`str
  {
    forall n | n in S :: n.integer == old(n.integer) && n.boolean == old(n.boolean) && n.str == old(n.str)
  }

  // ----------------------------------------------------------------------- merge

  /** Copies the entries of `b` behind those of `a`, and makes `a` their parent. */
  method MoveEntries(a: Value, b: Value, ghost S: set<Value>)
    requires a != b && forall i | 0 <= i < |b.values| :: b.values[i] in S
    requires |a.names| == |a.values| && |b.names| == |b.values|
    modifies S`parent, a`values, a`names
    ensures a.values == old(a.values) + b.values && a.names == old(a.names) + b.names
    ensures forall n | n in S :: n.parent == if n in b.values then a else old(n.parent)
  {
    var i := 0;
    while i < |b.values|
      invariant 0 <= i <= |b.values| && |a.names| == |a.values|
      invariant a.values == old(a.values) + b.values[..i] && a.names == old(a.names) + b.names[..i]
      invariant forall n | n in S :: n.parent == if n in b.values[..i] then a else old(n.parent)
    {
      a.values, a.names := a.values + [b.values[i]], a.names + [b.names[i]];
      b.values[i].parent := a;
      i := i + 1;
    }
    assert b.values[..i] == b.values && b.names[..i] == b.names;
  }

  /** Moves the entries of object `b` behind those of `a`, and frees `b`. When `b` is a
      whole tree that does not hold `a` the rest stays a valid forest; otherwise it is none
      any more. */
  method ObjectMerge(a: Value, b: Value, ghost S: set<Value>)
    requires a in S && b in S && a != b && a.kind == KObj && b.kind == KObj && Valid(S)
    modifies S`rank, S`tree, S`parent, a`additional, a`capacity, a`values, a`names
    ensures a.values == old(a.values) + old(b.values) && a.names == old(a.names) + old(b.names) && RoomOk(a)
    ensures forall i | 0 <= i < |b.values| :: b.values[i].parent == a
    ensures if old(Merge(a, b, S).Sound()) then Valid(S - {b}) else Tangled(S - {b})
    ensures old(Merge(a, b, S).Sound()) ==>
              Tree(a, S - {b}) == Obj(a.names, old(Trees(a, |a.values|, S)) + old(Trees(b, |b.values|, S)))
    ensures old(Merge(a, b, S).Sound()) ==>
              forall n | n in S - {b} && old(Merge(a, b, S).Apart(n)) :: Tree(n, S - {b}) == old(Tree(n, S))
  {
    hide Tree, Trees, LinksOk, Linked, Valid, Idle, Merge.Apart, Merge.Done, RoomOk, Tangled;
    HostFacts(a, S);
    HostFacts(b, S);
    ghost var merge, sound := Merge(a, b, S), Merge(a, b, S).Sound();
    ghost var path := PathUp(a, S);
    merge.Before();
    TakeEntries(a, b, S);
    if sound {
      merge.Settled();
    } else {
      merge.Tangles(path);
    }
  }

  /** The changes that taking over the entries makes. */
  method TakeEntries(a: Value, b: Value, ghost S: set<Value>)
    requires a in S && b in S && a != b && a.kind == KObj && b.kind == KObj
    requires |a.names| == |a.values| && |b.names| == |b.values| && RoomOk(a)
    requires forall i | 0 <= i < |b.values| :: b.values[i] in S
    modifies S`rank, S`tree, S`parent, a`additional, a`capacity, a`values, a`names
    ensures old(Merge(a, b, S).Sound()) ==> Merge(a, b, S).Done()
    ensures RoomOk(a) && a.values == old(a.values) + old(b.values) && a.names == old(a.names) + old(b.names)
    ensures forall n | n in S :: n.parent == if n in b.values then a else old(n.parent)
  {
    ghost var sound := Merge(a, b, S).Sound();
    if |b.values| <= a.additional {
      a.additional := a.additional - |b.values|;
    } else {
      a.capacity := |a.values| + a.additional + |b.values|;
    }
    MoveEntries(a, b, S);
    if sound {
      Adopt(a, b, S);
    }
  }

  /** A merge of the tree `b` into `a` in the forest `nodes`. */
  datatype Merge = Merge(a: Value, b: Value, nodes: set<Value>) {
    ghost predicate Within() {
      a in nodes && b in nodes && a != b
    }

    /** What the merge changes among the links. */
    twostate predicate Done()
      requires Within()
      reads nodes`parent, nodes`kind, nodes`values, nodes`names, nodes`rank, nodes`tree
    {
      && old(b.parent) == null && b != old(a.tree) && a.kind == KObj && b.kind == KObj
      && (forall n | n in nodes ::
            && n.kind == old(n.kind)
            && n.values == (if n == a then old(a.values) + b.values else old(n.values))
            && n.parent == (if n in b.values then a else old(n.parent))
            && n.rank == (if old(n.tree == a.tree) then old(n.rank) + old(b.rank) + 1 else old(n.rank))
            && n.tree == if old(n.tree) == b then old(a.tree) else old(n.tree))
      && (forall n | n in nodes && n != a :: n.names == old(n.names))
      && a.names == old(a.names) + b.names
    }

    /** The nodes whose trees hold neither object. */
    ghost predicate Apart(n: Value)
      requires Within()
      reads n`tree, n`rank, a`tree, a`rank
    {
      n != b && (n.tree == a.tree ==> n.rank < a.rank)
    }

    /** The entries come from a whole tree, and not from that of `a`. */
    ghost predicate Sound()
      reads b`parent, a`tree
    {
      b.parent == null && a.tree != b
    }

    lemma Before()
      requires Within() && Linked(nodes)
      ensures forall c | c in b.values :: c in nodes && c != b && c.parent == b
      ensures b.parent != null ==> b.parent in nodes && b.parent != b && b in b.parent.values
      ensures forall n | n in nodes && n.parent == b :: n in b.values
    {
      assert LinksOk(b, nodes);
      assert b.parent != null ==> LinksOk(b.parent, nodes);
      forall n | n in nodes && n.parent == b
        ensures n in b.values
      {
        assert LinksOk(n, nodes);
      }
    }

    /** A merge that is not sound leaves a freed child, or a cycle. */
    twostate lemma Tangles(path: seq<Value>)
      requires Within() && old(!Sound() && Climbs(path, nodes))
      requires old(path[0] == a && path[|path| - 1] == a.tree)
      requires old(b.parent != null ==> b.parent in nodes && b.parent != b && b in b.parent.values)
      requires old(forall n | n in nodes && n.parent == b :: n in b.values)
      requires old(forall c | c in b.values :: c.parent == b)
      requires a.values == old(a.values) + old(b.values)
      requires forall n | n in nodes && n != a :: n.values == old(n.values)
      requires forall n | n in nodes :: n.parent == if n in b.values then a else old(n.parent)
      ensures Tangled(nodes - {b})
    {
      if old(b.parent) != null {
        var q := old(b.parent);
        assert q in nodes - {b} && b in q.values;
      } else {
        var up := path[..|path| - 1];
        assert |path| > 1 && up[0] == path[0] == a;
        forall n | n in up
          ensures n in nodes && n != b && n.parent != null && n.parent in up
        {
          var i :| 0 <= i < |up| && up[i] == n;
          assert old(path[i].parent) == path[i + 1] && (i + 1 < |up| ==> up[i + 1] == path[i + 1]);
        }
        var C := set n | n in up;
        assert a in C && C <= nodes - {b} && Circular(C);
      }
    }

    twostate lemma LinksKept(n: Value)
      requires Within() && n in nodes && n != b && Done() && old(Linked(nodes))
      ensures LinksOk(n, nodes - {b})
    {
      assert old(LinksOk(n, nodes)) && old(LinksOk(b, nodes)) && old(LinksOk(a, nodes));
      assert old(LinksOk(n.tree, nodes)) && old(LinksOk(a.tree, nodes));
    }

    /** A merge keeps the rest of the forest valid, and extends the tree of `a` only. */
    twostate lemma Settled()
      requires Within() && Done() && SameContents(nodes)
      requires forall n | n in nodes :: n.lengthIterated == old(n.lengthIterated)
      requires forall n | n in nodes && n != a :: n.capacity == old(n.capacity) && n.additional == old(n.additional)
      requires RoomOk(a)
      requires old(Valid(nodes))
      ensures Valid(nodes - {b}) && Linked(nodes - {b}) && old(Linked(nodes))
      ensures forall n | n in nodes - {b} && old(Apart(n)) :: Tree(n, nodes - {b}) == old(Tree(n, nodes))
      ensures Tree(a, nodes - {b}) == Obj(a.names, old(Trees(a, |a.values|, nodes)) + old(Trees(b, |b.values|, nodes)))
    {
      hide Tree, Trees;
      forall n | n in nodes - {b}
        ensures LinksOk(n, nodes - {b}) && RoomOk(n)
      {
        LinksKept(n);
        assert old(RoomOk(n));
      }
      Grows();
    }

    twostate lemma Grows()
      requires Within() && Done() && SameContents(nodes) && old(Linked(nodes)) && Linked(nodes - {b})
      ensures forall n | n in nodes - {b} && old(Apart(n)) :: Tree(n, nodes - {b}) == old(Tree(n, nodes))
      ensures Tree(a, nodes - {b}) == Obj(a.names, old(Trees(a, |a.values|, nodes)) + old(Trees(b, |b.values|, nodes)))
    {
      hide Trees, LinksOk, Apart, Linked;
      forall n | n in nodes - {b} && old(Apart(n))
        ensures Tree(n, nodes - {b}) == old(Tree(n, nodes))
      {
        SameTree(n);
      }
      Children();
    }

    twostate lemma Children()
      requires Within() && Done() && old(Linked(nodes)) && Linked(nodes - {b})
      requires forall n | n in nodes - {b} && old(Apart(n)) :: Tree(n, nodes - {b}) == old(Tree(n, nodes))
      ensures Trees(a, |a.values|, nodes - {b}) == old(Trees(a, |a.values|, nodes)) + old(Trees(b, |b.values|, nodes))
    {
      hide Tree, LinksOk, Apart;
      var was, more := old(Trees(a, |a.values|, nodes)), old(Trees(b, |b.values|, nodes));
      var now := Trees(a, |a.values|, nodes - {b});
      forall i | 0 <= i < |now|
        ensures now[i] == (was + more)[i]
      {
        Child(i);
      }
    }

    twostate lemma Child(i: nat)
      requires Within() && Done() && i < |a.values| && old(Linked(nodes))
      ensures var c := a.values[i];
              && c in nodes - {b} && old(Apart(c)) && i < |old(a.values)| + |old(b.values)|
              && c == if i < |old(a.values)| then old(a.values[i]) else old(b.values[i - |a.values|])
    {
      assert old(LinksOk(a, nodes)) && old(LinksOk(b, nodes));
    }

    /** A node apart from both objects stands for the same value as before. */
    twostate lemma {:induction false} SameTree(n: Value)
      requires Within() && n in nodes - {b} && old(Linked(nodes)) && old(Apart(n)) && Done() && SameContents(nodes)
      requires Linked(nodes - {b})
      ensures Tree(n, nodes - {b}) == old(Tree(n, nodes))
      decreases old(n.rank)
    {
      hide Trees, LinksOk, Apart, Linked;
      Below(n);
      forall i | 0 <= i < |n.values|
        ensures Tree(n.values[i], nodes - {b}) == old(Tree(n.values[i], nodes))
      {
        SameTree(n.values[i]);
      }
      assert Trees(n, |n.values|, nodes - {b}) == old(Trees(n, |n.values|, nodes));
    }

    twostate lemma Below(n: Value)
      requires Within() && n in nodes - {b} && old(Linked(nodes)) && old(Apart(n)) && Done()
      ensures n != a && n.values == old(n.values)
      ensures forall i | 0 <= i < |n.values| ::
                var c := n.values[i]; c in nodes - {b} && old(Apart(c)) && old(c.rank < n.rank)
    {
      assert old(LinksOk(n, nodes));
    }
  }
}

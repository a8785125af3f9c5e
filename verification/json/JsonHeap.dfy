/** The values of the builder in memory: nodes linked by parent and child pointers.

    `Valid(S)` says that the nodes S form a forest without sharing. The ghost
    fields `rank` and `tree` witness that it has no cycles: a child ranks below its
    parent, and belongs to the same tree, named by its root. */
module JsonHeap {
  import opened JsonGrammar
  import opened JsonArena

  class Value {
    var parent: Value?
    var kind: Kind
    var integer: int
    var boolean: bool
    /** The characters of a string, or what %g prints of a double. */
    var str: string
    /** The elements, or the values of the entries. */
    var values: seq<Value>
    /** The names of the entries, each in its own allocation. */
    var names: seq<string>
    /** Number of slots in the values buffer. */
    var capacity: nat
    var additional: nat
    var lengthIterated: nat

    ghost var rank: nat
    ghost var tree: Value

    /** A zeroed node, the root of its own tree. */
    constructor (k: Kind)
      ensures fresh(this) && kind == k && parent == null && values == [] && names == []
      ensures capacity == 0 && additional == 0 && lengthIterated == 0 && tree == this && rank == 0
      ensures integer == 0 && !boolean && str == ""
    {
      parent, kind, integer, boolean, str := null, k, 0, false, "";
      values, names, capacity, additional, lengthIterated := [], [], 0, 0, 0;
      rank, tree := 0, this;
    }
  }

  predicate IsParent(k: Kind) {
    k == KArr || k == KObj
  }

  /** The links of node n agree with the rest of S. */
  ghost predicate LinksOk(n: Value, S: set<Value>)
    requires n in S
    reads S`parent, S`kind, S`values, S`names, S`rank, S`tree
  {
    && (!IsParent(n.kind) ==> n.values == [])
    && |n.names| == (if n.kind == KObj then |n.values| else 0)
    && (forall i | 0 <= i < |n.values| ::
          var c := n.values[i]; c in S && c.parent == n && c.rank < n.rank && c.tree == n.tree)
    && (forall i, j | 0 <= i < j < |n.values| :: n.values[i] != n.values[j])
    && (n.parent != null ==> n.parent in S && n in n.parent.values)
    && n.tree in S && n.tree.parent == null
    && (n.parent == null ==> n.tree == n)
    && n.rank <= n.tree.rank
  }

  /** Every container has room for its length and what is allocated beyond it. */
  ghost predicate RoomOk(n: Value)
    reads n`values, n`capacity, n`additional, n`kind
  {
    IsParent(n.kind) ==> n.capacity == |n.values| + n.additional
  }

  ghost predicate Linked(S: set<Value>)
    reads S`parent, S`kind, S`values, S`names, S`rank, S`tree
  {
    forall n {:trigger LinksOk(n, S)} | n in S :: LinksOk(n, S)
  }

  /** No walk is under way. */
  ghost predicate Idle(S: set<Value>)
    reads S`lengthIterated
  {
    forall n | n in S :: n.lengthIterated == 0
  }

  ghost predicate Valid(S: set<Value>)
    reads S`parent, S`kind, S`values, S`names, S`rank, S`tree, S`capacity, S`additional, S`lengthIterated
  {
    Linked(S) && Idle(S) && forall n | n in S :: RoomOk(n)
  }

  /** The JSON value that node n stands for. */
  ghost function Tree(n: Value, S: set<Value>): Json
    requires n in S && Linked(S)
    reads S`parent, S`kind, S`integer, S`boolean, S`str, S`values, S`names, S`rank, S`tree
    decreases n.rank, 1, 0
  {
    match n.kind
    case KNull => Null
    case KBool => Bool(n.boolean)
    case KInt => Int(n.integer)
    case KDouble => Double(n.str)
    case KStr => Str(n.str)
    case KArr => Arr(Trees(n, |n.values|, S))
    case KObj => Obj(n.names, Trees(n, |n.values|, S))
  }

  /** The values of the first k children. */
  ghost function Trees(n: Value, k: nat, S: set<Value>): (r: seq<Json>)
    requires n in S && Linked(S) && k <= |n.values|
    ensures |r| == k
    ensures LinksOk(n, S) && forall i | 0 <= i < k :: r[i] == Tree(n.values[i], S)
    reads S`parent, S`kind, S`integer, S`boolean, S`str, S`values, S`names, S`rank, S`tree
    decreases n.rank, 0, k
  {
    if k == 0 then [] else
      assert LinksOk(n, S);
      Trees(n, k - 1, S) + [Tree(n.values[k - 1], S)]
  }
}

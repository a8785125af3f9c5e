/** `json_object_sort`: reordering the entries of an object like those of a prototype,
    by swapping them in place.

    The second index moves on with every match, and nothing stops it at the end of the
    entries. `ObjectSort` says exactly when it stays inside. */
module JsonSort {
  import opened JsonGrammar
  import opened JsonArena
  import opened JsonHeap
  import opened JsonBuilder

  datatype Entry = Entry(name: string, value: Value)

  /** The entries with these names and values. */
  ghost function Entries(names: seq<string>, values: seq<Value>): (r: seq<Entry>)
    requires |names| == |values|
  {
    seq(|names|, i requires 0 <= i < |names| => Entry(names[i], values[i]))
  }

  /** Where a name first occurs in the prototype; its length when it does not. */
  ghost function Place(proto: seq<string>, name: string): (r: nat)
    ensures r <= |proto| && (r < |proto| <==> name in proto)
    ensures r < |proto| ==> proto[r] == name
    ensures forall k | 0 <= k < r :: proto[k] != name
  {
    if proto == [] || proto[0] == name then 0 else 1 + Place(proto[1..], name)
  }

  /** The names stand in the order of the prototype, and all others behind them. */
  ghost predicate InOrder(names: seq<string>, proto: seq<string>) {
    forall i, j | 0 <= i < j < |names| :: Place(proto, names[i]) <= Place(proto, names[j])
  }

  /** No name of the object comes twice in the prototype. */
  ghost predicate Clear(names: seq<string>, proto: seq<string>) {
    forall i, j | 0 <= i < j < |proto| && proto[i] == proto[j] :: proto[i] !in names
  }

  /** The names of the prototype that the object has, in the order of the prototype. */
  ghost function Chosen(proto: seq<string>, names: seq<string>): seq<string> {
    if proto == [] then []
    else (if proto[0] in names then [proto[0]] else []) + Chosen(proto[1..], names)
  }

  /** When no name comes twice, the order is that of the prototype, name by name, and behind
      those names come the others. */
  lemma {:induction false} OrderExact(names: seq<string>, proto: seq<string>)
    requires Distinct(names) && Distinct(proto) && InOrder(names, proto)
    ensures Chosen(proto, names) <= names
    ensures forall k | |Chosen(proto, names)| <= k < |names| :: names[k] !in proto
    decreases proto
  {
    if proto != [] {
      var p, rest := proto[0], proto[1..];
      RestDistinct(proto);
      if p in names {
        FirstInOrder(names, proto);
        var others := names[1..];
        RestDistinct(names);
        RestInOrder(names, others, proto, 1);
        OrderExact(others, rest);
        SameChosen(rest, names, others);
        assert names == [p] + others;
      } else {
        RestInOrder(names, names, proto, 0);
        OrderExact(names, rest);
      }
    }
  }

  lemma RestDistinct(s: seq<string>)
    requires s != [] && Distinct(s)
    ensures Distinct(s[1..]) && s[0] !in s[1..]
  {
  }

  lemma FirstInOrder(names: seq<string>, proto: seq<string>)
    requires proto != [] && proto[0] in names && Distinct(names) && InOrder(names, proto)
    ensures names[0] == proto[0]
  {
    var k :| 0 <= k < |names| && names[k] == proto[0];
    assert Place(proto, names[0]) <= Place(proto, names[k]);
  }

  lemma RestInOrder(names: seq<string>, others: seq<string>, proto: seq<string>, k: nat)
    requires proto != [] && InOrder(names, proto) && k <= |names| && others == names[k..] && proto[0] !in others
    ensures InOrder(others, proto[1..])
  {
    forall i, j | 0 <= i < j < |others|
      ensures Place(proto[1..], others[i]) <= Place(proto[1..], others[j])
    {
      assert others[i] == names[k + i] && others[j] == names[k + j];
    }
  }

  lemma {:induction false} SameChosen(proto: seq<string>, names: seq<string>, others: seq<string>)
    requires forall p | p in proto :: p in names <==> p in others
    ensures Chosen(proto, names) == Chosen(proto, others)
    decreases proto
  {
    if proto != [] {
      SameChosen(proto[1..], names, others);
    }
  }

  // ---------------------------------------------------------------- permutations

  function Swapped<T>(s: seq<T>, j: nat, k: nat): (r: seq<T>)
    requires j < |s| && k < |s|
    ensures |r| == |s|
  {
    s[j := s[k]][k := s[j]]
  }

  lemma SwappedSame<T>(s: seq<T>, j: nat, k: nat)
    requires j < |s| && k < |s|
    ensures multiset(Swapped(s, j, k)) == multiset(s)
  {
  }

  lemma Occurs<T>(s: seq<T>, t: seq<T>)
    requires multiset(s) == multiset(t)
    ensures |s| == |t| && forall x :: x in s <==> x in t
  {
    assert |multiset(s)| == |s| && |multiset(t)| == |t|;
    assert forall x :: x in s <==> x in multiset(s);
    assert forall x :: x in t <==> x in multiset(t);
  }

  ghost predicate Distinct<T>(s: seq<T>) {
    forall i, j | 0 <= i < j < |s| :: s[i] != s[j]
  }

  lemma {:induction false} DistinctCounts<T>(s: seq<T>)
    ensures Distinct(s) <==> forall x :: multiset(s)[x] <= 1
  {
    if s != [] {
      var rest := s[1..];
      DistinctCounts(rest);
      assert s == [s[0]] + rest;
      assert multiset(s) == multiset{s[0]} + multiset(rest);
      if Distinct(rest) && s[0] !in rest {
        assert forall x :: multiset(s)[x] <= 1;
        assert forall i | 0 < i < |s| :: s[i] == rest[i - 1];
      } else if s[0] in rest {
        var i :| 0 <= i < |rest| && rest[i] == s[0];
        assert s[i + 1] == s[0];
        assert multiset(s)[s[0]] > 1;
      } else {
        var i, j :| 0 <= i < j < |rest| && rest[i] == rest[j];
        assert s[i + 1] == s[j + 1];
        var x :| multiset(rest)[x] > 1;
        assert multiset(s)[x] > 1;
      }
    }
  }

  lemma DistinctKept<T>(s: seq<T>, t: seq<T>)
    requires multiset(s) == multiset(t)
    ensures Distinct(s) <==> Distinct(t)
  {
    DistinctCounts(s);
    DistinctCounts(t);
  }

  /** The same entries, in some order, with their names and values. */
  twostate predicate Rearranged(o: Value)
    reads o`names, o`values
  {
    && old(|o.names| == |o.values|) && |o.names| == |o.values|
    && multiset(Entries(o.names, o.values)) == old(multiset(Entries(o.names, o.values)))
    && multiset(o.names) == old(multiset(o.names))
    && multiset(o.values) == old(multiset(o.values))
  }

  // --------------------------------------------------------------------- sorting

  lemma EntriesSwapped(names: seq<string>, values: seq<Value>, j: nat, k: nat)
    requires j < |names| == |values| && k < |names|
    ensures multiset(Entries(Swapped(names, j, k), Swapped(values, j, k))) == multiset(Entries(names, values))
    ensures multiset(Swapped(names, j, k)) == multiset(names) && multiset(Swapped(values, j, k)) == multiset(values)
  {
    SwappedSame(names, j, k);
    SwappedSame(values, j, k);
    SwappedSame(Entries(names, values), j, k);
    assert Entries(Swapped(names, j, k), Swapped(values, j, k)) == Swapped(Entries(names, values), j, k);
  }

  method SwapEntries(o: Value, j: nat, k: nat)
    requires j < |o.values| && k < |o.values| && |o.names| == |o.values|
    modifies o`names, o`values
    ensures Rearranged(o)
    ensures o.names == Swapped(old(o.names), j, k) && o.values == Swapped(old(o.values), j, k)
  {
    hide Entries;
    EntriesSwapped(o.names, o.values, j, k);
    var name, value := o.names[j], o.values[j];
    o.names, o.values := o.names[j := o.names[k]], o.values[j := o.values[k]];
    o.names, o.values := o.names[k := name], o.values[k := value];
  }

  /** The names after one round, which moved those equal to `name` to `start..out`. */
  ghost predicate Gathered(was: seq<string>, now: seq<string>, name: string, start: nat, out: nat) {
    && |now| == |was| && start <= out <= |was| && now[..start] == was[..start]
    && (forall k | start <= k < |now| :: now[k] == name <==> k < out)
    && (start < |was| && was[start] == name ==> start < out && (out == start + 1 ==> now == was))
  }

  /** The names in the middle of a round, when j entries have been looked at. */
  ghost predicate Gathering(was: seq<string>, now: seq<string>, name: string, start: nat, out: nat, j: nat) {
    && |now| == |was| && start <= out <= |was| && j <= |was|
    && if name in was[..start]
       then exists k :: j <= k < out && now[k] == name
       else
         && now[..start] == was[..start] && (j <= start ==> out == start && now == was) && (out == start || out <= j)
         && (forall k | start <= k < j :: now[k] == name <==> k < out)
         && (start < j && was[start] == name ==> start < out && (out == start + 1 ==> now == was))
  }

  lemma GatherOn(was: seq<string>, now: seq<string>, name: string, start: nat, out: nat, j: nat)
    requires Gathering(was, now, name, start, out, j) && j < |was|
    ensures |now| == |was| && out <= |was|
    ensures now[j] != name ==> Gathering(was, now, name, start, out, j + 1)
    ensures now[j] == name && out == |was| ==> name in was[..start]
    ensures now[j] == name && out < |was| ==> Gathering(was, Swapped(now, j, out), name, start, out + 1, j + 1)
  {
    if name in was[..start] {
      if now[j] == name && out < |was| {
        assert Swapped(now, j, out)[out] == name;
      }
    } else if j < start {
      assert now[j] == was[..start][j];
    }
  }

  lemma GatherFirst(was: seq<string>, name: string, start: nat)
    requires start <= |was|
    ensures Gathering(was, was, name, start, start, 0)
  {
  }

  lemma GatherLast(was: seq<string>, now: seq<string>, name: string, start: nat, out: nat)
    requires Gathering(was, now, name, start, out, |was|)
    ensures name !in was[..start] && Gathered(was, now, name, start, out)
  {
  }

  /** One round: the entries with this name go to `start` and the places behind it. It
      fails when an entry would go beyond the last one, and that is when the name is
      among those before `start`. */
  method Round(o: Value, name: string, start: nat) returns (ok: bool, out: nat)
    requires |o.names| == |o.values| && start <= |o.names|
    modifies o`names, o`values
    ensures Rearranged(o)
    ensures ok <==> name !in old(o.names)[..start]
    ensures ok ==> Gathered(old(o.names), o.names, name, start, out)
  {
    hide Gathering, Gathered, Swapped, Entries;
    ghost var was := o.names;
    out := start;
    GatherFirst(was, name, start);
    var j := 0;
    while j < |o.names|
      invariant Rearranged(o) && |o.names| == |o.values| == |was|
      invariant 0 <= j <= |was| && Gathering(was, o.names, name, start, out, j)
    {
      GatherOn(was, o.names, name, start, out, j);
      if o.names[j] == name {
        if out == |o.names| {
          return false, out;
        }
        SwapEntries(o, j, out);
        out := out + 1;
      }
      j := j + 1;
    }
    GatherLast(was, o.names, name, start, out);
    ok := true;
  }

  /** After the rounds for the names q the first `out` entries are those with such names,
      in the order of q. */
  ghost predicate Sorted(q: seq<string>, names: seq<string>, out: nat) {
    && out <= |names| && InOrder(names, q) && Clear(names, q)
    && forall k | 0 <= k < |names| :: names[k] in q <==> k < out
  }

  lemma {:induction false} PlaceOn(q: seq<string>, p: string, name: string)
    ensures Place(q + [p], name) == if name in q then Place(q, name) else if name == p then |q| else |q| + 1
  {
    if q == [] {
      assert Place([p][1..], name) == 0;
    } else if q[0] != name {
      assert (q + [p])[1..] == q[1..] + [p];
      PlaceOn(q[1..], p, name);
    }
  }

  lemma RestSame<T>(s: seq<T>, t: seq<T>, k: nat)
    requires k <= |s| && |t| == |s| && t[..k] == s[..k] && multiset(t) == multiset(s)
    ensures multiset(t[k..]) == multiset(s[k..])
  {
    assert s == s[..k] + s[k..] && t == t[..k] + t[k..];
    assert multiset(s[k..]) == multiset(s) - multiset(s[..k]);
    assert multiset(t[k..]) == multiset(t) - multiset(t[..k]);
  }

  /** What a round leaves behind `start` was there before. */
  lemma FromRest(was: seq<string>, now: seq<string>, start: nat)
    requires start <= |was| && |now| == |was| && now[..start] == was[..start] && multiset(now) == multiset(was)
    ensures forall k | start <= k < |now| :: now[k] in was[start..]
  {
    RestSame(was, now, start);
    Occurs(was[start..], now[start..]);
    forall k | start <= k < |now|
      ensures now[k] in was[start..]
    {
      assert now[start..][k - start] == now[k];
    }
  }

  /** A round for one more name. */
  lemma SortedOn(q: seq<string>, was: seq<string>, now: seq<string>, p: string, start: nat, out: nat)
    requires Sorted(q, was, start) && p !in was[..start] && Gathered(was, now, p, start, out)
    requires multiset(now) == multiset(was)
    ensures Sorted(q + [p], now, out)
  {
    hide Place;
    hide Clear;
    FromRest(was, now, start);
    ClearOn(q, was, now, p, start);
    forall k | 0 <= k < |now|
      ensures now[k] in q <==> k < start
      ensures k < start ==> now[k] == was[k] && now[k] != p
    {
      if k < start {
        assert now[..start][k] == was[..start][k];
      }
    }
    forall i, j | 0 <= i < j < |now|
      ensures Place(q + [p], now[i]) <= Place(q + [p], now[j])
    {
      PlaceOn(q, p, now[i]);
      PlaceOn(q, p, now[j]);
    }
  }

  lemma ClearOn(q: seq<string>, was: seq<string>, now: seq<string>, p: string, start: nat)
    requires Sorted(q, was, start) && p !in was[..start] && multiset(now) == multiset(was)
    ensures Clear(now, q + [p])
  {
    Occurs(was, now);
    assert p in q ==> p !in was;
  }

  /** When a round fails, its name came before, and is one of the object. */
  lemma NotClear(q: seq<string>, names: seq<string>, p: string, out: nat)
    requires Sorted(q, names, out) && p in names[..out]
    ensures p in q && !Clear(names, q + [p])
  {
    var k :| 0 <= k < |q| && q[k] == p;
    assert (q + [p])[k] == (q + [p])[|q|];
  }

  /** The rounds so far, for the names q. An object can be its own prototype; then the
      names are read while they are moved. */
  ghost predicate Underway(was: seq<string>, now: seq<string>, q: seq<string>, proto: seq<string>, same: bool,
                           out: nat) {
    && multiset(now) == multiset(was) && Sorted(q, now, out) && |q| <= |proto| && (same ==> proto == was)
    && if same && |q| < out then !Distinct(was)
       else q == proto[..|q|] && (same ==> now == was && out == |q|)
  }

  lemma UnderwayFirst(was: seq<string>, proto: seq<string>, same: bool)
    requires same ==> proto == was
    ensures Underway(was, was, [], proto, same, 0)
  {
  }

  lemma UnderwayOn(was: seq<string>, now: seq<string>, next: seq<string>, q: seq<string>, proto: seq<string>,
                   same: bool,
                   p: string, start: nat, out: nat)
    requires Underway(was, now, q, proto, same, start) && |q| < |proto| && |now| == |was|
    requires p == (if same then now else proto)[|q|] && p !in now[..start]
    requires Gathered(now, next, p, start, out) && multiset(next) == multiset(now)
    ensures Underway(was, next, q + [p], proto, same, out) && out <= |was|
  {
    SortedOn(q, now, next, p, start, out);
    DistinctKept(was, next);
    assert same && start + 1 < out ==> next[start] == p && next[start + 1] == p;
  }

  lemma UnderwayFails(was: seq<string>, now: seq<string>, q: seq<string>, proto: seq<string>, same: bool, p: string,
                      start: nat)
    requires Underway(was, now, q, proto, same, start) && |q| < |proto| && |now| == |was|
    requires p == (if same then now else proto)[|q|] && p in now[..start]
    ensures !Clear(was, proto)
  {
    Occurs(was, now);
    NotClear(q, now, p, start);
    if same && |q| < start {
      var i, j :| 0 <= i < j < |was| && was[i] == was[j];
      assert proto[i] == proto[j];
    } else {
      assert q + [p] == proto[..|q| + 1];
      var i, j :| 0 <= i < j < |q + [p]| && (q + [p])[i] == (q + [p])[j] && (q + [p])[i] in now;
      assert proto[i] == (q + [p])[i] && proto[j] == (q + [p])[j];
    }
  }

  lemma UnderwayEnds(was: seq<string>, now: seq<string>, q: seq<string>, proto: seq<string>, same: bool, out: nat)
    requires Underway(was, now, q, proto, same, out) && |q| == |proto|
    ensures Clear(was, proto) && InOrder(now, proto)
  {
    Occurs(was, now);
    assert proto[..|proto|] == proto;
  }

  // ------------------------------------------------------------------ the forest

  /** The entries of `host` are rearranged in the forest `nodes`. */
  datatype Shuffle = Shuffle(host: Value, nodes: set<Value>) {
    twostate predicate Done()
      requires host in nodes
      reads nodes, nodes`names, nodes`values
    {
      && Rearranged(host)
      && (forall n | n in nodes ::
            && n.kind == old(n.kind) && n.parent == old(n.parent) && n.rank == old(n.rank) && n.tree == old(n.tree)
            && n.capacity == old(n.capacity) && n.additional == old(n.additional)
            && n.lengthIterated == old(n.lengthIterated)
            && n.integer == old(n.integer) && n.boolean == old(n.boolean) && n.str == old(n.str))
      && (forall n | n in nodes && n != host :: n.names == old(n.names) && n.values == old(n.values))
    }

    /** The nodes whose trees do not hold the host. */
    ghost predicate Apart(n: Value)
      reads n`tree, n`rank, host`tree, host`rank
    {
      n.tree == host.tree ==> n.rank < host.rank
    }

    twostate lemma Settled()
      requires host in nodes && host.kind == KObj && Done() && old(Valid(nodes))
      ensures Valid(nodes)
      ensures forall n | n in nodes && old(Apart(n)) :: Tree(n, nodes) == old(Tree(n, nodes))
    {
      hide Tree, Apart;
      Occurs(host.values, old(host.values));
      DistinctKept(host.values, old(host.values));
      forall n | n in nodes
        ensures LinksOk(n, nodes) && RoomOk(n)
      {
        LinksKept(n);
        assert old(RoomOk(n));
      }
      assert Linked(nodes);
      forall n | n in nodes && old(Apart(n))
        ensures Tree(n, nodes) == old(Tree(n, nodes))
      {
        SameTree(n);
      }
    }

    twostate lemma LinksKept(n: Value)
      requires host in nodes && host.kind == KObj && n in nodes && Done() && old(Linked(nodes))
      requires |host.values| == |old(host.values)| && (forall x :: x in host.values <==> x in old(host.values))
      requires Distinct(old(host.values)) ==> Distinct(host.values)
      ensures LinksOk(n, nodes)
    {
      assert old(LinksOk(n, nodes)) && old(LinksOk(host, nodes));
      assert Distinct(host.values);
      assert forall i | 0 <= i < |host.values| :: host.values[i] in old(host.values);
    }

    /** A node apart from the host stands for the same value as before. */
    twostate lemma {:induction false} SameTree(n: Value)
      requires host in nodes && n in nodes && old(Linked(nodes)) && old(Apart(n)) && Done() && Linked(nodes)
      ensures Tree(n, nodes) == old(Tree(n, nodes))
      decreases old(n.rank)
    {
      hide Trees, LinksOk, Linked, Rearranged;
      Below(n);
      forall i | 0 <= i < |n.values|
        ensures Tree(n.values[i], nodes) == old(Tree(n.values[i], nodes))
      {
        SameTree(n.values[i]);
      }
      assert Trees(n, |n.values|, nodes) == old(Trees(n, |n.values|, nodes));
    }

    twostate lemma Below(n: Value)
      requires host in nodes && n in nodes && old(Linked(nodes)) && old(Apart(n)) && Done()
      ensures n != host && n.values == old(n.values)
      ensures forall i | 0 <= i < |n.values| ::
                var c := n.values[i]; c in nodes && old(Apart(c)) && old(c.rank < n.rank)
    {
      assert old(LinksOk(n, nodes));
    }
  }

  /** Puts the entries of an object in the order of a prototype, and all others behind
      them. It succeeds exactly when no name of the object comes twice in the prototype;
      otherwise it would go on beyond the last entry. */
  method ObjectSort(o: Value, proto: Value, ghost S: set<Value>) returns (ok: bool)
    requires o in S && o.kind == KObj && proto.kind == KObj && Valid(S)
    modifies o`names, o`values
    ensures ok <==> Clear(old(o.names), old(proto.names))
    ensures ok ==> InOrder(o.names, old(proto.names))
    ensures Rearranged(o) && Valid(S)
    ensures forall n | n in S && old(Shuffle(o, S).Apart(n)) :: Tree(n, S) == old(Tree(n, S))
  {
    hide Gathered, Underway, Clear, InOrder, Entries, Valid, Tree, RoomOk, Shuffle.Apart;
    HostFacts(o, S);
    ghost var was, names, same := o.names, proto.names, o == proto;
    ghost var q: seq<string> := [];
    var out: nat := 0;
    UnderwayFirst(was, names, same);
    var i := 0;
    ok := true;
    while ok && i < |proto.names|
      invariant 0 <= i <= |names| == |proto.names| && (!same ==> proto.names == names)
      invariant Rearranged(o) && |o.names| == |was|
      invariant ok ==> |q| == i && out <= |was| && Underway(was, o.names, q, names, same, out)
      invariant !ok ==> !Clear(was, names)
    {
      ghost var now, start := o.names, out;
      var name := proto.names[i];
      ok, out := Round(o, name, out);
      if ok {
        UnderwayOn(was, now, o.names, q, names, same, name, start, out);
        q := q + [name];
        i := i + 1;
      } else {
        UnderwayFails(was, now, q, names, same, name, start);
      }
    }
    if ok {
      UnderwayEnds(was, o.names, q, names, same, out);
    }
    Shuffle(o, S).Settled();
  }

  /** An object with the name "a" and a prototype that has it twice: sorting fails, though
      it does not for an object without that name. */
  lemma TwiceFails()
    ensures !Clear(["a"], ["a", "a"]) && Clear(["b"], ["a", "a"])
  {
    var proto := ["a", "a"];
    assert proto[0] == proto[1];
  }
}

/** The bridge forest of ls-map.c.

    The table of buses holds, for each bus, the bridges on it, and is updated in place. A
    bridge is named by its bus and its position among the bridges there. */
module BusMap {
  import opened Wrappers
  import opened ByteSeq
  import opened PciConfig

  datatype Bridge = Bridge(primary: Byte, dev: nat, func: nat, first: Byte, last: Byte, bug: int)

  datatype Ref = Ref(bus: nat, index: nat)

  datatype BusInfo = BusInfo(present: bool, guestbook: bool, bridges: seq<Bridge>, via: Option<Ref>)

  const NO_BUG := 0
  const OVERLAP := 1
  const CROSSING := 2

  /** Puts a bridge in front of the list of its bus. A range that is upside down in the
      registers is put right. */
  method MapBridge(info: array<BusInfo>, bus: nat, dev: nat, func: nat, primary: Byte, secondary: Byte,
                   subordinate: Byte)
    requires bus < info.Length == 256 && Sane(info[..])
    modifies info
    ensures Sane(info[..]) && forall b | 0 <= b < 256 && b != bus :: info[b] == old(info[b])
    ensures var last := if secondary <= subordinate then subordinate else secondary;
            var b := Bridge(primary, dev, func, secondary, last, NO_BUG);
            info[bus] == old(info[bus]).(bridges := [b] + old(info[bus].bridges))
  {
    var b := Bridge(primary, dev, func, secondary, subordinate, NO_BUG);
    if b.first > b.last {
      b := b.(last := b.first);
    }
    ghost var was := info[..];
    info[bus] := info[bus].(bridges := [b] + info[bus].bridges);
    assert forall p | 0 <= p < 256 && p != bus :: info[..][p] == was[p];
    assert forall i | 0 < i < |info[bus].bridges| :: info[bus].bridges[i] == was[bus].bridges[i - 1];
  }

  /** No range is upside down. */
  predicate Sane(info: seq<BusInfo>) {
    |info| == 256 && forall p, i | 0 <= p < 256 && 0 <= i < |info[p].bridges| ::
          info[p].bridges[i].first <= info[p].bridges[i].last
  }

  /** One call of do_map_bridges: the bus, the range it was entered with, and the number
      of the visit from which it was entered, -1 for a root. */
  datatype Visit = Visit(bus: nat, min: int, max: int, parent: int)

  /** The bus of a visit was entered as a root, or through a bridge of a bus visited
      earlier, with the range of that bridge, which lies in the range of that bus. */
  ghost predicate Rooted(info: seq<BusInfo>, visits: seq<Visit>, v: nat)
    requires |info| == 256 && v < |visits|
  {
    var x := visits[v];
    && x.bus < 256 && -1 <= x.parent < v
    && if x.parent == -1 then info[x.bus].via == None && x.min == 0 && x.max == 255 && info[x.bus].present
       else
         var p := visits[x.parent];
         && info[x.bus].via.Some?
         && var r := info[x.bus].via.value;
         && r.bus == p.bus < 256 && r.index < |info[p.bus].bridges|
         && var b := info[p.bus].bridges[r.index];
         x.bus == b.first == x.min && x.max == b.last && p.min <= b.first && b.last <= p.max
  }

  /** Each bus is visited at most once. */
  ghost predicate Forest(info: seq<BusInfo>, visits: seq<Visit>)
    requires |info| == 256
  {
    && (forall v {:trigger Rooted(info, visits, v)} | 0 <= v < |visits| :: Rooted(info, visits, v))
    && (forall v, w | 0 <= v < w < |visits| :: visits[v].bus != visits[w].bus)
  }

  /** The guestbook holds the buses visited. */
  ghost predicate Marked(info: seq<BusInfo>, visits: seq<Visit>)
    requires |info| == 256
  {
    && (forall v | 0 <= v < |visits| :: visits[v].bus < 256 && info[visits[v].bus].guestbook)
    && (forall b | 0 <= b < 256 && info[b].guestbook :: Visited(visits, b))
  }

  ghost predicate Visited(visits: seq<Visit>, b: nat) {
    exists v :: 0 <= v < |visits| && visits[v].bus == b
  }

  /** A bridge that has been looked at was entered, or leads to a bus seen before, or
      crosses the range of its own bus. */
  ghost predicate Settled(info: seq<BusInfo>, x: Visit, i: nat)
    requires |info| == 256 && x.bus < 256 && i < |info[x.bus].bridges|
  {
    var b := info[x.bus].bridges[i];
    var entered := info[b.first].via == Some(Ref(x.bus, i));
    || (b.bug == NO_BUG && entered && info[b.first].guestbook)
    || (b.bug == OVERLAP && !entered && info[b.first].guestbook)
    || (b.bug == CROSSING && !entered && (b.first < x.min || x.max < b.last))
  }

  /** A bridge that has not been looked at. */
  ghost predicate Untouched(info: seq<BusInfo>, p: nat, i: nat)
    requires |info| == 256 && p < 256 && i < |info[p].bridges|
  {
    var b := info[p].bridges[i];
    b.bug == NO_BUG && info[b.first].via != Some(Ref(p, i))
  }

  /** The first n bridges of a visited bus have been looked at, the others have not. */
  ghost predicate UpTo(info: seq<BusInfo>, x: Visit, n: nat)
    requires |info| == 256 && x.bus < 256
  {
    && n <= |info[x.bus].bridges|
    && (forall i | 0 <= i < n :: Settled(info, x, i))
    && (forall i | n <= i < |info[x.bus].bridges| :: Untouched(info, x.bus, i))
  }

  /** What holds between two calls; the buses in `open` are being visited. */
  ghost predicate Good(info: seq<BusInfo>, visits: seq<Visit>, open: set<nat>) {
    && Sane(info) && Forest(info, visits) && Marked(info, visits)
    && (forall v {:trigger visits[v]} | 0 <= v < |visits| && visits[v].bus !in open ::
          visits[v].bus < 256 && UpTo(info, visits[v], |info[visits[v].bus].bridges|))
    && (forall p, i {:trigger Untouched(info, p, i)} | 0 <= p < 256 && !info[p].guestbook
        && 0 <= i < |info[p].bridges| ::
          Untouched(info, p, i))
    && (forall b | 0 <= b < 256 && !info[b].guestbook :: info[b].via == None)
  }

  /** What a visit leaves alone: the buses visited before, and the bridges themselves. */
  ghost predicate Kept(info: seq<BusInfo>, info': seq<BusInfo>) {
    && |info| == |info'| == 256
    && (forall b | 0 <= b < 256 ::
        info'[b].present == info[b].present && SameBridges(info[b].bridges, info'[b].bridges))
    && (forall b | 0 <= b < 256 && info[b].guestbook :: info'[b] == info[b])
  }

  /** The same bridges, except for their bugs. */
  predicate SameBridges(a: seq<Bridge>, b: seq<Bridge>) {
    |a| == |b| && forall i | 0 <= i < |a| :: b[i] == a[i].(bug := b[i].bug)
  }

  ghost function Unvisited(info: seq<BusInfo>): set<nat> {
    set b: nat | b < |info| && !info[b].guestbook
  }

  /** Links set by a visit of `bus` come from buses that it visited. */
  ghost predicate Inside(info: seq<BusInfo>, info': seq<BusInfo>, bus: nat)
    requires |info| == |info'| == 256
  {
    forall b | 0 <= b < 256 && b != bus && !info[b].guestbook && info'[b].via.Some? ::
      var r := info'[b].via.value; r.bus < 256 && !info[r.bus].guestbook
  }

  /** Bus can be entered: apart from the link through which that happens, the table is good. */
  ghost predicate Ready(info: seq<BusInfo>, visits: seq<Visit>, x: Visit, open: set<nat>) {
    && |info| == 256 && x.bus < 256 && !info[x.bus].guestbook
    && Good(info[x.bus := info[x.bus].(via := None)], visits, open)
    && Rooted(info, visits + [x], |visits|)
    && (info[x.bus].via.Some? ==> info[x.bus].via.value.bus in open)
  }

  /** Entering a bus. */
  lemma Entered(info: seq<BusInfo>, visits: seq<Visit>, x: Visit, open: set<nat>)
    requires Ready(info, visits, x, open)
    ensures var info' := info[x.bus := info[x.bus].(guestbook := true)];
            && Good(info', visits + [x], open + {x.bus}) && UpTo(info', x, 0)
            && Kept(info, info') && Inside(info, info', x.bus) && Unvisited(info') < Unvisited(info)
  {
    var base := info[x.bus := info[x.bus].(via := None)];
    var info' := info[x.bus := info[x.bus].(guestbook := true)];
    var visits' := visits + [x];
    assert x.bus in Unvisited(info) && x.bus !in Unvisited(info');
    OnlyVia(base, info', x.bus);
    ForestGrows(base, info', visits, x, info);
    MarkedGrows(base, info', visits, x);
    if info[x.bus].via.Some? {
      assert visits'[x.parent] == visits[x.parent] && info[x.bus].via.value.bus == visits[x.parent].bus;
    }
    forall p, i | 0 <= p < 256 && !base[p].guestbook && 0 <= i < |info'[p].bridges|
      ensures Untouched(info', p, i)
    {
      assert Untouched(base, p, i);
      assert info[x.bus].via.Some? ==> info[x.bus].via.value.bus != p;
    }
    forall v | 0 <= v < |visits'| && visits'[v].bus !in open + {x.bus}
      ensures visits'[v].bus < 256 && UpTo(info', visits'[v], |info'[visits'[v].bus].bridges|)
    {
      assert visits'[v] == visits[v];
      StaysSettled(base, info', visits[v], x.bus);
    }
  }

  /** The tables differ only in the entry of one bus, and there not in the bridges. */
  predicate Differ(info: seq<BusInfo>, info': seq<BusInfo>, bus: nat) {
    && |info| == |info'| == 256 && bus < 256
    && (forall b | 0 <= b < 256 :: info'[b].bridges == info[b].bridges && info'[b].present == info[b].present)
    && (forall b | 0 <= b < 256 && b != bus :: info'[b] == info[b])
  }

  lemma OnlyVia(base: seq<BusInfo>, info': seq<BusInfo>, bus: nat)
    requires |base| == |info'| == 256 && bus < 256
    requires info' == base[bus := base[bus].(via := info'[bus].via, guestbook := true)]
    ensures Differ(base, info', bus) && (Sane(base) ==> Sane(info'))
  {
  }

  lemma ForestGrows(base: seq<BusInfo>, info': seq<BusInfo>, visits: seq<Visit>, x: Visit, info: seq<BusInfo>)
    requires Differ(base, info', x.bus) && Differ(info, info', x.bus) && Forest(base, visits) && Marked(base, visits)
    requires !base[x.bus].guestbook && info'[x.bus].via == info[x.bus].via
    requires Rooted(info, visits + [x], |visits|)
    ensures Forest(info', visits + [x])
  {
    var visits' := visits + [x];
    forall v | 0 <= v < |visits'|
      ensures Rooted(info', visits', v)
    {
      if v < |visits| {
        assert Rooted(base, visits, v);
      } else {
        assert Rooted(info, visits', v);
      }
    }
  }

  lemma MarkedGrows(base: seq<BusInfo>, info': seq<BusInfo>, visits: seq<Visit>, x: Visit)
    requires Differ(base, info', x.bus) && Marked(base, visits) && info'[x.bus].guestbook
    ensures Marked(info', visits + [x])
  {
    var visits' := visits + [x];
    forall b | 0 <= b < 256 && info'[b].guestbook
      ensures Visited(visits', b)
    {
      if b == x.bus {
        assert visits'[|visits|].bus == b;
      } else {
        var v :| 0 <= v < |visits| && visits[v].bus == b;
        assert visits'[v].bus == b;
      }
    }
  }

  /** Entering a bus from elsewhere does not change what became of a bridge. */
  lemma StaysSettled(base: seq<BusInfo>, info': seq<BusInfo>, y: Visit, bus: nat)
    requires Differ(base, info', bus) && y.bus < 256 && UpTo(base, y, |base[y.bus].bridges|)
    requires info'[bus].guestbook && base[bus].via == None
    requires info'[bus].via.Some? ==> info'[bus].via.value.bus != y.bus
    requires !base[bus].guestbook
    ensures UpTo(info', y, |info'[y.bus].bridges|)
  {
    forall i | 0 <= i < |info'[y.bus].bridges|
      ensures Settled(info', y, i)
    {
      assert Settled(base, y, i);
    }
  }

  /** Looking at a bridge settles it, when its bug is set and no link changes. */
  function WithBug(info: seq<BusInfo>, p: nat, i: nat, bug: int): (r: seq<BusInfo>)
    requires p < |info| && i < |info[p].bridges|
    ensures |r| == |info|
  {
    info[p := info[p].(bridges := info[p].bridges[i := info[p].bridges[i].(bug := bug)])]
  }

  lemma Flagged(info: seq<BusInfo>, visits: seq<Visit>, open: set<nat>, v: nat, i: nat, bug: int)
    requires Good(info, visits, open) && v < |visits| && visits[v].bus in open && visits[v].bus < 256
    requires UpTo(info, visits[v], i) && i < |info[visits[v].bus].bridges|
    requires var b := info[visits[v].bus].bridges[i];
             (bug == OVERLAP && info[b.first].guestbook)
                 || (bug == CROSSING && (b.first < visits[v].min || visits[v].max < b.last))
    ensures Good(WithBug(info, visits[v].bus, i, bug), visits, open)
    ensures UpTo(WithBug(info, visits[v].bus, i, bug), visits[v], i + 1)
    ensures SameBridges(info[visits[v].bus].bridges, WithBug(info, visits[v].bus, i, bug)[visits[v].bus].bridges)
  {
    var x, p := visits[v], visits[v].bus;
    var info' := WithBug(info, p, i, bug);
    assert Untouched(info, p, i);
    forall w | 0 <= w < |visits|
      ensures Rooted(info', visits, w)
    {
      assert Rooted(info, visits, w);
    }
    forall w | 0 <= w < |visits| && visits[w].bus !in open
      ensures visits[w].bus < 256 && UpTo(info', visits[w], |info'[visits[w].bus].bridges|)
    {
      forall j | 0 <= j < |info'[visits[w].bus].bridges|
        ensures Settled(info', visits[w], j)
      {
        assert Settled(info, visits[w], j);
      }
    }
    forall q, j | 0 <= q < 256 && !info'[q].guestbook && 0 <= j < |info'[q].bridges|
      ensures Untouched(info', q, j)
    {
      assert Untouched(info, q, j);
    }
    forall j | 0 <= j < i
      ensures Settled(info', x, j)
    {
      assert Settled(info, x, j);
    }
    forall j | i < j < |info'[p].bridges|
      ensures Untouched(info', p, j)
    {
      assert Untouched(info, p, j);
    }
  }

  /** A bridge that leads to a new bus in range can be entered. */
  lemma CanEnter(info: seq<BusInfo>, visits: seq<Visit>, open: set<nat>, v: nat, i: nat)
    requires Good(info, visits, open) && v < |visits| && visits[v].bus in open && visits[v].bus < 256
    requires UpTo(info, visits[v], i) && i < |info[visits[v].bus].bridges|
    requires var b := info[visits[v].bus].bridges[i];
             !info[b.first].guestbook && visits[v].min <= b.first && b.last <= visits[v].max
    ensures var b := info[visits[v].bus].bridges[i];
            Ready(info[b.first := info[b.first].(via := Some(Ref(visits[v].bus, i)))], visits,
                  Visit(b.first, b.first, b.last, v), open)
  {
    var b := info[visits[v].bus].bridges[i];
    var info' := info[b.first := info[b.first].(via := Some(Ref(visits[v].bus, i)))];
    assert info'[b.first := info'[b.first].(via := None)] == info;
    assert (visits + [Visit(b.first, b.first, b.last, v)])[v] == visits[v];
  }

  /** After the visit through it, the bridge is settled like those before it. */
  lemma CameBack(info: seq<BusInfo>, info': seq<BusInfo>, visits: seq<Visit>, open: set<nat>, v: nat, i: nat)
    requires Good(info, visits, open) && v < |visits| && visits[v].bus in open && visits[v].bus < 256
    requires UpTo(info, visits[v], i) && i < |info[visits[v].bus].bridges|
    requires var b := info[visits[v].bus].bridges[i];
             var linked := info[b.first := info[b.first].(via := Some(Ref(visits[v].bus, i)))];
             && !info[b.first].guestbook && Kept(linked, info') && Inside(linked, info', b.first)
             && info'[b.first].guestbook && info'[b.first].via == Some(Ref(visits[v].bus, i))
    ensures UpTo(info', visits[v], i + 1)
  {
    var x, p := visits[v], visits[v].bus;
    assert info'[p] == info[p];
    assert Untouched(info, p, i);
    forall j | 0 <= j < i
      ensures Settled(info', x, j)
    {
      assert Settled(info, x, j);
      Elsewhere(info, info', p, i, j);
    }
    forall j | i < j < |info'[p].bridges|
      ensures Untouched(info', p, j)
    {
      assert Untouched(info, p, j);
      Elsewhere(info, info', p, i, j);
    }
  }

  /** The visit through bridge i does not enter through bridge j of the same bus. */
  lemma Elsewhere(info: seq<BusInfo>, info': seq<BusInfo>, p: nat, i: nat, j: nat)
    requires |info| == |info'| == 256 && p < 256 && info[p].guestbook && i < |info[p].bridges| && j < |info[p].bridges|
    requires i != j
    requires var b := info[p].bridges[i];
             var linked := info[b.first := info[b.first].(via := Some(Ref(p, i)))];
             && !info[b.first].guestbook && Kept(linked, info') && Inside(linked, info', b.first)
             && info'[b.first].via == Some(Ref(p, i))
    ensures var f := info[p].bridges[j].first;
            && (info[f].guestbook ==> info'[f] == info[f])
            && (!info[f].guestbook ==> info'[f].via != Some(Ref(p, j)))
  {
  }

  lemma KeptFurther(info0: seq<BusInfo>, info: seq<BusInfo>, info': seq<BusInfo>, bus: nat, f: nat, i: nat)
    requires Kept(info0, info) && Inside(info0, info, bus) && bus < 256 && !info0[bus].guestbook && info[bus].guestbook
    requires f < 256 && !info[f].guestbook
    requires var linked := info[f := info[f].(via := Some(Ref(bus, i)))];
             Kept(linked, info') && Inside(linked, info', f) && info'[f].via == Some(Ref(bus, i))
    ensures Kept(info0, info') && Inside(info0, info', bus)
    ensures info'[bus] == info[bus] && Unvisited(info') <= Unvisited(info)
  {
    var linked := info[f := info[f].(via := Some(Ref(bus, i)))];
    forall b | 0 <= b < 256
      ensures SameBridges(info0[b].bridges, info'[b].bridges) && info'[b].present == info0[b].present
    {
      assert SameBridges(info0[b].bridges, info[b].bridges) && SameBridges(linked[b].bridges, info'[b].bridges);
    }
    forall b | 0 <= b < 256 && info[b].guestbook
      ensures info'[b] == info[b]
    {
      assert linked[b] == info[b];
    }
    forall b | 0 <= b < 256 && b != bus && !info0[b].guestbook && info'[b].via.Some?
      ensures info'[b].via.value.bus < 256 && !info0[info'[b].via.value.bus].guestbook
    {
      if !info[b].guestbook && b != f {
        assert !linked[info'[b].via.value.bus].guestbook;
      }
    }
  }

  /** Setting a bug keeps what a visit has to keep. */
  lemma KeptFlagged(info0: seq<BusInfo>, info: seq<BusInfo>, bus: nat, i: nat, bug: int)
    requires Kept(info0, info) && Inside(info0, info, bus) && bus < 256 && !info0[bus].guestbook
    requires i < |info[bus].bridges|
    ensures var info' := WithBug(info, bus, i, bug);
            && Kept(info0, info') && Inside(info0, info', bus)
            && info'[bus].via == info[bus].via && info'[bus].guestbook == info[bus].guestbook
            && Unvisited(info') == Unvisited(info)
  {
    var info' := WithBug(info, bus, i, bug);
    forall b | 0 <= b < 256
      ensures SameBridges(info0[b].bridges, info'[b].bridges) && info'[b].present == info0[b].present
    {
      assert SameBridges(info0[b].bridges, info[b].bridges);
    }
    assert forall b | 0 <= b < 256 :: info'[b].guestbook == info[b].guestbook && info'[b].via == info[b].via;
  }

  // ------------------------------------------------------------- the order of visits

  /** Bus b was visited among the first t visits. */
  ghost predicate Earlier(visits: seq<Visit>, b: nat, t: nat) {
    exists v :: 0 <= v < |visits| && v < t && visits[v].bus == b
  }

  /** Bridge i of visit v was looked at after times[i] visits, and times[i + 1] is the number
      of visits when that was over. `looks` holds the times of all visits that are over. */
  ghost predicate Timely(info: seq<BusInfo>, visits: seq<Visit>, looks: seq<seq<nat>>, v: nat, times: seq<nat>, i: nat)
    requires |info| == 256 && |looks| == |visits| && v < |visits| && visits[v].bus < 256
    requires i < |info[visits[v].bus].bridges| && i + 1 < |times|
  {
    var x, b, now := visits[v], info[visits[v].bus].bridges[i], times[i];
    && now <= |visits|
    && if Earlier(visits, b.first, now) then b.bug == OVERLAP && times[i + 1] == now
       else if b.first < x.min || x.max < b.last then b.bug == CROSSING && times[i + 1] == now
       else
         && b.bug == NO_BUG && v < now < |visits| && visits[now].bus == b.first && visits[now].parent == v
         && Ends(looks[now], times[i + 1])
  }

  /** The first n bridges of visit v were looked at in order, beginning at once. */
  ghost predicate InTurn(info: seq<BusInfo>, visits: seq<Visit>, looks: seq<seq<nat>>, v: nat, times: seq<nat>, n: nat)
    requires |info| == 256 && |looks| == |visits| && v < |visits|
  {
    && visits[v].bus < 256 && n <= |info[visits[v].bus].bridges| && |times| == n + 1 && times[0] == v + 1
    && forall i {:trigger Timely(info, visits, looks, v, times, i)} | 0 <= i < n ::
          Timely(info, visits, looks, v, times, i)
  }

  /** The times of visit v, which is over, are known. */
  ghost predicate Told(info: seq<BusInfo>, visits: seq<Visit>, looks: seq<seq<nat>>, v: nat)
    requires |info| == 256 && |looks| == |visits| && v < |visits|
  {
    visits[v].bus < 256 && InTurn(info, visits, looks, v, looks[v], |info[visits[v].bus].bridges|)
  }

  ghost predicate ToldFrom(info: seq<BusInfo>, visits: seq<Visit>, looks: seq<seq<nat>>, from: nat) {
    && |info| == 256 && |looks| == |visits|
    && forall v {:trigger Told(info, visits, looks, v)} | from <= v < |visits| :: Told(info, visits, looks, v)
  }

  /** Visit v is under way, with its first n bridges done, and all later visits are over. */
  ghost predicate Telling(info: seq<BusInfo>, visits: seq<Visit>, looks: seq<seq<nat>>, v: nat, times: seq<nat>,
                          n: nat) {
    && |info| == 256 && |looks| == |visits| && v < |visits| && ToldFrom(info, visits, looks, v + 1)
    && InTurn(info, visits, looks, v, times, n) && times[n] == |visits|
  }

  /** More visits, and changes to other buses, do not change when a bridge was looked at. */
  lemma InTurnStays(info: seq<BusInfo>, info': seq<BusInfo>, visits: seq<Visit>, visits': seq<Visit>,
                    looks: seq<seq<nat>>, looks': seq<seq<nat>>, v: nat, times: seq<nat>, n: nat)
    requires |info| == |info'| == 256 && |looks| == |visits| && |looks'| == |visits'| && v < |visits|
    requires visits <= visits'
    requires forall w | v < w < |visits| :: looks'[w] == looks[w]
    requires InTurn(info, visits, looks, v, times, n)
    requires |info'[visits[v].bus].bridges| == |info[visits[v].bus].bridges|
    requires forall i | 0 <= i < n :: info'[visits[v].bus].bridges[i] == info[visits[v].bus].bridges[i]
    ensures InTurn(info', visits', looks', v, times, n)
  {
    forall i | 0 <= i < n
      ensures Timely(info', visits', looks', v, times, i)
    {
      assert Timely(info, visits, looks, v, times, i);
      EarlierStays(visits, visits', info[visits[v].bus].bridges[i].first, times[i]);
    }
  }

  lemma EarlierStays(visits: seq<Visit>, visits': seq<Visit>, b: nat, t: nat)
    requires visits <= visits' && t <= |visits|
    ensures Earlier(visits', b, t) <==> Earlier(visits, b, t)
  {
    if Earlier(visits, b, t) {
      var v :| 0 <= v < |visits| && v < t && visits[v].bus == b;
      assert visits'[v].bus == b;
    }
  }

  lemma ToldStays(info: seq<BusInfo>, info': seq<BusInfo>, visits: seq<Visit>, visits': seq<Visit>,
                  looks: seq<seq<nat>>, looks': seq<seq<nat>>, from: nat)
    requires ToldFrom(info, visits, looks, from) && |info'| == 256 && |looks'| == |visits'| && visits <= visits'
    requires forall w | from <= w < |visits| :: looks'[w] == looks[w]
    requires forall w | from <= w < |visits| ::
               visits[w].bus < 256 && info'[visits[w].bus].bridges == info[visits[w].bus].bridges
    requires ToldFrom(info', visits', looks', |visits|)
    ensures ToldFrom(info', visits', looks', from)
  {
    forall w | from <= w < |visits'|
      ensures Told(info', visits', looks', w)
    {
      if w < |visits| {
        assert Told(info, visits, looks, w);
        InTurnStays(info, info', visits, visits', looks, looks', w, looks[w], |info[visits[w].bus].bridges|);
      }
    }
  }

  /** The guestbook tells which buses were visited before now. */
  lemma EarlierMarked(info: seq<BusInfo>, visits: seq<Visit>, b: nat)
    requires |info| == 256 && Marked(info, visits) && b < 256
    ensures Earlier(visits, b, |visits|) <==> info[b].guestbook
  {
    if info[b].guestbook {
      assert Visited(visits, b);
    }
  }

  lemma TellFirst(info: seq<BusInfo>, visits: seq<Visit>, looks: seq<seq<nat>>, x: Visit)
    requires |info| == 256 && |looks| == |visits| && x.bus < 256
    ensures Telling(info, visits + [x], looks + [[]], |visits|, [|visits| + 1], 0)
  {
  }

  /** A bridge is flagged: no visit is made. */
  lemma TellFlagged(info: seq<BusInfo>, visits: seq<Visit>, looks: seq<seq<nat>>, v: nat, times: seq<nat>, i: nat,
                    bug: int)
    requires Telling(info, visits, looks, v, times, i) && Forest(info, visits) && Marked(info, visits)
    requires i < |info[visits[v].bus].bridges|
    requires var b := info[visits[v].bus].bridges[i];
             if info[b.first].guestbook then bug == OVERLAP
             else bug == CROSSING && (b.first < visits[v].min || visits[v].max < b.last)
    ensures Telling(WithBug(info, visits[v].bus, i, bug), visits, looks, v, times + [|visits|], i + 1)
  {
    var info' := WithBug(info, visits[v].bus, i, bug);
    EarlierMarked(info, visits, info[visits[v].bus].bridges[i].first);
    ToldStays(info, info', visits, visits, looks, looks, v + 1);
    InTurnStays(info, info', visits, visits, looks, looks, v, times, i);
    InTurnNext(info', visits, looks, v, times, i, |visits|);
  }

  lemma InTurnNext(info: seq<BusInfo>, visits: seq<Visit>, looks: seq<seq<nat>>, v: nat, times: seq<nat>, i: nat,
                   next: nat)
    requires |info| == 256 && |looks| == |visits| && v < |visits| && InTurn(info, visits, looks, v, times, i)
    requires i < |info[visits[v].bus].bridges| && Timely(info, visits, looks, v, times + [next], i)
    ensures InTurn(info, visits, looks, v, times + [next], i + 1)
  {
    forall j | 0 <= j < i
      ensures Timely(info, visits, looks, v, times + [next], j)
    {
      assert Timely(info, visits, looks, v, times, j);
    }
  }

  /** A bridge is entered, and the visits behind it are over. */
  lemma TellEntered(info: seq<BusInfo>, info': seq<BusInfo>, visits: seq<Visit>, visits': seq<Visit>,
                    looks: seq<seq<nat>>, looks': seq<seq<nat>>, v: nat, times: seq<nat>, i: nat)
    requires Telling(info, visits, looks, v, times, i) && Marked(info, visits) && |info'| == 256
    requires i < |info[visits[v].bus].bridges|
    requires var b := info[visits[v].bus].bridges[i];
             && !info[b.first].guestbook && visits[v].min <= b.first && b.last <= visits[v].max && b.bug == NO_BUG
             && visits + [Visit(b.first, b.first, b.last, v)] <= visits'
    requires looks <= looks' && ToldFrom(info', visits', looks', |visits|)
    requires |visits| < |looks'| && Ends(looks'[|visits|], |visits'|)
    requires forall w | 0 <= w < |visits| :: info'[visits[w].bus].bridges == info[visits[w].bus].bridges
    ensures Telling(info', visits', looks', v, times + [|visits'|], i + 1)
  {
    var b := info[visits[v].bus].bridges[i];
    EarlierMarked(info, visits, b.first);
    EarlierStays(visits, visits', b.first, |visits|);
    assert visits'[|visits|] == Visit(b.first, b.first, b.last, v);
    ToldStays(info, info', visits, visits', looks, looks', v + 1);
    InTurnStays(info, info', visits, visits', looks, looks', v, times, i);
    InTurnNext(info', visits', looks', v, times, i, |visits'|);
  }

  /** The times of a visit that is over are put with the others. */
  lemma TellClosed(info: seq<BusInfo>, visits: seq<Visit>, looks: seq<seq<nat>>, v: nat, times: seq<nat>)
    requires times != [] && Telling(info, visits, looks, v, times, |times| - 1)
    requires |times| - 1 == |info[visits[v].bus].bridges|
    ensures ToldFrom(info, visits, looks[v := times], v) && Ends(times, |visits|)
  {
    var looks' := looks[v := times];
    forall w | v <= w < |visits|
      ensures Told(info, visits, looks', w)
    {
      if w > v {
        assert Told(info, visits, looks, w);
      }
      InTurnStays(info, info, visits, visits, looks, looks', w, looks'[w], |info[visits[w].bus].bridges|);
    }
  }

  // ---------------------------------------------------------------------- the walk

  /** Visits a bus, entered with a range, and the buses behind its bridges. */
  method DoMapBridges(info: array<BusInfo>, bus: nat, min: int, max: int,
                      ghost visits: seq<Visit>, ghost looks: seq<seq<nat>>, ghost x: Visit, ghost open: set<nat>)
    returns (ghost visits': seq<Visit>, ghost looks': seq<seq<nat>>)
    requires info.Length == 256 && x.bus == bus && x.min == min && x.max == max && |looks| == |visits|
    requires Ready(info[..], visits, x, open)
    modifies info
    ensures looks <= looks' && |looks'| == |visits'| && ToldFrom(info[..], visits', looks', |visits|)
    ensures forall w | |visits| < w < |visits'| :: visits'[w].parent >= 0
    ensures |visits| < |looks'| && Ends(looks'[|visits|], |visits'|)
    ensures visits + [x] <= visits' && Good(info[..], visits', open)
    ensures Kept(old(info[..]), info[..]) && Inside(old(info[..]), info[..], bus)
    ensures info[bus].guestbook && info[bus].via == old(info[bus].via)
    decreases Unvisited(info[..])
  {
    hide Good, Rooted, UpTo, Settled, Kept, Inside, Unvisited, WithBug, Telling, ToldFrom, Forest, Marked;
    ghost var info0, v := info[..], |visits|;
    Entered(info0, visits, x, open);
    info[bus] := info[bus].(guestbook := true);
    assert info[..] == info0[bus := info0[bus].(guestbook := true)];
    visits', looks' := visits + [x], looks + [[]];
    ghost var times: seq<nat> := [v + 1];
    TellFirst(info[..], visits, looks, x);
    var n := |info[bus].bridges|;
    var i := 0;
    while i < n
      invariant 0 <= i <= n && |info[bus].bridges| == n && bus < 256
      invariant visits + [x] <= visits' && info[bus].guestbook && info[bus].via == info0[bus].via
      invariant Good(info[..], visits', open + {bus}) && UpTo(info[..], x, i)
      invariant forall w | v < w < |visits'| :: visits'[w].parent >= 0
      invariant looks + [[]] <= looks' && |looks'| == |visits'| && |times| == i + 1
      invariant Telling(info[..], visits', looks', v, times, i)
      invariant Kept(info0, info[..]) && Inside(info0, info[..], bus)
      invariant Unvisited(info[..]) < Unvisited(info0)
    {
      var b := info[bus].bridges[i];
      ghost var now := info[..];
      assert visits'[v] == x;
      GoodFacts(now, visits', open + {bus});
      if info[b.first].guestbook {
        Flagged(now, visits', open + {bus}, v, i, OVERLAP);
        KeptFlagged(info0, now, bus, i, OVERLAP);
        TellFlagged(now, visits', looks', v, times, i, OVERLAP);
        times := times + [|visits'|];
        SetBug(info, bus, i, OVERLAP);
      } else if b.first < min || b.last > max {
        Flagged(now, visits', open + {bus}, v, i, CROSSING);
        KeptFlagged(info0, now, bus, i, CROSSING);
        TellFlagged(now, visits', looks', v, times, i, CROSSING);
        times := times + [|visits'|];
        SetBug(info, bus, i, CROSSING);
      } else {
        CanEnter(now, visits', open + {bus}, v, i);
        info[b.first] := info[b.first].(via := Some(Ref(bus, i)));
        ghost var linked := info[..];
        assert linked == now[b.first := now[b.first].(via := Some(Ref(bus, i)))];
        LinkedSame(now, linked, b.first);
        ghost var before, told := visits', looks';
        visits', looks' := DoMapBridges(info, b.first, b.first, b.last, visits', looks',
                                        Visit(b.first, b.first, b.last, v), open + {bus});
        BridgesKept(now, linked, info[..], before, b.first);
        UntouchedNext(now, x, i);
        TellEntered(now, info[..], before, visits', told, looks', v, times, i);
        times := times + [|visits'|];
        CameBack(now, info[..], before, open + {bus}, v, i);
        KeptFurther(info0, now, info[..], bus, b.first, i);
      }
      i := i + 1;
    }
    Closed(info[..], visits', open, v);
    TellClosed(info[..], visits', looks', v, times);
    looks' := looks'[v := times];
  }

  ghost predicate Ends(times: seq<nat>, last: nat) {
    times != [] && times[|times| - 1] == last
  }

  lemma GoodFacts(info: seq<BusInfo>, visits: seq<Visit>, open: set<nat>)
    requires Good(info, visits, open)
    ensures |info| == 256 && Forest(info, visits) && Marked(info, visits)
  {
  }

  /** A bridge that has not been looked at has no bug. */
  lemma UntouchedNext(info: seq<BusInfo>, x: Visit, i: nat)
    requires |info| == 256 && x.bus < 256 && UpTo(info, x, i) && i < |info[x.bus].bridges|
    ensures info[x.bus].bridges[i].bug == NO_BUG
  {
    assert Untouched(info, x.bus, i);
  }

  /** A visit leaves the bridges of the buses visited before as they are. */
  lemma BridgesKept(info: seq<BusInfo>, linked: seq<BusInfo>, info': seq<BusInfo>, visits: seq<Visit>, f: nat)
    requires |info| == 256 && Marked(info, visits) && f < 256 && !info[f].guestbook && Kept(linked, info')
    requires linked == info[f := linked[f]] && linked[f] == info[f].(via := linked[f].via)
    ensures forall w | 0 <= w < |visits| ::
              visits[w].bus < 256 && info'[visits[w].bus].bridges == info[visits[w].bus].bridges
  {
  }

  method SetBug(info: array<BusInfo>, p: nat, i: nat, bug: int)
    requires p < info.Length && i < |info[p].bridges|
    modifies info
    ensures info[..] == WithBug(old(info[..]), p, i, bug)
  {
    info[p] := info[p].(bridges := info[p].bridges[i := info[p].bridges[i].(bug := bug)]);
  }

  lemma LinkedSame(info: seq<BusInfo>, linked: seq<BusInfo>, f: nat)
    requires f < |info| == |linked| && linked == info[f := linked[f]] && linked[f] == info[f].(via := linked[f].via)
    ensures Unvisited(linked) == Unvisited(info)
  {
  }

  /** A bus is done when its last bridge is settled. */
  lemma Closed(info: seq<BusInfo>, visits: seq<Visit>, open: set<nat>, v: nat)
    requires v < |visits| && visits[v].bus < 256 && Good(info, visits, open + {visits[v].bus})
    requires UpTo(info, visits[v], |info[visits[v].bus].bridges|)
    ensures Good(info, visits, open)
  {
  }

  /** A table filled in by map_bridge, before any visit. */
  predicate Fresh(info: seq<BusInfo>) {
    && Sane(info)
    && (forall b | 0 <= b < 256 :: !info[b].guestbook && info[b].via == None)
    && (forall p, i | 0 <= p < 256 && 0 <= i < |info[p].bridges| :: info[p].bridges[i].bug == NO_BUG)
  }

  /** The roots are the buses that were not visited before, in the order of their numbers. */
  ghost predicate RootsInOrder(info: seq<BusInfo>, visits: seq<Visit>)
    requires |info| == 256
  {
    forall v, b: nat | 0 <= v < |visits| && visits[v].parent == -1 && b < visits[v].bus && b < 256 && info[b].present ::
      Earlier(visits, b, v)
  }

  /** All buses: every bus that is there is visited exactly once, and so is each bus behind
      a bridge that was entered. The visits form a forest (`Forest`), and every bridge of a
      visited bus is settled, with its bug telling how. The order of visits, and with it
      the bug of each bridge, is that of the numbers of buses and of the lists of bridges
      (`ToldFrom`, `RootsInOrder`). */
  method MapBridges(info: array<BusInfo>) returns (ghost visits: seq<Visit>, ghost looks: seq<seq<nat>>)
    requires info.Length == 256 && Fresh(info[..])
    modifies info
    ensures Forest(info[..], visits) && Marked(info[..], visits)
    ensures forall b | 0 <= b < 256 && info[b].present :: info[b].guestbook
    ensures forall v | 0 <= v < |visits| :: UpTo(info[..], visits[v], |info[visits[v].bus].bridges|)
    ensures ToldFrom(info[..], visits, looks, 0) && RootsInOrder(info[..], visits)
    ensures forall b | 0 <= b < 256 ::
              info[b].present == old(info[b].present) && SameBridges(old(info[b].bridges), info[b].bridges)
  {
    hide Rooted, Settled, Unvisited, ToldFrom, RootsInOrder;
    visits, looks := [], [];
    NoRoots(info[..]);
    ghost var info0 := info[..];
    assert forall p, i | 0 <= p < 256 && 0 <= i < |info0[p].bridges| :: Untouched(info0, p, i);
    var i := 0;
    while i < 256
      invariant 0 <= i <= 256
      invariant Good(info[..], visits, {}) && Kept(info0, info[..])
      invariant |looks| == |visits| && ToldFrom(info[..], visits, looks, 0) && RootsInOrder(info[..], visits)
      invariant forall b | 0 <= b < i && info[b].present :: info[b].guestbook
    {
      if info[i].present && !info[i].guestbook {
        ghost var x := Visit(i, 0, 255, -1);
        RootReady(info[..], visits, x);
        ghost var now, before, told := info[..], visits, looks;
        visits, looks := DoMapBridges(info, i, 0, 255, visits, looks, x, {});
        KeptTwice(info0, now, info[..]);
        ToldStays(now, info[..], before, visits, told, looks, 0);
        NextRoot(now, info[..], before, visits, i);
      }
      i := i + 1;
    }
  }

  lemma NoRoots(info: seq<BusInfo>)
    requires |info| == 256
    ensures ToldFrom(info, [], [], 0) && RootsInOrder(info, [])
  {
  }

  /** Behind the new root all visits have parents. */
  lemma NextRoot(info: seq<BusInfo>, info': seq<BusInfo>, visits: seq<Visit>, visits': seq<Visit>, bus: nat)
    requires Kept(info, info') && RootsInOrder(info, visits) && Marked(info, visits) && bus < 256
    requires visits + [Visit(bus, 0, 255, -1)] <= visits'
    requires forall v | |visits| < v < |visits'| :: visits'[v].parent >= 0
    requires forall b | 0 <= b < bus && info[b].present :: info[b].guestbook
    ensures RootsInOrder(info', visits')
  {
    forall v, b: nat | 0 <= v < |visits'| && visits'[v].parent == -1 && b < visits'[v].bus && b < 256
        && info'[b].present
      ensures Earlier(visits', b, v)
    {
      if v < |visits| {
        assert visits'[v] == visits[v];
        EarlierStays(visits, visits', b, v);
      } else {
        assert visits'[|visits|] == Visit(bus, 0, 255, -1);
        EarlierMarked(info, visits, b);
        EarlierStays(visits, visits', b, |visits|);
      }
    }
  }

  lemma RootReady(info: seq<BusInfo>, visits: seq<Visit>, x: Visit)
    requires Good(info, visits, {}) && x.bus < 256 && info[x.bus].present && !info[x.bus].guestbook
    requires x == Visit(x.bus, 0, 255, -1)
    ensures Ready(info, visits, x, {})
  {
    assert info[x.bus := info[x.bus].(via := None)] == info;
  }

  lemma KeptTwice(info0: seq<BusInfo>, info: seq<BusInfo>, info': seq<BusInfo>)
    requires Kept(info0, info) && Kept(info, info') && forall b | 0 <= b < 256 :: !info0[b].guestbook
    ensures Kept(info0, info')
  {
    forall b | 0 <= b < 256
      ensures SameBridges(info0[b].bridges, info'[b].bridges)
    {
      assert SameBridges(info0[b].bridges, info[b].bridges) && SameBridges(info[b].bridges, info'[b].bridges);
    }
  }

  /** Visit a was entered before visit v, on the way to it. */
  predicate Ancestor(visits: seq<Visit>, a: nat, v: nat)
    requires a <= v < |visits|
  {
    a == v || (a <= visits[v].parent < v && Ancestor(visits, a, visits[v].parent))
  }

  /** Along the links ranges only shrink; as each link leads to an earlier visit, there
      is no way back. */
  lemma {:induction false} RangesNest(info: seq<BusInfo>, visits: seq<Visit>, a: nat, v: nat)
    requires |info| == 256 && Forest(info, visits) && a <= v < |visits| && Ancestor(visits, a, v)
    ensures visits[a].min <= visits[v].min && visits[v].max <= visits[a].max
    ensures visits[v].bus < 256 && (a != v ==> info[visits[v].bus].via.Some? && visits[a].bus != visits[v].bus)
  {
    assert Rooted(info, visits, v);
    if a != v {
      RangesNest(info, visits, a, visits[v].parent);
    }
  }
}

/** Which tables of bridges are mapped without a bug. */
module BusTidy {
  import opened Wrappers
  import opened ByteSeq
  import opened PciConfig
  import opened BusMap

  /** Bridges stand on buses that are there, and lead to buses of higher numbers. */
  predicate Upward(info: seq<BusInfo>) {
    |info| == 256 && forall p, i | 0 <= p < 256 && 0 <= i < |info[p].bridges| :: GoesUp(info[p], p, info[p].bridges[i])
  }

  predicate GoesUp(bus: BusInfo, p: nat, b: Bridge) {
    bus.present && p < b.first
  }

  /** No two bridges lead to the same bus. */
  predicate OneWay(info: seq<BusInfo>) {
    |info| == 256 && forall p, i, q,
        j {:trigger info[p].bridges[i], info[q].bridges[j]} | 0 <= p < 256 && 0 <= i < |info[p].bridges| && 0 <= q < 256
        && 0 <= j < |info[q].bridges| && info[p].bridges[i].first == info[q].bridges[j].first :: p == q && i == j
  }

  /** No bridge goes on beyond the one in front of it. */
  predicate Nested(info: seq<BusInfo>) {
    |info| == 256 && forall p, i, j {:trigger info[info[p].bridges[i].first].bridges[j]}
        | 0 <= p < 256 && 0 <= i < |info[p].bridges|
        && 0 <= j < |info[info[p].bridges[i].first].bridges| ::
      info[info[p].bridges[i].first].bridges[j].last <= info[p].bridges[i].last
  }

  predicate AllBugs(info: seq<BusInfo>, bugs: set<int>) {
    forall p, i | 0 <= p < |info| && 0 <= i < |info[p].bridges| :: info[p].bridges[i].bug in bugs
  }

  /** What `MapBridges` leaves. */
  ghost predicate Mapped(info: seq<BusInfo>, visits: seq<Visit>, looks: seq<seq<nat>>) {
    && |info| == 256 && Forest(info, visits) && Marked(info, visits)
    && (forall b | 0 <= b < 256 && info[b].present :: info[b].guestbook)
    && (forall v | 0 <= v < |visits| :: visits[v].bus < 256 && UpTo(info, visits[v], |info[visits[v].bus].bridges|))
    && ToldFrom(info, visits, looks, 0) && RootsInOrder(info, visits)
  }

  // ------------------------------------------------------------------- one bridge

  /** The visit of the bus on which a bridge stands, and what it has made of the bridge. */
  lemma VisitOf(info: seq<BusInfo>, visits: seq<Visit>, looks: seq<seq<nat>>, p: nat, i: nat) returns (v: nat)
    requires Mapped(info, visits, looks) && Upward(info) && p < 256 && i < |info[p].bridges|
    ensures v < |visits| && visits[v].bus == p && |looks| == |visits| && i + 1 < |looks[v]|
    ensures Rooted(info, visits, v) && Settled(info, visits[v], i) && Timely(info, visits, looks, v, looks[v], i)
  {
    hide Rooted, Settled, RootsInOrder;
    Leads(info, p, i);
    assert info[p].guestbook;
    assert Visited(visits, p);
    v :| 0 <= v < |visits| && visits[v].bus == p;
    assert UpTo(info, visits[v], |info[p].bridges|);
    assert Told(info, visits, looks, v);
  }

  /** The visits behind visit v, up to the end of what it visited, are no roots. */
  lemma {:induction false} NoRootsWithin(info: seq<BusInfo>, visits: seq<Visit>, looks: seq<seq<nat>>, v: nat, n: nat)
    requires ToldFrom(info, visits, looks, 0) && v < |visits| && n < |looks[v]|
    ensures v < looks[v][n] <= |visits|
    ensures forall u | v < u < looks[v][n] :: visits[u].parent >= 0
    decreases |visits| - v, n
  {
    assert Told(info, visits, looks, v);
    if n > 0 {
      NoRootsWithin(info, visits, looks, v, n - 1);
      assert Timely(info, visits, looks, v, looks[v], n - 1);
      var now := looks[v][n - 1];
      if looks[v][n] != now {
        NoRootsWithin(info, visits, looks, now, |looks[now]| - 1);
      }
    }
  }

  /** Time goes on from bridge to bridge. */
  lemma {:induction false} TimesGrow(info: seq<BusInfo>, visits: seq<Visit>, looks: seq<seq<nat>>, v: nat, m: nat,
                                     n: nat)
    requires ToldFrom(info, visits, looks, 0) && v < |visits| && m <= n < |looks[v]|
    ensures looks[v][m] <= looks[v][n]
    decreases n
  {
    assert Told(info, visits, looks, v);
    if m < n {
      TimesGrow(info, visits, looks, v, m, n - 1);
      assert Timely(info, visits, looks, v, looks[v], n - 1);
      var now := looks[v][n - 1];
      if looks[v][n] != now {
        NoRootsWithin(info, visits, looks, now, |looks[now]| - 1);
      }
    }
  }

  /** When a bridge has been looked at and is not out of range, its bus has been visited. */
  lemma SeenBehind(info: seq<BusInfo>, visits: seq<Visit>, looks: seq<seq<nat>>, v: nat, i: nat)
    requires ToldFrom(info, visits, looks, 0) && v < |visits| && visits[v].bus < 256
    requires i < |info[visits[v].bus].bridges| && info[visits[v].bus].bridges[i].bug != CROSSING
    ensures i + 1 < |looks[v]| && Earlier(visits, info[visits[v].bus].bridges[i].first, looks[v][i + 1])
  {
    assert Told(info, visits, looks, v);
    assert Timely(info, visits, looks, v, looks[v], i);
    var now, c := looks[v][i], info[visits[v].bus].bridges[i].first;
    if Earlier(visits, c, now) {
      EarlierLater(visits, c, now, looks[v][i + 1]);
    } else {
      NoRootsWithin(info, visits, looks, now, |looks[now]| - 1);
      assert visits[now].bus == c;
    }
  }

  lemma EarlierLater(visits: seq<Visit>, b: nat, t: nat, t': nat)
    requires Earlier(visits, b, t) && t <= t'
    ensures Earlier(visits, b, t')
  {
  }

  /** Of two bridges on a bus that lead to the same bus, the second one overlaps. */
  lemma SecondWay(info: seq<BusInfo>, visits: seq<Visit>, looks: seq<seq<nat>>, p: nat, i: nat, j: nat)
    requires Mapped(info, visits, looks) && Upward(info) && p < 256 && i < j < |info[p].bridges|
    requires info[p].bridges[i].first == info[p].bridges[j].first && info[p].bridges[i].bug != 2
    ensures info[p].bridges[j].bug == 1
  {
    hide Forest, UpTo, RootsInOrder, Marked, Upward, Rooted, Settled, Told;
    var v := VisitOf(info, visits, looks, p, j);
    SeenBehind(info, visits, looks, v, i);
    TimesGrow(info, visits, looks, v, i + 1, j);
    EarlierLater(visits, info[p].bridges[j].first, looks[v][i + 1], looks[v][j]);
  }

  /** A bridge that leads to a bus seen before does not lead there alone. */
  lemma Overlaps(info: seq<BusInfo>, visits: seq<Visit>, looks: seq<seq<nat>>, p: nat, i: nat)
    requires Mapped(info, visits, looks) && Upward(info) && p < 256 && i < |info[p].bridges|
    requires info[p].bridges[i].bug == OVERLAP
    ensures !OneWay(info)
  {
    hide Forest, UpTo, ToldFrom, RootsInOrder, Timely, Mapped, Marked, Upward;
    Whole(info, visits, looks);
    var v := VisitOf(info, visits, looks, p, i);
    var c := info[p].bridges[i].first;
    var w :| 0 <= w < |visits| && w < looks[v][i] && visits[w].bus == c by {
      SeenBefore(info, visits, looks, v, i);
    }
    NoSuchRoot(info, visits, looks, p, i, v, w);
    RootedThere(info, visits, looks, w);
    var r := info[c].via.value;
    assert info[r.bus].bridges[r.index].first == info[p].bridges[i].first;
  }

  lemma SeenBefore(info: seq<BusInfo>, visits: seq<Visit>, looks: seq<seq<nat>>, v: nat, i: nat)
    requires |info| == 256 && |looks| == |visits| && v < |visits| && visits[v].bus < 256
    requires i < |info[visits[v].bus].bridges| && i + 1 < |looks[v]|
    requires Timely(info, visits, looks, v, looks[v], i) && info[visits[v].bus].bridges[i].bug == OVERLAP
    ensures Earlier(visits, info[visits[v].bus].bridges[i].first, looks[v][i])
  {
    hide Earlier;
  }

  lemma RootedThere(info: seq<BusInfo>, visits: seq<Visit>, looks: seq<seq<nat>>, w: nat)
    requires Mapped(info, visits, looks) && w < |visits|
    ensures |info| == 256 && Rooted(info, visits, w)
  {
    hide Rooted;
  }

  /** A bus that is the root of a tree was not visited from a bus of a lower number. */
  lemma NoSuchRoot(info: seq<BusInfo>, visits: seq<Visit>, looks: seq<seq<nat>>, p: nat, i: nat, v: nat, w: nat)
    requires Mapped(info, visits, looks) && Upward(info) && p < 256 && i < |info[p].bridges|
    requires v < |visits| && visits[v].bus == p && |looks| == |visits| && i < |looks[v]|
    requires w < |visits| && w < looks[v][i] && visits[w].bus == info[p].bridges[i].first
    ensures visits[w].parent != -1
  {
    hide Rooted, UpTo, Told;
    NoRootsWithin(info, visits, looks, v, i);
    Leads(info, p, i);
    if visits[w].parent == -1 {
      RootBehind(info, visits, p, v, w);
    }
  }

  lemma Leads(info: seq<BusInfo>, p: nat, i: nat)
    requires Upward(info) && p < 256 && i < |info[p].bridges|
    ensures info[p].present && p < info[p].bridges[i].first
  {
    assert GoesUp(info[p], p, info[p].bridges[i]);
  }

  /** Roots come behind the buses of lower numbers. */
  lemma RootBehind(info: seq<BusInfo>, visits: seq<Visit>, p: nat, v: nat, w: nat)
    requires |info| == 256 && Forest(info, visits) && RootsInOrder(info, visits)
    requires v < |visits| && w < |visits| && visits[v].bus == p < 256 && info[p].present
    requires visits[w].parent == -1 && p < visits[w].bus
    ensures v < w
  {
    hide Rooted;
    assert Earlier(visits, p, w);
    var u :| 0 <= u < |visits| && u < w && visits[u].bus == p;
    SameVisit(info, visits, u, v);
  }

  lemma SameVisit(info: seq<BusInfo>, visits: seq<Visit>, u: nat, v: nat)
    requires |info| == 256 && Forest(info, visits) && u < |visits| && v < |visits| && visits[u].bus == visits[v].bus
    ensures u == v
  {
    hide Rooted;
  }

  /** A bridge that goes on beyond the range of its bus does so beyond the bridge in front of it. */
  lemma Crosses(info: seq<BusInfo>, visits: seq<Visit>, looks: seq<seq<nat>>, p: nat, i: nat)
    requires Mapped(info, visits, looks) && Upward(info) && p < 256 && i < |info[p].bridges|
    requires info[p].bridges[i].bug == CROSSING
    ensures !Nested(info)
  {
    hide Forest, UpTo, ToldFrom, RootsInOrder, Timely, Mapped, Marked;
    Whole(info, visits, looks);
    var v := VisitOf(info, visits, looks, p, i);
    Leads(info, p, i);
    var r := info[p].via.value;
    assert info[info[r.bus].bridges[r.index].first].bridges[i].last > info[r.bus].bridges[r.index].last;
  }

  /** A bridge without a bug was entered. */
  lemma Enters(info: seq<BusInfo>, visits: seq<Visit>, looks: seq<seq<nat>>, p: nat, i: nat)
    requires Mapped(info, visits, looks) && Upward(info) && p < 256 && i < |info[p].bridges|
    ensures var bug := info[p].bridges[i].bug;
            && bug in {0, 1, 2}
            && (bug == 0 <==> info[info[p].bridges[i].first].via == Some(Ref(p, i)))
  {
    hide Forest, UpTo, ToldFrom, RootsInOrder, Timely, Mapped, Marked, Upward, Rooted;
    Whole(info, visits, looks);
    var v := VisitOf(info, visits, looks, p, i);
  }

  /** Two bridges without a bug that stand one behind the other are nested. */
  lemma NestedThere(info: seq<BusInfo>, visits: seq<Visit>, looks: seq<seq<nat>>, p: nat, i: nat, j: nat)
    requires Mapped(info, visits, looks) && Upward(info) && p < 256 && i < |info[p].bridges|
    requires var c := info[p].bridges[i].first;
             j < |info[c].bridges| && info[p].bridges[i].bug == 0 && info[c].bridges[j].bug == 0
    ensures info[info[p].bridges[i].first].bridges[j].last <= info[p].bridges[i].last
  {
    hide Forest, UpTo, ToldFrom, RootsInOrder, Mapped, Marked, Upward, Settled, Earlier;
    Whole(info, visits, looks);
    var c := info[p].bridges[i].first;
    Enters(info, visits, looks, p, i);
    var v := VisitOf(info, visits, looks, c, j);
  }

  /** There are no bugs exactly in tables where each bus has one bridge that leads there, and
      ranges are nested. */
  lemma NoBugs(info: seq<BusInfo>, visits: seq<Visit>, looks: seq<seq<nat>>)
    requires Mapped(info, visits, looks) && Upward(info)
    ensures AllBugs(info, {0}) <==> OneWay(info) && Nested(info)
    ensures OneWay(info) ==> AllBugs(info, {0, 2})
    ensures Nested(info) ==> AllBugs(info, {0, 1})
  {
    hide Mapped, Upward, OneWay, Nested;
    forall p, i | 0 <= p < |info| && 0 <= i < |info[p].bridges|
      ensures info[p].bridges[i].bug in {0, 1, 2}
      ensures info[p].bridges[i].bug == 1 ==> !OneWay(info)
      ensures info[p].bridges[i].bug == 2 ==> !Nested(info)
    {
      Whole(info, visits, looks);
      Enters(info, visits, looks, p, i);
      if info[p].bridges[i].bug == 1 {
        Overlaps(info, visits, looks, p, i);
      } else if info[p].bridges[i].bug == 2 {
        Crosses(info, visits, looks, p, i);
      }
    }
    if AllBugs(info, {0}) {
      BuglessIsTidy(info, visits, looks);
    }
  }

  lemma Whole(info: seq<BusInfo>, visits: seq<Visit>, looks: seq<seq<nat>>)
    requires Mapped(info, visits, looks)
    ensures |info| == 256
  {
  }

  lemma BuglessIsTidy(info: seq<BusInfo>, visits: seq<Visit>, looks: seq<seq<nat>>)
    requires Mapped(info, visits, looks) && Upward(info) && AllBugs(info, {0})
    ensures OneWay(info) && Nested(info)
  {
    hide Mapped, Upward;
    Whole(info, visits, looks);
    forall p, i, q, j | 0 <= p < 256 && 0 <= i < |info[p].bridges| && 0 <= q < 256
      && 0 <= j < |info[q].bridges| && info[p].bridges[i].first == info[q].bridges[j].first
      ensures p == q && i == j
    {
      Enters(info, visits, looks, p, i);
      Enters(info, visits, looks, q, j);
    }
    forall p, i, j | 0 <= p < 256 && 0 <= i < |info[p].bridges|
      && 0 <= j < |info[info[p].bridges[i].first].bridges|
      ensures info[info[p].bridges[i].first].bridges[j].last <= info[p].bridges[i].last
    {
      NestedThere(info, visits, looks, p, i, j);
    }
  }

  // ------------------------------------------------------------------------ the table

  /** A table that differs in bugs and links only. */
  predicate SameTable(info: seq<BusInfo>, info': seq<BusInfo>) {
    |info| == |info'| == 256 && forall b | 0 <= b < 256 ::
      info'[b].present == info[b].present && SameBridges(info[b].bridges, info'[b].bridges)
  }

  lemma SameBack(info: seq<BusInfo>, info': seq<BusInfo>)
    requires SameTable(info, info')
    ensures SameTable(info', info)
  {
    forall b | 0 <= b < 256
      ensures SameBridges(info'[b].bridges, info[b].bridges)
    {
      assert SameBridges(info[b].bridges, info'[b].bridges);
    }
  }

  lemma SameBridge(info: seq<BusInfo>, info': seq<BusInfo>, p: nat)
    requires SameTable(info, info') && p < 256
    ensures info'[p].present == info[p].present && |info'[p].bridges| == |info[p].bridges|
    ensures forall i | 0 <= i < |info[p].bridges| ::
              info'[p].bridges[i].first == info[p].bridges[i].first
                  && info'[p].bridges[i].last == info[p].bridges[i].last
  {
    assert SameBridges(info[p].bridges, info'[p].bridges);
  }

  lemma SameTidy(info: seq<BusInfo>, info': seq<BusInfo>)
    requires SameTable(info, info')
    ensures (OneWay(info) ==> OneWay(info')) && (Nested(info) ==> Nested(info'))
  {
    hide SameTable;
    SameLength(info, info');
    forall p: nat | p < 256
      ensures info'[p].present == info[p].present && |info'[p].bridges| == |info[p].bridges|
      ensures forall i | 0 <= i < |info[p].bridges| ::
                info'[p].bridges[i].first == info[p].bridges[i].first
                    && info'[p].bridges[i].last == info[p].bridges[i].last
    {
      SameBridge(info, info', p);
    }
  }

  lemma SameUpward(info: seq<BusInfo>, info': seq<BusInfo>)
    requires SameTable(info, info') && Upward(info)
    ensures Upward(info')
  {
    hide SameTable;
    SameLength(info, info');
    forall p: nat, i: nat | p < 256 && i < |info'[p].bridges|
      ensures GoesUp(info'[p], p, info'[p].bridges[i])
    {
      SameBridge(info, info', p);
      Leads(info, p, i);
    }
  }

  lemma SameLength(info: seq<BusInfo>, info': seq<BusInfo>)
    requires SameTable(info, info')
    ensures |info| == |info'| == 256
  {
  }

  /** Maps a table in which bridges stand on buses that are there, and lead upward. Then, in the
      terms of the table before: no bridge gets a bug exactly if no two lead to the same bus and
      ranges are nested; if only ranges are not nested no overlap is found, and if only some bus
      has two ways to it no crossing is. A bridge has no bug exactly if its bus is entered
      through it, and of two bridges on a bus that lead to the same bus the second one has bug 1,
      unless the first one is out of range. */
  method MapUpward(info: array<BusInfo>)
    requires info.Length == 256 && Fresh(info[..]) && Upward(info[..])
    modifies info
    ensures AllBugs(info[..], {0}) <==> OneWay(old(info[..])) && Nested(old(info[..]))
    ensures OneWay(old(info[..])) ==> AllBugs(info[..], {0, 2})
    ensures Nested(old(info[..])) ==> AllBugs(info[..], {0, 1})
    ensures forall b | 0 <= b < 256 :: SameBridges(old(info[b].bridges), info[b].bridges)
    ensures forall p, i | 0 <= p < 256 && 0 <= i < |info[p].bridges| ::
              info[p].bridges[i].bug == 0 <==> info[info[p].bridges[i].first].via == Some(Ref(p, i))
    ensures forall p, i, j | 0 <= p < 256 && 0 <= i < j < |info[p].bridges| && info[p].bridges[i].bug != 2 ::
              info[p].bridges[i].first == info[p].bridges[j].first ==> info[p].bridges[j].bug == 1
  {
    hide Upward, OneWay, Nested, Forest, UpTo, ToldFrom, RootsInOrder, SameBridges, AllBugs;
    ghost var was := info[..];
    ghost var visits, looks := MapBridges(info);
    SameTidy(was, info[..]);
    SameUpward(was, info[..]);
    SameBack(was, info[..]);
    SameTidy(info[..], was);
    assert Mapped(info[..], visits, looks);
    NoBugs(info[..], visits, looks);
    forall p, i | 0 <= p < 256 && 0 <= i < |info[p].bridges|
      ensures info[p].bridges[i].bug == 0 <==> info[info[p].bridges[i].first].via == Some(Ref(p, i))
    {
      Enters(info[..], visits, looks, p, i);
    }
    forall p, i, j | 0 <= p < 256 && 0 <= i < j < |info[p].bridges| && info[p].bridges[i].bug != 2
      && info[p].bridges[i].first == info[p].bridges[j].first
      ensures info[p].bridges[j].bug == 1
    {
      SecondWay(info[..], visits, looks, p, i, j);
    }
  }
}

/** Splitting a block of configuration space into aligned accesses, lib/generic.c. */
module BlockSplit {
  import opened ByteSeq

  /** An access of 1, 2 or 4 bytes. */
  datatype Access = Access(pos: nat, size: nat)

  predicate Even(pos: nat) {
    pos % 2 == 0
  }

  predicate Quad(pos: nat) {
    pos % 4 == 0
  }

  lemma Half(pos: nat, h: nat, b: nat)
    requires pos == 2 * h + b && b < 2
    ensures Even(pos) <==> b == 0
  {
  }

  lemma Fourth(pos: nat, q: nat, r: nat)
    requires pos == 4 * q + r && r < 4
    ensures Quad(pos) <==> r == 0
  {
  }

  lemma Quarters(pos: nat, q: nat, r: nat)
    requires pos == 4 * q + r && r < 4
    ensures Quad(pos) <==> r == 0
    ensures Even(pos) <==> r == 0 || r == 2
  {
    hide Even, Quad;
    Half(pos, if r < 2 then 2 * q else 2 * q + 1, if r < 2 then r else r - 2);
    Fourth(pos, q, r);
  }

  /** Positions next to each other. */
  lemma Parity(pos: nat)
    ensures Even(pos + 1) <==> !Even(pos)
    ensures Even(pos + 2) <==> Even(pos)
    ensures Quad(pos) ==> Even(pos)
    ensures Even(pos) ==> (Quad(pos + 2) <==> !Quad(pos))
    ensures Quad(pos + 4) <==> Quad(pos)
  {
    var q, r := pos / 4, pos % 4;
    hide Even, Quad;
    Quarters(pos, q, r);
    Quarters(pos + 4, q + 1, r);
    Quarters(pos + 1, if r < 3 then q else q + 1, if r < 3 then r + 1 else 0);
    Quarters(pos + 2, if r < 2 then q else q + 1, if r < 2 then r + 2 else r - 2);
  }

  predicate Aligned(a: Access) {
    a.size == 1 || (a.size == 2 && Even(a.pos)) || (a.size == 4 && Quad(a.pos))
  }

  /** Aligned accesses that cover [pos, pos + len) one after the other. */
  predicate Partition(s: seq<Access>, pos: nat, len: nat)
    decreases |s|
  {
    if s == [] then len == 0
    else Aligned(s[0]) && s[0].pos == pos && s[0].size <= len && Partition(s[1..], pos + s[0].size, len - s[0].size)
  }

  /** The largest aligned access that fits. */
  function Size(pos: nat, len: nat): (r: nat)
    requires len > 0
    ensures 0 < r <= len && Aligned(Access(pos, r))
  {
    if Quad(pos) && len >= 4 then 4 else if Even(pos) && len >= 2 then 2 else 1
  }

  /** The largest aligned access that fits, again and again. */
  function Greedy(pos: nat, len: nat): seq<Access>
    decreases len
  {
    if len == 0 then []
    else [Access(pos, Size(pos, len))] + Greedy(pos + Size(pos, len), len - Size(pos, len))
  }

  lemma {:induction false} GreedyCovers(pos: nat, len: nat)
    ensures Partition(Greedy(pos, len), pos, len)
    decreases len
  {
    if len > 0 {
      var size := Size(pos, len);
      GreedyCovers(pos + size, len - size);
      assert Greedy(pos, len)[1..] == Greedy(pos + size, len - size);
    }
  }

  /** One step of the split. */
  lemma Step(pos: nat, len: nat, size: nat)
    requires len > 0 && size == Size(pos, len)
    ensures size <= len && Greedy(pos, len) == [Access(pos, size)] + Greedy(pos + size, len - size)
  {
  }

  lemma StepLength(pos: nat, len: nat, size: nat, pos': nat, len': nat)
    requires len > 0 && size == Size(pos, len) && pos' == pos + size && len' + size == len
    ensures |Greedy(pos, len)| == 1 + |Greedy(pos', len')|
  {
  }

  /** What the smaller accesses leave of a larger one. */
  lemma SmallerSizes(pos: nat, len: nat)
    requires len > 0
    ensures var size := Size(pos, len);
            && (size == 1 || size == 2 || size == 4)
            && (size == 4 ==> len >= 4 && Size(pos + 1, len - 1) == 1 && Size(pos + 2, len - 2) == 2)
            && (size == 2 ==> len >= 2 && Size(pos + 1, len - 1) == 1)
  {
    Parity(pos);
    Parity(pos + 1);
    hide Even, Quad;
  }

  lemma Fits(pos: nat, len: nat, a: Access)
    requires Aligned(a) && a.pos == pos && a.size <= len
    ensures len > 0 && a.size <= Size(pos, len) && (a.size == 1 || a.size == 2 || a.size == 4)
  {
    Parity(pos);
    hide Even, Quad;
  }

  lemma OneFirst(pos: nat, len: nat, pos1: nat, len1: nat)
    requires len > 0 && pos1 == pos + 1 && len1 + 1 == len
    ensures |Greedy(pos, len)| <= 1 + |Greedy(pos1, len1)|
  {
    hide Greedy, Size;
    SmallerSizes(pos, len);
    if Size(pos, len) == 4 {
      StepLength(pos, len, 4, pos + 4, len - 4);
      StepLength(pos1, len1, 1, pos + 2, len - 2);
      StepLength(pos + 2, len - 2, 2, pos + 4, len - 4);
    } else if Size(pos, len) == 2 {
      StepLength(pos, len, 2, pos + 2, len - 2);
      StepLength(pos1, len1, 1, pos + 2, len - 2);
    } else {
      StepLength(pos, len, 1, pos1, len1);
    }
  }

  lemma TwoFirst(pos: nat, len: nat, pos2: nat, len2: nat)
    requires len > 0 && Size(pos, len) >= 2 && pos2 == pos + 2 && len2 + 2 == len
    ensures |Greedy(pos, len)| <= 1 + |Greedy(pos2, len2)|
  {
    hide Greedy, Size;
    SmallerSizes(pos, len);
    if Size(pos, len) == 4 {
      StepLength(pos, len, 4, pos + 4, len - 4);
      StepLength(pos2, len2, 2, pos + 4, len - 4);
    } else {
      StepLength(pos, len, 2, pos2, len2);
    }
  }

  /** Beginning with another access does not help. */
  lemma Detour(pos: nat, len: nat, a: Access)
    requires Aligned(a) && a.pos == pos && a.size <= len
    ensures |Greedy(pos, len)| <= 1 + |Greedy(pos + a.size, len - a.size)|
  {
    Fits(pos, len, a);
    hide Greedy, Size, Aligned;
    var pos', len' := pos + a.size, len - a.size;
    if a.size == 1 {
      OneFirst(pos, len, pos', len');
    } else if a.size == 2 {
      TwoFirst(pos, len, pos', len');
    } else {
      SmallerSizes(pos, len);
      StepLength(pos, len, a.size, pos', len');
    }
  }

  /** No other split into aligned accesses is shorter. */
  lemma {:induction false} Fewest(s: seq<Access>, pos: nat, len: nat)
    requires Partition(s, pos, len)
    ensures |Greedy(pos, len)| <= |s|
    decreases |s|
  {
    hide Greedy;
    if s == [] {
      Empty(pos);
    } else {
      Fewest(s[1..], pos + s[0].size, len - s[0].size);
      Detour(pos, len, s[0]);
    }
  }

  lemma Empty(pos: nat)
    ensures Greedy(pos, 0) == []
  {
  }

  /** The accesses up to the first that fails. */
  function UpToFailure(s: seq<Access>, failing: set<Access>): seq<Access> {
    if s == [] then [] else if s[0] in failing then [s[0]] else [s[0]] + UpToFailure(s[1..], failing)
  }

  predicate NoneFails(s: seq<Access>, failing: set<Access>) {
    forall i | 0 <= i < |s| :: s[i] !in failing
  }

  /** After some accesses that succeed come those of the rest. */
  lemma {:induction false} AllMade(done: seq<Access>, rest: seq<Access>, failing: set<Access>)
    requires NoneFails(done, failing)
    ensures UpToFailure(done + rest, failing) == done + UpToFailure(rest, failing)
    decreases |done|
  {
    if done == [] {
      assert done + rest == rest;
    } else {
      var u := UpToFailure(rest, failing);
      assert (done + rest)[0] == done[0] && (done + rest)[1..] == done[1..] + rest;
      AllMade(done[1..], rest, failing);
      hide UpToFailure;
      assert [done[0]] + (done[1..] + u) == done + u;
    }
  }

  /** What remains to be done after some accesses. */
  ghost predicate Rest(all: seq<Access>, made: seq<Access>, pos: nat, len: nat, failing: set<Access>) {
    all == made + Greedy(pos, len) && NoneFails(made, failing)
  }

  lemma Begin(pos: nat, len: nat, failing: set<Access>)
    ensures Rest(Greedy(pos, len), [], pos, len, failing)
  {
    assert [] + Greedy(pos, len) == Greedy(pos, len);
  }

  /** The next access of the split: when it fails, that is all. */
  lemma Advance(all: seq<Access>, made: seq<Access>, pos: nat, len: nat, size: nat, failing: set<Access>)
    requires Rest(all, made, pos, len, failing) && len > 0 && size == Size(pos, len)
    ensures var a := Access(pos, size);
            && size <= len && a in all
            && if a in failing then UpToFailure(all, failing) == made + [a]
               else Rest(all, made + [a], pos + size, len - size, failing)
  {
    hide Greedy, UpToFailure, Aligned;
    var a, rest := Access(pos, size), Greedy(pos + size, len - size);
    Step(pos, len, size);
    assert all == made + [a] + rest && all[|made|] == a;
    if a in failing {
      AllMade(made, [a] + rest, failing);
      FirstFails(a, rest, failing);
      assert all == made + ([a] + rest);
    }
  }

  lemma FirstFails(a: Access, rest: seq<Access>, failing: set<Access>)
    requires a in failing
    ensures UpToFailure([a] + rest, failing) == [a]
  {
  }

  lemma Finished(all: seq<Access>, made: seq<Access>, pos: nat, failing: set<Access>)
    requires Rest(all, made, pos, 0, failing)
    ensures UpToFailure(all, failing) == made && forall a | a in all :: a !in failing
  {
    AllMade(made, [], failing);
    assert made + [] == made;
  }

  // ---------------------------------------------------------------------- the buffer

  /** The accessor that is handed in either fills the buffer or empties it. */
  datatype Direction = Reading | Writing

  /** Configuration space behind a back-end, which fails on some accesses. */
  class Space {
    var regs: nat -> Byte
    const failing: set<Access>

    constructor (regs: nat -> Byte, failing: set<Access>)
      ensures this.regs == regs && this.failing == failing
    {
      this.regs, this.failing := regs, failing;
    }

    /** One access, from or to the place `off` of the buffer. */
    method Make(dir: Direction, a: Access, buf: array<Byte>, off: nat) returns (ok: bool)
      requires off + a.size <= buf.Length
      modifies this, buf
      ensures ok == (a !in failing)
      ensures Moved(dir, a, off, ok, buf[..], regs, old(buf[..]), old(regs))
    {
      ok := a !in failing;
      ghost var was := buf[..];
      if ok && dir == Writing {
        var data, before := buf[off..off + a.size], regs;
        regs := (p: nat) => if a.pos <= p < a.pos + a.size then data[p - a.pos] else before(p);
      } else if ok {
        var i := 0;
        while i < a.size
          modifies buf
          invariant 0 <= i <= a.size
          invariant forall k | 0 <= k < buf.Length ::
                      buf[k] == if off <= k < off + i then regs(a.pos + k - off) else was[k]
        {
          buf[off + i] := regs(a.pos + i);
          i := i + 1;
        }
      }
    }
  }

  /** An access touches its bytes only; when it succeeds they are the same on both sides. */
  ghost predicate Moved(dir: Direction, a: Access, off: nat, ok: bool, buf: seq<Byte>, regs: nat -> Byte,
                        buf0: seq<Byte>, regs0: nat -> Byte) {
    && |buf| == |buf0| && off + a.size <= |buf|
    && (if dir == Reading then regs == regs0 else buf == buf0)
    && (forall i | 0 <= i < |buf| && !(off <= i < off + a.size) :: buf[i] == buf0[i])
    && (forall p: nat | !(a.pos <= p < a.pos + a.size) :: regs(p) == regs0(p))
    && (ok ==> forall i | off <= i < off + a.size :: buf[i] == regs(a.pos + i - off))
  }

  /** The first n bytes of the block have been moved, those from m on have not. */
  ghost predicate Copied(dir: Direction, start: nat, n: nat, m: nat, buf: seq<Byte>, regs: nat -> Byte,
                         buf0: seq<Byte>, regs0: nat -> Byte) {
    && |buf| == |buf0| && n <= m <= |buf|
    && (if dir == Reading then regs == regs0 else buf == buf0)
    && (forall i | 0 <= i < n :: buf[i] == regs(start + i))
    && (forall i | m <= i < |buf| :: buf[i] == buf0[i])
    && (forall p: nat | p < start || start + m <= p :: regs(p) == regs0(p))
  }

  lemma NothingCopied(dir: Direction, start: nat, buf: seq<Byte>, regs: nat -> Byte)
    ensures Copied(dir, start, 0, 0, buf, regs, buf, regs)
  {
  }

  /** The next access moves the next bytes. */
  lemma CopyOn(dir: Direction, start: nat, n: nat, size: nat, ok: bool, buf: seq<Byte>, regs: nat -> Byte,
               mid: seq<Byte>, regs1: nat -> Byte, buf0: seq<Byte>, regs0: nat -> Byte)
    requires Copied(dir, start, n, n, mid, regs1, buf0, regs0)
    requires Moved(dir, Access(start + n, size), n, ok, buf, regs, mid, regs1)
    ensures Copied(dir, start, if ok then n + size else n, n + size, buf, regs, buf0, regs0)
  {
  }

  /** What a block operation leaves behind: all bytes moved, or those before the access
      that failed. */
  ghost predicate Result(dir: Direction, start: nat, count: nat, ok: bool, made: seq<Access>, failing: set<Access>,
                         buf: seq<Byte>, regs: nat -> Byte, buf0: seq<Byte>, regs0: nat -> Byte) {
    && made == UpToFailure(Greedy(start, count), failing)
    && (ok <==> forall a | a in Greedy(start, count) :: a !in failing)
    && if ok then Copied(dir, start, count, count, buf, regs, buf0, regs0)
       else
         && made != []
         && var a := made[|made| - 1];
         && start <= a.pos && a.pos + a.size <= start + count
         && Copied(dir, start, a.pos - start, a.pos + a.size - start, buf, regs, buf0, regs0)
  }

  /** After some accesses: what is left to do, and what has been moved. */
  ghost predicate Going(dir: Direction, start: nat, count: nat, made: seq<Access>, pos: nat, len: nat,
                        failing: set<Access>, buf: seq<Byte>, regs: nat -> Byte, buf0: seq<Byte>, regs0: nat -> Byte) {
    && start <= pos && pos + len == start + count && count <= |buf|
    && Rest(Greedy(start, count), made, pos, len, failing)
    && Copied(dir, start, pos - start, pos - start, buf, regs, buf0, regs0)
  }

  lemma Goes(dir: Direction, start: nat, count: nat, made: seq<Access>, pos: nat, len: nat, size: nat, ok: bool,
             failing: set<Access>, buf: seq<Byte>, regs: nat -> Byte, mid: seq<Byte>, regs1: nat -> Byte,
             buf0: seq<Byte>, regs0: nat -> Byte)
    requires Going(dir, start, count, made, pos, len, failing, mid, regs1, buf0, regs0)
    requires len > 0 && size == Size(pos, len) && ok == (Access(pos, size) !in failing)
    requires pos >= start && Moved(dir, Access(pos, size), pos - start, ok, buf, regs, mid, regs1)
    ensures if ok then
              size <= len && Going(dir, start, count, made + [Access(pos, size)], pos + size, len - size, failing, buf,
                                   regs, buf0, regs0)
            else Result(dir, start, count, false, made + [Access(pos, size)], failing, buf, regs, buf0, regs0)
  {
    hide Copied, Greedy, UpToFailure, Rest;
    var all := Greedy(start, count);
    Advance(all, made, pos, len, size, failing);
    CopyOn(dir, start, pos - start, size, ok, buf, regs, mid, regs1, buf0, regs0);
  }

  lemma Ends(dir: Direction, start: nat, count: nat, made: seq<Access>, pos: nat, failing: set<Access>,
             buf: seq<Byte>, regs: nat -> Byte, buf0: seq<Byte>, regs0: nat -> Byte)
    requires Going(dir, start, count, made, pos, 0, failing, buf, regs, buf0, regs0)
    ensures Result(dir, start, count, true, made, failing, buf, regs, buf0, regs0)
  {
    hide Copied, Greedy, UpToFailure, Rest;
    Finished(Greedy(start, count), made, pos, failing);
  }

  /** From here on only accesses of four bytes are possible, or at most three bytes are left. */
  predicate Lined(pos: nat, len: nat) {
    Quad(pos) || len == 0 || (len == 1 && Even(pos))
  }

  lemma AtByte(pos: nat, len: nat)
    requires !Even(pos) && len >= 1
    ensures Size(pos, len) == 1 && Even(pos + 1)
  {
    Parity(pos);
    hide Even, Quad;
  }

  lemma AtPair(pos: nat, len: nat)
    requires Even(pos) && !Quad(pos) && len >= 2
    ensures Size(pos, len) == 2 && Lined(pos + 2, len - 2)
  {
    Parity(pos);
    hide Even, Quad;
  }

  lemma InLine(pos: nat, len: nat)
    requires Lined(pos, len) && len > 0
    ensures Size(pos, len) == if len >= 4 then 4 else if len >= 2 then 2 else 1
    ensures len >= 4 ==> Lined(pos + 4, len - 4)
    ensures 2 <= len < 4 ==> Lined(pos + 2, len - 2)
  {
    Parity(pos);
    hide Even, Quad;
  }

  /** One access of the operation, from or to the place of the buffer that belongs to it. */
  method Take(space: Space, dir: Direction, buf: array<Byte>, pos: nat, off: nat, size: nat, before: seq<Access>,
              ghost start: nat, ghost count: nat, ghost len: nat, ghost buf0: seq<Byte>, ghost regs0: nat -> Byte)
    returns (ok: bool, made: seq<Access>)
    requires Going(dir, start, count, before, pos, len, space.failing, buf[..], space.regs, buf0, regs0)
    requires len > 0 && size == Size(pos, len) && pos == start + off
    modifies space, buf
    ensures if ok then
              size <= len && Going(dir, start, count, made, pos + size, len - size, space.failing, buf[..], space.regs,
                                   buf0, regs0)
            else Result(dir, start, count, false, made, space.failing, buf[..], space.regs, buf0, regs0)
  {
    InBuffer(dir, start, count, before, pos, len, space.failing, buf[..], space.regs, buf0, regs0);
    hide Going, Result, Moved;
    ghost var mid, regs1 := buf[..], space.regs;
    ok := space.Make(dir, Access(pos, size), buf, off);
    Goes(dir, start, count, before, pos, len, size, ok, space.failing, buf[..], space.regs, mid, regs1, buf0, regs0);
    made := before + [Access(pos, size)];
  }

  lemma InBuffer(dir: Direction, start: nat, count: nat, made: seq<Access>, pos: nat, len: nat,
                 failing: set<Access>, buf: seq<Byte>, regs: nat -> Byte, buf0: seq<Byte>, regs0: nat -> Byte)
    requires Going(dir, start, count, made, pos, len, failing, buf, regs, buf0, regs0)
    ensures start <= pos && pos - start + len <= |buf|
  {
    hide Copied, Rest;
  }

  /** pci_generic_block_op: moves a block between the space and the buffer with the accesses
      of the greedy split, one after the other, until one fails. After success the two hold
      the same bytes; after a failure those before the access that failed do, and nothing
      behind it has been touched. */
  method BlockOp(space: Space, dir: Direction, start: nat, buf: array<Byte>, count: nat)
    returns (ok: bool, made: seq<Access>)
    requires count <= buf.Length
    modifies space, buf
    ensures Result(dir, start, count, ok, made, space.failing, buf[..], space.regs, old(buf[..]), old(space.regs))
  {
    ghost var buf0, regs0 := buf[..], space.regs;
    Begin(start, count, space.failing);
    NothingCopied(dir, start, buf0, regs0);
    assert Going(dir, start, count, [], start, count, space.failing, buf[..], space.regs, buf0, regs0);
    hide Going, Result, Rest, Copied, Size, Lined, Moved, Greedy, UpToFailure, NoneFails, Even, Quad;
    var pos: nat, off: nat, len: nat;
    ok, made, pos, off, len := BlockHead(space, dir, start, buf, count, buf0, regs0);
    if !ok {
      return;
    }
    while len >= 4
      invariant pos == start + off && Lined(pos, len)
      invariant Going(dir, start, count, made, pos, len, space.failing, buf[..], space.regs, buf0, regs0)
    {
      InLine(pos, len);
      ok, made := Take(space, dir, buf, pos, off, 4, made, start, count, len, buf0, regs0);
      if !ok {
        return;
      }
      pos, off, len := pos + 4, off + 4, len - 4;
    }
    ok, made := BlockTail(space, dir, buf, pos, off, len, made, start, count, buf0, regs0);
  }

  /** The first bytes, up to an address that is a multiple of four. */
  method BlockHead(space: Space, dir: Direction, start: nat, buf: array<Byte>, count: nat,
                   ghost buf0: seq<Byte>, ghost regs0: nat -> Byte)
    returns (ok: bool, made: seq<Access>, pos: nat, off: nat, len: nat)
    requires Going(dir, start, count, [], start, count, space.failing, buf[..], space.regs, buf0, regs0)
    modifies space, buf
    ensures if ok then
              && pos == start + off && Lined(pos, len)
              && Going(dir, start, count, made, pos, len, space.failing, buf[..], space.regs, buf0, regs0)
            else Result(dir, start, count, false, made, space.failing, buf[..], space.regs, buf0, regs0)
  {
    hide Going, Result, Rest, Copied, Size, Even, Quad;
    ok, made, pos, off, len := true, [], start, 0, count;
    if !Even(pos) && len >= 1 {
      AtByte(pos, len);
      ok, made := Take(space, dir, buf, pos, off, 1, made, start, count, len, buf0, regs0);
      if !ok {
        return;
      }
      pos, off, len := pos + 1, off + 1, len - 1;
    }
    if !Quad(pos) && len >= 2 {
      AtPair(pos, len);
      ok, made := Take(space, dir, buf, pos, off, 2, made, start, count, len, buf0, regs0);
      if !ok {
        return;
      }
      pos, off, len := pos + 2, off + 2, len - 2;
    }
  }

  /** The last bytes, fewer than four. */
  method BlockTail(space: Space, dir: Direction, buf: array<Byte>, pos0: nat, off0: nat, len0: nat, before: seq<Access>,
                   ghost start: nat, ghost count: nat, ghost buf0: seq<Byte>, ghost regs0: nat -> Byte)
    returns (ok: bool, made: seq<Access>)
    requires len0 < 4 && Lined(pos0, len0) && pos0 == start + off0
    requires Going(dir, start, count, before, pos0, len0, space.failing, buf[..], space.regs, buf0, regs0)
    modifies space, buf
    ensures Result(dir, start, count, ok, made, space.failing, buf[..], space.regs, buf0, regs0)
  {
    hide Going, Result, Size, Lined, Rest, Copied;
    var pos, off, len := pos0, off0, len0;
    made := before;
    if len >= 2 {
      InLine(pos, len);
      ok, made := Take(space, dir, buf, pos, off, 2, made, start, count, len, buf0, regs0);
      if !ok {
        return;
      }
      pos, off, len := pos + 2, off + 2, len - 2;
    }
    if len > 0 {
      InLine(pos, len);
      ok, made := Take(space, dir, buf, pos, off, 1, made, start, count, len, buf0, regs0);
      if !ok {
        return;
      }
      pos, off, len := pos + 1, off + 1, len - 1;
    }
    Ends(dir, start, count, made, pos, space.failing, buf[..], space.regs, buf0, regs0);
    ok := true;
  }

  /** After success each byte of the block is where it belongs, and nothing else has changed. */
  lemma AllMoved(dir: Direction, start: nat, count: nat, made: seq<Access>, failing: set<Access>,
                 buf: seq<Byte>, regs: nat -> Byte, buf0: seq<Byte>, regs0: nat -> Byte)
    requires Result(dir, start, count, true, made, failing, buf, regs, buf0, regs0)
    ensures count <= |buf| == |buf0| && made == Greedy(start, count)
    ensures forall i | 0 <= i < count :: buf[i] == if dir == Reading then regs0(start + i) else buf0[i]
    ensures forall p: nat ::
              regs(p) == if dir == Writing && start <= p < start + count then buf0[p - start] else regs0(p)
    ensures forall i | count <= i < |buf| :: buf[i] == buf0[i]
  {
    hide Greedy;
    AllMade(Greedy(start, count), [], failing);
    assert Greedy(start, count) + [] == Greedy(start, count);
    assert UpToFailure([], failing) == [];
    forall p: nat | start <= p < start + count
      ensures regs(p) == buf[p - start]
    {
      assert buf[p - start] == regs(start + (p - start));
    }
  }
}

/** The uloop micro-code sequencer (uloop_common.py).

    Six nested loops, innermost first, each with a number of iterations and a run of micro-ops. The
    machine walks them one transition at a time. `Step` is the transition function; the methods below
    work in place on the index list and on register arrays as the source does. The lemmas show that the
    index vector is a mixed-radix odometer and give the exact number of transitions up to `end`. */
module Uloop {
  import opened Arith

  const NB_LOOPS: nat := 6

  datatype Loop = Loop(nbOps: nat, range: nat, uloopAddr: nat)

  datatype State = State(addr: nat, loop: nat, op: nat, idx: seq<nat>)

  datatype Transition = Transition(execute: bool, end: bool, busy: bool, next: State)

  /** `opSel` chooses between `reg[a] += reg[b]` and `reg[a] := reg[b]`. */
  datatype MicroOp = MicroOp(opSel: bool, a: nat, b: nat)

  /** Digits below `k` restart, digit `k` advances. */
  function Carry(idx: seq<nat>, k: nat): (r: seq<nat>)
    requires k < |idx|
    ensures |r| == |idx|
  {
    seq(|idx|, j requires 0 <= j < |idx| => if j < k then 0 else if j == k then idx[j] + 1 else idx[j])
  }

  function Zeros(): (r: seq<nat>)
    ensures |r| == NB_LOOPS && forall j :: 0 <= j < NB_LOOPS ==> r[j] == 0
  {
    seq(NB_LOOPS, j => 0)
  }

  predicate Shaped(loops: seq<Loop>, s: State) {
    |loops| == NB_LOOPS && |s.idx| == NB_LOOPS && s.loop < NB_LOOPS
  }

  function Step(loops: seq<Loop>, s: State): Transition
    requires Shaped(loops, s)
  {
    var l := loops[s.loop];
    var more := s.idx[s.loop] < l.range - 1;
    if more && s.op < l.nbOps - 1 then
      Transition(true, false, true, s.(addr := s.addr + 1, op := s.op + 1))
    else if more then
      Transition(true, false, false, State(loops[0].uloopAddr, 0, 0, Carry(s.idx, s.loop)))
    else if s.loop < NB_LOOPS - 1 then
      Transition(false, false, true, State(loops[s.loop + 1].uloopAddr, s.loop + 1, 0, s.idx))
    else
      Transition(false, true, false, State(0, 0, 0, Zeros()))
  }

  function Execute(addr: nat, code: seq<MicroOp>, regs: seq<int>): (r: seq<int>)
    requires addr < |code| && code[addr].a < |regs| && code[addr].b < |regs|
    ensures |r| == |regs|
  {
    var c := code[addr];
    regs[c.a := if c.opSel then regs[c.a] + regs[c.b] else regs[c.b]]
  }

  // ----- the imperative machine -----

  /** One transition. The next index list IS the current one, updated in place, except on termination,
      where a new list is made and the current one is left alone. */
  method StateMachine(loops: seq<Loop>, addr: nat, loop: nat, op: nat, idx: array<nat>)
    returns (execute: bool, end: bool, busy: bool, nextAddr: nat, nextLoop: nat, nextOp: nat, nextIdx: array<nat>)
    requires |loops| == NB_LOOPS == idx.Length && loop < NB_LOOPS
    modifies idx
    ensures Transition(execute, end, busy, State(nextAddr, nextLoop, nextOp, nextIdx[..]))
         == Step(loops, State(addr, loop, op, old(idx[..])))
    ensures if end then fresh(nextIdx) && idx[..] == old(idx[..]) else nextIdx == idx
  {
    nextAddr, nextLoop, nextOp, nextIdx := addr, loop, op, idx;
    end, busy, execute := false, false, false;
    ghost var was := idx[..];
    if idx[loop] < loops[loop].range - 1 && op < loops[loop].nbOps - 1 {
      nextAddr := addr + 1;
      nextOp := op + 1;
      busy, execute := true, true;
    } else if idx[loop] < loops[loop].range - 1 && loop > 0 {
      nextLoop := 0;
      for j := 0 to loop
        invariant forall i :: 0 <= i < NB_LOOPS ==> idx[i] == if i < j then 0 else was[i]
      {
        nextIdx[j] := 0;
      }
      nextIdx[loop] := idx[loop] + 1;
      nextAddr := loops[0].uloopAddr;
      nextOp := 0;
      execute := true;
      assert idx[..] == Carry(was, loop);
    } else if idx[loop] < loops[loop].range - 1 {
      nextAddr := loops[loop].uloopAddr;
      nextOp := 0;
      nextIdx[loop] := idx[loop] + 1;
      execute := true;
      assert idx[..] == Carry(was, loop);
    } else if loop < NB_LOOPS - 1 {
      nextLoop := loop + 1;
      nextAddr := loops[loop + 1].uloopAddr;
      nextOp := 0;
      busy := true;
    } else {
      end := true;
      nextLoop, nextAddr, nextOp := 0, 0, 0;
      nextIdx := new nat[NB_LOOPS];
      for j := 0 to NB_LOOPS
        invariant idx[..] == was
        invariant forall i :: 0 <= i < j ==> nextIdx[i] == 0
      {
        nextIdx[j] := 0;
      }
      assert nextIdx[..] == Zeros();
    }
  }

  /** Copies the registers, then writes one slot of the copy. */
  method ExecuteOp(addr: nat, code: seq<MicroOp>, registers: array<int>) returns (newRegisters: array<int>)
    requires addr < |code| && code[addr].a < registers.Length && code[addr].b < registers.Length
    ensures fresh(newRegisters) && newRegisters[..] == Execute(addr, code, registers[..])
  {
    newRegisters := new int[registers.Length](i requires 0 <= i < registers.Length reads registers => registers[i]);
    assert newRegisters[..] == registers[..];
    if code[addr].opSel {
      newRegisters[code[addr].a] := registers[code[addr].a] + registers[code[addr].b];
    } else {
      newRegisters[code[addr].a] := registers[code[addr].b];
    }
  }

  function Sum(s: seq<nat>): nat {
    if s == [] then 0 else Sum(s[..|s| - 1]) + s[|s| - 1]
  }

  /** Loop k starts where the ops of the loops below it end. */
  method GetLoops(ops: seq<nat>, ranges: seq<nat>) returns (loops: seq<Loop>)
    requires |ops| == |ranges|
    ensures |loops| == |ops|
    ensures forall k :: 0 <= k < |ops| ==> loops[k] == Loop(ops[k], ranges[k], Sum(ops[..k]))
  {
    loops := [];
    var a := 0;
    for k := 0 to |ops|
      invariant |loops| == k && a == Sum(ops[..k])
      invariant forall i :: 0 <= i < k ==> loops[i] == Loop(ops[i], ranges[i], Sum(ops[..i]))
    {
      loops := loops + [Loop(ops[k], ranges[k], a)];
      a := a + ops[k];
      assert ops[..k + 1][..k] == ops[..k];
    }
  }

  // ----- the odometer -----

  predicate Positive(loops: seq<Loop>) {
    |loops| == NB_LOOPS && forall k :: 0 <= k < NB_LOOPS ==> loops[k].range >= 1 && loops[k].nbOps >= 1
  }

  predicate InRange(loops: seq<Loop>, idx: seq<nat>) {
    |loops| == |idx| == NB_LOOPS && forall k :: 0 <= k < NB_LOOPS ==> idx[k] < loops[k].range
  }

  /** Number of index tuples over the digits j and above. */
  function Count(loops: seq<Loop>, j: nat): (r: nat)
    requires j <= |loops|
    ensures (forall k :: 0 <= k < |loops| ==> loops[k].range >= 1) ==> r >= 1
    decreases |loops| - j
  {
    if j == |loops| then 1 else loops[j].range * Count(loops, j + 1)
  }

  /** The value of the digits j and above, digit j least significant. */
  function Rank(loops: seq<Loop>, idx: seq<nat>, j: nat): nat
    requires j <= |loops| == |idx|
    decreases |loops| - j
  {
    if j == |loops| then 0 else idx[j] + loops[j].range * Rank(loops, idx, j + 1)
  }

  predicate Maxed(loops: seq<Loop>, idx: seq<nat>, lo: nat, hi: nat)
    requires lo <= hi <= |loops| == |idx|
  {
    forall k :: lo <= k < hi ==> idx[k] == loops[k].range - 1
  }

  lemma {:induction false} RankBounds(loops: seq<Loop>, idx: seq<nat>, j: nat)
    requires j <= NB_LOOPS && InRange(loops, idx)
    ensures Rank(loops, idx, j) < Count(loops, j)
    ensures Rank(loops, idx, j) == Count(loops, j) - 1 <==> Maxed(loops, idx, j, NB_LOOPS)
    decreases NB_LOOPS - j
  {
    if j == NB_LOOPS {
    } else {
      RankBounds(loops, idx, j + 1);
      var r, rank, count := loops[j].range, Rank(loops, idx, j + 1), Count(loops, j + 1);
      if rank < count - 1 {
        MulMonotone(r, rank + 2, count);
        MulDistribute(r, rank, 2);
      } else {
        MulDistribute(r, rank, 1);
      }
    }
  }

  /** Advancing digit k over exhausted lower digits adds one to every rank that includes digit k. */
  lemma {:induction false} RankCarry(loops: seq<Loop>, idx: seq<nat>, k: nat, j: nat)
    requires j <= NB_LOOPS && k < NB_LOOPS && InRange(loops, idx) && Maxed(loops, idx, 0, k)
    ensures Rank(loops, Carry(idx, k), j) == Rank(loops, idx, j) + if j <= k then 1 else 0
    decreases NB_LOOPS - j
  {
    if j == NB_LOOPS {
    } else {
      RankCarry(loops, idx, k, j + 1);
      var r, rank := loops[j].range, Rank(loops, idx, j + 1);
      assert r * (rank + 1) == r * rank + r;
    }
  }

  /** Digits of n: the inverse of `Rank`. */
  function Digits(loops: seq<Loop>, n: nat, j: nat): (r: seq<nat>)
    requires j <= |loops| && forall k :: 0 <= k < |loops| ==> loops[k].range >= 1
    ensures |r| == |loops| - j
    decreases |loops| - j
  {
    if j == |loops| then [] else [n % loops[j].range] + Digits(loops, n / loops[j].range, j + 1)
  }

  lemma {:induction false} DigitsOfRank(loops: seq<Loop>, idx: seq<nat>, j: nat)
    requires j <= NB_LOOPS && InRange(loops, idx)
    ensures Digits(loops, Rank(loops, idx, j), j) == idx[j..]
    decreases NB_LOOPS - j
  {
    if j == NB_LOOPS {
    } else {
      var r, q := loops[j].range, Rank(loops, idx, j + 1);
      DivModUnique(idx[j] + r * q, r, q, idx[j]);
      DigitsOfRank(loops, idx, j + 1);
    }
  }

  // ----- how many transitions -----

  /** Transitions still to come from increments of the digits j and above: an increment of digit k costs
      its micro-ops plus one hop per exhausted lower loop. */
  function Pending(loops: seq<Loop>, idx: seq<nat>, j: nat): int
    requires j <= |loops| == |idx|
    decreases |loops| - j
  {
    if j == |loops| then 0
    else (loops[j].nbOps + j) * Increments(loops, idx, j) + Pending(loops, idx, j + 1)
  }

  /** How often digit j itself is still to be advanced. */
  function Increments(loops: seq<Loop>, idx: seq<nat>, j: nat): int
    requires j < |loops| == |idx|
  {
    (Count(loops, j) - Rank(loops, idx, j)) - (Count(loops, j + 1) - Rank(loops, idx, j + 1))
  }

  lemma RemainderOfDigits(r: int, c: int, q: int)
    requires r >= 1 && c - q >= 1
    ensures (r * c - r * q) - (c - q) >= r - 1
  {
    MulMonotone(r - 1, 1, c - q);
    MulDistribute(r - 1, c, -q);
    assert (r - 1) * c == r * c - c;
    assert (r - 1) * -q == -(r * q) + q;
  }

  lemma IncrementsBound(loops: seq<Loop>, idx: seq<nat>, j: nat)
    requires j < NB_LOOPS && InRange(loops, idx)
    ensures Increments(loops, idx, j) >= loops[j].range - 1 - idx[j] >= 0
  {
    RankBounds(loops, idx, j + 1);
    var r, c, q := loops[j].range, Count(loops, j + 1), Rank(loops, idx, j + 1);
    RemainderOfDigits(r, c, q);
  }

  lemma IncrementsWhenMaxed(loops: seq<Loop>, idx: seq<nat>, j: nat)
    requires j < NB_LOOPS && InRange(loops, idx) && Maxed(loops, idx, j, NB_LOOPS)
    ensures Increments(loops, idx, j) == 0
  {
    RankBounds(loops, idx, j);
    RankBounds(loops, idx, j + 1);
  }

  lemma IncrementsCarry(loops: seq<Loop>, idx: seq<nat>, k: nat, j: nat)
    requires j < NB_LOOPS && k < NB_LOOPS && InRange(loops, idx) && Maxed(loops, idx, 0, k)
    ensures Increments(loops, Carry(idx, k), j) == Increments(loops, idx, j) - if j == k then 1 else 0
  {
    RankCarry(loops, idx, k, j);
    RankCarry(loops, idx, k, j + 1);
  }

  lemma {:induction false} PendingNonNegative(loops: seq<Loop>, idx: seq<nat>, j: nat)
    requires j <= NB_LOOPS && InRange(loops, idx)
    ensures Pending(loops, idx, j) >= 0
    ensures Maxed(loops, idx, j, NB_LOOPS) ==> Pending(loops, idx, j) == 0
    decreases NB_LOOPS - j
  {
    if j == NB_LOOPS {
    } else {
      var w, n := loops[j].nbOps + j, Increments(loops, idx, j);
      assert n >= 0 by { IncrementsBound(loops, idx, j); }
      MulMonotone(w, 0, n);
      if Maxed(loops, idx, j, NB_LOOPS) {
        assert n == 0 by { IncrementsWhenMaxed(loops, idx, j); }
      }
      PendingNonNegative(loops, idx, j + 1);
    }
  }

  lemma {:induction false} PendingCarry(loops: seq<Loop>, idx: seq<nat>, k: nat, j: nat)
    requires j <= NB_LOOPS && k < NB_LOOPS && InRange(loops, idx) && Maxed(loops, idx, 0, k)
    ensures Pending(loops, Carry(idx, k), j) == Pending(loops, idx, j) - if j <= k then loops[k].nbOps + k else 0
    decreases NB_LOOPS - j
  {
    if j == NB_LOOPS {
    } else {
      PendingCarry(loops, idx, k, j + 1);
      var w, n, n' := loops[j].nbOps + j, Increments(loops, idx, j), Increments(loops, Carry(idx, k), j);
      assert n' == n - if j == k then 1 else 0 by { IncrementsCarry(loops, idx, k, j); }
      MulDistribute(w, n, -1);
    }
  }

  /** The control states a run can be in: every loop below the current one is exhausted, and the
      micro-op counter is inside the body of a loop that still has iterations. */
  predicate WellPlaced(loops: seq<Loop>, s: State) {
    && Shaped(loops, s) && InRange(loops, s.idx)
    && Maxed(loops, s.idx, 0, s.loop)
    && s.addr == loops[s.loop].uloopAddr + s.op
    && (s.op > 0 ==> s.op < loops[s.loop].nbOps && s.idx[s.loop] < loops[s.loop].range - 1)
  }

  /** Exactly how many transitions remain, the terminating one included. */
  function Remaining(loops: seq<Loop>, s: State): int
    requires Shaped(loops, s)
  {
    Pending(loops, s.idx, 0) + NB_LOOPS - s.loop - s.op
  }

  lemma RemainingPositive(loops: seq<Loop>, s: State)
    requires WellPlaced(loops, s)
    ensures Remaining(loops, s) >= 1
  {
    PendingNonNegative(loops, s.idx, 0);
    if s.op > 0 {
      PendingCarry(loops, s.idx, s.loop, 0);
      PendingNonNegative(loops, Carry(s.idx, s.loop), 0);
    }
  }

  /** Every transition uses up exactly one of the remaining ones, `end` comes with the last, and the
      index vector moves only on the transitions that are not busy, each time to its successor. */
  lemma StepProgress(loops: seq<Loop>, s: State)
    requires Positive(loops) && WellPlaced(loops, s)
    ensures var t := Step(loops, s);
            && (t.end <==> Remaining(loops, s) == 1)
            && (t.end ==> Maxed(loops, s.idx, 0, NB_LOOPS) && !t.busy && !t.execute)
            && (!t.end ==> WellPlaced(loops, t.next) && Remaining(loops, t.next) == Remaining(loops, s) - 1)
            && (!t.end ==> Rank(loops, t.next.idx, 0) == Rank(loops, s.idx, 0) + if t.busy then 0 else 1)
            && (t.busy ==> t.next.idx == s.idx)
            && (!t.busy && !t.end ==> t.next.loop == t.next.op == 0)
  {
    var t := Step(loops, s);
    RemainingPositive(loops, s);
    if t.end {
      PendingNonNegative(loops, s.idx, 0);
    } else {
      if !t.busy {
        RankCarry(loops, s.idx, s.loop, 0);
        PendingCarry(loops, s.idx, s.loop, 0);
      }
      RemainingPositive(loops, t.next);
    }
  }

  function Start(): State {
    State(0, 0, 0, Zeros())
  }

  /** Transitions of a whole run: sum over k of (R_k - 1) * (R_{k+1} * ... * R_5) * (n_k + k), plus the
      hops and the stop of the terminating walk. */
  function Total(loops: seq<Loop>, j: nat): int
    requires j <= |loops|
    decreases |loops| - j
  {
    if j == |loops| then NB_LOOPS
    else (loops[j].range - 1) * Count(loops, j + 1) * (loops[j].nbOps + j) + Total(loops, j + 1)
  }

  lemma {:induction false} PendingAtStart(loops: seq<Loop>, j: nat)
    requires Positive(loops) && j <= NB_LOOPS
    ensures Rank(loops, Zeros(), j) == 0
    ensures Pending(loops, Zeros(), j) + NB_LOOPS == Total(loops, j)
    decreases NB_LOOPS - j
  {
    if j == NB_LOOPS {
    } else {
      PendingAtStart(loops, j + 1);
      var r, c, w := loops[j].range, Count(loops, j + 1), loops[j].nbOps + j;
      assert loops[j].range * Rank(loops, Zeros(), j + 1) == 0;
      assert r * c - c == (r - 1) * c;
      assert w * ((r - 1) * c) == (r - 1) * c * w;
    }
  }

  /** The state after n transitions from the start. */
  function After(loops: seq<Loop>, n: nat): (s: State)
    requires |loops| == NB_LOOPS
    ensures Shaped(loops, s)
  {
    if n == 0 then Start() else Step(loops, After(loops, n - 1)).next
  }

  /** How many of the first n transitions were not busy. */
  function Visits(loops: seq<Loop>, n: nat): nat
    requires |loops| == NB_LOOPS
  {
    if n == 0 then 0
    else Visits(loops, n - 1) + if Step(loops, After(loops, n - 1)).busy then 0 else 1
  }

  lemma {:induction false} Progress(loops: seq<Loop>, n: nat)
    requires Positive(loops) && loops[0].uloopAddr == 0 && n < Total(loops, 0)
    ensures WellPlaced(loops, After(loops, n))
    ensures Remaining(loops, After(loops, n)) == Total(loops, 0) - n
    ensures Rank(loops, After(loops, n).idx, 0) == Visits(loops, n)
  {
    if n == 0 {
      PendingAtStart(loops, 0);
    } else {
      Progress(loops, n - 1);
      StepProgress(loops, After(loops, n - 1));
    }
  }

  /** The odometer theorem: no transition before transition `Total` ends the run, that one does, and after
      n transitions the index vector holds the digits of the number of non-busy ones so far. */
  lemma Odometer(loops: seq<Loop>, n: nat)
    requires Positive(loops) && loops[0].uloopAddr == 0 && n < Total(loops, 0)
    ensures After(loops, n).idx == Digits(loops, Visits(loops, n), 0)
    ensures Visits(loops, n) < Count(loops, 0)
    ensures Step(loops, After(loops, n)).end <==> n == Total(loops, 0) - 1
    ensures n == Total(loops, 0) - 1 ==> Visits(loops, n) == Count(loops, 0) - 1
  {
    Progress(loops, n);
    var s := After(loops, n);
    StepProgress(loops, s);
    DigitsOfRank(loops, s.idx, 0);
    assert s.idx[0..] == s.idx;
    RankBounds(loops, s.idx, 0);
  }

  /** The visit counter moves by at most one, so a value it ends above was passed. */
  lemma {:induction false} VisitReached(loops: seq<Loop>, n: nat, r: nat) returns (m: nat)
    requires Positive(loops) && loops[0].uloopAddr == 0 && r <= Visits(loops, n)
    ensures m <= n && Visits(loops, m) == r
  {
    if r == Visits(loops, n) {
      m := n;
    } else {
      m := VisitReached(loops, n - 1, r);
    }
  }

  /** Every tuple in range is reached, and all the moments it is held share one visit count. */
  lemma EveryTupleVisited(loops: seq<Loop>, idx: seq<nat>) returns (n: nat)
    requires Positive(loops) && loops[0].uloopAddr == 0 && InRange(loops, idx)
    ensures n < Total(loops, 0) && After(loops, n).idx == idx
    ensures forall m :: 0 <= m < Total(loops, 0) && After(loops, m).idx == idx ==> Visits(loops, m) == Visits(loops, n)
  {
    var last := Total(loops, 0) - 1;
    PendingAtStart(loops, 0);
    PendingNonNegative(loops, Zeros(), 0);
    Odometer(loops, last);
    RankBounds(loops, idx, 0);
    n := VisitReached(loops, last, Rank(loops, idx, 0));
    Odometer(loops, n);
    DigitsOfRank(loops, idx, 0);
    assert idx[0..] == idx;
    forall m | 0 <= m < Total(loops, 0) && After(loops, m).idx == idx
      ensures Visits(loops, m) == Visits(loops, n)
    {
      Progress(loops, m);
    }
  }
}

/** The lock-step check of uloop_check.py: micro-program and loop nest side by side, for whole runs. */
module UloopCheck {
  import opened Arith
  import opened Uloop
  import opened UloopMicrocode

  // ----- any program, any table of expected tuples -----

  predicate Fetchable(addr: nat, code: seq<MicroOp>, registers: nat) {
    addr < |code| && code[addr].a < registers && code[addr].b < registers
  }

  /** What one iteration does to the registers: the executed micro-op is kept if the transition says so. */
  function Retire(s: State, execute: bool, code: seq<MicroOp>, regs: seq<int>): (r: seq<int>)
    ensures |r| == |regs|
  {
    if execute && Fetchable(s.addr, code, |regs|) then Execute(s.addr, code, regs) else regs
  }

  function RegistersAfter(loops: seq<Loop>, code: seq<MicroOp>, regs: seq<int>, n: nat): (r: seq<int>)
    requires |loops| == NB_LOOPS
    ensures |r| == |regs|
  {
    if n == 0 then regs
    else
      var s := After(loops, n - 1);
      Retire(s, Step(loops, s).execute, code, RegistersAfter(loops, code, regs, n - 1))
  }

  function Seen(regs: seq<int>): Offsets
    requires |regs| >= 3
  {
    Offsets(regs[0], regs[1], regs[2])
  }

  /** The generator moves on at every transition that is not busy, and stays on its last tuple. */
  function Position(loops: seq<Loop>, tuples: nat, n: nat): nat
    requires |loops| == NB_LOOPS && tuples >= 1
  {
    if Visits(loops, n) < tuples then Visits(loops, n) else tuples - 1
  }

  /** The comparisons that fail in the first n iterations. */
  function Errors(loops: seq<Loop>, code: seq<MicroOp>, regs: seq<int>, hl: seq<Offsets>, n: nat): nat
    requires |loops| == NB_LOOPS && |regs| >= 3 && |hl| >= 1
  {
    if n == 0 then 0
    else
      Errors(loops, code, regs, hl, n - 1)
      + if Step(loops, After(loops, n - 1)).busy
           || hl[Position(loops, |hl|, n)] == Seen(RegistersAfter(loops, code, regs, n))
        then 0 else 1
  }

  /** None of the first n transitions ends the run. */
  predicate Running(loops: seq<Loop>, n: nat)
    requires |loops| == NB_LOOPS
  {
    n == 0 || (Running(loops, n - 1) && !Step(loops, After(loops, n - 1)).end)
  }

  lemma NextIteration(loops: seq<Loop>, code: seq<MicroOp>, regs: seq<int>, hl: seq<Offsets>, n: nat)
    requires |loops| == NB_LOOPS && |regs| >= 3 && |hl| >= 1
    ensures var t, p := Step(loops, After(loops, n)), Position(loops, |hl|, n);
            var p' := if t.busy || p + 1 == |hl| then p else p + 1;
            && Position(loops, |hl|, n + 1) == p'
            && Errors(loops, code, regs, hl, n + 1)
               == Errors(loops, code, regs, hl, n)
                  + if t.busy || hl[p'] == Seen(RegistersAfter(loops, code, regs, n + 1)) then 0 else 1
  {
  }

  /** Execute the current micro-op, take the transition, and keep the new registers if it says so. */
  method Advance(loops: seq<Loop>, code: seq<MicroOp>, ghost regs: seq<int>, ghost n: nat,
                 addr: nat, loop: nat, op: nat, idx: array<nat>, registers: array<int>)
    returns (end: bool, busy: bool, addr': nat, loop': nat, op': nat, idx': array<nat>, registers': array<int>)
    requires |loops| == NB_LOOPS == idx.Length && Fetchable(addr, code, registers.Length)
    requires State(addr, loop, op, idx[..]) == After(loops, n)
    requires registers[..] == RegistersAfter(loops, code, regs, n)
    modifies idx
    ensures end == Step(loops, After(loops, n)).end && busy == Step(loops, After(loops, n)).busy
    ensures (idx' == idx || fresh(idx')) && idx'.Length == NB_LOOPS
    ensures (registers' == registers || fresh(registers')) && registers'.Length == registers.Length
    ensures State(addr', loop', op', idx'[..]) == After(loops, n + 1)
    ensures registers'[..] == RegistersAfter(loops, code, regs, n + 1)
  {
    var newRegisters := ExecuteOp(addr, code, registers);
    var execute;
    execute, end, busy, addr', loop', op', idx' := StateMachine(loops, addr, loop, op, idx);
    registers' := if execute then newRegisters else registers;
  }

  /** Take the next tuple and compare, unless the transition is busy. */
  method Compare(ghost loops: seq<Loop>, ghost code: seq<MicroOp>, ghost regs: seq<int>, hl: seq<Offsets>, ghost n: nat,
                 busy: bool, position: nat, err: nat, registers: array<int>)
    returns (position': nat, err': nat)
    requires |loops| == NB_LOOPS && |regs| >= 3 && |hl| >= 1 && busy == Step(loops, After(loops, n)).busy
    requires position == Position(loops, |hl|, n) && err == Errors(loops, code, regs, hl, n)
    requires registers[..] == RegistersAfter(loops, code, regs, n + 1)
    ensures position' == Position(loops, |hl|, n + 1) && err' == Errors(loops, code, regs, hl, n + 1)
  {
    NextIteration(loops, code, regs, hl, n);
    position', err' := position, err;
    if !busy {
      position' := if position + 1 < |hl| then position + 1 else position;
      if hl[position'] != Offsets(registers[0], registers[1], registers[2]) {
        err' := err + 1;
      }
    }
  }

  /** The program counters, indices, registers, generator position and error count after n iterations. */
  predicate Synced(loops: seq<Loop>, code: seq<MicroOp>, regs: seq<int>, hl: seq<Offsets>, n: nat,
                   s: State, registers: seq<int>, position: nat, err: nat)
    requires |loops| == NB_LOOPS && |regs| >= 3 && |hl| >= 1
  {
    && s == After(loops, n) && registers == RegistersAfter(loops, code, regs, n)
    && position == Position(loops, |hl|, n) && err == Errors(loops, code, regs, hl, n)
  }

  /** One iteration of the loop of the check. */
  method Iterate(loops: seq<Loop>, code: seq<MicroOp>, ghost regs: seq<int>, hl: seq<Offsets>, ghost n: nat,
                 addr: nat, loop: nat, op: nat, idx: array<nat>, registers: array<int>, position: nat, err: nat)
    returns (end: bool, addr': nat, loop': nat, op': nat, idx': array<nat>, registers': array<int>,
             position': nat, err': nat)
    requires |loops| == NB_LOOPS == idx.Length && |regs| >= 3 && |hl| >= 1 && Fetchable(addr, code, registers.Length)
    requires Synced(loops, code, regs, hl, n, State(addr, loop, op, idx[..]), registers[..], position, err)
    modifies idx
    ensures end == Step(loops, After(loops, n)).end
    ensures (idx' == idx || fresh(idx')) && idx'.Length == NB_LOOPS
    ensures (registers' == registers || fresh(registers')) && registers'.Length == registers.Length
    ensures Synced(loops, code, regs, hl, n + 1, State(addr', loop', op', idx'[..]), registers'[..], position', err')
  {
    var busy;
    end, busy, addr', loop', op', idx', registers' := Advance(loops, code, regs, n, addr, loop, op, idx, registers);
    position', err' := Compare(loops, code, regs, hl, n, busy, position, err, registers');
  }

  /** The first n transitions, of which the last one ends the run if done is set, and no other does. */
  predicate Stops(loops: seq<Loop>, n: nat, done: bool)
    requires |loops| == NB_LOOPS
  {
    if done then n > 0 && Running(loops, n - 1) && Step(loops, After(loops, n - 1)).end else Running(loops, n)
  }

  lemma StopsNext(loops: seq<Loop>, n: nat)
    requires |loops| == NB_LOOPS && Stops(loops, n, false)
    ensures Stops(loops, n + 1, Step(loops, After(loops, n)).end)
  {
  }

  const MAX_STEPS: nat := 1000000

  /** The loop of the check: run until the end of the micro-program or the bound, and count mismatches. */
  method Run(loops: seq<Loop>, code: seq<MicroOp>, regs: seq<int>, hl: seq<Offsets>) returns (err: nat, steps: nat)
    requires |loops| == NB_LOOPS && |regs| >= 3 && |hl| >= 1
    requires forall n :: 0 <= n && Running(loops, n) ==> Fetchable(After(loops, n).addr, code, |regs|)
    ensures err == Errors(loops, code, regs, hl, steps)
    ensures if steps < MAX_STEPS then steps > 0 && Running(loops, steps - 1) && Step(loops, After(loops, steps - 1)).end
            else steps == MAX_STEPS && Running(loops, steps - 1)
  {
    var registers := new int[|regs|](i requires 0 <= i < |regs| => regs[i]);
    var idx := new nat[NB_LOOPS](i => 0);
    assert registers[..] == regs && idx[..] == Zeros();
    var addr, loop, op := 0, 0, 0;
    var position, done := 0, false;
    err, steps := 0, 0;
    while steps < MAX_STEPS && !done
      invariant steps <= MAX_STEPS
      invariant fresh(idx) && fresh(registers) && idx.Length == NB_LOOPS && registers.Length == |regs|
      invariant Synced(loops, code, regs, hl, steps, State(addr, loop, op, idx[..]), registers[..], position, err)
      invariant Stops(loops, steps, done)
    {
      StopsNext(loops, steps);
      done, addr, loop, op, idx, registers, position, err :=
        Iterate(loops, code, regs, hl, steps, addr, loop, op, idx, registers, position, err);
      steps := steps + 1;
    }
  }

  // ----- the generator of the expected tuples -----

  /** The first n tuples of the nest, in the order of the odometer. */
  function Tuples(c: Config, n: nat): (r: seq<Offsets>)
    requires Proper(c)
    ensures |r| == n
  {
    if n == 0 then [] else Tuples(c, n - 1) + [Nest(c, Digits(Loops(c), n - 1, 0))]
  }

  lemma {:induction false} TupleAt(c: Config, n: nat, k: nat)
    requires Proper(c) && k < n
    ensures Tuples(c, n)[k] == Nest(c, Digits(Loops(c), k, 0))
  {
    if k == n - 1 {
    } else {
      TupleAt(c, n - 1, k);
    }
  }

  /** A digit run up to its range equals the next digit one higher. */
  lemma Spill(loops: seq<Loop>, idx: seq<nat>, k: nat)
    requires |loops| == |idx| == NB_LOOPS && k < NB_LOOPS - 1 && idx[k] == loops[k].range
    ensures Rank(loops, idx, k) == Rank(loops, idx[k := 0][k + 1 := idx[k + 1] + 1], k)
  {
    var next := idx[k := 0][k + 1 := idx[k + 1] + 1];
    SameRank(loops, idx, next, k + 2);
    MulDistribute(loops[k].range, Rank(loops, idx, k + 1), 1);
  }

  lemma {:induction false} SameRank(loops: seq<Loop>, a: seq<nat>, b: seq<nat>, j: nat)
    requires |loops| == |a| == |b| == NB_LOOPS && j <= NB_LOOPS && a[j..] == b[j..]
    ensures Rank(loops, a, j) == Rank(loops, b, j)
    decreases NB_LOOPS - j
  {
    if j == NB_LOOPS {
    } else {
      assert a[j] == a[j..][0] == b[j..][0] == b[j];
      assert a[j + 1..] == a[j..][1..] == b[j..][1..] == b[j + 1..];
      SameRank(loops, a, b, j + 1);
    }
  }

  /** Restarting a digit below which everything is zero: ranks from digit 0 agree when those from k do. */
  lemma {:induction false} RankLifts(loops: seq<Loop>, a: seq<nat>, b: seq<nat>, j: nat, k: nat)
    requires |loops| == |a| == |b| == NB_LOOPS && j <= k < NB_LOOPS
    requires (forall i :: 0 <= i < k ==> a[i] == b[i] == 0) && Rank(loops, a, k) == Rank(loops, b, k)
    ensures Rank(loops, a, j) == Rank(loops, b, j)
    decreases k - j
  {
    if j == k {
    } else {
      RankLifts(loops, a, b, j + 1, k);
    }
  }

  /** What the generator has yielded when it enters an iteration with these indices. */
  function Yielded(c: Config, i0: nat, i1: nat, i2: nat, i3: nat, i4: nat, i5: nat): seq<Offsets>
    requires Proper(c)
  {
    Tuples(c, Rank(Loops(c), [i0, i1, i2, i3, i4, i5], 0))
  }

  lemma Carried(c: Config, idx: seq<nat>, next: seq<nat>, k: nat)
    requires Proper(c) && |idx| == NB_LOOPS && k < NB_LOOPS - 1 && idx[k] == Loops(c)[k].range
    requires (forall i :: 0 <= i < k ==> idx[i] == 0) && next == idx[k := 0][k + 1 := idx[k + 1] + 1]
    ensures Tuples(c, Rank(Loops(c), idx, 0)) == Tuples(c, Rank(Loops(c), next, 0))
  {
    Spill(Loops(c), idx, k);
    RankLifts(Loops(c), idx, next, 0, k);
  }

  lemma YieldsNext(c: Config, idx: seq<nat>)
    requires Proper(c) && InRange(Loops(c), idx)
    ensures Tuples(c, Rank(Loops(c), idx[0 := idx[0] + 1], 0)) == Tuples(c, Rank(Loops(c), idx, 0)) + [Nest(c, idx)]
  {
    var next := idx[0 := idx[0] + 1];
    SameRank(Loops(c), idx, next, 1);
    assert Rank(Loops(c), next, 0) == Rank(Loops(c), idx, 0) + 1;
    DigitsOfRank(Loops(c), idx, 0);
    assert idx[0..] == idx;
  }

  lemma {:induction false} Exhaustive(loops: seq<Loop>, idx: seq<nat>, j: nat)
    requires |loops| == |idx| == NB_LOOPS && j <= NB_LOOPS - 1
    requires idx[5] == loops[5].range && forall i :: 0 <= i < 5 ==> idx[i] == 0
    ensures Rank(loops, idx, j) == Count(loops, j)
    decreases NB_LOOPS - j
  {
    if j < NB_LOOPS - 1 {
      Exhaustive(loops, idx, j + 1);
    } else {
      assert Rank(loops, idx, 6) == 0 && Count(loops, 6) == 1;
    }
  }

  /** All tuples the generator yields, one per odometer position and in its order. Each level of the nest
      ends where the next iteration of the level around it begins. */
  method IterateHlLoop(c: Config) returns (out: seq<Offsets>)
    requires Proper(c)
    ensures out == Tuples(c, Count(Loops(c), 0))
  {
    out := [];
    NestStarts(c);
    for i := 0 to c.oh
      invariant out == Yielded(c, 0, 0, 0, 0, 0, i)
    {
      for j := 0 to c.ow
        invariant out == Yielded(c, 0, 0, 0, 0, j, i)
      {
        for kOutMajor := 0 to c.nof / c.TP
          invariant out == Yielded(c, 0, 0, 0, kOutMajor, j, i)
        {
          for ui := 0 to c.fs
            invariant out == Yielded(c, 0, 0, ui, kOutMajor, j, i)
          {
            for uj := 0 to c.fs
              invariant out == Yielded(c, 0, uj, ui, kOutMajor, j, i)
            {
              for kInMajor := 0 to c.nif / c.TP
                invariant out == Yielded(c, kInMajor, uj, ui, kOutMajor, j, i)
              {
                var kOut, kIn := kOutMajor * c.TP, kInMajor * c.TP;
                var yIdx := i * c.nof * c.ow + j * c.nof + kOut;
                var wIdx := (kOut / c.TP) * c.nif * c.fs * c.fs + ui * c.nif * c.fs + uj * c.nif + kIn;
                var xIdx := (i + ui) * c.nif * (c.ow + c.fs - 1) + (j + uj) * c.nif + kIn;
                Inner(c, kInMajor, uj, ui, kOutMajor, j, i);
                out := out + [Offsets(wIdx, xIdx, yIdx)];
              }
              Inner1(c, uj, ui, kOutMajor, j, i);
            }
            Inner2(c, ui, kOutMajor, j, i);
          }
          Inner3(c, kOutMajor, j, i);
        }
        Inner4(c, j, i);
      }
      Inner5(c, i);
    }
    NestEnds(c);
  }

  lemma NestStarts(c: Config)
    requires Proper(c)
    ensures Yielded(c, 0, 0, 0, 0, 0, 0) == []
  {
    PendingAtStart(Loops(c), 0);
    assert [0, 0, 0, 0, 0, 0] == Zeros();
  }

  lemma NestEnds(c: Config)
    requires Proper(c)
    ensures Yielded(c, 0, 0, 0, 0, 0, c.oh) == Tuples(c, Count(Loops(c), 0))
  {
    Exhaustive(Loops(c), [0, 0, 0, 0, 0, c.oh], 0);
  }

  lemma Inner(c: Config, i0: nat, i1: nat, i2: nat, i3: nat, i4: nat, i5: nat)
    requires Proper(c) && i0 < c.nif / c.TP && i1 < c.fs && i2 < c.fs && i3 < c.nof / c.TP && i4 < c.ow && i5 < c.oh
    ensures Yielded(c, i0 + 1, i1, i2, i3, i4, i5) == Yielded(c, i0, i1, i2, i3, i4, i5) + [Nest(c, [i0, i1, i2, i3, i4, i5])]
  {
    var idx: seq<nat> := [i0, i1, i2, i3, i4, i5];
    YieldsNext(c, idx);
    assert idx[0 := i0 + 1] == [i0 + 1, i1, i2, i3, i4, i5];
  }

  lemma Inner1(c: Config, i1: nat, i2: nat, i3: nat, i4: nat, i5: nat)
    requires Proper(c)
    ensures Yielded(c, c.nif / c.TP, i1, i2, i3, i4, i5) == Yielded(c, 0, i1 + 1, i2, i3, i4, i5)
  {
    Carried(c, [c.nif / c.TP, i1, i2, i3, i4, i5], [0, i1 + 1, i2, i3, i4, i5], 0);
  }

  lemma Inner2(c: Config, i2: nat, i3: nat, i4: nat, i5: nat)
    requires Proper(c)
    ensures Yielded(c, 0, c.fs, i2, i3, i4, i5) == Yielded(c, 0, 0, i2 + 1, i3, i4, i5)
  {
    Carried(c, [0, c.fs, i2, i3, i4, i5], [0, 0, i2 + 1, i3, i4, i5], 1);
  }

  lemma Inner3(c: Config, i3: nat, i4: nat, i5: nat)
    requires Proper(c)
    ensures Yielded(c, 0, 0, c.fs, i3, i4, i5) == Yielded(c, 0, 0, 0, i3 + 1, i4, i5)
  {
    Carried(c, [0, 0, c.fs, i3, i4, i5], [0, 0, 0, i3 + 1, i4, i5], 2);
  }

  lemma Inner4(c: Config, i4: nat, i5: nat)
    requires Proper(c)
    ensures Yielded(c, 0, 0, 0, c.nof / c.TP, i4, i5) == Yielded(c, 0, 0, 0, 0, i4 + 1, i5)
  {
    Carried(c, [0, 0, 0, c.nof / c.TP, i4, i5], [0, 0, 0, 0, i4 + 1, i5], 3);
  }

  lemma Inner5(c: Config, i5: nat)
    requires Proper(c)
    ensures Yielded(c, 0, 0, 0, 0, c.ow, i5) == Yielded(c, 0, 0, 0, 0, 0, i5 + 1)
  {
    Carried(c, [0, 0, 0, 0, c.ow, i5], [0, 0, 0, 0, 0, i5 + 1], 4);
  }

  // ----- the micro-program against the nest, transition by transition -----

  /** The registers in any control state: the closed form at its index vector, plus the micro-ops of the
      current body done so far. */
  function RegistersIn(c: Config, s: State): (r: seq<int>)
    requires Proper(c) && WellPlaced(Loops(c), s)
    ensures |r| == 26
  {
    ExecuteOps(At(c, s.idx), Loops(c)[s.loop].uloopAddr, s.op)
  }

  function RegistersAtStart(c: Config): (r: seq<int>)
    ensures |r| == 26
  {
    Registers(c, 0, 0, 0, 0)
  }

  lemma Fetches(c: Config, s: State)
    requires Proper(c) && WellPlaced(Loops(c), s)
    ensures Fetchable(s.addr, Code(), 26)
  {
    CodeFits(s.addr);
  }

  lemma RetiredStep(c: Config, s: State)
    requires Proper(c) && WellPlaced(Loops(c), s)
    ensures var t := Step(Loops(c), s);
            !t.end ==> WellPlaced(Loops(c), t.next)
                       && RegistersIn(c, t.next) == Retire(s, t.execute, Code(), RegistersIn(c, s))
  {
    var loops := Loops(c);
    var l, t := loops[s.loop], Step(loops, s);
    Fetches(c, s);
    OpAt(At(c, s.idx), l.uloopAddr, s.op);
    StepProgress(loops, s);
    if !t.end && !t.busy {
      assert s.op + 1 == l.nbOps;
      BodyAdvances(c, s.idx, s.loop);
    }
  }

  lemma OffsetsAtStart(c: Config)
    requires Proper(c)
    ensures MicroW(c, Zeros()) == MicroX(c, Zeros()) == MicroY(c, Zeros()) == XMajor(c, Zeros()) == 0
  {
  }

  lemma StartTracked(c: Config)
    requires Proper(c) && WellPlaced(Loops(c), Start())
    ensures RegistersAtStart(c) == RegistersIn(c, Start())
  {
    OffsetsAtStart(c);
  }

  lemma StepTracked(c: Config, n: nat)
    requires Proper(c) && n > 0
    requires WellPlaced(Loops(c), After(Loops(c), n - 1)) && !Step(Loops(c), After(Loops(c), n - 1)).end
    requires RegistersAfter(Loops(c), Code(), RegistersAtStart(c), n - 1) == RegistersIn(c, After(Loops(c), n - 1))
    ensures WellPlaced(Loops(c), After(Loops(c), n))
    ensures RegistersAfter(Loops(c), Code(), RegistersAtStart(c), n) == RegistersIn(c, After(Loops(c), n))
  {
    RetiredStep(c, After(Loops(c), n - 1));
  }

  lemma {:induction false} RegistersTracked(c: Config, n: nat)
    requires Proper(c) && n < Total(Loops(c), 0)
    ensures WellPlaced(Loops(c), After(Loops(c), n))
    ensures RegistersAfter(Loops(c), Code(), RegistersAtStart(c), n) == RegistersIn(c, After(Loops(c), n))
  {
    if n == 0 {
      Progress(Loops(c), 0);
      StartTracked(c);
    } else {
      RegistersTracked(c, n - 1);
      GoesOn(Loops(c), n);
      StepTracked(c, n);
    }
  }

  lemma GoesOn(loops: seq<Loop>, n: nat)
    requires Positive(loops) && loops[0].uloopAddr == 0 && 0 < n < Total(loops, 0)
    ensures !Step(loops, After(loops, n - 1)).end
  {
    Odometer(loops, n - 1);
  }

  lemma BetweenBodies(c: Config, n: nat)
    requires Proper(c) && n < Total(Loops(c), 0) && After(Loops(c), n).op == 0
    ensures var idx := Digits(Loops(c), Visits(Loops(c), n), 0);
            && InRange(Loops(c), idx)
            && Seen(RegistersAfter(Loops(c), Code(), RegistersAtStart(c), n)) == Micro(c, idx)
  {
    RegistersTracked(c, n);
    Odometer(Loops(c), n);
    AtFields(c, After(Loops(c), n).idx);
  }

  lemma BoundaryOp(loops: seq<Loop>, n: nat)
    requires |loops| == NB_LOOPS && !Step(loops, After(loops, n)).busy
    ensures After(loops, n + 1).op == 0
    ensures Visits(loops, n + 1) == Visits(loops, n) + 1
  {
  }

  /** The lock-step theorem. After n transitions, the last of them not busy, the offset registers hold the
      micro-program's value at tuple number `Visits`; if the configuration fits, the loop nest's. */
  lemma LockStep(c: Config, n: nat)
    requires Proper(c) && n < Total(Loops(c), 0)
    requires n > 0 ==> !Step(Loops(c), After(Loops(c), n - 1)).busy
    ensures var idx := Digits(Loops(c), Visits(Loops(c), n), 0);
            var seen := Seen(RegistersAfter(Loops(c), Code(), RegistersAtStart(c), n));
            InRange(Loops(c), idx) && seen == Micro(c, idx) && (Fits(c) ==> seen == Nest(c, idx))
  {
    if n > 0 {
      BoundaryOp(Loops(c), n - 1);
    }
    BetweenBodies(c, n);
    if Fits(c) {
      FitsAgree(c, Digits(Loops(c), Visits(Loops(c), n), 0));
    }
  }

  // ----- the outcome of the check -----

  /** Whether microcode and nest agree on every tuple up to number v. */
  predicate AgreeUpTo(c: Config, v: nat)
    requires Proper(c)
  {
    Agree(c, Digits(Loops(c), v, 0)) && (v == 0 || AgreeUpTo(c, v - 1))
  }

  lemma {:induction false} AgreeAt(c: Config, v: nat, r: nat)
    requires Proper(c) && AgreeUpTo(c, v) && r <= v
    ensures Agree(c, Digits(Loops(c), r, 0))
  {
    if r == v {
    } else {
      AgreeAt(c, v - 1, r);
    }
  }

  lemma AgreeEverywhere(c: Config)
    requires Proper(c)
    ensures AgreeUpTo(c, Count(Loops(c), 0) - 1) ==> Fits(c)
  {
    if !Fits(c) {
      var idx := MisfitDiffers(c);
      RankBounds(Loops(c), idx, 0);
      DigitsOfRank(Loops(c), idx, 0);
      assert idx[0..] == idx;
      if AgreeUpTo(c, Count(Loops(c), 0) - 1) {
        AgreeAt(c, Count(Loops(c), 0) - 1, Rank(Loops(c), idx, 0));
      }
    }
  }

  lemma {:induction false} DigitsBelow(loops: seq<Loop>, n: nat, j: nat)
    requires Positive(loops) && j <= NB_LOOPS
    ensures forall k :: 0 <= k < NB_LOOPS - j ==> Digits(loops, n, j)[k] < loops[j + k].range
    decreases NB_LOOPS - j
  {
    if j == NB_LOOPS {
    } else {
      DigitsBelow(loops, n / loops[j].range, j + 1);
    }
  }

  lemma {:induction false} AgreeWhenFits(c: Config, v: nat)
    requires Proper(c) && Fits(c)
    ensures AgreeUpTo(c, v)
  {
    DigitsBelow(Loops(c), v, 0);
    FitsAgree(c, Digits(Loops(c), v, 0));
    if v == 0 {
    } else {
      AgreeWhenFits(c, v - 1);
    }
  }

  lemma {:induction false} SumPrefix(k: nat)
    requires k < NB_LOOPS
    ensures Sum(OPS[..k]) == [0, 2, 4, 6, 9, 13][k]
  {
    if k == 0 {
    } else {
      SumPrefix(k - 1);
      assert OPS[..k][..k - 1] == OPS[..k - 1];
    }
  }

  lemma LoopTable(c: Config, loops: seq<Loop>)
    requires Proper(c) && |loops| == NB_LOOPS
    requires forall k :: 0 <= k < NB_LOOPS ==> loops[k] == Loop(OPS[k], Ranges(c)[k], Sum(OPS[..k]))
    ensures loops == Loops(c)
  {
    forall k | 0 <= k < NB_LOOPS
      ensures Sum(OPS[..k]) == [0, 2, 4, 6, 9, 13][k]
    {
      SumPrefix(k);
    }
    assert forall k :: 0 <= k < NB_LOOPS ==> loops[k] == Loops(c)[k];
  }

  function ErrorsOf(c: Config, n: nat): nat
    requires Proper(c)
  {
    Errors(Loops(c), Code(), RegistersAtStart(c), Tuples(c, Count(Loops(c), 0)), n)
  }

  function Comparison(c: Config, n: nat): bool
    requires Proper(c)
  {
    Tuples(c, Count(Loops(c), 0))[Position(Loops(c), Count(Loops(c), 0), n)]
      == Seen(RegistersAfter(Loops(c), Code(), RegistersAtStart(c), n))
  }

  /** Transition n + 1 goes on and compares. */
  lemma ComparesNext(c: Config, n: nat)
    requires Proper(c) && n + 1 < Total(Loops(c), 0) && !Step(Loops(c), After(Loops(c), n)).busy
    ensures var v := Visits(Loops(c), n) + 1;
            && v < Count(Loops(c), 0) && Position(Loops(c), Count(Loops(c), 0), n + 1) == v
            && (Comparison(c, n + 1) <==> Agree(c, Digits(Loops(c), v, 0)))
  {
    var loops, next := Loops(c), n + 1;
    BoundaryOp(loops, n);
    Odometer(loops, next);
    BetweenBodies(c, next);
    TupleAt(c, Count(loops, 0), Visits(loops, next));
  }

  /** The transition that ends the run compares its last tuple once more. */
  lemma ComparesLast(c: Config, n: nat)
    requires Proper(c) && n + 1 == Total(Loops(c), 0)
    ensures var v := Visits(Loops(c), n);
            && Position(Loops(c), Count(Loops(c), 0), n) == v == Position(Loops(c), Count(Loops(c), 0), n + 1)
            && Step(Loops(c), After(Loops(c), n)).end
            && (Comparison(c, n + 1) <==> Agree(c, Digits(Loops(c), v, 0)))
  {
    var loops := Loops(c);
    Odometer(loops, n);
    Progress(loops, n);
    BetweenBodies(c, n);
    TupleAt(c, Count(loops, 0), Visits(loops, n));
  }

  /** The errors counted in n iterations vanish exactly when microcode and nest agree on every tuple reached. */
  predicate Counted(c: Config, n: nat)
    requires Proper(c)
  {
    ErrorsOf(c, n) == 0 <==> AgreeUpTo(c, Position(Loops(c), Count(Loops(c), 0), n))
  }

  lemma StartAgrees(c: Config)
    requires Proper(c)
    ensures Position(Loops(c), Count(Loops(c), 0), 0) == 0 && AgreeUpTo(c, 0)
  {
    PendingAtStart(Loops(c), 0);
    DigitsOfRank(Loops(c), Zeros(), 0);
    assert Zeros()[0..] == Zeros();
    Gap(c, Zeros());
  }

  lemma StartCounts(c: Config)
    requires Proper(c)
    ensures Counted(c, 0)
  {
    StartAgrees(c);
  }

  lemma ErrorsNext(c: Config, n: nat)
    requires Proper(c)
    ensures var busy, p := Step(Loops(c), After(Loops(c), n)).busy, Position(Loops(c), Count(Loops(c), 0), n);
            && ErrorsOf(c, n + 1) == ErrorsOf(c, n) + (if busy || Comparison(c, n + 1) then 0 else 1)
            && (busy ==> Position(Loops(c), Count(Loops(c), 0), n + 1) == p)
  {
    NextIteration(Loops(c), Code(), RegistersAtStart(c), Tuples(c, Count(Loops(c), 0)), n);
  }

  lemma ErrorsStep(c: Config, n: nat)
    requires Proper(c) && n < Total(Loops(c), 0) && Counted(c, n)
    ensures Counted(c, n + 1)
  {
    ErrorsNext(c, n);
    if n + 1 == Total(Loops(c), 0) {
      ComparesLast(c, n);
    } else if !Step(Loops(c), After(Loops(c), n)).busy {
      Odometer(Loops(c), n);
      ComparesNext(c, n);
    }
  }

  /** Up to the end of the run, the errors counted so far vanish exactly when microcode and nest agree on
      every tuple reached so far. */
  lemma ErrorsCount(c: Config, n: nat)
    requires Proper(c) && n <= Total(Loops(c), 0)
    ensures Counted(c, n)
  {
    StartCounts(c);
    for m := 0 to n
      invariant Counted(c, m)
    {
      ErrorsStep(c, m);
    }
  }

  lemma {:induction false} RunsUntilTotal(c: Config, n: nat)
    requires Proper(c) && Running(Loops(c), n)
    ensures n < Total(Loops(c), 0)
  {
    PendingAtStart(Loops(c), 0);
    PendingNonNegative(Loops(c), Zeros(), 0);
    if n == 0 {
    } else {
      RunsUntilTotal(c, n - 1);
      Odometer(Loops(c), n - 1);
    }
  }

  lemma AlwaysFetches(c: Config)
    requires Proper(c)
    ensures forall n :: 0 <= n && Running(Loops(c), n) ==> Fetchable(After(Loops(c), n).addr, Code(), 26)
  {
    forall n | 0 <= n && Running(Loops(c), n) ensures Fetchable(After(Loops(c), n).addr, Code(), 26) {
      RunsUntilTotal(c, n);
      Progress(Loops(c), n);
      Fetches(c, After(Loops(c), n));
    }
  }

  lemma FittingRun(c: Config, steps: nat)
    requires Proper(c) && Fits(c) && steps <= Total(Loops(c), 0)
    ensures ErrorsOf(c, steps) == 0
  {
    ErrorsCount(c, steps);
    AgreeWhenFits(c, Position(Loops(c), Count(Loops(c), 0), steps));
  }

  lemma WholeRun(c: Config, n: nat)
    requires Proper(c) && n + 1 == Total(Loops(c), 0) && ErrorsOf(c, n + 1) == 0
    ensures Fits(c)
  {
    ErrorsCount(c, n + 1);
    Odometer(Loops(c), n);
    ComparesLast(c, n);
    AgreeEverywhere(c);
  }

  lemma Verdict(c: Config, n: nat)
    requires Proper(c) && Running(Loops(c), n)
    requires n + 1 == MAX_STEPS || Step(Loops(c), After(Loops(c), n)).end
    ensures Fits(c) ==> ErrorsOf(c, n + 1) == 0
    ensures Total(Loops(c), 0) <= MAX_STEPS && ErrorsOf(c, n + 1) == 0 ==> Fits(c)
  {
    RunsUntilTotal(c, n);
    if Fits(c) {
      FittingRun(c, n + 1);
    } else if Total(Loops(c), 0) <= MAX_STEPS && ErrorsOf(c, n + 1) == 0 {
      Odometer(Loops(c), n);
      WholeRun(c, n);
    }
  }

  /** The loop of the check on a configuration. */
  method RunChecked(c: Config, loops: seq<Loop>, hl: seq<Offsets>) returns (err: nat, steps: nat)
    requires Proper(c) && loops == Loops(c) && hl == Tuples(c, Count(Loops(c), 0))
    ensures err == ErrorsOf(c, steps) && steps > 0 && Running(Loops(c), steps - 1)
    ensures steps == MAX_STEPS || Step(Loops(c), After(Loops(c), steps - 1)).end
  {
    AlwaysFetches(c);
    StartAgrees(c);
    err, steps := Run(loops, Code(), RegistersAtStart(c), hl);
  }

  /** The check. Its error count is zero for every configuration that fits, however long the run; and for
      runs that end within the iteration bound it is zero for no other configuration. */
  method Check(c: Config) returns (err: nat)
    requires Proper(c)
    ensures Fits(c) ==> err == 0
    ensures Total(Loops(c), 0) <= MAX_STEPS && err == 0 ==> Fits(c)
  {
    var loops := GetLoops(OPS, Ranges(c));
    LoopTable(c, loops);
    var hl := IterateHlLoop(c);
    var steps;
    err, steps := RunChecked(c, loops, hl);
    Verdict(c, steps - 1);
  }
}

/** The micro-program of code.yml and the convolution loop nest it implements (uloop_check.py).

    The microcode updates three offsets by increments only; the loop nest computes them by formula. The
    source compares the two on a grid of configurations whose channel counts are multiples of 128. Here
    they are shown to agree exactly for the configurations that `Fits` describes, and no others. */
module UloopMicrocode {
  import opened Arith
  import opened Uloop

  /** Tile width, output height and width, output and input channels, filter size. */
  datatype Config = Config(TP: nat, oh: nat, ow: nat, nof: nat, nif: nat, fs: nat)

  /** All extents positive. The channel counts must hold at least one tile: below that the loop nest
      yields nothing and the source stops with an exception on its first tuple. */
  predicate Proper(c: Config) {
    c.TP >= 1 && c.oh >= 1 && c.ow >= 1 && c.fs >= 1 && c.nif >= c.TP && c.nof >= c.TP
  }

  datatype Offsets = Offsets(W: int, x: int, y: int)

  function Ranges(c: Config): seq<nat>
    requires Proper(c)
  {
    [c.nif / c.TP, c.fs, c.fs, c.nof / c.TP, c.ow, c.oh]
  }

  const OPS: seq<nat> := [2, 2, 2, 3, 4, 4]

  /** The seventeen micro-ops, loop by loop. Registers 0 to 3 are W, x, y and x_major. */
  function MicroOpAt(i: int): MicroOp {
    match i
    // loop_stream_inner
    case 0 => MicroOp(true, 0, 8)
    case 1 => MicroOp(true, 1, 8)
    // loop_filter_x
    case 2 => MicroOp(true, 0, 8)
    case 3 => MicroOp(true, 1, 8)
    // loop_filter_y
    case 4 => MicroOp(true, 0, 8)
    case 5 => MicroOp(true, 1, 11)
    // loop_stream_outer
    case 6 => MicroOp(true, 0, 8)
    case 7 => MicroOp(true, 2, 10)
    case 8 => MicroOp(false, 1, 3)
    // loop_spatial_x
    case 9 => MicroOp(false, 0, 14)
    case 10 => MicroOp(true, 2, 10)
    case 11 => MicroOp(true, 3, 4)
    case 12 => MicroOp(false, 1, 3)
    // loop_spatial_y
    case 13 => MicroOp(false, 0, 14)
    case 14 => MicroOp(true, 2, 10)
    case 15 => MicroOp(true, 3, 12)
    case _ => MicroOp(false, 1, 3)
  }

  function Code(): (r: seq<MicroOp>)
    ensures |r| == 17 && forall i :: 0 <= i < 17 ==> r[i] == MicroOpAt(i)
  {
    seq(17, i => MicroOpAt(i))
  }

  function Loops(c: Config): (r: seq<Loop>)
    requires Proper(c)
    ensures Positive(r)
  {
    TileCount(c.nif, c.TP);
    TileCount(c.nof, c.TP);
    [Loop(2, c.nif / c.TP, 0), Loop(2, c.fs, 2), Loop(2, c.fs, 4),
     Loop(3, c.nof / c.TP, 6), Loop(4, c.ow, 9), Loop(4, c.oh, 13)]
  }

  lemma TileCount(n: nat, t: nat)
    requires 1 <= t <= n
    ensures n / t >= 1
  {
    var q := n / t;
    assert n == t * q + n % t;
    if q <= 0 {
      MulMonotone(t, q, 0);
    }
  }

  function Registers(c: Config, W: int, x: int, y: int, xMajor: int): seq<int> {
    [W, x, y, xMajor, c.nif, c.nof, c.ow * c.nof, (c.ow + c.fs - 1) * c.nif, c.TP, c.fs * c.fs * c.nif, c.TP,
     c.TP + c.nif * (c.ow - 1), c.nif * c.fs, 0, 0, c.TP * c.TP, 0, 0, 0, 0, 0, 0, 0, 0, 0, 0]
  }

  /** The tuple the loop nest yields at an index vector, innermost index first. */
  function Nest(c: Config, idx: seq<nat>): Offsets
    requires Proper(c) && |idx| == NB_LOOPS
  {
    Offsets(NestW(c, idx), NestX(c, idx), NestY(c, idx))
  }

  function NestW(c: Config, idx: seq<nat>): int
    requires Proper(c) && |idx| == NB_LOOPS
  {
    var kOut, kIn := idx[3] * c.TP, idx[0] * c.TP;
    (kOut / c.TP) * c.nif * c.fs * c.fs + idx[2] * c.nif * c.fs + idx[1] * c.nif + kIn
  }

  function NestX(c: Config, idx: seq<nat>): int
    requires Proper(c) && |idx| == NB_LOOPS
  {
    var kIn := idx[0] * c.TP;
    (idx[5] + idx[2]) * c.nif * (c.ow + c.fs - 1) + (idx[4] + idx[1]) * c.nif + kIn
  }

  function NestY(c: Config, idx: seq<nat>): int
    requires Proper(c) && |idx| == NB_LOOPS
  {
    var kOut := idx[3] * c.TP;
    idx[5] * c.nof * c.ow + idx[4] * c.nof + kOut
  }

  /** What the micro-program leaves in the three offset registers at an index vector: nested counters, with
      no multiplication by the channel counts except through the tiles that fit into them. */
  function Micro(c: Config, idx: seq<nat>): Offsets
    requires Proper(c) && |idx| == NB_LOOPS
  {
    Offsets(MicroW(c, idx), MicroX(c, idx), MicroY(c, idx))
  }

  function MicroW(c: Config, idx: seq<nat>): int
    requires Proper(c) && |idx| == NB_LOOPS
  {
    c.TP * (idx[0] + c.nif / c.TP * (idx[1] + c.fs * (idx[2] + c.fs * idx[3])))
  }

  function MicroX(c: Config, idx: seq<nat>): int
    requires Proper(c) && |idx| == NB_LOOPS
  {
    XMajor(c, idx) + c.TP * idx[0] + c.TP * (c.nif / c.TP) * idx[1] + FilterRow(c) * idx[2]
  }

  function MicroY(c: Config, idx: seq<nat>): int
    requires Proper(c) && |idx| == NB_LOOPS
  {
    c.TP * (idx[3] + c.nof / c.TP * (idx[4] + c.ow * idx[5]))
  }

  /** Base of the x offset for the current output pixel. */
  function XMajor(c: Config, idx: seq<nat>): int
    requires |idx| == NB_LOOPS
  {
    c.nif * (idx[4] + (c.ow + c.fs - 1) * idx[5])
  }

  /** How far x moves from one filter row to the next. */
  function FilterRow(c: Config): int
    requires Proper(c)
  {
    c.TP * (c.nif / c.TP) * c.fs + c.nif * (c.ow - 1)
  }

  function At(c: Config, idx: seq<nat>): (r: seq<int>)
    requires Proper(c) && |idx| == NB_LOOPS
    ensures |r| == 26
  {
    Registers(c, MicroW(c, idx), MicroX(c, idx), MicroY(c, idx), XMajor(c, idx))
  }

  lemma CodeFits(i: nat)
    requires i < |Code()|
    ensures |Code()| == 17 && Code()[i].a < 4 && Code()[i].b < 16
  {
  }

  /** The registers after the first n micro-ops from an address. */
  function ExecuteOps(regs: seq<int>, start: nat, n: nat): (r: seq<int>)
    requires |regs| == 26 && start + n <= |Code()|
    ensures |r| == 26
  {
    if n == 0 then regs
    else
      CodeFits(start + n - 1);
      Execute(start + n - 1, Code(), ExecuteOps(regs, start, n - 1))
  }

  // ----- what the body of each loop computes -----

  lemma OpAt(regs: seq<int>, start: nat, n: nat)
    requires |regs| == 26 && start + n < |Code()|
    ensures Code()[start + n].a < 26 && Code()[start + n].b < 26
    ensures ExecuteOps(regs, start, n + 1) == Execute(start + n, Code(), ExecuteOps(regs, start, n))
  {
    CodeFits(start + n);
  }

  lemma Body2(regs: seq<int>, start: nat)
    requires |regs| == 26 && (start == 0 || start == 2 || start == 4)
    ensures ExecuteOps(regs, start, 2)
         == regs[0 := regs[0] + regs[8]][1 := regs[1] + if start == 4 then regs[11] else regs[8]]
  {
    OpAt(regs, start, 0);
    OpAt(regs, start, 1);
  }

  lemma Body3(regs: seq<int>, start: nat)
    requires |regs| == 26 && start == 6
    ensures ExecuteOps(regs, start, 3) == regs[0 := regs[0] + regs[8]][2 := regs[2] + regs[10]][1 := regs[3]]
  {
    OpAt(regs, start, 0);
    OpAt(regs, start, 1);
    OpAt(regs, start, 2);
  }

  lemma Body4(regs: seq<int>, start: nat)
    requires |regs| == 26 && (start == 9 || start == 13)
    ensures var m := regs[3] + if start == 9 then regs[4] else regs[12];
            ExecuteOps(regs, start, 4) == regs[0 := regs[14]][2 := regs[2] + regs[10]][3 := m][1 := m]
  {
    OpAt(regs, start, 0);
    OpAt(regs, start, 1);
    OpAt(regs, start, 2);
    OpAt(regs, start, 3);
  }

  // ----- how the offsets move when a digit advances -----

  /** An exhausted digit r - 1 under a value q: one more step is q + 1 with the digit restarted. */
  lemma Exhausted(r: int, q: int)
    ensures (r - 1) + r * q + 1 == r * (q + 1)
  {
  }

  lemma WeightCarry0(t: int, r0: int, i0: int, q: int)
    ensures t * (i0 + 1 + r0 * q) == t * (i0 + r0 * q) + t
  {
    MulDistribute(t, i0 + r0 * q, 1);
  }

  lemma WeightCarry1(t: int, r0: int, q: int)
    ensures t * (r0 * (q + 1)) == t * ((r0 - 1) + r0 * q) + t
  {
    Exhausted(r0, q);
    MulDistribute(t, (r0 - 1) + r0 * q, 1);
  }

  lemma WeightCarry2(t: int, r0: int, fs: int, q: int)
    ensures t * (r0 * (fs * (q + 1))) == t * ((r0 - 1) + r0 * ((fs - 1) + fs * q)) + t
  {
    Exhausted(fs, q);
    WeightCarry1(t, r0, (fs - 1) + fs * q);
  }

  lemma WeightCarry3(t: int, r0: int, fs: int, q: int)
    ensures t * (r0 * (fs * (fs * (q + 1)))) == t * ((r0 - 1) + r0 * ((fs - 1) + fs * ((fs - 1) + fs * q))) + t
  {
    Exhausted(fs, q);
    WeightCarry2(t, r0, fs, (fs - 1) + fs * q);
  }

  lemma OutputCarry(t: int, r3: int, ow: int, i3: int, i4: int, i5: int)
    ensures t * (i3 + 1 + r3 * (i4 + ow * i5)) == t * (i3 + r3 * (i4 + ow * i5)) + t
    ensures t * (r3 * (i4 + 1 + ow * i5)) == t * ((r3 - 1) + r3 * (i4 + ow * i5)) + t
    ensures t * (r3 * (ow * (i5 + 1))) == t * ((r3 - 1) + r3 * ((ow - 1) + ow * i5)) + t
  {
    var q := i4 + ow * i5;
    MulDistribute(t, i3 + r3 * q, 1);
    Exhausted(r3, q);
    MulDistribute(t, (r3 - 1) + r3 * q, 1);
    Exhausted(ow, i5);
    Exhausted(r3, (ow - 1) + ow * i5);
    MulDistribute(t, (r3 - 1) + r3 * ((ow - 1) + ow * i5), 1);
  }

  lemma InputCarry(t: int, r0: int, fs: int, d: int, i0: int, i1: int, i2: int)
    ensures t * (i0 + 1) == t * i0 + t
    ensures t * r0 * (i1 + 1) == t * (r0 - 1) + t * r0 * i1 + t
    ensures (t * r0 * fs + d) * (i2 + 1)
         == t * (r0 - 1) + t * r0 * (fs - 1) + (t * r0 * fs + d) * i2 + (t + d)
  {
    MulDistribute(t, r0 - 1, 1);
    MulDistribute(t * r0, i1, 1);
    MulDistribute(t * r0, fs - 1, 1);
    MulDistribute(t * r0 * fs + d, i2, 1);
  }

  lemma MajorCarry(nif: int, ow: int, fs: int, i4: int, i5: int)
    ensures nif * (i4 + 1 + (ow + fs - 1) * i5) == nif * (i4 + (ow + fs - 1) * i5) + nif
    ensures nif * ((ow + fs - 1) * (i5 + 1)) == nif * ((ow - 1) + (ow + fs - 1) * i5) + nif * fs
  {
    var row := ow + fs - 1;
    MulDistribute(nif, i4 + row * i5, 1);
    MulDistribute(row, i5, 1);
    MulDistribute(nif, (ow - 1) + row * i5, fs);
  }

  /** The digits below k, spelled out. */
  lemma LowerDigits(c: Config, idx: seq<nat>, k: nat)
    requires Proper(c) && |idx| == NB_LOOPS && k < NB_LOOPS && Maxed(Loops(c), idx, 0, k)
    ensures k > 0 ==> idx[0] == c.nif / c.TP - 1
    ensures k > 1 ==> idx[1] == c.fs - 1
    ensures k > 2 ==> idx[2] == c.fs - 1
    ensures k > 3 ==> idx[3] == c.nof / c.TP - 1
    ensures k > 4 ==> idx[4] == c.ow - 1
  {
    assert forall i :: 0 <= i < k ==> idx[i] == Loops(c)[i].range - 1;
  }

  lemma WeightAdvances0(c: Config, idx: seq<nat>, next: seq<nat>)
    requires Proper(c) && |idx| == |next| == NB_LOOPS && next == idx[0 := idx[0] + 1]
    ensures MicroW(c, next) == MicroW(c, idx) + c.TP
  {
    WeightCarry0(c.TP, c.nif / c.TP, idx[0], idx[1] + c.fs * (idx[2] + c.fs * idx[3]));
  }

  lemma WeightAdvances1(c: Config, idx: seq<nat>, next: seq<nat>)
    requires Proper(c) && |idx| == |next| == NB_LOOPS && next == idx[0 := 0][1 := idx[1] + 1]
    requires idx[0] == c.nif / c.TP - 1
    ensures MicroW(c, next) == MicroW(c, idx) + c.TP
  {
    var q := idx[2] + c.fs * idx[3];
    WeightCarry1(c.TP, c.nif / c.TP, idx[1] + c.fs * q);
    assert next[1] + c.fs * q == idx[1] + c.fs * q + 1;
  }

  lemma WeightAdvances2(c: Config, idx: seq<nat>, next: seq<nat>)
    requires Proper(c) && |idx| == |next| == NB_LOOPS && next == idx[0 := 0][1 := 0][2 := idx[2] + 1]
    requires idx[0] == c.nif / c.TP - 1 && idx[1] == c.fs - 1
    ensures MicroW(c, next) == MicroW(c, idx) + c.TP
  {
    WeightCarry2(c.TP, c.nif / c.TP, c.fs, idx[2] + c.fs * idx[3]);
    assert next[2] + c.fs * next[3] == idx[2] + c.fs * idx[3] + 1;
  }

  lemma WeightAdvances3(c: Config, idx: seq<nat>, next: seq<nat>)
    requires Proper(c) && |idx| == |next| == NB_LOOPS && next == idx[0 := 0][1 := 0][2 := 0][3 := idx[3] + 1]
    requires idx[0] == c.nif / c.TP - 1 && idx[1] == idx[2] == c.fs - 1
    ensures MicroW(c, next) == MicroW(c, idx) + c.TP
  {
    WeightCarry3(c.TP, c.nif / c.TP, c.fs, idx[3]);
  }

  lemma WeightRestarts(c: Config, idx: seq<nat>)
    requires Proper(c) && |idx| == NB_LOOPS && idx[0] == idx[1] == idx[2] == idx[3] == 0
    ensures MicroW(c, idx) == 0
  {
  }

  lemma WeightAdvances(c: Config, idx: seq<nat>, k: nat)
    requires Proper(c) && |idx| == NB_LOOPS && k < NB_LOOPS && Maxed(Loops(c), idx, 0, k)
    ensures MicroW(c, Carry(idx, k)) == if k < 4 then MicroW(c, idx) + c.TP else 0
  {
    LowerDigits(c, idx, k);
    var next := Carry(idx, k);
    match k
    case 0 => WeightAdvances0(c, idx, next);
    case 1 => WeightAdvances1(c, idx, next);
    case 2 => WeightAdvances2(c, idx, next);
    case 3 => WeightAdvances3(c, idx, next);
    case _ => WeightRestarts(c, next);
  }

  lemma OutputAdvances(c: Config, idx: seq<nat>, k: nat)
    requires Proper(c) && |idx| == NB_LOOPS && k < NB_LOOPS && Maxed(Loops(c), idx, 0, k)
    ensures MicroY(c, Carry(idx, k)) == MicroY(c, idx) + if k < 3 then 0 else c.TP
  {
    LowerDigits(c, idx, k);
    OutputCarry(c.TP, c.nof / c.TP, c.ow, idx[3], idx[4], idx[5]);
  }

  lemma MajorAdvances(c: Config, idx: seq<nat>, k: nat)
    requires Proper(c) && |idx| == NB_LOOPS && k < NB_LOOPS && Maxed(Loops(c), idx, 0, k)
    ensures XMajor(c, Carry(idx, k)) == XMajor(c, idx) + if k == 4 then c.nif else if k == 5 then c.nif * c.fs else 0
  {
    LowerDigits(c, idx, k);
    MajorCarry(c.nif, c.ow, c.fs, idx[4], idx[5]);
  }

  lemma InputAdvances(c: Config, idx: seq<nat>, k: nat)
    requires Proper(c) && |idx| == NB_LOOPS && k < NB_LOOPS && Maxed(Loops(c), idx, 0, k)
    ensures MicroX(c, Carry(idx, k))
         == if k < 2 then MicroX(c, idx) + c.TP
            else if k == 2 then MicroX(c, idx) + (c.TP + c.nif * (c.ow - 1))
            else XMajor(c, Carry(idx, k))
  {
    LowerDigits(c, idx, k);
    MajorAdvances(c, idx, k);
    InputCarry(c.TP, c.nif / c.TP, c.fs, c.nif * (c.ow - 1), idx[0], idx[1], idx[2]);
  }

  lemma RegisterFields(c: Config, W: int, x: int, y: int, m: int)
    ensures var r := Registers(c, W, x, y, m);
            && |r| == 26 && r[0] == W && r[1] == x && r[2] == y && r[3] == m && r[4] == c.nif
            && r[8] == r[10] == c.TP && r[11] == c.TP + c.nif * (c.ow - 1) && r[12] == c.nif * c.fs && r[14] == 0
  {
  }

  lemma RegisterConstants(c: Config, W: int, x: int, y: int, m: int, W': int, x': int, y': int, m': int)
    ensures var r, r' := Registers(c, W, x, y, m), Registers(c, W', x', y', m');
            |r| == |r'| == 26 && forall i :: 4 <= i < 26 ==> r[i] == r'[i]
  {
  }

  lemma AtFields(c: Config, idx: seq<nat>)
    requires Proper(c) && |idx| == NB_LOOPS
    ensures var r := At(c, idx);
            && r[0] == MicroW(c, idx) && r[1] == MicroX(c, idx) && r[2] == MicroY(c, idx) && r[3] == XMajor(c, idx)
            && r[4] == c.nif && r[8] == r[10] == c.TP && r[11] == c.TP + c.nif * (c.ow - 1)
            && r[12] == c.nif * c.fs && r[14] == 0
  {
    RegisterFields(c, MicroW(c, idx), MicroX(c, idx), MicroY(c, idx), XMajor(c, idx));
  }

  /** The increments of loop k, applied when the loops below it are exhausted, move the closed form of the
      offsets from an index vector to its successor. */
  lemma BodyAdvances(c: Config, idx: seq<nat>, k: nat)
    requires Proper(c) && |idx| == NB_LOOPS && k < NB_LOOPS && Maxed(Loops(c), idx, 0, k)
    ensures ExecuteOps(At(c, idx), Loops(c)[k].uloopAddr, Loops(c)[k].nbOps) == At(c, Carry(idx, k))
  {
    var regs, next := At(c, idx), At(c, Carry(idx, k));
    AtFields(c, idx);
    AtFields(c, Carry(idx, k));
    var succ := Carry(idx, k);
    RegisterConstants(c, MicroW(c, idx), MicroX(c, idx), MicroY(c, idx), XMajor(c, idx),
                      MicroW(c, succ), MicroX(c, succ), MicroY(c, succ), XMajor(c, succ));
    WeightAdvances(c, idx, k);
    OutputAdvances(c, idx, k);
    MajorAdvances(c, idx, k);
    InputAdvances(c, idx, k);
    Settles(regs, next, k, Loops(c)[k].uloopAddr, Loops(c)[k].nbOps);
  }

  lemma Settles(regs: seq<int>, next: seq<int>, k: nat, start: nat, n: nat)
    requires k < NB_LOOPS && |regs| == |next| == 26
    requires start == (if k < 3 then 2 * k else if k == 3 then 6 else 4 * k - 7)
    requires n == if k < 3 then 2 else if k == 3 then 3 else 4
    requires forall i :: 4 <= i < 26 ==> regs[i] == next[i]
    requires regs[14] == 0 && regs[8] == regs[10]
    requires next[0] == if k < 4 then regs[0] + regs[8] else 0
    requires next[1] == if k < 2 then regs[1] + regs[8] else if k == 2 then regs[1] + regs[11] else next[3]
    requires next[2] == regs[2] + if k < 3 then 0 else regs[8]
    requires next[3] == regs[3] + if k == 4 then regs[4] else if k == 5 then regs[12] else 0
    ensures start + n <= 17 && ExecuteOps(regs, start, n) == next
  {
    if k < 3 {
      Body2(regs, start);
    } else if k == 3 {
      Body3(regs, start);
    } else {
      Body4(regs, start);
    }
  }

  // ----- the microcode against the loop nest -----

  /** When the tiles cover the channels exactly, or the loops that would expose the rest never iterate. */
  predicate Fits(c: Config)
    requires Proper(c)
  {
    && (c.nif % c.TP == 0 || (c.fs == 1 && c.nof / c.TP == 1))
    && (c.nof % c.TP == 0 || (c.ow == 1 && c.oh == 1))
  }

  predicate Agree(c: Config, idx: seq<nat>)
    requires Proper(c) && |idx| == NB_LOOPS
  {
    Nest(c, idx) == Micro(c, idx)
  }

  lemma WeightGap(t: int, r0: int, nif: int, fs: int, i0: int, i1: int, i2: int, i3: int)
    ensures i3 * nif * fs * fs + i2 * nif * fs + i1 * nif + i0 * t - t * (i0 + r0 * (i1 + fs * (i2 + fs * i3)))
         == (nif - t * r0) * (i1 + fs * (i2 + fs * i3))
  {
    var q2 := i2 + fs * i3;
    assert nif * (i1 + fs * q2) == i3 * nif * fs * fs + i2 * nif * fs + i1 * nif by {
      assert nif * (fs * q2) == nif * fs * i2 + nif * fs * fs * i3 by {
        assert fs * q2 == fs * i2 + fs * fs * i3;
      }
    }
    MulDistribute(t, i0, r0 * (i1 + fs * q2));
  }

  lemma InputGap(t: int, r0: int, nif: int, fs: int, ow: int, i0: int, i1: int, i2: int, i4: int, i5: int)
    ensures (i5 + i2) * nif * (ow + fs - 1) + (i4 + i1) * nif + i0 * t
          - (nif * (i4 + (ow + fs - 1) * i5) + t * i0 + t * r0 * i1 + (t * r0 * fs + nif * (ow - 1)) * i2)
         == (nif - t * r0) * (i1 + fs * i2)
  {
    var row, n := ow + fs - 1, t * r0;
    assert (i5 + i2) * nif * row == nif * (row * i5) + nif * row * i2;
    assert nif * (i4 + row * i5) == nif * i4 + nif * (row * i5);
    assert nif * row * i2 == nif * (ow - 1) * i2 + nif * fs * i2;
    assert (nif - n) * (i1 + fs * i2) == nif * i1 - n * i1 + nif * fs * i2 - n * fs * i2;
  }

  lemma OutputGap(t: int, r3: int, nof: int, ow: int, i3: int, i4: int, i5: int)
    ensures i5 * nof * ow + i4 * nof + i3 * t - t * (i3 + r3 * (i4 + ow * i5)) == (nof - t * r3) * (i4 + ow * i5)
  {
    assert nof * (i4 + ow * i5) == i5 * nof * ow + i4 * nof;
    MulDistribute(t, i3, r3 * (i4 + ow * i5));
  }

  lemma GapW(c: Config, idx: seq<nat>)
    requires Proper(c) && |idx| == NB_LOOPS
    ensures NestW(c, idx) - MicroW(c, idx) == (c.nif % c.TP) * (idx[1] + c.fs * (idx[2] + c.fs * idx[3]))
  {
    DivModUnique(idx[3] * c.TP, c.TP, idx[3], 0);
    WeightGap(c.TP, c.nif / c.TP, c.nif, c.fs, idx[0], idx[1], idx[2], idx[3]);
  }

  lemma GapX(c: Config, idx: seq<nat>)
    requires Proper(c) && |idx| == NB_LOOPS
    ensures NestX(c, idx) - MicroX(c, idx) == (c.nif % c.TP) * (idx[1] + c.fs * idx[2])
  {
    var t, r0, nif, fs, ow := c.TP, c.nif / c.TP, c.nif, c.fs, c.ow;
    assert nif % t == nif - t * r0;
    InputGap(t, r0, nif, fs, ow, idx[0], idx[1], idx[2], idx[4], idx[5]);
  }

  lemma GapY(c: Config, idx: seq<nat>)
    requires Proper(c) && |idx| == NB_LOOPS
    ensures NestY(c, idx) - MicroY(c, idx) == (c.nof % c.TP) * (idx[4] + c.ow * idx[5])
  {
    OutputGap(c.TP, c.nof / c.TP, c.nof, c.ow, idx[3], idx[4], idx[5]);
  }

  /** Where microcode and loop nest part: the channels left over by whole tiles, once per passed boundary. */
  lemma Gap(c: Config, idx: seq<nat>)
    requires Proper(c) && |idx| == NB_LOOPS
    ensures NestW(c, idx) - MicroW(c, idx) == (c.nif % c.TP) * (idx[1] + c.fs * (idx[2] + c.fs * idx[3]))
    ensures NestX(c, idx) - MicroX(c, idx) == (c.nif % c.TP) * (idx[1] + c.fs * idx[2])
    ensures NestY(c, idx) - MicroY(c, idx) == (c.nof % c.TP) * (idx[4] + c.ow * idx[5])
  {
    GapW(c, idx);
    GapX(c, idx);
    GapY(c, idx);
  }

  lemma FitsAgree(c: Config, idx: seq<nat>)
    requires Proper(c) && Fits(c) && InRange(Loops(c), idx)
    ensures Agree(c, idx)
  {
    var l := Loops(c);
    assert idx[1] < l[1].range && idx[2] < l[2].range && idx[3] < l[3].range && idx[4] < l[4].range && idx[5] < l[5].range;
    Gap(c, idx);
  }

  /** Without `Fits` some iteration goes wrong, the first one past the boundary that is not whole. */
  lemma MisfitDiffers(c: Config) returns (idx: seq<nat>)
    requires Proper(c) && !Fits(c)
    ensures InRange(Loops(c), idx) && !Agree(c, idx)
  {
    if c.nif % c.TP != 0 && c.fs > 1 {
      idx := [0, 1, 0, 0, 0, 0];
      GapW(c, idx);
    } else if c.nif % c.TP != 0 && c.nof / c.TP > 1 {
      idx := [0, 0, 0, 1, 0, 0];
      GapW(c, idx);
      assert c.fs == 1;
    } else if c.ow > 1 {
      idx := [0, 0, 0, 0, 1, 0];
      GapY(c, idx);
    } else {
      idx := [0, 0, 0, 0, 0, 1];
      GapY(c, idx);
      assert c.ow == 1;
    }
  }

  /** The micro-program implements the loop nest exactly on the configurations that fit. */
  lemma AgreesIffFits(c: Config)
    requires Proper(c)
    ensures Fits(c) <==> forall idx :: InRange(Loops(c), idx) ==> Agree(c, idx)
  {
    if Fits(c) {
      forall idx | InRange(Loops(c), idx) ensures Agree(c, idx) { FitsAgree(c, idx); }
    } else {
      var idx := MisfitDiffers(c);
    }
  }
}

/** The register file of the control slave (hwpe_ctrl_regfile.sv): the parameter storage that all contexts
    share, the answer to an acquire, and the counter of job ids. */
module CtrlRegfile {
  import opened Arith
  import opened Bytes

  /** An instance: 2^log contexts with io parameter registers each, and its cores. */
  datatype Layout = Layout(log: nat, io: nat, cores: nat)

  const MAX_CORES: nat := 16

  predicate Valid(p: Layout) {
    p.log >= 1 && 1 <= p.io <= 48 && 1 <= p.cores <= MAX_CORES
  }

  /** Registers in the address map: mandatory ones, then generic ones, then those of the current context. */
  const MANDATORY: nat := 8
  const GENERIC: nat := 8

  const TRIGGER: nat := 0
  const ACQUIRE: nat := 1
  const SOFTCLEAR: nat := 5

  /** The flag that tells the register file which context runs is one bit wide in every instance. */
  const FLAG_VALUES: nat := 2

  const ANOTHER_PE_OFFLOADING: int := -2
  const ALL_CXT_BUSY: int := -1

  /** One cycle of the peripheral interconnect (a read has wen set), and the done and event of the accelerator. */
  datatype In = In(req: bool, wen: bool, id: set<nat>, idx: nat, data: Word, be: Lanes, done: bool, evt: bool)

  /** What the slave tells the register file. */
  datatype Flags = Flags(critical: bool, full: bool, pointer: nat, clear: bool)

  datatype Regfile = Regfile(jobId: nat, jobIdIncr: bool, rdata: int, mem: seq<Word>)

  function Contexts(p: Layout): (n: nat)
    requires Valid(p)
    ensures n >= 2
  {
    Pow2(p.log)
  }

  function Clog2(x: nat): nat {
    if x <= 1 then 0 else 1 + Clog2((x + 1) / 2)
  }

  /** The smallest power of two that is large enough. */
  lemma Clog2Covers(x: nat)
    ensures x <= Pow2(Clog2(x)) && (x >= 1 ==> Pow2(Clog2(x)) < 2 * x)
  {
  }

  /** The words of the storage. */
  function Slots(p: Layout): (n: nat)
    requires Valid(p)
    ensures n >= Times(Contexts(p), p.io) + GENERIC + MANDATORY - 2
  {
    Clog2Covers(Times(Contexts(p), p.io) + GENERIC + MANDATORY - 2);
    Pow2(Clog2(Times(Contexts(p), p.io) + GENERIC + MANDATORY - 2))
  }

  predicate Sized(p: Layout, r: Regfile)
    requires Valid(p)
  {
    r.jobId < 256 && |r.mem| == Slots(p)
  }

  predicate IsTestset(i: In) {
    i.req && i.wen && i.idx == ACQUIRE
  }

  predicate WritesStorage(i: In) {
    i.req && !i.wen && i.idx >= MANDATORY
  }

  /** The storage word a write goes to; the address register has just enough bits for the storage. */
  function WriteSlot(p: Layout, pointer: nat, idx: nat): (k: nat)
    requires Valid(p) && idx >= MANDATORY
    ensures k < Slots(p)
  {
    (idx - MANDATORY + if idx >= MANDATORY + GENERIC then Times(pointer, p.io) else 0) % Slots(p)
  }

  /** The answer to an acquire. */
  function Response(r: Regfile, f: Flags): int {
    if f.critical then ANOTHER_PE_OFFLOADING else if f.full then ALL_CXT_BUSY else r.jobId
  }

  /** Counters of a few bits wrap. */
  function Next(x: nat, n: nat): nat {
    if x + 1 >= n then 0 else x + 1
  }

  function Zeros(p: Layout): (m: seq<Word>)
    requires Valid(p)
    ensures |m| == Slots(p)
  {
    seq(Slots(p), _ => Word(0, 0, 0, 0))
  }

  function MemNext(p: Layout, r: Regfile, f: Flags, i: In): (m: seq<Word>)
    requires Valid(p) && Sized(p, r)
    ensures |m| == Slots(p)
  {
    if f.clear then Zeros(p)
    else if WritesStorage(i) then
      var k := WriteSlot(p, f.pointer, i.idx);
      r.mem[k := Merged(r.mem[k], i.data, i.be)]
    else r.mem
  }

  function RegfileStep(p: Layout, r: Regfile, f: Flags, i: In): (n: Regfile)
    requires Valid(p) && Sized(p, r)
    ensures Sized(p, n)
  {
    Regfile(if f.clear then 0 else if r.jobIdIncr then Next(r.jobId, 256) else r.jobId,
            IsTestset(i) && !f.critical && !f.full,
            if IsTestset(i) then Response(r, f) else r.rdata,
            MemNext(p, r, f, i))
  }

  function RegfileReset(p: Layout): (r: Regfile)
    requires Valid(p)
    ensures Sized(p, r)
  {
    Regfile(0, false, 0, Zeros(p))
  }

  class RegfileRegisters {
    const p: Layout
    var offloadJobId: nat
    var offloadJobIdIncr: bool
    var rdataInt: int
    const regfileMem: array<Word>

    function State(): Regfile
      reads this, regfileMem
    {
      Regfile(offloadJobId, offloadJobIdIncr, rdataInt, regfileMem[..])
    }

    ghost predicate Ready()
      reads this, regfileMem
    {
      Valid(p) && Sized(p, State())
    }

    constructor (p: Layout)
      requires Valid(p)
      ensures this.p == p && Ready() && State() == RegfileReset(p) && fresh(regfileMem)
    {
      this.p := p;
      offloadJobId, offloadJobIdIncr, rdataInt := 0, false, 0;
      regfileMem := new Word[Slots(p)](_ => Word(0, 0, 0, 0));
      new;
      assert regfileMem[..] == RegfileReset(p).mem;
    }

    method Clock(f: Flags, i: In)
      requires Ready()
      modifies this, regfileMem
      ensures Ready() && State() == RegfileStep(p, old(State()), f, i)
    {
      var id := offloadJobId;
      if f.clear {
        offloadJobId := 0;
      } else if offloadJobIdIncr {
        offloadJobId := Next(offloadJobId, 256);
      }
      offloadJobIdIncr := false;
      if IsTestset(i) {
        if f.critical {
          rdataInt := ANOTHER_PE_OFFLOADING;
        } else if f.full {
          rdataInt := ALL_CXT_BUSY;
        } else {
          offloadJobIdIncr, rdataInt := true, id;
        }
      }
      if f.clear {
        forall k | 0 <= k < regfileMem.Length {
          regfileMem[k] := Word(0, 0, 0, 0);
        }
        assert regfileMem[..] == Zeros(p);
      } else if WritesStorage(i) {
        var k := WriteSlot(p, f.pointer, i.idx);
        regfileMem[k] := Merged(regfileMem[k], i.data, i.be);
      }
    }
  }

  // ----- where a write lands -----

  /** The storage of a context starts behind the generic registers. */
  function Base(p: Layout, c: nat): nat {
    GENERIC + Times(c, p.io)
  }

  lemma Regions(p: Layout, c: nat, d: nat)
    requires Valid(p) && c < d <= Contexts(p)
    ensures Base(p, c) + p.io <= Base(p, d) <= Slots(p)
  {
    MulDistribute(p.io, c, 1);
    MulMonotone(p.io, c + 1, d);
    MulMonotone(p.io, d, Contexts(p));
  }

  /** The parameters of a context. */
  function Params(p: Layout, mem: seq<Word>, c: nat): (s: seq<Word>)
    requires Valid(p) && c < Contexts(p) && |mem| == Slots(p)
    ensures |s| == p.io
  {
    Regions(p, c, c + 1);
    mem[Base(p, c)..Base(p, c) + p.io]
  }

  /** The parameters the accelerator sees: those of the running context, as far as the flag can name it. */
  function View(p: Layout, mem: seq<Word>, running: nat): (s: seq<Word>)
    requires Valid(p) && |mem| == Slots(p)
    ensures |s| == p.io
  {
    Params(p, mem, running % FLAG_VALUES)
  }

  /** A write of register idx with this context pointer lands in the parameters of context c. */
  predicate Hits(p: Layout, pointer: nat, idx: nat, c: nat)
    requires Valid(p) && idx >= MANDATORY
  {
    Base(p, c) <= WriteSlot(p, pointer, idx) < Base(p, c) + p.io
  }

  /** A write changes the parameters of exactly the context it hits. */
  lemma WriteChanges(p: Layout, r: Regfile, f: Flags, i: In, c: nat)
    requires Valid(p) && Sized(p, r) && c < Contexts(p) && !f.clear
    ensures !(WritesStorage(i) && Hits(p, f.pointer, i.idx, c))
            ==> Params(p, MemNext(p, r, f, i), c) == Params(p, r.mem, c)
    ensures WritesStorage(i) && Hits(p, f.pointer, i.idx, c)
            ==> var k := WriteSlot(p, f.pointer, i.idx) - Base(p, c);
                Params(p, MemNext(p, r, f, i), c)
                == Params(p, r.mem, c)[k := Merged(Params(p, r.mem, c)[k], i.data, i.be)]
  {
    Regions(p, c, c + 1);
  }

  /** A register of the current context: the write lands in that context and in no other. */
  lemma OwnContextOnly(p: Layout, pointer: nat, idx: nat, c: nat)
    requires Valid(p) && pointer < Contexts(p) && c < Contexts(p)
    requires MANDATORY + GENERIC <= idx < MANDATORY + GENERIC + p.io
    ensures WriteSlot(p, pointer, idx) == Base(p, pointer) + idx - MANDATORY - GENERIC
    ensures Hits(p, pointer, idx, c) <==> c == pointer
  {
    Regions(p, pointer, pointer + 1);
    DivModUnique(idx - MANDATORY + Times(pointer, p.io), Slots(p), 0, idx - MANDATORY + Times(pointer, p.io));
    if c < pointer {
      Regions(p, c, pointer);
    } else if pointer < c {
      Regions(p, pointer, c);
    }
  }

  lemma GenericHitsNone(p: Layout, pointer: nat, idx: nat, c: nat)
    requires Valid(p) && MANDATORY <= idx < MANDATORY + GENERIC
    ensures WriteSlot(p, pointer, idx) == idx - MANDATORY && !Hits(p, pointer, idx, c)
  {
    Regions(p, 0, 1);
    DivModUnique(idx - MANDATORY, Slots(p), 0, idx - MANDATORY);
  }

  /** The context a contexted write really lands in, if any: nothing in the address check stops a register
      index beyond those of one context. */
  function Landing(p: Layout, pointer: nat, idx: nat): int
    requires Valid(p) && idx >= MANDATORY
  {
    (WriteSlot(p, pointer, idx) - GENERIC) / p.io
  }

  /** Which multiple of d a number reaches. */
  lemma Quotient(x: int, d: nat, q: nat)
    requires d > 0
    ensures x / d < q <==> x < q * d
    ensures x / d == q <==> q * d <= x < q * d + d
  {
    assert x == d * (x / d) + x % d;
    if x / d < q {
      MulMonotone(d, x / d + 1, q);
      MulDistribute(d, x / d, 1);
    } else if x / d > q {
      MulMonotone(d, q + 1, x / d);
      MulDistribute(d, q, 1);
    }
  }

  lemma HitsLanding(p: Layout, pointer: nat, idx: nat, c: nat)
    requires Valid(p) && idx >= MANDATORY
    ensures Hits(p, pointer, idx, c) <==> c == Landing(p, pointer, idx)
  {
    Quotient(WriteSlot(p, pointer, idx) - GENERIC, p.io, c);
  }

  /** What keeps a register index from the other contexts: it is generic or one of the current context's, or
      the storage address it gives, which wraps, is generic, in the current context, or behind all contexts. */
  predicate Harmless(p: Layout, pointer: nat, idx: nat)
    requires Valid(p) && idx >= MANDATORY
  {
    idx < MANDATORY + GENERIC + p.io ||
    var x := (idx - MANDATORY + Times(pointer, p.io)) % Slots(p);
    x < GENERIC || 0 <= x - GENERIC - Times(pointer, p.io) < p.io || x >= GENERIC + Times(Contexts(p), p.io)
  }

  /** Landing names the one context that is hit, when there is one. */
  lemma InOneRegion(p: Layout, pointer: nat, idx: nat)
    requires Valid(p) && pointer < Contexts(p) && idx >= MANDATORY
    ensures var x, c := WriteSlot(p, pointer, idx), Landing(p, pointer, idx);
            && (GENERIC <= x < GENERIC + Times(Contexts(p), p.io) <==> 0 <= c < Contexts(p))
            && (c == pointer <==> 0 <= x - GENERIC - Times(pointer, p.io) < p.io)
  {
    var x := WriteSlot(p, pointer, idx) - GENERIC;
    Quotient(x, p.io, 0);
    Quotient(x, p.io, pointer);
    Quotient(x, p.io, Contexts(p));
  }

  predicate LandsElsewhere(p: Layout, pointer: nat, idx: nat)
    requires Valid(p) && idx >= MANDATORY
  {
    0 <= Landing(p, pointer, idx) < Contexts(p) && Landing(p, pointer, idx) != pointer
  }

  lemma ElsewhereIsHarm(p: Layout, pointer: nat, idx: nat)
    requires Valid(p) && pointer < Contexts(p) && idx >= MANDATORY
    ensures LandsElsewhere(p, pointer, idx) <==> !Harmless(p, pointer, idx)
  {
    if idx < MANDATORY + GENERIC {
      GenericHitsNone(p, pointer, idx, 0);
      InOneRegion(p, pointer, idx);
    } else if idx < MANDATORY + GENERIC + p.io {
      OwnContextOnly(p, pointer, idx, pointer);
      HitsLanding(p, pointer, idx, pointer);
    } else {
      InOneRegion(p, pointer, idx);
    }
  }

  /** The exact condition for a write to leave all other contexts alone. */
  lemma HarmlessExactly(p: Layout, pointer: nat, idx: nat)
    requires Valid(p) && pointer < Contexts(p) && idx >= MANDATORY
    ensures (forall c: nat :: c < Contexts(p) && c != pointer ==> !Hits(p, pointer, idx, c))
            <==> Harmless(p, pointer, idx)
  {
    ElsewhereIsHarm(p, pointer, idx);
    if LandsElsewhere(p, pointer, idx) {
      HitsLanding(p, pointer, idx, Landing(p, pointer, idx));
    } else {
      forall c: nat | c < Contexts(p) && c != pointer ensures !Hits(p, pointer, idx, c) {
        HitsLanding(p, pointer, idx, c);
      }
    }
  }

  /** As long as the address does not wrap, the damaging indices are those of the contexts that follow in the
      storage. */
  lemma HarmlessInOrder(p: Layout, pointer: nat, idx: nat)
    requires Valid(p) && pointer < Contexts(p) && idx >= MANDATORY
    requires idx - MANDATORY + Times(pointer, p.io) < Slots(p)
    ensures Harmless(p, pointer, idx)
            <==> !(p.io <= idx - MANDATORY - GENERIC < Times(Contexts(p) - pointer, p.io))
  {
    MulDistribute(p.io, Contexts(p) - pointer, pointer);
    DivModUnique(idx - MANDATORY + Times(pointer, p.io), Slots(p), 0, idx - MANDATORY + Times(pointer, p.io));
  }
}

/** The prefetch buffer (zeroriscy_prefetch_buffer.sv): the request/grant/valid fetch protocol in front of
    the fetch FIFO, with branches that abort fetches in flight.

    Main theorem (`EveryRunDelivers`): in every run, whatever the memory latency, the instructions the core
    accepts between two branches are the sequential parse of memory from the branch target. `Served` adds that
    with a prompt memory the next instruction is offered within three cycles. */
module PrefetchBuffer {
  import opened Arith
  import opened FetchFifo
  import opened Options

  datatype Fsm = IDLE | WAIT_GNT | WAIT_RVALID | WAIT_ABORTED

  datatype Input = Input(req: bool, branch: bool, addr: nat, ready: bool, gnt: bool, rvalid: bool, rdata: nat)

  datatype Buffer = Buffer(cs: Fsm, instrAddr: nat, fifo: Fifo)

  /** What the fetch state machine drives in a cycle. */
  datatype Drive = Drive(instrReq: bool, instrAddr: nat, fifoValid: bool, addrValid: bool, ns: Fsm)

  function Control(b: Buffer, i: Input): Drive
    requires Shaped(b.fifo)
  {
    var fetch := if i.branch then i.addr else NextWord(b.instrAddr);
    var again := if i.branch then i.addr else b.instrAddr;
    var wanted := i.req && (InReady(b.fifo) || i.branch);
    var granted := if i.gnt then WAIT_RVALID else WAIT_GNT;
    match b.cs
    case IDLE =>
      if wanted then Drive(true, fetch, false, true, granted) else Drive(false, fetch, false, false, IDLE)
    case WAIT_GNT => Drive(true, again, false, i.branch, granted)
    case WAIT_RVALID =>
      if wanted && i.rvalid then Drive(true, fetch, true, true, granted)
      else if wanted then Drive(false, fetch, false, i.branch, if i.branch then WAIT_ABORTED else WAIT_RVALID)
      else if i.rvalid then Drive(false, fetch, true, false, IDLE)
      else Drive(false, fetch, false, false, WAIT_RVALID)
    case WAIT_ABORTED =>
      if i.rvalid then Drive(true, again, false, i.branch, granted) else Drive(false, again, false, i.branch, WAIT_ABORTED)
  }

  function FifoIn(b: Buffer, i: Input): In
    requires Shaped(b.fifo)
  {
    In(i.branch, b.instrAddr, i.rdata, Control(b, i).fifoValid, i.ready)
  }

  function Step(b: Buffer, i: Input): (r: Buffer)
    requires Shaped(b.fifo)
    ensures Shaped(r.fifo)
  {
    var d := Control(b, i);
    Buffer(d.ns, if d.addrValid then d.instrAddr else b.instrAddr, FifoStep(b.fifo, FifoIn(b, i)))
  }

  function Reset(): Buffer {
    Buffer(IDLE, 0, Fifo([0, 0, 0], [0, 0, 0], [false, false, false]))
  }

  /** The registers of the buffer and its clocked process: next state and outputs from the case over the
      state, then the FIFO's own clock. */
  class BufferRegisters {
    var cs: Fsm
    var instrAddrQ: nat
    const fifo: FifoRegisters

    ghost predicate Valid()
      reads this, fifo
    {
      fifo.Valid()
    }

    ghost function State(): (b: Buffer)
      requires Valid()
      reads this, fifo, fifo.addrQ, fifo.rdataQ, fifo.validQ
      ensures Shaped(b.fifo)
    {
      Buffer(cs, instrAddrQ, fifo.State())
    }

    constructor ()
      ensures Valid() && State() == Reset()
      ensures fresh(fifo) && fresh(fifo.addrQ) && fresh(fifo.rdataQ) && fresh(fifo.validQ)
    {
      cs, instrAddrQ := IDLE, 0;
      fifo := new FifoRegisters();
    }

    /** The case over the state: what to request, what to push, and the next state. */
    method Drives(i: Input) returns (d: Drive)
      requires Valid()
      ensures d == Control(State(), i)
    {
      var fifoReady := InReady(fifo.State());
      var instrReq, instrAddr, fifoValid, addrValid, ns := false, NextWord(instrAddrQ), false, false, cs;
      match cs {
        case IDLE =>
          if i.branch { instrAddr := i.addr; }
          if i.req && (fifoReady || i.branch) {
            instrReq, addrValid := true, true;
            ns := if i.gnt then WAIT_RVALID else WAIT_GNT;
          }
        case WAIT_GNT =>
          instrAddr, instrReq := instrAddrQ, true;
          if i.branch { instrAddr, addrValid := i.addr, true; }
          ns := if i.gnt then WAIT_RVALID else WAIT_GNT;
        case WAIT_RVALID =>
          if i.branch { instrAddr := i.addr; }
          if i.req && (fifoReady || i.branch) {
            if i.rvalid {
              instrReq, fifoValid, addrValid := true, true, true;
              ns := if i.gnt then WAIT_RVALID else WAIT_GNT;
            } else if i.branch {
              addrValid, ns := true, WAIT_ABORTED;
            }
          } else if i.rvalid {
            fifoValid, ns := true, IDLE;
          }
        case WAIT_ABORTED =>
          instrAddr := instrAddrQ;
          if i.branch { instrAddr, addrValid := i.addr, true; }
          if i.rvalid {
            instrReq := true;
            ns := if i.gnt then WAIT_RVALID else WAIT_GNT;
          }
      }
      d := Drive(instrReq, instrAddr, fifoValid, addrValid, ns);
    }

    method Clock(i: Input) returns (instrReq: bool, instrAddr: nat, valid: bool, rdata: nat, addr: nat)
      requires Valid()
      modifies this, fifo.addrQ, fifo.rdataQ, fifo.validQ
      ensures Valid() && State() == Step(old(State()), i)
      ensures var b := old(State());
              && instrReq == Control(b, i).instrReq && instrAddr == Control(b, i).instrAddr
              && valid == OutValid(b.fifo, FifoIn(b, i))
              && rdata == OutRdata(b.fifo, FifoIn(b, i)) && addr == OutAddr(b.fifo, FifoIn(b, i))
    {
      var d := Drives(i);
      instrReq, instrAddr := d.instrReq, d.instrAddr;
      var fifoIn := In(i.branch, instrAddrQ, i.rdata, d.fifoValid, i.ready);
      valid, rdata, addr := OutValid(fifo.State(), fifoIn), OutRdata(fifo.State(), fifoIn), OutAddr(fifo.State(), fifoIn);
      fifo.Clock(fifoIn);
      cs := d.ns;
      if d.addrValid { instrAddrQ := instrAddr; }
    }
  }

  // ----- the instruction stream of a memory -----

  /** Word memory: the word at index a / 4 holds the bytes a to a + 3. */
  type Memory = nat -> Word

  /** The 16-bit parcel at an even address. */
  function Half(mem: Memory, a: nat): nat {
    if a % 4 < 2 then mem(a / 4) % 0x1_0000 else mem(a / 4) / 0x1_0000
  }

  /** The bytes of an instruction, section 1.5 of the RISC-V Unprivileged ISA, by its first parcel: four when
      bits 0 and 1 are both set, otherwise two. */
  function Length(half: nat): nat {
    if Bit(half, 0) == 1 && Bit(half, 1) == 1 then 4 else 2
  }

  /** Sequential parse. */
  function NextPc(mem: Memory, pc: nat): nat {
    (pc + Length(Half(mem, pc))) % 0x1_0000_0000
  }

  datatype Instr = Instr(addr: nat, rdata: nat)

  /** The instruction at pc: the address, and the 16 or 32 bits that belong to it. For a 16-bit instruction
      the upper half of the data word is not specified. */
  predicate Delivered(mem: Memory, pc: nat, d: Instr) {
    && d.addr == pc
    && if Length(Half(mem, pc)) == 2 then d.rdata % 0x1_0000 == Half(mem, pc)
       else d.rdata == Half(mem, pc) + 0x1_0000 * Half(mem, (pc + 2) % 0x1_0000_0000)
  }

  /** The program counter n instructions after `start`. */
  function PcAt(mem: Memory, start: nat, n: nat): nat {
    if n == 0 then start else NextPc(mem, PcAt(mem, start, n - 1))
  }

  // ----- the same as the FIFO sees it -----

  function Parcel(mem: Memory, a: nat): nat {
    if Unaligned(a) then mem(a / 4) / HALF else mem(a / 4) % HALF
  }

  function PcBehind(mem: Memory, pc: nat): nat {
    (pc + if Compressed(Parcel(mem, pc)) then 2 else 4) % WORD
  }

  predicate Offered(mem: Memory, pc: nat, d: Instr) {
    && d.addr == pc
    && if Compressed(Parcel(mem, pc)) then d.rdata % HALF == Parcel(mem, pc)
       else d.rdata == Parcel(mem, pc) + HALF * Parcel(mem, (pc + 2) % WORD)
  }

  lemma ParcelIsHalf(mem: Memory, a: nat)
    requires a % 2 == 0
    ensures Parcel(mem, a) == Half(mem, a)
  {
    var half := a / 2;
    assert a == 2 * half && half == half / 2 * 2 + half % 2;
  }

  lemma CompressedIsShort(half: nat)
    ensures Compressed(half) <==> Length(half) == 2
  {
    assert Pow2(0) == 1 && Pow2(1) == 2;
    assert half % 4 == half / 2 % 2 * 2 + half % 2;
  }

  lemma EvenBehind(pc: nat)
    requires pc < WORD && pc % 2 == 0
    ensures (pc + 2) % WORD % 2 == 0
  {
    if pc + 2 < WORD {
    } else {
      assert pc == WORD - 2;
    }
  }

  lemma PcBehindIs(mem: Memory, pc: nat)
    requires pc % 2 == 0
    ensures PcBehind(mem, pc) == NextPc(mem, pc)
  {
    ParcelIsHalf(mem, pc);
    CompressedIsShort(Half(mem, pc));
  }

  /** What the FIFO takes for an instruction is one. */
  lemma OfferedIsDelivered(mem: Memory, pc: nat, d: Instr)
    requires pc < WORD && pc % 2 == 0
    ensures PcBehind(mem, pc) == NextPc(mem, pc)
    ensures Offered(mem, pc, d) <==> Delivered(mem, pc, d)
  {
    PcBehindIs(mem, pc);
    EvenBehind(pc);
    ParcelIsHalf(mem, pc);
    ParcelIsHalf(mem, (pc + 2) % WORD);
    CompressedIsShort(Half(mem, pc));
  }

  // ----- the FIFO holds consecutive words from pc -----

  function Occupancy(f: Fifo): (n: nat)
    requires Shaped(f)
    ensures n <= 3
  {
    if !f.valid[0] then 0 else if !f.valid[1] then 1 else if !f.valid[2] then 2 else 3
  }

  /** The word n words after the one that holds pc. */
  function WordAfter(pc: nat, n: nat): nat {
    (pc - pc % 4 + 4 * n) % WORD
  }

  function Fetched(mem: Memory, pc: nat, n: nat): Word {
    mem(WordAfter(pc, n) / 4)
  }

  /** The valid slots come first, slot 0 is tagged with pc, and the slots hold these words. */
  predicate Contents(f: Fifo, pc: nat, w0: nat, w1: nat, w2: nat)
    requires Shaped(f)
  {
    && (f.valid[1] ==> f.valid[0]) && (f.valid[2] ==> f.valid[1])
    && (f.valid[0] ==> f.addr[0] == pc && f.rdata[0] == w0)
    && (f.valid[1] ==> f.rdata[1] == w1)
    && (f.valid[2] ==> f.rdata[2] == w2)
  }

  predicate Holds(mem: Memory, f: Fifo, pc: nat) {
    && Shaped(f) && pc < WORD && pc % 2 == 0
    && Contents(f, pc, Fetched(mem, pc, 0), Fetched(mem, pc, 1), Fetched(mem, pc, 2))
  }

  /** The word that may be pushed next, with its address, continues the contents. */
  predicate Continues(f: Fifo, pc: nat, addr: nat)
    requires Shaped(f)
  {
    && addr < WORD
    && addr - addr % 4 == WordAfter(pc, Occupancy(f))
    && if Occupancy(f) == 0 then addr == pc else addr % 4 == 0
  }

  predicate FifoInputOk(mem: Memory, f: Fifo, pc: nat, i: In)
    requires Shaped(f)
  {
    i.valid ==> Occupancy(f) <= 2 && Continues(f, pc, i.addr) && i.rdata == mem(i.addr / 4)
  }

  /** A parcel in the lower half of word q, and the one behind it. */
  lemma LowerParcel(q: nat)
    requires 4 * q < WORD
    ensures !Unaligned(4 * q) && 4 * q % 4 == 0 && 4 * q / 4 == q
    ensures (4 * q + 2) % WORD == 4 * q + 2 && Unaligned(4 * q + 2) && (4 * q + 2) / 4 == q
  {
    assert 4 * q / 2 == 2 * q && (4 * q + 2) / 2 == 2 * q + 1;
  }

  /** A parcel in the upper half of word q; the one behind it is in the next word. */
  lemma UpperParcel(q: nat)
    requires 4 * q + 2 < WORD
    ensures Unaligned(4 * q + 2) && (4 * q + 2) % 4 == 2 && (4 * q + 2) / 4 == q
    ensures var up := (4 * q + 4) % WORD; up % 4 == 0 && !Unaligned(up) && up + 2 < WORD
  {
    assert (4 * q + 2) / 2 == 2 * q + 1;
    if 4 * q + 4 < WORD {
      assert (4 * q + 4) / 2 == 2 * (q + 1);
    } else {
      assert 4 * q + 4 == WORD;
    }
  }

  /** The words that hold the parcel at pc and the one behind it. */
  lemma ParcelWords(pc: nat)
    requires pc < WORD && pc % 2 == 0
    ensures Unaligned(pc) <==> pc % 4 == 2
    ensures WordAfter(pc, 0) == pc - pc % 4 && WordAfter(pc, 0) / 4 == pc / 4
    ensures var up := (pc + 2) % WORD;
            && (Unaligned(up) <==> !Unaligned(pc))
            && up / 4 == (if Unaligned(pc) then WordAfter(pc, 1) / 4 else pc / 4)
  {
    var q := pc / 4;
    if pc % 4 == 2 {
      assert pc == 4 * q + 2;
      UpperParcel(q);
      LowerParcel(q);
    } else {
      assert pc == 4 * q;
      LowerParcel(q);
    }
  }

  lemma Concat(hi: nat, lo: nat)
    requires lo < HALF
    ensures (hi * HALF + lo) % HALF == lo && (hi * HALF + lo) / HALF == hi
  {
  }

  /** The word the FIFO presents is the one that holds pc. */
  lemma PresentsWord(mem: Memory, f: Fifo, pc: nat, i: In)
    requires Holds(mem, f, pc) && FifoInputOk(mem, f, pc, i) && (f.valid[0] || i.valid)
    ensures OutAddr(f, i) == pc && Rdata(f, i) == mem(pc / 4)
  {
    ParcelWords(pc);
  }

  lemma OffersParcels(mem: Memory, f: Fifo, pc: nat, i: In)
    requires Holds(mem, f, pc) && FifoInputOk(mem, f, pc, i) && OutValid(f, i)
    ensures Offered(mem, pc, Instr(OutAddr(f, i), OutRdata(f, i)))
  {
    PresentsWord(mem, f, pc, i);
    ParcelWords(pc);
    if Unaligned(pc) {
      var upper := if f.valid[1] then f.rdata[1] else i.rdata;
      Concat(upper % HALF, Rdata(f, i) / HALF);
      if !Compressed(Parcel(mem, pc)) {
        assert upper == mem(WordAfter(pc, 1) / 4);
      }
    }
  }

  /** Whatever the FIFO offers is the instruction at pc. */
  lemma OffersInstruction(mem: Memory, f: Fifo, pc: nat, i: In)
    requires Holds(mem, f, pc) && FifoInputOk(mem, f, pc, i) && OutValid(f, i)
    ensures Delivered(mem, pc, Instr(OutAddr(f, i), OutRdata(f, i))) && PcBehind(mem, pc) == NextPc(mem, pc)
  {
    OffersParcels(mem, f, pc, i);
    OfferedIsDelivered(mem, pc, Instr(OutAddr(f, i), OutRdata(f, i)));
  }

  // ----- the FIFO across one clock -----

  /** The program counter after the cycle. */
  function PcAfter(mem: Memory, f: Fifo, pc: nat, i: In): nat
    requires Shaped(f)
  {
    if Accepted(f, i) then PcBehind(mem, pc) else pc
  }

  lemma PushKeeps(mem: Memory, f: Fifo, pc: nat, i: In)
    requires Holds(mem, f, pc) && FifoInputOk(mem, f, pc, i)
    ensures Holds(mem, Pushed(f, i), pc)
    ensures Occupancy(Pushed(f, i)) == Occupancy(f) + if i.valid then 1 else 0
  {
    ParcelWords(pc);
    FirstFreeIs(f.valid, Occupancy(f));
  }

  /** The word address behind an aligned one is the next one, or 0. */
  lemma AlignedNext(base: nat)
    requires base < WORD && base % 4 == 0
    ensures (base + 4) % WORD == (if base == WORD - 4 then 0 else base + 4) && (base + 4) % WORD % 4 == 0
    ensures (base + 4) % WORD + 2 < WORD
  {
    assert base == 4 * (base / 4);
  }

  /** Wrapping before an addition changes nothing. */
  lemma SumWraps(x: nat, y: nat)
    ensures (x % WORD + y) % WORD == (x + y) % WORD
  {
    var z := x % WORD + y;
    DivModUnique(x + y, WORD, x / WORD + z / WORD, z % WORD);
  }

  lemma NextWordIs(pc: nat, n: nat)
    requires pc < WORD && pc % 2 == 0
    ensures NextWord(pc) == WordAfter(pc, 1) && NextWord(pc) % 4 == 0 && NextWord(pc) + 2 < WORD
    ensures WordAfter(NextWord(pc), n) == WordAfter(pc, n + 1) == WordAfter(NextWord(pc) + 2, n)
  {
    var base, next := pc - pc % 4, NextWord(pc);
    AlignedNext(base);
    SumWraps(base + 4, 4 * n);
    BehindAligned(next);
    assert base + 4 + 4 * n == base + 4 * (n + 1);
  }

  lemma BehindAligned(w: nat)
    requires w % 4 == 0
    ensures w - w % 4 == w && w + 2 - (w + 2) % 4 == w
  {
    assert w == 4 * (w / 4);
  }

  lemma ShiftContents(g: Fifo, pc: nat, next: nat, w0: nat, w1: nat, w2: nat, w3: nat)
    requires Shaped(g) && Contents(g, pc, w0, w1, w2) && g.valid[0]
    ensures Contents(Shifted(g, next), next, w1, w2, w3)
    ensures Occupancy(Shifted(g, next)) == Occupancy(g) - 1
  {
    var h := Shifted(g, next);
    assert h.addr[0] == next && h.rdata[0] == g.rdata[1] && h.rdata[1] == g.rdata[2];
    assert h.valid[0] == g.valid[1] && h.valid[1] == g.valid[2] && !h.valid[2];
  }

  lemma EvenNext(w: nat)
    requires w % 4 == 0
    ensures w % 2 == 0 && (w + 2) % 2 == 0
  {
    assert w == 2 * (w / 4 * 2);
  }

  /** The words behind the next address are the ones behind pc, one further on. */
  lemma NextFetches(mem: Memory, pc: nat, next: nat, n: nat)
    requires pc < WORD && pc % 2 == 0 && (next == NextWord(pc) || next == NextWord(pc) + 2)
    ensures next < WORD && next % 2 == 0
    ensures WordAfter(next, n) == WordAfter(pc, n + 1) && Fetched(mem, next, n) == Fetched(mem, pc, n + 1)
  {
    NextWordIs(pc, n);
    EvenNext(NextWord(pc));
    if next == NextWord(pc) {
    } else {
      assert next == NextWord(pc) + 2;
    }
  }

  lemma ShiftKeeps(mem: Memory, g: Fifo, pc: nat, next: nat)
    requires Holds(mem, g, pc) && g.valid[0] && (next == NextWord(pc) || next == NextWord(pc) + 2)
    ensures Holds(mem, Shifted(g, next), next)
    ensures Occupancy(Shifted(g, next)) == Occupancy(g) - 1
    ensures WordAfter(next, Occupancy(g) - 1) == WordAfter(pc, Occupancy(g))
  {
    var w0, w1, w2, w3 := Fetched(mem, pc, 0), Fetched(mem, pc, 1), Fetched(mem, pc, 2), Fetched(mem, next, 2);
    NextFetches(mem, pc, next, 0);
    NextFetches(mem, pc, next, 1);
    NextFetches(mem, pc, next, Occupancy(g) - 1);
    ShiftContents(g, pc, next, w0, w1, w2, w3);
  }

  lemma HalfwordSteps(pc: nat)
    requires pc < WORD && pc % 2 == 0
    ensures (pc + 2) % WORD == if Unaligned(pc) then NextWord(pc) else pc + 2
    ensures (pc + 4) % WORD == if Unaligned(pc) then NextWord(pc) + 2 else NextWord(pc)
  {
    if pc % 4 == 2 {
      var base := pc - 2;
      assert base % 4 == 0 && base <= WORD - 4;
    } else {
      assert pc % 4 == 0 && pc <= WORD - 4;
    }
  }

  lemma NextPcIs(mem: Memory, pc: nat)
    requires pc < WORD && pc % 2 == 0
    ensures PcBehind(mem, pc)
         == if Unaligned(pc) then (if Compressed(Parcel(mem, pc)) then NextWord(pc) else NextWord(pc) + 2)
            else if Compressed(Parcel(mem, pc)) then pc + 2 else NextWord(pc)
  {
    HalfwordSteps(pc);
  }

  lemma LowBits(w: nat)
    ensures Compressed(w % HALF) <==> Compressed(w)
  {
    assert w == HALF * (w / HALF) + w % HALF && HALF == 4 * 0x4000;
  }

  lemma WordOffset(pc: nat)
    requires pc % 2 == 0 && !Unaligned(pc)
    ensures pc % 4 == 0
  {
  }

  /** What the pop does, in terms of the word at pc. */
  lemma PopIs(f: Fifo, pc: nat, i: In, w: Word)
    requires Shaped(f) && pc < WORD && pc % 2 == 0 && Pushed(f, i).addr[0] == pc && Rdata(f, i) == w
    ensures Popped(f, i)
         == if Unaligned(pc) then Shifted(Pushed(f, i), if Compressed(w / HALF) then NextWord(pc) else NextWord(pc) + 2)
            else if Compressed(w % HALF) then Pushed(f, i).(addr := Pushed(f, i).addr[0 := pc + 2])
            else Shifted(Pushed(f, i), NextWord(pc))
  {
    LowBits(w);
    if !Unaligned(pc) {
      WordOffset(pc);
    }
  }

  lemma PopKeeps(mem: Memory, f: Fifo, pc: nat, i: In)
    requires Holds(mem, f, pc) && FifoInputOk(mem, f, pc, i) && OutValid(f, i)
    requires Holds(mem, Pushed(f, i), pc) && Pushed(f, i).valid[0]
    requires Occupancy(Pushed(f, i)) == Occupancy(f) + if i.valid then 1 else 0
    ensures var g, h, pc' := Pushed(f, i), Popped(f, i), PcBehind(mem, pc);
            && Holds(mem, h, pc')
            && Occupancy(h) <= Occupancy(g) && (Occupancy(h) == 0 ==> pc' % 4 == 0)
            && WordAfter(pc', Occupancy(h)) == WordAfter(pc, Occupancy(g))
  {
    var g, pc' := Pushed(f, i), PcBehind(mem, pc);
    PresentsWord(mem, f, pc, i);
    PopIs(f, pc, i, mem(pc / 4));
    if Unaligned(pc) || !Compressed(Parcel(mem, pc)) {
      NextAfterPop(mem, pc);
      NextWordIs(pc, 0);
      ShiftKeeps(mem, g, pc, pc');
    } else {
      CompressedOn(mem, pc);
      HalfwordOn(mem, g, pc);
    }
  }

  lemma NextAfterPop(mem: Memory, pc: nat)
    requires pc < WORD && pc % 2 == 0 && (Unaligned(pc) || !Compressed(Parcel(mem, pc)))
    ensures PcBehind(mem, pc)
         == if Unaligned(pc) && !Compressed(Parcel(mem, pc)) then NextWord(pc) + 2 else NextWord(pc)
  {
    NextPcIs(mem, pc);
  }

  lemma CompressedOn(mem: Memory, pc: nat)
    requires pc < WORD && pc % 2 == 0 && !Unaligned(pc) && Compressed(Parcel(mem, pc))
    ensures pc % 4 == 0 && PcBehind(mem, pc) == pc + 2
  {
    WordStart(pc);
    NextPcIs(mem, pc);
  }

  lemma WordStart(pc: nat)
    requires pc % 2 == 0
    ensures !Unaligned(pc) <==> pc % 4 == 0
  {
    var half := pc / 2;
    assert pc == 2 * half && half == half / 2 * 2 + half % 2;
  }

  /** A clock without a branch: the FIFO holds the words from the new program counter on, and the word that
      follows its contents is the one that followed before, or the one after it if a word was pushed. */
  lemma FifoAdvances(mem: Memory, f: Fifo, pc: nat, i: In)
    requires Holds(mem, f, pc) && FifoInputOk(mem, f, pc, i) && !i.clear
    ensures var f', pc' := FifoStep(f, i), PcAfter(mem, f, pc, i);
            && Holds(mem, f', pc')
            && Occupancy(f') <= Occupancy(f) + (if i.valid then 1 else 0)
            && WordAfter(pc', Occupancy(f')) == WordAfter(pc, Occupancy(f) + if i.valid then 1 else 0)
            && (Accepted(f, i) && Occupancy(f') == 0 ==> pc' % 4 == 0)
            && (!Accepted(f, i) ==> Occupancy(f') == Occupancy(f) + if i.valid then 1 else 0)
  {
    PushKeeps(mem, f, pc, i);
    if Accepted(f, i) {
      PresentsWord(mem, f, pc, i);
      PopKeeps(mem, f, pc, i);
    }
  }

  lemma HalfwordOn(mem: Memory, g: Fifo, pc: nat)
    requires Holds(mem, g, pc) && g.valid[0] && pc % 4 == 0
    ensures Holds(mem, g.(addr := g.addr[0 := pc + 2]), pc + 2)
    ensures forall n :: WordAfter(pc + 2, n) == WordAfter(pc, n)
  {
    assert forall n :: WordAfter(pc + 2, n) == WordAfter(pc, n);
  }

  // ----- the fetch address follows the FIFO -----

  /** An address that continued the contents still does after the contents moved on. */
  lemma StillContinues(f: Fifo, pc: nat, f': Fifo, pc': nat, a: nat)
    requires Shaped(f) && Shaped(f') && pc' < WORD && a < WORD && a - a % 4 == WordAfter(pc', Occupancy(f'))
    requires if Occupancy(f') > 0 then a % 4 == 0 else a % 4 == pc' % 4
    ensures Continues(f', pc', a)
  {
    if Occupancy(f') == 0 {
      SameWord(pc', a);
    }
  }

  lemma SameWord(pc: nat, a: nat)
    requires pc < WORD && a - a % 4 == WordAfter(pc, 0) && a % 4 == pc % 4
    ensures a == pc
  {
  }

  lemma FollowsUnpushed(mem: Memory, f: Fifo, pc: nat, i: In, a: nat)
    requires Holds(mem, f, pc) && !i.valid && !i.clear && Continues(f, pc, a)
    ensures Continues(FifoStep(f, i), PcAfter(mem, f, pc, i), a)
  {
    FifoAdvances(mem, f, pc, i);
    StillContinues(f, pc, FifoStep(f, i), PcAfter(mem, f, pc, i), a);
  }

  lemma NextContinues(pc: nat, a: nat, n: nat)
    requires a < WORD && a - a % 4 == WordAfter(pc, n)
    ensures NextWord(a) == WordAfter(pc, n + 1)
  {
    SumWraps(pc - pc % 4 + 4 * n, 4);
  }

  lemma NextAligned(a: nat)
    ensures NextWord(a) % 4 == 0 && NextWord(a) < WORD
  {
  }

  lemma FollowsPushed(mem: Memory, f: Fifo, pc: nat, i: In)
    requires Holds(mem, f, pc) && FifoInputOk(mem, f, pc, i) && i.valid && !i.clear
    ensures Continues(FifoStep(f, i), PcAfter(mem, f, pc, i), NextWord(i.addr))
  {
    FifoAdvances(mem, f, pc, i);
    NextContinues(pc, i.addr, Occupancy(f));
    NextAligned(i.addr);
    var a := NextWord(i.addr);
    assert a - a % 4 == a;
    StillContinues(f, pc, FifoStep(f, i), PcAfter(mem, f, pc, i), a);
  }

  // ----- the protocol -----

  /** What core and memory keep to: branches only with requests and to half-word aligned targets, grants only
      for requests, and a response only for the granted fetch, with the word at its address. */
  predicate Legal(mem: Memory, b: Buffer, pending: Option<nat>, i: Input)
    requires Shaped(b.fifo)
  {
    && (i.branch ==> i.req && i.addr < WORD && i.addr % 2 == 0)
    && (i.gnt ==> Control(b, i).instrReq)
    && (i.rvalid ==> pending.Some? && i.rdata == mem(pending.value / 4))
  }

  /** The granted fetch whose response is outstanding. */
  function PendingAfter(b: Buffer, pending: Option<nat>, i: Input): Option<nat>
    requires Shaped(b.fifo)
  {
    if i.gnt then Some(Control(b, i).instrAddr) else if i.rvalid then None else pending
  }

  /** The state invariant: the FIFO holds the words from pc on, and the fetch that is issued, outstanding or
      next continues them, with room left for its word. */
  predicate Tracks(mem: Memory, b: Buffer, pending: Option<nat>, pc: nat) {
    && Holds(mem, b.fifo, pc)
    && match b.cs
       case IDLE => pending == None && Continues(b.fifo, pc, NextWord(b.instrAddr))
       case WAIT_GNT => pending == None && Occupancy(b.fifo) <= 2 && Continues(b.fifo, pc, b.instrAddr)
       case WAIT_RVALID => pending == Some(b.instrAddr) && Occupancy(b.fifo) <= 2 && Continues(b.fifo, pc, b.instrAddr)
       case WAIT_ABORTED => pending.Some? && Occupancy(b.fifo) == 0 && b.instrAddr == pc
  }

  /** Room: words held plus words issued or outstanding never exceed the three slots, so a word that arrives
      always finds its slot free; and what arrives at an empty FIFO is the word of the current pc. */
  lemma NeverLosesAWord(mem: Memory, b: Buffer, pending: Option<nat>, pc: nat, i: Input)
    requires Tracks(mem, b, pending, pc) && Legal(mem, b, pending, i)
    ensures Occupancy(b.fifo) + (if b.cs.WAIT_GNT? || b.cs.WAIT_RVALID? then 1 else 0) <= 3
    ensures FifoIn(b, i).valid ==> !b.fifo.valid[2] && FifoInputOk(mem, b.fifo, pc, FifoIn(b, i))
    ensures FifoIn(b, i).valid && Occupancy(b.fifo) == 0 ==> b.instrAddr == pc
    ensures i.gnt && pending.Some? ==> i.rvalid
  {
  }

  function PcNext(mem: Memory, b: Buffer, pc: nat, i: Input): nat
    requires Shaped(b.fifo)
  {
    if i.branch then i.addr else PcAfter(mem, b.fifo, pc, FifoIn(b, i))
  }

  lemma BranchKeeps(mem: Memory, b: Buffer, pending: Option<nat>, pc: nat, i: Input)
    requires Tracks(mem, b, pending, pc) && Legal(mem, b, pending, i) && i.branch
    ensures Tracks(mem, Step(b, i), PendingAfter(b, pending, i), i.addr)
  {
    ParcelWords(i.addr);
  }

  lemma FetchKeeps(mem: Memory, b: Buffer, pending: Option<nat>, pc: nat, i: Input)
    requires Tracks(mem, b, pending, pc) && Legal(mem, b, pending, i) && !i.branch
    ensures Tracks(mem, Step(b, i), PendingAfter(b, pending, i), PcNext(mem, b, pc, i))
  {
    var f, fi := b.fifo, FifoIn(b, i);
    NeverLosesAWord(mem, b, pending, pc, i);
    FifoAdvances(mem, f, pc, fi);
    if fi.valid {
      FollowsPushed(mem, f, pc, fi);
    } else if b.cs.IDLE? {
      FollowsUnpushed(mem, f, pc, fi, NextWord(b.instrAddr));
    } else {
      assert Continues(f, pc, b.instrAddr) by { ParcelWords(pc); }
      FollowsUnpushed(mem, f, pc, fi, b.instrAddr);
    }
  }

  // ----- the buffer does not starve the core -----

  /** The words of the instruction at pc that the FIFO does not hold yet. */
  function Missing(mem: Memory, f: Fifo, pc: nat): nat
    requires Shaped(f)
  {
    var needed := if Unaligned(pc) && !Compressed(Parcel(mem, pc)) then 2 else 1;
    if Occupancy(f) < needed then needed - Occupancy(f) else 0
  }

  /** The request and its address do not depend on the grant. */
  lemma RequestIgnoresGrant(b: Buffer, i: Input)
    requires Shaped(b.fifo)
    ensures var d, e := Control(b, i), Control(b, i.(gnt := !i.gnt));
            d.instrReq == e.instrReq && d.instrAddr == e.instrAddr
  {
  }

  /** Cycles to the instruction at pc with a memory that answers at once: a word a cycle once a fetch is out. */
  function Distance(mem: Memory, b: Buffer, pc: nat): nat
    requires Shaped(b.fifo)
  {
    Missing(mem, b.fifo, pc) + if b.cs.WAIT_RVALID? then 0 else 1
  }

  /** The core wants instructions, and memory grants every request and answers in the next cycle. */
  predicate Prompt(mem: Memory, b: Buffer, pending: Option<nat>, i: Input)
    requires Shaped(b.fifo)
  {
    && i.req && !i.branch && Legal(mem, b, pending, i)
    && (Control(b, i).instrReq ==> i.gnt) && (pending.Some? ==> i.rvalid)
  }

  /** What is not offered is fetched: each cycle brings the instruction one cycle closer. */
  lemma GetsCloser(mem: Memory, b: Buffer, pending: Option<nat>, pc: nat, i: Input)
    requires Tracks(mem, b, pending, pc) && Prompt(mem, b, pending, i) && !OutValid(b.fifo, FifoIn(b, i))
    ensures PcNext(mem, b, pc, i) == pc
    ensures Distance(mem, Step(b, i), pc) < Distance(mem, b, pc)
  {
    NeverLosesAWord(mem, b, pending, pc, i);
    FifoAdvances(mem, b.fifo, pc, FifoIn(b, i));
    MissingIsNotOffered(mem, b.fifo, pc, FifoIn(b, i));
  }

  lemma MissingIsNotOffered(mem: Memory, f: Fifo, pc: nat, i: In)
    requires Holds(mem, f, pc) && FifoInputOk(mem, f, pc, i)
    ensures !OutValid(f, i) ==> Missing(mem, f, pc) > if i.valid then 1 else 0
  {
    ParcelWords(pc);
    if f.valid[0] || i.valid {
      PresentsWord(mem, f, pc, i);
    }
  }

  /** After at most three such cycles the instruction at the program counter is offered. */
  lemma {:induction false} Served(mem: Memory, b: Buffer, pending: Option<nat>, pc: nat, inputs: seq<Input>) returns (k: nat)
    requires Tracks(mem, b, pending, pc) && |inputs| > Distance(mem, b, pc)
    requires forall n :: 0 <= n < |inputs| ==> PromptAt(mem, b, pending, inputs, n)
    ensures k <= Distance(mem, b, pc) <= 3 && k < |inputs|
    ensures OutValid(BufferAfter(b, inputs, k).fifo, FifoIn(BufferAfter(b, inputs, k), inputs[k]))
    decreases |inputs|
  {
    var i := inputs[0];
    assert PromptAt(mem, b, pending, inputs, 0);
    if OutValid(b.fifo, FifoIn(b, i)) {
      k := 0;
    } else {
      GetsCloser(mem, b, pending, pc, i);
      FetchKeeps(mem, b, pending, pc, i);
      forall n | 0 <= n < |inputs| - 1
        ensures PromptAt(mem, Step(b, i), PendingAfter(b, pending, i), inputs[1..], n)
      {
        assert PromptAt(mem, b, pending, inputs, n + 1);
      }
      k := Served(mem, Step(b, i), PendingAfter(b, pending, i), pc, inputs[1..]);
      k := k + 1;
    }
  }

  /** The buffer, and below it the outstanding fetch, after the first n inputs. */
  function BufferAfter(b: Buffer, inputs: seq<Input>, n: nat): (r: Buffer)
    requires Shaped(b.fifo) && n <= |inputs|
    ensures Shaped(r.fifo)
    decreases n
  {
    if n == 0 then b else BufferAfter(Step(b, inputs[0]), inputs[1..], n - 1)
  }

  function PendingAt(b: Buffer, pending: Option<nat>, inputs: seq<Input>, n: nat): Option<nat>
    requires Shaped(b.fifo) && n <= |inputs|
    decreases n
  {
    if n == 0 then pending else PendingAt(Step(b, inputs[0]), PendingAfter(b, pending, inputs[0]), inputs[1..], n - 1)
  }

  predicate PromptAt(mem: Memory, b: Buffer, pending: Option<nat>, inputs: seq<Input>, n: nat)
    requires Shaped(b.fifo) && n < |inputs|
  {
    Prompt(mem, BufferAfter(b, inputs, n), PendingAt(b, pending, inputs, n), inputs[n])
  }

  // ----- runs -----

  /** The instructions accepted since a branch to `start` (or since reset). */
  datatype Stream = Stream(start: nat, log: seq<Instr>)

  datatype Run = Run(b: Buffer, pending: Option<nat>, done: seq<Stream>, open: Stream)

  /** What the core takes in a cycle. */
  function Taken(b: Buffer, i: Input): seq<Instr>
    requires Shaped(b.fifo)
  {
    if Accepted(b.fifo, FifoIn(b, i)) then [Instr(OutAddr(b.fifo, FifoIn(b, i)), OutRdata(b.fifo, FifoIn(b, i)))] else []
  }

  function Cycle(r: Run, i: Input): (n: Run)
    requires Shaped(r.b.fifo)
    ensures Shaped(n.b.fifo)
  {
    var stream := r.open.(log := r.open.log + Taken(r.b, i));
    var b, pending := Step(r.b, i), PendingAfter(r.b, r.pending, i);
    if i.branch then Run(b, pending, r.done + [stream], Stream(i.addr, []))
    else Run(b, pending, r.done, stream)
  }

  /** After reset the first fetch goes to address 4: the word after the cleared fetch address. */
  function RunOf(inputs: seq<Input>): (r: Run)
    ensures Shaped(r.b.fifo)
  {
    if inputs == [] then Run(Reset(), None, [], Stream(4, []))
    else Cycle(RunOf(inputs[..|inputs| - 1]), inputs[|inputs| - 1])
  }

  predicate LegalRun(mem: Memory, inputs: seq<Input>) {
    inputs == [] ||
    var r := RunOf(inputs[..|inputs| - 1]);
    LegalRun(mem, inputs[..|inputs| - 1]) && Legal(mem, r.b, r.pending, inputs[|inputs| - 1])
  }

  predicate Faithful(mem: Memory, s: Stream) {
    forall k :: 0 <= k < |s.log| ==> Delivered(mem, PcAt(mem, s.start, k), s.log[k])
  }

  lemma TakenIsNext(mem: Memory, b: Buffer, pending: Option<nat>, i: Input, s: Stream)
    requires Tracks(mem, b, pending, PcAt(mem, s.start, |s.log|)) && Legal(mem, b, pending, i) && Faithful(mem, s)
    ensures var s' := s.(log := s.log + Taken(b, i));
            && Faithful(mem, s')
            && PcAt(mem, s.start, |s'.log|) == PcAfter(mem, b.fifo, PcAt(mem, s.start, |s.log|), FifoIn(b, i))
  {
    var pc := PcAt(mem, s.start, |s.log|);
    NeverLosesAWord(mem, b, pending, pc, i);
    if Accepted(b.fifo, FifoIn(b, i)) {
      OffersInstruction(mem, b.fifo, pc, FifoIn(b, i));
    }
  }

  /** The stream theorem: in every legal run, for any grant and response timing and any aborted fetches, every
      stream of accepted instructions is the sequential parse of memory from its branch target. */
  lemma {:induction false} EveryRunDelivers(mem: Memory, inputs: seq<Input>)
    requires LegalRun(mem, inputs)
    ensures var r := RunOf(inputs);
            && Tracks(mem, r.b, r.pending, PcAt(mem, r.open.start, |r.open.log|))
            && Faithful(mem, r.open)
            && forall k :: 0 <= k < |r.done| ==> Faithful(mem, r.done[k])
  {
    if inputs == [] {
    } else {
      var before, i := inputs[..|inputs| - 1], inputs[|inputs| - 1];
      EveryRunDelivers(mem, before);
      var r := RunOf(before);
      var pc := PcAt(mem, r.open.start, |r.open.log|);
      TakenIsNext(mem, r.b, r.pending, i, r.open);
      if i.branch {
        BranchKeeps(mem, r.b, r.pending, pc, i);
      } else {
        FetchKeeps(mem, r.b, r.pending, pc, i);
      }
    }
  }
}

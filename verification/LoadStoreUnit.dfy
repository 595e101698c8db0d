/** The load/store unit (zeroriscy_load_store_unit.sv): byte enables, rotation, reassembly and sign extension,
    and the state machine that makes two bus accesses of a misaligned one.

    Main theorem (`EveryRunIsByteAddressed`): in every run, for any grant and response timing, the completed
    loads and stores behave like accesses to a byte-addressed memory, one after the other. */
module LoadStoreUnit {
  import opened Arith
  import opened Bytes
  import opened Options

  type Address = x: nat | x < WORD
  datatype Fsm = IDLE | WAIT_GNT_MIS | WAIT_RVALID_MIS | WAIT_GNT | WAIT_RVALID

  /** Data type 0 is a word, 1 a half word, 2 and 3 a byte. */
  datatype Request = Request(we: bool, kind: TwoBits, wdata: Word, regOffset: TwoBits, signExt: bool, address: Address)

  datatype In = In(req: bool, r: Request, gnt: bool, rvalid: bool, rdata: Word)

  datatype Lsu = Lsu(cs: Fsm, kindQ: TwoBits, offsetQ: TwoBits, signQ: bool, weQ: bool,
                     rdataQ: Word, misalignedQ: bool, misalignedAddr: Address)

  // ----- byte enables and store data -----

  function ByteEnable(kind: TwoBits, offset: TwoBits, second: bool): Lanes {
    if kind == 0 && !second then
      if offset == 0 then Lanes(true, true, true, true) else if offset == 1 then Lanes(false, true, true, true)
      else if offset == 2 then Lanes(false, false, true, true) else Lanes(false, false, false, true)
    else if kind == 0 then
      if offset == 0 then Lanes(false, false, false, false) else if offset == 1 then Lanes(true, false, false, false)
      else if offset == 2 then Lanes(true, true, false, false) else Lanes(true, true, true, false)
    else if kind == 1 && !second then
      if offset == 0 then Lanes(true, true, false, false) else if offset == 1 then Lanes(false, true, true, false)
      else if offset == 2 then Lanes(false, false, true, true) else Lanes(false, false, false, true)
    else if kind == 1 then Lanes(true, false, false, false)
    else Lanes(offset == 0, offset == 1, offset == 2, offset == 3)
  }

  function Rotated(w: Word, n: TwoBits): Word {
    if n == 0 then w
    else if n == 1 then Word(w.b3, w.b0, w.b1, w.b2)
    else if n == 2 then Word(w.b2, w.b3, w.b0, w.b1)
    else Word(w.b1, w.b2, w.b3, w.b0)
  }

  // ----- load data: reassembly and sign extension -----

  function Fill(signed: bool, top: Byte): Byte {
    if signed && top >= 128 then 255 else 0
  }

  function ExtendHalf(signed: bool, lo: Byte, hi: Byte): Word {
    Word(lo, hi, Fill(signed, hi), Fill(signed, hi))
  }

  function ExtendByte(signed: bool, b: Byte): Word {
    Word(b, Fill(signed, b), Fill(signed, b), Fill(signed, b))
  }

  function ReadExtended(l: Lsu, data: Word): Word {
    var q := l.rdataQ;
    if l.kindQ == 0 then
      if l.offsetQ == 0 then data
      else if l.offsetQ == 1 then Word(q.b1, q.b2, q.b3, data.b0)
      else if l.offsetQ == 2 then Word(q.b2, q.b3, data.b0, data.b1)
      else Word(q.b3, data.b0, data.b1, data.b2)
    else if l.kindQ == 1 then
      if l.offsetQ == 0 then ExtendHalf(l.signQ, data.b0, data.b1)
      else if l.offsetQ == 1 then ExtendHalf(l.signQ, data.b1, data.b2)
      else if l.offsetQ == 2 then ExtendHalf(l.signQ, data.b2, data.b3)
      else ExtendHalf(l.signQ, q.b3, data.b0)
    else ExtendByte(l.signQ, Lane(data, l.offsetQ))
  }

  // ----- the state machine -----

  predicate MisalignedOut(l: Lsu) {
    l.cs.WAIT_RVALID_MIS? || (l.cs.WAIT_GNT? && l.misalignedQ)
  }

  /** The address from the ALU: while the unit asks for it, the decoder adds four to the first address. */
  function DataAddr(l: Lsu, i: In): Address {
    if MisalignedOut(l) then (l.misalignedAddr + 4) % WORD else i.r.address
  }

  /** A second access is needed. */
  predicate DataMisaligned(l: Lsu, i: In) {
    && i.req && !l.misalignedQ
    && ((i.r.kind == 0 && DataAddr(l, i) % 4 != 0) || (i.r.kind == 1 && DataAddr(l, i) % 4 == 3))
  }

  datatype Drive = Drive(req: bool, update: bool, increase: bool, valid: bool, ns: Fsm)

  function Control(l: Lsu, i: In): Drive {
    var mis := DataMisaligned(l, i);
    match l.cs
    case IDLE =>
      if !i.req then Drive(false, false, false, false, IDLE)
      else if i.gnt then Drive(true, true, mis, false, if mis then WAIT_RVALID_MIS else WAIT_RVALID)
      else Drive(true, false, false, false, if mis then WAIT_GNT_MIS else WAIT_GNT)
    case WAIT_GNT_MIS =>
      if i.gnt then Drive(true, true, mis, false, WAIT_RVALID_MIS) else Drive(true, false, false, false, WAIT_GNT_MIS)
    case WAIT_RVALID_MIS =>
      Drive(i.rvalid, i.gnt, false, false,
            if !i.rvalid then WAIT_RVALID_MIS else if i.gnt then WAIT_RVALID else WAIT_GNT)
    case WAIT_GNT =>
      if i.gnt then Drive(true, true, false, false, WAIT_RVALID) else Drive(true, false, false, false, WAIT_GNT)
    case WAIT_RVALID => Drive(false, false, false, i.rvalid, if i.rvalid then IDLE else WAIT_RVALID)
  }

  function WriteData(l: Lsu, i: In): Word {
    Rotated(i.r.wdata, (DataAddr(l, i) % 4 + 4 - i.r.regOffset) % 4)
  }

  /** What the register file receives. */
  function ReadData(l: Lsu, i: In): Word {
    if i.rvalid then ReadExtended(l, i.rdata) else l.rdataQ
  }

  function Step(l: Lsu, i: In): Lsu {
    var d, addr, mis := Control(l, i), DataAddr(l, i), DataMisaligned(l, i);
    Lsu(d.ns,
        if i.gnt then i.r.kind else l.kindQ, if i.gnt then addr % 4 else l.offsetQ,
        if i.gnt then i.r.signExt else l.signQ, if i.gnt then i.r.we else l.weQ,
        if !i.rvalid || l.weQ then l.rdataQ else if l.misalignedQ || mis then i.rdata else ReadExtended(l, i.rdata),
        if d.update then mis else l.misalignedQ,
        if d.update && d.increase then addr else l.misalignedAddr)
  }

  function Reset(): Lsu {
    Lsu(IDLE, 0, 0, false, false, Word(0, 0, 0, 0), false, 0)
  }

  class LsuRegisters {
    var cs: Fsm
    var dataTypeQ: TwoBits
    var rdataOffsetQ: TwoBits
    var dataSignExtQ: bool
    var dataWeQ: bool
    var rdataQ: Word
    var dataMisalignedQ: bool
    var misalignedAddr: Address

    function State(): Lsu
      reads this
    {
      Lsu(cs, dataTypeQ, rdataOffsetQ, dataSignExtQ, dataWeQ, rdataQ, dataMisalignedQ, misalignedAddr)
    }

    constructor ()
      ensures State() == Reset()
    {
      cs, dataTypeQ, rdataOffsetQ, dataSignExtQ, dataWeQ := IDLE, 0, 0, false, false;
      rdataQ, dataMisalignedQ, misalignedAddr := Word(0, 0, 0, 0), false, 0;
    }

    /** The case over the state. */
    method Drives(i: In) returns (d: Drive)
      ensures d == Control(State(), i)
    {
      var mis := DataMisaligned(State(), i);
      var req, update, increase, valid, ns := false, false, false, false, cs;
      match cs {
        case IDLE =>
          if i.req {
            req := true;
            if i.gnt {
              update, increase := true, mis;
              ns := if mis then WAIT_RVALID_MIS else WAIT_RVALID;
            } else {
              ns := if mis then WAIT_GNT_MIS else WAIT_GNT;
            }
          }
        case WAIT_GNT_MIS =>
          req := true;
          if i.gnt { update, increase, ns := true, mis, WAIT_RVALID_MIS; }
        case WAIT_RVALID_MIS =>
          update := i.gnt;
          if i.rvalid {
            req := true;
            ns := if i.gnt then WAIT_RVALID else WAIT_GNT;
          }
        case WAIT_GNT =>
          req := true;
          if i.gnt { update, ns := true, WAIT_RVALID; }
        case WAIT_RVALID =>
          if i.rvalid { valid, ns := true, IDLE; }
      }
      d := Drive(req, update, increase, valid, ns);
    }

    method Clock(i: In) returns (d: Drive, addr: Address, be: Lanes, wdata: Word, rdata: Word)
      modifies this
      ensures State() == Step(old(State()), i)
      ensures d == Control(old(State()), i) && addr == DataAddr(old(State()), i)
      ensures be == ByteEnable(i.r.kind, addr % 4, old(State()).misalignedQ) && wdata == WriteData(old(State()), i)
      ensures rdata == ReadData(old(State()), i)
    {
      d := Drives(i);
      var mis, ext := DataMisaligned(State(), i), ReadExtended(State(), i.rdata);
      addr, wdata, rdata := DataAddr(State(), i), WriteData(State(), i), ReadData(State(), i);
      be := ByteEnable(i.r.kind, addr % 4, dataMisalignedQ);
      if i.rvalid && !dataWeQ {
        rdataQ := if dataMisalignedQ || mis then i.rdata else ext;
      }
      cs := d.ns;
      if d.update {
        dataMisalignedQ := mis;
        if d.increase { misalignedAddr := addr; }
      }
      if i.gnt {
        dataTypeQ, rdataOffsetQ, dataSignExtQ, dataWeQ := i.r.kind, addr % 4, i.r.signExt, i.r.we;
      }
    }
  }

  // ----- the bus memory and the byte-addressed memory -----

  type Memory = nat -> Byte

  ghost predicate Same(m: Memory, n: Memory) {
    forall a: nat :: m(a) == n(a)
  }

  /** The word that holds an address. */
  function Fetch(m: Memory, addr: Address): Word {
    var base := addr - addr % 4;
    Word(m(base), m(base + 1), m(base + 2), m(base + 3))
  }

  /** A bus write: the enabled lanes of the word that holds an address. */
  function Written(m: Memory, addr: Address, be: Lanes, w: Word): Memory {
    (a: nat) => if a / 4 == addr / 4 && Enabled(be, a % 4) then Lane(w, a % 4) else m(a)
  }

  function Width(kind: TwoBits): nat {
    if kind == 0 then 4 else if kind == 1 then 2 else 1
  }

  function ByteAt(m: Memory, r: Request, j: nat): Byte {
    m((r.address + j) % WORD)
  }

  /** A number of this many values, as a 32-bit register holds it: in two's complement when it is signed. */
  function Extended(v: nat, values: nat, signed: bool): nat {
    (if signed && 2 * v >= values then v - values else v) % 0x1_0000_0000
  }

  /** The number a load of this kind makes of the bytes at and behind its address. */
  function Number(kind: TwoBits, signed: bool, b0: Byte, b1: Byte, b2: Byte, b3: Byte): nat {
    if kind == 0 then b0 + 0x100 * b1 + 0x1_0000 * b2 + 0x100_0000 * b3
    else if kind == 1 then Extended(b0 + 0x100 * b1, 0x1_0000, signed)
    else Extended(b0, 0x100, signed)
  }

  /** The number a load of this request reads from a byte-addressed memory, lowest byte first. */
  function Loaded(m: Memory, r: Request): nat {
    Number(r.kind, r.signExt, ByteAt(m, r, 0), ByteAt(m, r, 1), ByteAt(m, r, 2), ByteAt(m, r, 3))
  }

  /** Filling with the sign, or with zeros, extends the number. */
  lemma FillExtends(signed: bool, lo: Byte, hi: Byte)
    ensures Value(ExtendHalf(signed, lo, hi)) == Extended(lo + 0x100 * hi, 0x1_0000, signed)
    ensures Value(ExtendByte(signed, lo)) == Extended(lo, 0x100, signed)
  {
  }

  /** What a store of this request makes of a byte-addressed memory; the register offset selects the byte of
      the register that goes to the first address. */
  function Stored(m: Memory, r: Request): Memory {
    (a: nat) =>
      var j := (a + WORD - r.address) % WORD;
      if a < WORD && j < Width(r.kind) then Lane(r.wdata, (j + r.regOffset) % 4) else m(a)
  }

  predicate Misaligned(r: Request) {
    (r.kind == 0 && r.address % 4 != 0) || (r.kind == 1 && r.address % 4 == 3)
  }

  function Beats(r: Request): nat {
    if Misaligned(r) then 2 else 1
  }

  /** The memory after the first access of a request, and after its second. */
  function FirstBeat(m: Memory, r: Request): Memory {
    if r.we then
      Written(m, r.address, ByteEnable(r.kind, r.address % 4, false), Rotated(r.wdata, (r.address % 4 + 4 - r.regOffset) % 4))
    else m
  }

  function SecondAddr(r: Request): Address {
    (r.address + 4) % WORD
  }

  function SecondBeat(m: Memory, r: Request): Memory {
    if r.we then
      Written(m, SecondAddr(r), ByteEnable(r.kind, r.address % 4, true), Rotated(r.wdata, (r.address % 4 + 4 - r.regOffset) % 4))
    else m
  }

  lemma RotatedLane(w: Word, n: TwoBits, k: TwoBits)
    ensures Lane(Rotated(w, n), k) == Lane(w, (k + 4 - n) % 4)
  {
  }

  /** The lanes an access enables are the bytes of the request that lie in its word. */
  lemma EnabledLanes(kind: TwoBits, offset: TwoBits, k: TwoBits)
    ensures Enabled(ByteEnable(kind, offset, false), k) <==> offset <= k < offset + Width(kind)
    ensures (kind == 0 && offset != 0) || (kind == 1 && offset == 3)
            ==> (Enabled(ByteEnable(kind, offset, true), k) <==> k + 4 < offset + Width(kind))
  {
  }

  /** The data lane that lands in lane k is the register byte at its distance from the first address. */
  lemma StoreLane(r: Request, k: TwoBits)
    ensures Lane(Rotated(r.wdata, (r.address % 4 + 4 - r.regOffset) % 4), k)
         == Lane(r.wdata, (k + 4 - r.address % 4 + r.regOffset) % 4)
  {
    RotatedLane(r.wdata, (r.address % 4 + 4 - r.regOffset) % 4, k);
  }

  /** How far an address is from the first one, when it lies in the first or in the second word. */
  lemma Distance(first: Address, a: Address)
    ensures var j := (a + WORD - first) % WORD;
            && (a / 4 == first / 4 ==> j == if a % 4 >= first % 4 then a % 4 - first % 4 else WORD + a % 4 - first % 4)
            && (a / 4 == (first + 4) % WORD / 4 ==> j == a % 4 + 4 - first % 4)
            && (j < 4 ==> a / 4 == first / 4 || a / 4 == (first + 4) % WORD / 4)
            && (j < 4 && a / 4 != first / 4 ==> first % 4 + j >= 4)
  {
    assert first == first / 4 * 4 + first % 4 && a == a / 4 * 4 + a % 4;
    if first + 4 < WORD {
      assert (first + 4) % WORD / 4 == first / 4 + 1;
    } else {
      assert (first + 4) % WORD / 4 == 0;
    }
  }

  /** The bytes of an access that stays in its word. */
  lemma WithinWord(first: Address, width: nat, a: Address)
    requires 1 <= width && first % 4 + width <= 4
    ensures var j := (a + WORD - first) % WORD;
            && (j < width <==> a / 4 == first / 4 && first % 4 <= a % 4 < first % 4 + width)
            && (j < width ==> j == a % 4 - first % 4)
  {
    Distance(first, a);
  }

  predicate InFirst(first: Address, a: Address) {
    a / 4 == first / 4 && first % 4 <= a % 4
  }

  predicate InSecond(first: Address, width: nat, a: Address) {
    a / 4 == (first + 4) % WORD / 4 && a % 4 + 4 < first % 4 + width
  }

  /** The bytes of an access that crosses into the next word. */
  lemma AcrossWords(first: Address, width: nat, a: Address)
    requires width <= 4 < first % 4 + width
    ensures var j := (a + WORD - first) % WORD;
            && (j < width <==> InFirst(first, a) || InSecond(first, width, a))
            && (j < width ==> j == (a % 4 + 4 - first % 4) % 4)
    ensures (first + 4) % WORD / 4 != first / 4
  {
    Distance(first, a);
  }

  lemma StoresOneBeat(m: Memory, r: Request, a: nat)
    requires r.we && !Misaligned(r)
    ensures FirstBeat(m, r)(a) == Stored(m, r)(a)
  {
    if a < WORD {
      WithinWord(r.address, Width(r.kind), a);
      EnabledLanes(r.kind, r.address % 4, a % 4);
      StoreLane(r, a % 4);
    }
  }

  /** Each beat writes the bytes of the store that lie in its word. */
  lemma BeatWrites(m: Memory, r: Request, a: Address)
    requires r.we && Misaligned(r)
    ensures var v := Lane(r.wdata, (a % 4 + 4 - r.address % 4 + r.regOffset) % 4);
            && FirstBeat(m, r)(a) == (if InFirst(r.address, a) then v else m(a))
            && SecondBeat(m, r)(a) == (if InSecond(r.address, Width(r.kind), a) then v else m(a))
  {
    EnabledLanes(r.kind, r.address % 4, a % 4);
    StoreLane(r, a % 4);
  }

  lemma StoresTwoBeats(m: Memory, r: Request, a: nat)
    requires r.we && Misaligned(r)
    ensures SecondBeat(FirstBeat(m, r), r)(a) == Stored(m, r)(a)
  {
    if a < WORD {
      StoredBytes(m, r, a);
      BeatWrites(m, r, a);
      BeatWrites(FirstBeat(m, r), r, a);
    }
  }

  lemma StoredBytes(m: Memory, r: Request, a: Address)
    requires r.we && Misaligned(r)
    ensures var v := Lane(r.wdata, (a % 4 + 4 - r.address % 4 + r.regOffset) % 4);
            Stored(m, r)(a) == if InFirst(r.address, a) || InSecond(r.address, Width(r.kind), a) then v else m(a)
  {
    AcrossWords(r.address, Width(r.kind), a);
    RegisterByte(a % 4, r.address % 4, r.regOffset);
  }

  lemma RegisterByte(k: TwoBits, offset: TwoBits, regOffset: TwoBits)
    ensures ((k + 4 - offset) % 4 + regOffset) % 4 == (k + 4 - offset + regOffset) % 4
  {
  }

  // ----- runs: the unit, the bus and the core -----

  /** What the bus owes after a grant. */
  datatype Response = NoResponse | WriteResponse | ReadResponse(word: Word)

  /** A completed access: its request, what the register file received, and the bus accesses it took. */
  datatype Done = Done(r: Request, result: Word, beats: nat)

  datatype Run = Run(l: Lsu, mem: Memory, response: Response, held: Option<Request>, beats: nat, log: seq<Done>)

  /** The core holds a request until it is valid; the bus grants only requests and answers each grant once,
      reads with the word that was there at the grant. */
  predicate Legal(s: Run, i: In) {
    && (s.held.Some? ==> i.req && i.r == s.held.value)
    && (i.gnt ==> Control(s.l, i).req)
    && (i.rvalid ==> !s.response.NoResponse? && (s.response.ReadResponse? ==> i.rdata == s.response.word))
  }

  function MemoryAfter(s: Run, i: In): Memory {
    if i.gnt && i.r.we then
      Written(s.mem, DataAddr(s.l, i), ByteEnable(i.r.kind, DataAddr(s.l, i) % 4, s.l.misalignedQ), WriteData(s.l, i))
    else s.mem
  }

  function ResponseAfter(s: Run, i: In): Response {
    if i.gnt then (if i.r.we then WriteResponse else ReadResponse(Fetch(s.mem, DataAddr(s.l, i))))
    else if i.rvalid then NoResponse else s.response
  }

  function Cycle(s: Run, i: In): Run {
    var beats := s.beats + if i.gnt then 1 else 0;
    var valid := Control(s.l, i).valid;
    Run(Step(s.l, i), MemoryAfter(s, i), ResponseAfter(s, i),
        if !valid && i.req then Some(i.r) else None, if valid then 0 else beats,
        if valid then s.log + [Done(i.r, ReadData(s.l, i), beats)] else s.log)
  }

  function RunOf(m: Memory, inputs: seq<In>): Run {
    if inputs == [] then Run(Reset(), m, NoResponse, None, 0, [])
    else Cycle(RunOf(m, inputs[..|inputs| - 1]), inputs[|inputs| - 1])
  }

  predicate LegalRun(m: Memory, inputs: seq<In>) {
    inputs == [] ||
    (LegalRun(m, inputs[..|inputs| - 1]) && Legal(RunOf(m, inputs[..|inputs| - 1]), inputs[|inputs| - 1]))
  }

  // ----- the byte-addressed meaning of a run -----

  function Effect(m: Memory, r: Request): Memory {
    if r.we then Stored(m, r) else m
  }

  /** A byte-addressed memory after the completed accesses. */
  function Replay(m: Memory, log: seq<Done>): Memory {
    if log == [] then m else Effect(Replay(m, log[..|log| - 1]), log[|log| - 1].r)
  }

  /** Every load read what the byte-addressed memory held, and every access took one or two bus accesses. */
  predicate Faithful(m: Memory, log: seq<Done>) {
    forall k :: 0 <= k < |log| ==> FaithfulAt(m, log, k)
  }

  predicate FaithfulAt(m: Memory, log: seq<Done>, k: nat)
    requires k < |log|
  {
    && log[k].beats == Beats(log[k].r)
    && (!log[k].r.we ==> Value(log[k].result) == Loaded(Replay(m, log[..k]), log[k].r))
  }

  // ----- the invariant -----

  predicate Registers(l: Lsu, r: Request) {
    l.kindQ == r.kind && l.offsetQ == r.address % 4 && l.signQ == r.signExt && l.weQ == r.we
  }

  predicate Owes(response: Response, r: Request, w: Word) {
    response == if r.we then WriteResponse else ReadResponse(w)
  }

  /** Not a bus access yet. */
  ghost predicate Untouched(s: Run, ref: Memory) {
    s.response.NoResponse? && !s.l.misalignedQ && s.beats == 0 && Same(s.mem, ref)
  }

  /** The first access of two is granted. */
  ghost predicate Halfway(s: Run, r: Request, ref: Memory) {
    && Misaligned(r) && s.l.misalignedQ && s.l.misalignedAddr == r.address && s.beats == 1
    && Same(s.mem, FirstBeat(ref, r))
  }

  /** The last access is granted. */
  ghost predicate Granted(s: Run, r: Request, ref: Memory) {
    && !s.l.misalignedQ && s.beats == Beats(r) && Registers(s.l, r)
    && Same(s.mem, if Misaligned(r) then SecondBeat(FirstBeat(ref, r), r) else FirstBeat(ref, r))
    && Owes(s.response, r, Fetch(ref, if Misaligned(r) then SecondAddr(r) else r.address))
    && (Misaligned(r) && !r.we ==> s.l.rdataQ == Fetch(ref, r.address))
  }

  /** The state of the access in progress, over the byte-addressed memory before it. */
  ghost predicate Tracks(s: Run, ref: Memory) {
    if s.l.cs.IDLE? then s.held == None && Untouched(s, ref)
    else s.held.Some? && InProgress(s, s.held.value, ref)
  }

  ghost predicate InProgress(s: Run, r: Request, ref: Memory) {
    match s.l.cs
    case IDLE => false
    case WAIT_GNT_MIS => Misaligned(r) && Untouched(s, ref)
    case WAIT_RVALID_MIS => Halfway(s, r, ref) && Registers(s.l, r) && Owes(s.response, r, Fetch(ref, r.address))
    case WAIT_GNT =>
      if s.l.misalignedQ then
        Halfway(s, r, ref) && s.response.NoResponse? && (!r.we ==> s.l.rdataQ == Fetch(ref, r.address))
      else !Misaligned(r) && Untouched(s, ref)
    case WAIT_RVALID => Granted(s, r, ref)
  }

  /** The bytes of a load, extended as the unit does it. */
  function Assembled(kind: TwoBits, signed: bool, b0: Byte, b1: Byte, b2: Byte, b3: Byte): Word {
    if kind == 0 then Word(b0, b1, b2, b3)
    else if kind == 1 then ExtendHalf(signed, b0, b1)
    else ExtendByte(signed, b0)
  }

  lemma AssembledIsNumber(kind: TwoBits, signed: bool, b0: Byte, b1: Byte, b2: Byte, b3: Byte)
    ensures Value(Assembled(kind, signed, b0, b1, b2, b3)) == Number(kind, signed, b0, b1, b2, b3)
  {
    FillExtends(signed, b0, b1);
  }

  lemma Assembles(l: Lsu, r: Request, ref: Memory)
    requires Registers(l, r) && (Misaligned(r) ==> l.rdataQ == Fetch(ref, r.address))
    ensures ReadExtended(l, Fetch(ref, if Misaligned(r) then SecondAddr(r) else r.address))
         == Assembled(r.kind, r.signExt, ByteAt(ref, r, 0), ByteAt(ref, r, 1), ByteAt(ref, r, 2), ByteAt(ref, r, 3))
  {
    ByteAddresses(r);
  }

  /** What the register file receives at the end of a load: the number in memory. */
  lemma LoadsBytes(l: Lsu, r: Request, ref: Memory)
    requires Registers(l, r) && (Misaligned(r) ==> l.rdataQ == Fetch(ref, r.address))
    ensures Value(ReadExtended(l, Fetch(ref, if Misaligned(r) then SecondAddr(r) else r.address))) == Loaded(ref, r)
  {
    Assembles(l, r, ref);
    AssembledIsNumber(r.kind, r.signExt, ByteAt(ref, r, 0), ByteAt(ref, r, 1), ByteAt(ref, r, 2), ByteAt(ref, r, 3));
  }

  lemma ByteAddresses(r: Request)
    ensures var a := r.address; var base, off := a - a % 4, a % 4;
            && (off < 4 ==> (a + 0) % WORD == base + off)
            && (off < 3 ==> (a + 1) % WORD == base + off + 1)
            && (off < 2 ==> (a + 2) % WORD == base + off + 2)
            && (off < 1 ==> (a + 3) % WORD == base + off + 3)
            && SecondAddr(r) % 4 == off
            && (off >= 1 ==> (a + 3) % WORD == SecondAddr(r) - off + (off - 1))
            && (off >= 2 ==> (a + 2) % WORD == SecondAddr(r) - off + (off - 2))
            && (off >= 3 ==> (a + 1) % WORD == SecondAddr(r) - off + (off - 3))
  {
  }

  lemma SameFetch(m: Memory, n: Memory, addr: Address)
    requires Same(m, n)
    ensures Fetch(m, addr) == Fetch(n, addr)
  {
  }

  /** A read in between sees the memory before the access: loads write nothing. */
  lemma FirstGrant(s: Run, i: In, r: Request, ref: Memory)
    requires Untouched(s, ref) && i.req && i.r == r && i.gnt && !i.rvalid
    requires s.l.cs.IDLE? || (s.l.cs.WAIT_GNT_MIS? && Misaligned(r)) || (s.l.cs.WAIT_GNT? && !Misaligned(r))
    ensures InProgress(Cycle(s, i), r, ref) && Cycle(s, i).held == Some(r)
  {
    SameFetch(s.mem, ref, r.address);
  }

  lemma SecondWrite(s: Run, i: In, r: Request, ref: Memory)
    requires Halfway(s, r, ref) && i.r == r && i.gnt && (s.l.cs.WAIT_RVALID_MIS? || s.l.cs.WAIT_GNT?)
    ensures Same(MemoryAfter(s, i), SecondBeat(FirstBeat(ref, r), r))
  {
    SecondOffset(r.address);
    assert DataAddr(s.l, i) == SecondAddr(r);
  }

  lemma SecondRegisters(s: Run, i: In, r: Request)
    requires s.l.misalignedQ && s.l.misalignedAddr == r.address && i.req && i.r == r && i.gnt
    requires (s.l.cs.WAIT_RVALID_MIS? && i.rvalid && Registers(s.l, r)) || (s.l.cs.WAIT_GNT? && !i.rvalid)
    ensures var l := Step(s.l, i);
            && l.cs.WAIT_RVALID? && !l.misalignedQ && Registers(l, r)
            && (s.l.cs.WAIT_RVALID_MIS? && !r.we ==> l.rdataQ == i.rdata)
            && (s.l.cs.WAIT_GNT? ==> l.rdataQ == s.l.rdataQ)
  {
    SecondOffset(r.address);
  }

  lemma SecondGrant(s: Run, i: In, r: Request, ref: Memory)
    requires Halfway(s, r, ref) && i.req && i.r == r && i.gnt
    requires s.l.cs.WAIT_RVALID_MIS? || s.l.cs.WAIT_GNT?
    requires s.l.cs.WAIT_RVALID_MIS? ==>
               i.rvalid && Registers(s.l, r) && (!r.we ==> i.rdata == Fetch(ref, r.address))
    requires s.l.cs.WAIT_GNT? ==> !i.rvalid && (!r.we ==> s.l.rdataQ == Fetch(ref, r.address))
    ensures InProgress(Cycle(s, i), r, ref) && Cycle(s, i).held == Some(r)
  {
    SecondRegisters(s, i, r);
    SecondWrite(s, i, r, ref);
    SameFetch(s.mem, FirstBeat(ref, r), SecondAddr(r));
  }

  lemma SecondOffset(a: Address)
    ensures (a + 4) % WORD % 4 == a % 4
  {
  }

  /** The access completes with the effect and the result of a byte-addressed one. */
  lemma Completes(s: Run, i: In, r: Request, ref: Memory)
    requires Granted(s, r, ref) && s.l.cs.WAIT_RVALID? && Legal(s, i) && s.held == Some(r) && i.rvalid
    ensures Tracks(Cycle(s, i), Effect(ref, r)) && Cycle(s, i).beats == 0
    ensures Cycle(s, i).log == s.log + [Done(r, ReadData(s.l, i), Beats(r))]
    ensures !r.we ==> Value(ReadData(s.l, i)) == Loaded(ref, r)
  {
    if r.we {
      forall a: nat ensures s.mem(a) == Stored(ref, r)(a) {
        if Misaligned(r) {
          StoresTwoBeats(ref, r, a);
        } else {
          StoresOneBeat(ref, r, a);
        }
      }
    } else {
      LoadsBytes(s.l, r, ref);
    }
  }

  lemma CycleKeeps(s: Run, i: In, ref: Memory)
    requires Tracks(s, ref) && Legal(s, i) && !Control(s.l, i).valid
    ensures Tracks(Cycle(s, i), ref) && Cycle(s, i).log == s.log
  {
    if i.gnt {
      if s.l.cs.IDLE? || s.l.cs.WAIT_GNT_MIS? || (s.l.cs.WAIT_GNT? && !s.l.misalignedQ) {
        FirstGrant(s, i, i.r, ref);
      } else {
        SecondGrant(s, i, i.r, ref);
      }
    }
  }

  /** A request always has the bus working for it: the unit requests, whatever the grant, or waits for an answer it
      is owed. */
  lemma NeverStuck(s: Run, i: In, ref: Memory)
    requires Tracks(s, ref) && Legal(s, i) && i.req
    ensures Control(s.l, i).req || !s.response.NoResponse?
    ensures Control(s.l, i).req == Control(s.l, i.(gnt := !i.gnt)).req
    ensures i.gnt ==> s.beats < Beats(i.r)
    ensures i.rvalid && !i.gnt ==> Control(s.l, i).valid || (Misaligned(i.r) && Step(s.l, i).cs.WAIT_GNT?)
  {
  }

  /** With a memory that grants at once and answers in the next cycle, an access to one word completes in its second
      cycle. */
  lemma PromptOneBeat(s: Run, i: In, j: In, ref: Memory)
    requires Tracks(s, ref) && s.held == None && Legal(s, i) && i.req && i.gnt && !Misaligned(i.r)
    requires Legal(Cycle(s, i), j) && j.rvalid
    ensures !Control(s.l, i).valid && Control(Cycle(s, i).l, j).valid
  {
  }

  /** And an access to two words in its third. */
  lemma PromptTwoBeats(s: Run, i: In, j: In, k: In, ref: Memory)
    requires Tracks(s, ref) && s.held == None && Legal(s, i) && i.req && i.gnt && Misaligned(i.r)
    requires Legal(Cycle(s, i), j) && j.rvalid && j.gnt && Legal(Cycle(Cycle(s, i), j), k) && k.rvalid
    ensures !Control(s.l, i).valid && !Control(Cycle(s, i).l, j).valid
    ensures Control(Cycle(Cycle(s, i), j).l, k).valid
  {
  }

  /** In every legal run, the completed accesses are those of a byte-addressed memory, in order, and between
      accesses the bus memory is that memory. */
  lemma {:induction false} EveryRunIsByteAddressed(m: Memory, inputs: seq<In>)
    requires LegalRun(m, inputs)
    ensures var s := RunOf(m, inputs);
            Tracks(s, Replay(m, s.log)) && Faithful(m, s.log)
  {
    if inputs == [] {
    } else {
      var before, i := inputs[..|inputs| - 1], inputs[|inputs| - 1];
      EveryRunIsByteAddressed(m, before);
      var s := RunOf(m, before);
      var ref := Replay(m, s.log);
      if Control(s.l, i).valid {
        Completes(s, i, s.held.value, ref);
        LogGrows(m, s.log, Done(i.r, ReadData(s.l, i), Beats(i.r)));
      } else {
        CycleKeeps(s, i, ref);
      }
    }
  }

  lemma LogGrows(m: Memory, log: seq<Done>, d: Done)
    requires Faithful(m, log) && d.beats == Beats(d.r) && (!d.r.we ==> Value(d.result) == Loaded(Replay(m, log), d.r))
    ensures Faithful(m, log + [d]) && Replay(m, log + [d]) == Effect(Replay(m, log), d.r)
  {
    var all := log + [d];
    assert all[..|log|] == log;
    forall k | 0 <= k < |all| ensures FaithfulAt(m, all, k) {
      if k < |log| {
        assert all[..k] == log[..k] && FaithfulAt(m, log, k);
      }
    }
  }
}

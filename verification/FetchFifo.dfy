/** The instruction fetch FIFO (zeroriscy_fetch_fifo.sv): three words, and an aligner that cuts them into
    16-bit and 32-bit instructions. Words and addresses are 32-bit values as natural numbers. */
module FetchFifo {
  import opened Arith

  const HALF: nat := 0x1_0000
  const DEPTH: nat := 3

  type Word = x: nat | x < WORD

  datatype Fifo = Fifo(addr: seq<nat>, rdata: seq<nat>, valid: seq<bool>)

  datatype In = In(clear: bool, addr: nat, rdata: nat, valid: bool, ready: bool)

  predicate Shaped(f: Fifo) {
    |f.addr| == |f.rdata| == |f.valid| == DEPTH
  }

  // ----- combinational outputs -----

  /** Bit 1 of an address: the instruction starts in the upper half of its word. */
  predicate Unaligned(a: nat) {
    a / 2 % 2 == 1
  }

  /** A 16-bit parcel that is a whole instruction: its two low bits are not both set. */
  predicate Compressed(half: nat) {
    half % 4 != 3
  }

  /** The address of the next word: bits 31 to 2 plus four. */
  function NextWord(a: nat): nat {
    (a - a % 4 + 4) % WORD
  }

  function Rdata(f: Fifo, i: In): nat
    requires Shaped(f)
  {
    if f.valid[0] then f.rdata[0] else i.rdata
  }

  function OutAddr(f: Fifo, i: In): nat
    requires Shaped(f)
  {
    if f.valid[0] then f.addr[0] else i.addr
  }

  function OutRdata(f: Fifo, i: In): nat
    requires Shaped(f)
  {
    if Unaligned(OutAddr(f, i)) then
      (if f.valid[1] then f.rdata[1] else i.rdata) % HALF * HALF + Rdata(f, i) / HALF
    else Rdata(f, i)
  }

  predicate OutValid(f: Fifo, i: In)
    requires Shaped(f)
  {
    if Unaligned(OutAddr(f, i)) && !Compressed(Rdata(f, i) / HALF) then
      f.valid[1] || (f.valid[0] && i.valid)
    else f.valid[0] || i.valid
  }

  predicate InReady(f: Fifo)
    requires Shaped(f)
  {
    !f.valid[DEPTH - 2]
  }

  predicate Accepted(f: Fifo, i: In)
    requires Shaped(f)
  {
    i.ready && OutValid(f, i)
  }

  // ----- one clock -----

  function FirstFree(valid: seq<bool>): nat {
    if valid == [] || !valid[0] then 0 else 1 + FirstFree(valid[1..])
  }

  /** The incoming word goes to the first free slot; a full FIFO would drop it. */
  function Pushed(f: Fifo, i: In): (r: Fifo)
    requires Shaped(f)
    ensures Shaped(r)
  {
    var j := FirstFree(f.valid);
    if i.valid && j < DEPTH then
      Fifo(f.addr[j := i.addr], f.rdata[j := i.rdata], f.valid[j := true])
    else f
  }

  function Shifted(f: Fifo, pc: nat): (r: Fifo)
    requires Shaped(f)
    ensures Shaped(r)
  {
    Fifo(f.addr[0 := pc], f.rdata[1..] + [0], f.valid[1..] + [false])
  }

  /** Slot 0 holds the address of the current instruction, which moves by half a word, a word, or to the
      middle of the next word; the data move up when the current word is used up. */
  function Popped(f: Fifo, i: In): (r: Fifo)
    requires Shaped(f)
    ensures Shaped(r)
  {
    var g := Pushed(f, i);
    var next := NextWord(g.addr[0]);
    if Unaligned(g.addr[0]) then
      Shifted(g, if Compressed(Rdata(f, i) / HALF) then next else next + 2)
    else if Compressed(Rdata(f, i)) then
      g.(addr := g.addr[0 := g.addr[0] - g.addr[0] % 4 + 2])
    else Shifted(g, next)
  }

  function FifoStep(f: Fifo, i: In): (r: Fifo)
    requires Shaped(f)
    ensures Shaped(r)
  {
    if i.clear then f.(valid := [false, false, false])
    else if Accepted(f, i) then Popped(f, i)
    else Pushed(f, i)
  }

  /** The registers, and the clocked process that updates them. */
  class FifoRegisters {
    const addrQ: array<nat>
    const rdataQ: array<nat>
    const validQ: array<bool>

    ghost predicate Valid()
      reads this
    {
      && addrQ.Length == rdataQ.Length == validQ.Length == DEPTH
      && addrQ != rdataQ
    }

    function State(): (f: Fifo)
      requires Valid()
      reads this, addrQ, rdataQ, validQ
      ensures Shaped(f)
    {
      Fifo(addrQ[..], rdataQ[..], validQ[..])
    }

    constructor ()
      ensures Valid() && fresh(addrQ) && fresh(rdataQ) && fresh(validQ)
      ensures State() == Fifo([0, 0, 0], [0, 0, 0], [false, false, false])
    {
      addrQ := new nat[DEPTH](_ => 0);
      rdataQ := new nat[DEPTH](_ => 0);
      validQ := new bool[DEPTH](_ => false);
      new;
      assert addrQ[..] == [0, 0, 0] && rdataQ[..] == [0, 0, 0] && validQ[..] == [false, false, false];
    }

    method Clock(i: In)
      requires Valid()
      modifies addrQ, rdataQ, validQ
      ensures Valid() && State() == FifoStep(old(State()), i)
    {
      ghost var f := State();
      var accepted, rdata := Accepted(State(), i), Rdata(State(), i);
      if i.clear {
        for j := 0 to DEPTH
          invariant addrQ[..] == f.addr && rdataQ[..] == f.rdata
          invariant forall k :: 0 <= k < j ==> !validQ[k]
        {
          validQ[j] := false;
        }
        assert validQ[..] == [false, false, false];
        return;
      }
      if i.valid {
        for j := 0 to DEPTH
          invariant State() == f && forall k :: 0 <= k < j ==> f.valid[k]
        {
          if !validQ[j] {
            addrQ[j], rdataQ[j], validQ[j] := i.addr, i.rdata, true;
            FirstFreeIs(f.valid, j);
            break;
          }
        }
        if forall k :: 0 <= k < DEPTH ==> f.valid[k] {
          FirstFreeIs(f.valid, DEPTH);
        }
      }
      assert State() == Pushed(f, i);
      if accepted {
        var addrNext := NextWord(addrQ[0]);
        if Unaligned(addrQ[0]) {
          addrQ[0] := if Compressed(rdata / HALF) then addrNext else addrNext + 2;
          Shift();
        } else if Compressed(rdata) {
          addrQ[0] := addrQ[0] - addrQ[0] % 4 + 2;
        } else {
          addrQ[0] := addrNext;
          Shift();
        }
      }
    }

    /** Data and valid bits move up one slot; the addresses stay. */
    method Shift()
      requires Valid()
      modifies rdataQ, validQ
      ensures State() == Fifo(old(addrQ[..]), old(rdataQ[..])[1..] + [0], old(validQ[..])[1..] + [false])
    {
      rdataQ[0], rdataQ[1], rdataQ[2] := rdataQ[1], rdataQ[2], 0;
      validQ[0], validQ[1], validQ[2] := validQ[1], validQ[2], false;
    }
  }

  lemma FirstFreeIs(valid: seq<bool>, j: nat)
    requires j <= |valid| && (forall k :: 0 <= k < j ==> valid[k]) && (j < |valid| ==> !valid[j])
    ensures FirstFree(valid) == j
  {
    if j == 0 {
    } else {
      FirstFreeIs(valid[1..], j - 1);
    }
  }
}

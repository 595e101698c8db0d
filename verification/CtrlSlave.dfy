/** The control slave (hwpe_ctrl_slave.sv): cores acquire a context, program it and commit it; committed
    contexts run one at a time, in a ring of 2^log contexts. Its clocked processes, soft clear included; what
    cores may rely on is proved in CtrlProtocol. */
module CtrlSlave {
  import opened Bytes
  import opened CtrlRegfile

  datatype RunState = RUN_IDLE | RUN_STARTING | RUN_RUN

  datatype CxtState = CXT_IDLE | CXT_PROGRAM

  /** A two-bit counter started by a soft clear, and the clear it raises while it counts, one clock later. */
  datatype Strobe = Strobe(count: nat, on: bool)

  datatype Slave = Slave(pointer: nat, running: nat, pending: nat, offloading: seq<nat>, triggered: bool,
                         state: RunState, start: bool, working: bool, critical: bool, cxt: CxtState,
                         evt: seq<bool>, own: seq<bool>, clear: Strobe, clearRegfile: Strobe, regfile: Regfile)

  predicate Shaped(p: Layout, s: Slave)
    requires Valid(p)
  {
    && s.pointer < Contexts(p) && s.running < Contexts(p) && s.pending < 2 * Contexts(p)
    && |s.offloading| == Contexts(p) && |s.evt| == |s.own| == p.cores
    && s.clear.count < 4 && s.clearRegfile.count < 4 && Sized(p, s.regfile)
  }

  // ----- flags -----

  predicate IsCommit(i: In) {
    i.req && !i.wen && i.idx == TRIGGER
  }

  predicate IsTrigger(i: In) {
    IsCommit(i) && i.data == Word(0, 0, 0, 0)
  }

  predicate IsSoftClear(i: In) {
    i.req && !i.wen && i.idx == SOFTCLEAR
  }

  predicate Full(p: Layout, s: Slave)
    requires Valid(p)
  {
    s.pending == Contexts(p)
  }

  predicate TrueDone(s: Slave, i: In) {
    i.done && s.working
  }

  function FlagsOf(p: Layout, s: Slave): Flags
    requires Valid(p)
  {
    Flags(s.critical, Full(p, s), s.pointer, s.clearRegfile.on)
  }

  /** The highest numbered core whose request bit is set. */
  function Requester(id: set<nat>, cores: nat, otherwise: nat): nat {
    if cores == 0 then otherwise else if cores - 1 in id then cores - 1 else Requester(id, cores - 1, otherwise)
  }

  lemma {:induction false} RequesterIsHighest(id: set<nat>, cores: nat, otherwise: nat)
    ensures var c := Requester(id, cores, otherwise);
            if exists k: nat :: k < cores && k in id then
              c < cores && c in id && forall k: nat :: k < cores && k in id ==> k <= c
            else c == otherwise
  {
    if cores == 0 || cores - 1 in id {
    } else {
      RequesterIsHighest(id, cores - 1, otherwise);
      assert forall k: nat :: k < cores && k in id ==> k < cores - 1;
    }
  }

  // ----- one clock -----

  function PointerNext(p: Layout, s: Slave, i: In): nat
    requires Valid(p)
  {
    if s.clear.on then 0 else if IsCommit(i) then Next(s.pointer, Contexts(p)) else s.pointer
  }

  function RunningNext(p: Layout, s: Slave, i: In): nat
    requires Valid(p)
  {
    if s.clear.on then 0 else if TrueDone(s, i) then Next(s.running, Contexts(p)) else s.running
  }

  function PendingNext(p: Layout, s: Slave, i: In): nat
    requires Valid(p)
  {
    if s.clear.on then 0
    else if IsCommit(i) && !TrueDone(s, i) then Next(s.pending, 2 * Contexts(p))
    else if !IsCommit(i) && TrueDone(s, i) then (if s.pending == 0 then 2 * Contexts(p) else s.pending) - 1
    else s.pending
  }

  function TriggeredNext(p: Layout, s: Slave, i: In): bool
    requires Valid(p)
  {
    if s.clear.on then false
    else if IsTrigger(i) then true
    else if s.running == s.pointer && !Full(p, s) && TrueDone(s, i) then false
    else s.triggered
  }

  /** The running state machine: its state, the start strobe and the working flag. */
  function RunNext(p: Layout, s: Slave, i: In): (RunState, bool, bool)
    requires Valid(p)
  {
    if s.clear.on then (RUN_IDLE, false, false)
    else match s.state
    case RUN_IDLE =>
      if s.running == s.pointer && !Full(p, s) then (RUN_IDLE, false, false)
      else if IsTrigger(i) || s.triggered then (RUN_STARTING, false, true)
      else (RUN_IDLE, s.start, s.working)
    case RUN_STARTING => (RUN_RUN, true, true)
    case RUN_RUN => if TrueDone(s, i) then (RUN_IDLE, false, false) else (RUN_RUN, false, true)
  }

  function CxtNext(p: Layout, s: Slave, i: In): CxtState
    requires Valid(p)
  {
    if s.clear.on then CXT_IDLE
    else match s.cxt
    case CXT_IDLE => if IsTestset(i) && !Full(p, s) then CXT_PROGRAM else CXT_IDLE
    case CXT_PROGRAM => if IsCommit(i) then CXT_IDLE else CXT_PROGRAM
  }

  function EvtNext(p: Layout, s: Slave, i: In): (e: seq<bool>)
    requires Valid(p) && Shaped(p, s)
    ensures |e| == p.cores
  {
    seq(p.cores, c => !s.clear.on && TrueDone(s, i) && s.offloading[s.running] == c)
  }

  /** The accelerator's own event, on the core that offloaded the running job. */
  function OwnNext(p: Layout, s: Slave, i: In): (e: seq<bool>)
    requires Valid(p) && Shaped(p, s)
    ensures |e| == p.cores
  {
    seq(p.cores, c => !s.clear.on && i.evt && s.offloading[s.running] == c)
  }

  function StrobeNext(s: Strobe, fire: bool): Strobe {
    Strobe(if s.count == 0 then (if fire then 1 else 0) else Next(s.count, 4), s.count != 0)
  }

  /** Any write to the soft clear register clears the slave, a write of zero the register file as well. */
  function ClearNext(s: Slave, i: In): (Strobe, Strobe) {
    (StrobeNext(s.clear, IsSoftClear(i)), StrobeNext(s.clearRegfile, IsSoftClear(i) && i.data == Word(0, 0, 0, 0)))
  }

  function OffloadingNext(p: Layout, s: Slave, i: In): (o: seq<nat>)
    requires Valid(p) && Shaped(p, s)
    ensures |o| == Contexts(p)
  {
    if IsCommit(i) then s.offloading[s.pointer := Requester(i.id, p.cores, s.offloading[s.pointer])] else s.offloading
  }

  function Step(p: Layout, s: Slave, i: In): (r: Slave)
    requires Valid(p) && Shaped(p, s)
    ensures Shaped(p, r)
  {
    var run, clear := RunNext(p, s, i), ClearNext(s, i);
    Slave(PointerNext(p, s, i), RunningNext(p, s, i), PendingNext(p, s, i),
          OffloadingNext(p, s, i), TriggeredNext(p, s, i), run.0, run.1, run.2,
          CxtNext(p, s, i).CXT_PROGRAM?, CxtNext(p, s, i), EvtNext(p, s, i), OwnNext(p, s, i), clear.0, clear.1,
          RegfileStep(p, s.regfile, FlagsOf(p, s), i))
  }

  function Reset(p: Layout): (s: Slave)
    requires Valid(p)
    ensures Shaped(p, s)
  {
    Slave(0, 0, 0, seq(Contexts(p), _ => 0), false, RUN_IDLE, false, false, false, CXT_IDLE,
          seq(p.cores, _ => false), seq(p.cores, _ => false), Strobe(0, false), Strobe(0, false), RegfileReset(p))
  }

  class SlaveRegisters {
    const p: Layout
    var pointerContext: nat
    var runningContext: nat
    var counterPending: nat
    const offloadingCore: array<nat>
    var triggeredQ: bool
    var runningState: RunState
    var start: bool
    var isWorking: bool
    var isCritical: bool
    var contextState: CxtState
    const evt: array<bool>
    const ownEvt: array<bool>
    var softClear: Strobe
    var softClearRegfile: Strobe
    const regfile: RegfileRegisters

    function State(): Slave
      reads this, offloadingCore, evt, ownEvt, regfile, regfile.regfileMem
    {
      Slave(pointerContext, runningContext, counterPending, offloadingCore[..], triggeredQ, runningState, start,
            isWorking, isCritical, contextState, evt[..], ownEvt[..], softClear, softClearRegfile, regfile.State())
    }

    /** The registers that are not arrays. */
    predicate Scalars(s: Slave)
      reads this
    {
      && pointerContext == s.pointer && runningContext == s.running && counterPending == s.pending
      && triggeredQ == s.triggered && runningState == s.state && start == s.start && isWorking == s.working
      && isCritical == s.critical && contextState == s.cxt && softClear == s.clear && softClearRegfile == s.clearRegfile
    }

    ghost predicate Ready()
      reads this, offloadingCore, evt, ownEvt, regfile, regfile.regfileMem
    {
      Valid(p) && Shaped(p, State()) && regfile.p == p && evt != ownEvt
    }

    constructor (p: Layout)
      requires Valid(p)
      ensures this.p == p && Ready() && State() == Reset(p)
      ensures fresh(offloadingCore) && fresh(evt) && fresh(ownEvt) && fresh(regfile) && fresh(regfile.regfileMem)
    {
      this.p := p;
      pointerContext, runningContext, counterPending, triggeredQ := 0, 0, 0, false;
      offloadingCore := new nat[Contexts(p)](_ => 0);
      runningState, start, isWorking, isCritical, contextState := RUN_IDLE, false, false, false, CXT_IDLE;
      evt := new bool[p.cores](_ => false);
      ownEvt := new bool[p.cores](_ => false);
      softClear, softClearRegfile := Strobe(0, false), Strobe(0, false);
      regfile := new RegfileRegisters(p);
      new;
      assert offloadingCore[..] == Reset(p).offloading && evt[..] == Reset(p).evt && ownEvt[..] == Reset(p).own;
    }

    /** The event register: the done of the running job, on the core that offloaded it. */
    method ClockEvents(i: In)
      requires Ready()
      modifies evt
      ensures Ready() && State() == old(State()).(evt := EvtNext(p, old(State()), i))
    {
      for c := 0 to p.cores
        invariant forall k :: 0 <= k < c ==>
          evt[k] == (!softClear.on && TrueDone(old(State()), i) && offloadingCore[runningContext] == k)
      {
        evt[c] := !softClear.on && i.done && isWorking && offloadingCore[runningContext] == c;
      }
      assert evt[..] == EvtNext(p, old(State()), i);
    }

    /** The accelerator's own event, on the same core. */
    method ClockOwnEvents(i: In)
      requires Ready()
      modifies ownEvt
      ensures Ready() && State() == old(State()).(own := OwnNext(p, old(State()), i))
    {
      for c := 0 to p.cores
        invariant forall k :: 0 <= k < c ==>
          ownEvt[k] == (!softClear.on && i.evt && offloadingCore[runningContext] == k)
      {
        ownEvt[c] := !softClear.on && i.evt && offloadingCore[runningContext] == c;
      }
      assert ownEvt[..] == OwnNext(p, old(State()), i);
    }

    /** The core that commits, in the entry of its context. */
    method ClockOffloader(i: In)
      requires Ready()
      modifies offloadingCore
      ensures Ready() && State() == old(State()).(offloading := OffloadingNext(p, old(State()), i))
    {
      ghost var before := offloadingCore[..];
      if IsCommit(i) {
        for c := 0 to p.cores
          invariant offloadingCore[..] == before[pointerContext := Requester(i.id, c, before[pointerContext])]
        {
          if c in i.id {
            offloadingCore[pointerContext] := c;
          }
        }
      }
    }

    /** The running state machine. */
    method Running(s: Slave, i: In) returns (state: RunState, strobe: bool, working: bool)
      requires Valid(p) && Scalars(s)
      ensures (state, strobe, working) == RunNext(p, s, i)
    {
      state, strobe, working := runningState, start, isWorking;
      if softClear.on {
        return RUN_IDLE, false, false;
      }
      match runningState {
        case RUN_IDLE =>
          if runningContext == pointerContext && !Full(p, s) {
            strobe, working := false, false;
          } else if IsTrigger(i) || triggeredQ {
            state, strobe, working := RUN_STARTING, false, true;
          }
        case RUN_STARTING =>
          state, strobe, working := RUN_RUN, true, true;
        case RUN_RUN =>
          strobe := false;
          if TrueDone(s, i) {
            state, working := RUN_IDLE, false;
          } else {
            working := true;
          }
      }
    }

    /** The registers of the ring, from the state before the clock. */
    method ClockRing(s: Slave, i: In)
      requires Valid(p) && pointerContext == s.pointer && runningContext == s.running && counterPending == s.pending
      requires softClear == s.clear
      modifies `pointerContext, `runningContext, `counterPending
      ensures pointerContext == PointerNext(p, s, i) && runningContext == RunningNext(p, s, i)
      ensures counterPending == PendingNext(p, s, i)
    {
      if softClear.on {
        pointerContext, runningContext, counterPending := 0, 0, 0;
        return;
      }
      if IsCommit(i) {
        pointerContext := Next(pointerContext, Contexts(p));
      }
      if TrueDone(s, i) {
        runningContext := Next(runningContext, Contexts(p));
      }
      if IsCommit(i) && !TrueDone(s, i) {
        counterPending := Next(counterPending, 2 * Contexts(p));
      } else if !IsCommit(i) && TrueDone(s, i) {
        counterPending := (if counterPending == 0 then 2 * Contexts(p) else counterPending) - 1;
      }
    }

    /** The critical section of the offload procedure. */
    method ClockContext(s: Slave, i: In)
      requires Valid(p) && contextState == s.cxt && softClear == s.clear
      modifies `isCritical, `contextState
      ensures contextState == CxtNext(p, s, i) && isCritical == contextState.CXT_PROGRAM?
    {
      if softClear.on {
        isCritical, contextState := false, CXT_IDLE;
        return;
      }
      match contextState {
        case CXT_IDLE => isCritical := IsTestset(i) && !Full(p, s);
        case CXT_PROGRAM => isCritical := !IsCommit(i);
      }
      contextState := if isCritical then CXT_PROGRAM else CXT_IDLE;
    }

    /** The soft clear counters and the clears they raise. */
    method ClockClear(s: Slave, i: In)
      requires softClear == s.clear && softClearRegfile == s.clearRegfile
      modifies `softClear, `softClearRegfile
      ensures (softClear, softClearRegfile) == ClearNext(s, i)
    {
      var zero := i.data == Word(0, 0, 0, 0);
      softClear := Strobe(softClear.count, softClear.count != 0);
      if softClear.count == 0 && IsSoftClear(i) {
        softClear := softClear.(count := 1);
      } else if softClear.count != 0 {
        softClear := softClear.(count := Next(softClear.count, 4));
      }
      softClearRegfile := Strobe(softClearRegfile.count, softClearRegfile.count != 0);
      if softClearRegfile.count == 0 && IsSoftClear(i) && zero {
        softClearRegfile := softClearRegfile.(count := 1);
      } else if softClearRegfile.count != 0 {
        softClearRegfile := softClearRegfile.(count := Next(softClearRegfile.count, 4));
      }
    }

    /** The arrays: events, offloading cores, and the register file. */
    method ClockArrays(i: In)
      requires Ready()
      modifies offloadingCore, evt, ownEvt, regfile, regfile.regfileMem
      ensures evt[..] == EvtNext(p, old(State()), i) && ownEvt[..] == OwnNext(p, old(State()), i)
      ensures offloadingCore[..] == OffloadingNext(p, old(State()), i)
      ensures regfile.State() == RegfileStep(p, old(regfile.State()), FlagsOf(p, old(State())), i)
    {
      ghost var s := State();
      ClockEvents(i);
      ClockOwnEvents(i);
      ClockOffloader(i);
      assert FlagsOf(p, State()) == FlagsOf(p, s);
      regfile.Clock(FlagsOf(p, State()), i);
    }

    /** All other registers, from the state before the clock. */
    method ClockScalars(s: Slave, i: In)
      requires Valid(p) && Shaped(p, s) && Scalars(s)
      modifies this
      ensures pointerContext == PointerNext(p, s, i) && runningContext == RunningNext(p, s, i)
      ensures counterPending == PendingNext(p, s, i) && triggeredQ == TriggeredNext(p, s, i)
      ensures (runningState, start, isWorking) == RunNext(p, s, i)
      ensures contextState == CxtNext(p, s, i) && isCritical == contextState.CXT_PROGRAM?
      ensures (softClear, softClearRegfile) == ClearNext(s, i)
    {
      var state, strobe, working := Running(s, i);
      ClockRing(s, i);
      ClockContext(s, i);
      ClockClear(s, i);
      runningState, start, isWorking, triggeredQ := state, strobe, working, TriggeredNext(p, s, i);
    }

    method Clock(i: In)
      requires Ready()
      modifies this, offloadingCore, evt, ownEvt, regfile, regfile.regfileMem
      ensures Ready() && State() == Step(p, old(State()), i)
    {
      var s := State();
      ClockArrays(i);
      ClockScalars(s, i);
    }
  }
}

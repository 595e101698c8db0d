/** The job state machine of the AES engine (aes_fsm.sv): it fetches a block word by word, starts the core,
    writes four words back, and repeats until the job's bytes are used up.

    Main theorems: in every run without clear, the jobs that were started raise done once each, in order, and
    each job of L bytes that is done has fetched ceil(L / 4) words and written four words for each of its
    ceil(L / 16) blocks (`EveryRunCompletesJobs`), each step after the answer it depends on (`EveryRunInOrder`);
    an empty job does not stop: it runs as one of 2^32 bytes (`CompleteUnlessEmpty`); and a job takes an exact
    number of transitions (`JobTakes`). */
module AesFsm {
  import opened Arith

  const BLOCKS: nat := 0x1_0000

  datatype AesState = AES_IDLE | AES_START_KEY | AES_WAIT_KEY | AES_REQUEST_DATA | AES_REQUEST_DATA_WAIT | AES_START_CORE
    | AES_WAIT_CORE | AES_SEND_DATA | AES_SEND_DATA_WAIT | AES_MEMORY_WRITE_WAIT | AES_MEMORY_WRITE_DONE | AES_FINISHED

  /** The registers of a job: its length in bytes, and where its data come from and go to. */
  datatype Job = Job(length: nat, input: nat, output: nat)

  /** The flags of slave, core and streamers, and the register file. */
  datatype In = In(clear: bool, start: bool, coreReady: bool, inputReady: bool, inputDone: bool, outputReady: bool, job: Job)

  datatype Fsm = Fsm(state: AesState, requestCounter: nat, blockCounter: nat, dataSize: nat)

  predicate Ranges(s: Fsm) {
    s.requestCounter < 4 && s.blockCounter < BLOCKS && s.dataSize < WORD
  }

  /** Four steps down, the first one in any case, the others unless the count is zero. */
  function FourLess(size: nat): nat {
    var d1 := if size == 0 then WORD - 1 else size - 1;
    var d2 := if d1 != 0 then d1 - 1 else d1;
    var d3 := if d2 != 0 then d2 - 1 else d2;
    if d3 != 0 then d3 - 1 else d3
  }

  /** The byte count in this cycle, as the next state sees it. */
  function DataSize(s: Fsm, i: In): nat {
    if s.state.AES_START_KEY? then i.job.length
    else if s.state.AES_REQUEST_DATA_WAIT? && i.inputDone then FourLess(s.dataSize)
    else s.dataSize
  }

  function NextState(s: Fsm, i: In): AesState {
    match s.state
    case AES_IDLE => if i.start then AES_START_KEY else AES_IDLE
    case AES_START_KEY => if i.coreReady then AES_WAIT_KEY else AES_START_KEY
    case AES_WAIT_KEY => if i.coreReady then AES_REQUEST_DATA else AES_WAIT_KEY
    case AES_REQUEST_DATA => if i.inputReady then AES_REQUEST_DATA_WAIT else AES_REQUEST_DATA
    case AES_REQUEST_DATA_WAIT =>
      if !i.inputDone then AES_REQUEST_DATA_WAIT
      else if DataSize(s, i) == 0 || s.requestCounter == 3 then AES_START_CORE
      else AES_REQUEST_DATA
    case AES_START_CORE => AES_WAIT_CORE
    case AES_WAIT_CORE => if i.coreReady then AES_SEND_DATA else AES_WAIT_CORE
    case AES_SEND_DATA => if i.outputReady then AES_SEND_DATA_WAIT else AES_SEND_DATA
    case AES_SEND_DATA_WAIT => AES_MEMORY_WRITE_WAIT
    case AES_MEMORY_WRITE_WAIT => if s.requestCounter == 3 then AES_MEMORY_WRITE_DONE else AES_SEND_DATA
    case AES_MEMORY_WRITE_DONE => if s.dataSize == 0 then AES_FINISHED else AES_REQUEST_DATA
    case AES_FINISHED => AES_IDLE
  }

  predicate Counts(s: Fsm, i: In) {
    (s.state.AES_REQUEST_DATA_WAIT? && i.inputDone) || s.state.AES_MEMORY_WRITE_WAIT?
  }

  function Step(s: Fsm, i: In): Fsm {
    Fsm(if i.clear then AES_IDLE else NextState(s, i),
        if s.state.AES_START_CORE? || s.state.AES_START_KEY? then 0
        else if Counts(s, i) then (s.requestCounter + 1) % 4
        else s.requestCounter,
        if i.clear || s.state.AES_IDLE? then 0
        else if s.state.AES_MEMORY_WRITE_DONE? then (s.blockCounter + 1) % BLOCKS
        else s.blockCounter,
        DataSize(s, i))
  }

  function Address(base: nat, s: Fsm): nat {
    (base + 4 * s.requestCounter + 16 * s.blockCounter) % WORD
  }

  /** What the machine drives in a cycle: to the engine the start of the key, of the core and of an output word, and
      its clear; to the streamers their requests; to the slave its done. */
  datatype Out = Out(initKey: bool, coreStart: bool, outValid: bool, clear: bool, inputReq: bool, outputReq: bool,
                     done: bool)

  function Outputs(s: Fsm): Out {
    Out(s.state.AES_START_KEY?, s.state.AES_START_CORE?, s.state.AES_SEND_DATA_WAIT?,
        s.state.AES_IDLE? || s.state.AES_MEMORY_WRITE_DONE?, s.state.AES_REQUEST_DATA?, s.state.AES_SEND_DATA?,
        s.state.AES_FINISHED?)
  }

  function Reset(): Fsm {
    Fsm(AES_IDLE, 0, 0, 0)
  }

  class FsmRegisters {
    var currentState: AesState
    var requestCounter: nat
    var blockCounter: nat
    var dataSize: nat

    function State(): Fsm
      reads this
    {
      Fsm(currentState, requestCounter, blockCounter, dataSize)
    }

    constructor ()
      ensures State() == Reset()
    {
      currentState, requestCounter, blockCounter, dataSize := AES_IDLE, 0, 0, 0;
    }

    /** The byte count moves within the cycle, before the next state is chosen. */
    method Clock(i: In) returns (inputAddr: nat, outputAddr: nat, out: Out)
      modifies this
      ensures State() == Step(old(State()), i)
      ensures inputAddr == Address(i.job.input, old(State())) && outputAddr == Address(i.job.output, old(State()))
      ensures out == Outputs(old(State()))
    {
      inputAddr, outputAddr := Address(i.job.input, State()), Address(i.job.output, State());
      out := Out(false, false, false, false, false, false, false);
      match currentState {
        case AES_IDLE => out := out.(clear := true);
        case AES_START_KEY => out := out.(initKey := true);
        case AES_REQUEST_DATA => out := out.(inputReq := true);
        case AES_START_CORE => out := out.(coreStart := true);
        case AES_SEND_DATA => out := out.(outputReq := true);
        case AES_SEND_DATA_WAIT => out := out.(outValid := true);
        case AES_MEMORY_WRITE_DONE => out := out.(clear := true);
        case AES_FINISHED => out := out.(done := true);
        case AES_WAIT_KEY | AES_REQUEST_DATA_WAIT | AES_WAIT_CORE | AES_MEMORY_WRITE_WAIT =>
      }
      var state, counts := currentState, Counts(State(), i);
      if state.AES_START_KEY? {
        dataSize := i.job.length;
      } else if state.AES_REQUEST_DATA_WAIT? && i.inputDone {
        dataSize := if dataSize == 0 then WORD - 1 else dataSize - 1;
        if dataSize != 0 { dataSize := dataSize - 1; }
        if dataSize != 0 { dataSize := dataSize - 1; }
        if dataSize != 0 { dataSize := dataSize - 1; }
      }
      if i.clear {
        currentState := AES_IDLE;
      } else {
        match state {
          case AES_IDLE => if i.start { currentState := AES_START_KEY; }
          case AES_START_KEY => if i.coreReady { currentState := AES_WAIT_KEY; }
          case AES_WAIT_KEY => if i.coreReady { currentState := AES_REQUEST_DATA; }
          case AES_REQUEST_DATA => if i.inputReady { currentState := AES_REQUEST_DATA_WAIT; }
          case AES_REQUEST_DATA_WAIT =>
            if i.inputDone {
              currentState := AES_REQUEST_DATA;
              if dataSize == 0 || requestCounter == 3 { currentState := AES_START_CORE; }
            }
          case AES_START_CORE => currentState := AES_WAIT_CORE;
          case AES_WAIT_CORE => if i.coreReady { currentState := AES_SEND_DATA; }
          case AES_SEND_DATA => if i.outputReady { currentState := AES_SEND_DATA_WAIT; }
          case AES_SEND_DATA_WAIT => currentState := AES_MEMORY_WRITE_WAIT;
          case AES_MEMORY_WRITE_WAIT =>
            currentState := if requestCounter == 3 then AES_MEMORY_WRITE_DONE else AES_SEND_DATA;
          case AES_MEMORY_WRITE_DONE =>
            currentState := if dataSize == 0 then AES_FINISHED else AES_REQUEST_DATA;
          case AES_FINISHED => currentState := AES_IDLE;
        }
      }
      if state.AES_START_CORE? || state.AES_START_KEY? {
        requestCounter := 0;
      } else if counts {
        requestCounter := (requestCounter + 1) % 4;
      }
      if i.clear || state.AES_IDLE? {
        blockCounter := 0;
      } else if state.AES_MEMORY_WRITE_DONE? {
        blockCounter := (blockCounter + 1) % BLOCKS;
      }
    }
  }

  // ----- whole runs, and what they move -----

  /** What an observer of the signals has seen of one job: whether the key was taken, and ready after that; the
      addresses fetched from, and the words received; the core starts, and those answered by a later core ready;
      the addresses written to, and the words marked valid; and the blocks after which the engine was cleared. */
  datatype Log = Log(job: Job, keySent: bool, keyDone: bool, fetched: seq<nat>, received: nat, starts: nat,
                     answered: nat, written: seq<nat>, valid: nat, clears: nat)

  /** The machine, the log of its job, the jobs it has accepted, and one log for every cycle with done raised. */
  datatype Run = Run(s: Fsm, open: Log, started: seq<Job>, done: seq<Log>)

  /** A job was accepted that has not raised done. */
  predicate Working(r: Run) {
    |r.started| > |r.done|
  }

  function Opened(j: Job): Log {
    Log(j, false, false, [], 0, 0, 0, [], 0, 0)
  }

  /** The log after a cycle: a request counts when its streamer takes it, an answer when it was asked for in an
      earlier cycle. */
  function Observed(l: Log, o: Out, inputAddr: nat, outputAddr: nat, i: In): Log {
    Log(l.job,
        l.keySent || (o.initKey && i.coreReady),
        l.keyDone || (l.keySent && i.coreReady),
        l.fetched + (if o.inputReq && i.inputReady then [inputAddr] else []),
        l.received + (if l.received < |l.fetched| && i.inputDone then 1 else 0),
        l.starts + (if o.coreStart then 1 else 0),
        l.answered + (if l.answered < l.starts && i.coreReady then 1 else 0),
        l.written + (if o.outputReq && i.outputReady then [outputAddr] else []),
        l.valid + (if o.outValid then 1 else 0),
        l.clears + (if o.clear then 1 else 0))
  }

  function LogNext(r: Run, i: In): Log {
    if Working(r) then
      Observed(r.open, Outputs(r.s), Address(i.job.input, r.s), Address(i.job.output, r.s), i)
    else if i.start then Opened(i.job)
    else r.open
  }

  function Cycle(r: Run, i: In): Run {
    Run(Step(r.s, i), LogNext(r, i),
        if !Working(r) && i.start && !i.clear then r.started + [i.job] else r.started,
        if Outputs(r.s).done then r.done + [r.open] else r.done)
  }

  /** A run that goes on from r. */
  function RunFrom(r: Run, inputs: seq<In>): Run {
    if inputs == [] then r else Cycle(RunFrom(r, inputs[..|inputs| - 1]), inputs[|inputs| - 1])
  }

  function Start(): Run {
    Run(Reset(), Opened(Job(0, 0, 0)), [], [])
  }

  /** No clear, 32-bit lengths, and job registers that stay from the start of a job to its end. */
  predicate Legal(r: Run, i: In) {
    && !i.clear
    && (!Working(r) && i.start ==> i.job.length < WORD)
    && (Working(r) ==> i.job == r.open.job)
  }

  predicate LegalFrom(r: Run, inputs: seq<In>) {
    inputs == [] ||
    (LegalFrom(r, inputs[..|inputs| - 1]) && Legal(RunFrom(r, inputs[..|inputs| - 1]), inputs[|inputs| - 1]))
  }

  // ----- what a job should do -----

  /** Words to fetch, and blocks to process: ceilings. */
  function WordsOf(length: nat): nat {
    (length + 3) / 4
  }

  function BlocksOf(length: nat): nat {
    (length + 15) / 16
  }

  /** The address of the k-th word moved: the block counter has 16 bits. */
  function WordAddress(base: nat, k: nat): nat {
    (base + 4 * (k % 4) + 16 * (k / 4 % BLOCKS)) % WORD
  }

  predicate Addressed(base: nat, addrs: seq<nat>) {
    forall k :: 0 <= k < |addrs| ==> addrs[k] == WordAddress(base, k)
  }

  /** All words of this many bytes fetched, received and written, in order, and marked valid, with four words
      written, one answered core start and one clear for each block. */
  predicate Complete(l: Log, bytes: nat) {
    && |l.fetched| == WordsOf(bytes) && Addressed(l.job.input, l.fetched)
    && |l.written| == 4 * BlocksOf(bytes) && Addressed(l.job.output, l.written)
    && l.received == |l.fetched| && l.valid == |l.written|
    && l.starts == l.answered == l.clears == BlocksOf(bytes)
  }

  /** The bytes the machine really moves: the count of an empty job wraps around. */
  function Size(j: Job): (n: nat)
    ensures j.length < WORD ==> 1 <= n <= WORD && n % WORD == j.length
  {
    if j.length == 0 then WORD else j.length
  }

  // ----- the invariant -----

  /** Bytes left after n words. */
  function Left(length: nat, n: nat): nat {
    if 4 * n < length then length - 4 * n else 0
  }

  /** Counters and logs in each state: b blocks are written, and n words fetched or m words written. */
  predicate Progress(s: Fsm, l: Log, b: nat) {
    var n, m, c, size := |l.fetched|, |l.written|, s.requestCounter, Size(l.job);
    && s.blockCounter == b % BLOCKS
    && match s.state
       case AES_IDLE => true
       case AES_START_KEY => b == 0 && n == 0 && m == 0 && l.starts == 0
       case AES_WAIT_KEY => b == 0 && n == 0 && m == 0 && l.starts == 0 && c == 0 && s.dataSize == l.job.length
       case AES_REQUEST_DATA => n == 4 * b + c && m == 4 * b && l.starts == b && Left(size, n) > 0 && s.dataSize == Left(size, n) % WORD
       case AES_REQUEST_DATA_WAIT =>
         && n == 4 * b + c + 1 && m == 4 * b && l.starts == b && Left(size, n - 1) > 0
         && s.dataSize == Left(size, n - 1) % WORD
       case AES_START_CORE => Fetched(s, l, b) && m == 4 * b && l.starts == b
       case AES_WAIT_CORE => Fetched(s, l, b) && m == 4 * b && l.starts == b + 1 && c == 0
       case AES_SEND_DATA => Fetched(s, l, b) && m == 4 * b + c && l.starts == b + 1
       case AES_SEND_DATA_WAIT | AES_MEMORY_WRITE_WAIT => Fetched(s, l, b) && m == 4 * b + c + 1 && l.starts == b + 1
       case AES_MEMORY_WRITE_DONE => Fetched(s, l, b) && m == 4 * b + 4 && l.starts == b + 1 && c == 0
       case AES_FINISHED => b > 0 && Fetched(s, l, b - 1) && m == 4 * b && l.starts == b && s.dataSize == 0
  }

  /** Block b is fetched: four words, or the last ones of the job. */
  predicate Fetched(s: Fsm, l: Log, b: nat) {
    var n, size := |l.fetched|, Size(l.job);
    && 4 * b < n <= 4 * b + 4 && s.dataSize == Left(size, n) && Left(size, n - 1) > 0
    && (n == 4 * b + 4 || s.dataSize == 0)
  }

  /** The answers in each state: all are in, except the one that the state waits for. */
  predicate Answered(s: Fsm, l: Log, b: nat) {
    && (l.keySent <==> !s.state.AES_START_KEY?)
    && (l.keyDone <==> !s.state.AES_START_KEY? && !s.state.AES_WAIT_KEY?)
    && |l.fetched| == l.received + (if s.state.AES_REQUEST_DATA_WAIT? then 1 else 0)
    && l.starts == l.answered + (if s.state.AES_WAIT_CORE? then 1 else 0)
    && |l.written| == l.valid + (if s.state.AES_SEND_DATA_WAIT? then 1 else 0)
    && l.clears == b
  }

  function NextBlock(s: Fsm, b: nat): nat {
    if s.state.AES_MEMORY_WRITE_DONE? then b + 1 else b
  }

  /** The jobs accepted are those that raised done, once each and in order, and the one at work. */
  predicate Jobs(r: Run) {
    && |r.started| == |r.done| + (if r.s.state.AES_IDLE? then 0 else 1)
    && (forall k :: 0 <= k < |r.done| ==> r.done[k].job == r.started[k])
    && (!r.s.state.AES_IDLE? ==> r.open.job == r.started[|r.done|])
  }

  predicate Finished(l: Log) {
    l.job.length < WORD && Complete(l, Size(l.job))
  }

  /** The log of the job at work, at block b. */
  predicate Open(r: Run, b: nat) {
    && r.open.job.length < WORD && Progress(r.s, r.open, b) && Answered(r.s, r.open, b)
    && Addressed(r.open.job.input, r.open.fetched) && Addressed(r.open.job.output, r.open.written)
  }

  ghost predicate Tracks(r: Run) {
    && Ranges(r.s) && Jobs(r) && (forall k :: 0 <= k < |r.done| ==> Finished(r.done[k]))
    && (!r.s.state.AES_IDLE? ==> exists b: nat :: Open(r, b))
  }

  lemma CountsDown(size: nat, n: nat)
    requires 1 <= size <= WORD && Left(size, n) > 0
    ensures FourLess(Left(size, n) % WORD) == Left(size, n + 1)
  {
  }

  /** The address in the registers is the one of the next word. */
  lemma AddressIs(base: nat, s: Fsm, b: nat, k: nat)
    requires s.requestCounter < 4 && s.blockCounter == b % BLOCKS && k == 4 * b + s.requestCounter
    ensures Address(base, s) == WordAddress(base, k)
  {
  }

  /** After the last word the block that holds it is the last block. */
  lemma LastBlock(length: nat, n: nat, b: nat)
    requires 4 * b < n <= 4 * b + 4 && Left(length, n) == 0 && Left(length, n - 1) > 0
    ensures n == WordsOf(length) && b + 1 == BlocksOf(length)
  {
  }

  lemma FetchKeeps(r: Run, i: In, b: nat)
    requires Ranges(r.s) && r.open.job.length < WORD && Progress(r.s, r.open, b) && Working(r) && Legal(r, i)
    requires r.s.state.AES_REQUEST_DATA? || r.s.state.AES_REQUEST_DATA_WAIT?
    ensures Progress(Step(r.s, i), LogNext(r, i), b)
  {
    if r.s.state.AES_REQUEST_DATA_WAIT? {
      CountsDown(Size(r.open.job), |r.open.fetched| - 1);
    }
  }

  lemma WriteKeeps(r: Run, i: In, b: nat)
    requires Ranges(r.s) && r.open.job.length < WORD && Progress(r.s, r.open, b) && Working(r) && Legal(r, i)
    requires r.s.state.AES_SEND_DATA? || r.s.state.AES_SEND_DATA_WAIT? || r.s.state.AES_MEMORY_WRITE_WAIT?
    ensures Progress(Step(r.s, i), LogNext(r, i), b)
  {
  }

  lemma CoreKeeps(r: Run, i: In, b: nat)
    requires Ranges(r.s) && r.open.job.length < WORD && Progress(r.s, r.open, b) && Working(r) && Legal(r, i)
    requires r.s.state.AES_START_KEY? || r.s.state.AES_WAIT_KEY? || r.s.state.AES_START_CORE? || r.s.state.AES_WAIT_CORE?
    ensures Progress(Step(r.s, i), LogNext(r, i), b)
  {
  }

  lemma BlockEnds(r: Run, i: In, b: nat)
    requires Ranges(r.s) && r.open.job.length < WORD && Progress(r.s, r.open, b) && Working(r) && Legal(r, i)
    requires r.s.state.AES_MEMORY_WRITE_DONE?
    ensures Progress(Step(r.s, i), LogNext(r, i), b + 1)
  {
    assert (b % BLOCKS + 1) % BLOCKS == (b + 1) % BLOCKS;
    if r.s.dataSize == 0 {
    } else {
      assert Left(Size(r.open.job), |r.open.fetched|) % WORD == r.s.dataSize;
    }
  }

  lemma StateKeeps(r: Run, i: In, b: nat)
    requires Ranges(r.s) && r.open.job.length < WORD && Progress(r.s, r.open, b)
    requires Working(r) && Legal(r, i) && !r.s.state.AES_IDLE?
    ensures Progress(Step(r.s, i), LogNext(r, i), NextBlock(r.s, b))
  {
    match r.s.state {
      case AES_REQUEST_DATA | AES_REQUEST_DATA_WAIT => FetchKeeps(r, i, b);
      case AES_SEND_DATA | AES_SEND_DATA_WAIT | AES_MEMORY_WRITE_WAIT => WriteKeeps(r, i, b);
      case AES_START_KEY | AES_WAIT_KEY | AES_START_CORE | AES_WAIT_CORE => CoreKeeps(r, i, b);
      case AES_MEMORY_WRITE_DONE => BlockEnds(r, i, b);
      case AES_FINISHED =>
    }
  }

  lemma AddressesKeep(r: Run, i: In, b: nat)
    requires Ranges(r.s) && Progress(r.s, r.open, b) && Working(r) && Legal(r, i) && !r.s.state.AES_IDLE?
    requires Addressed(r.open.job.input, r.open.fetched) && Addressed(r.open.job.output, r.open.written)
    ensures Addressed(r.open.job.input, LogNext(r, i).fetched) && Addressed(r.open.job.output, LogNext(r, i).written)
  {
    if r.s.state.AES_REQUEST_DATA? {
      AddressIs(r.open.job.input, r.s, b, |r.open.fetched|);
    } else if r.s.state.AES_SEND_DATA? {
      AddressIs(r.open.job.output, r.s, b, |r.open.written|);
    }
  }

  lemma FinishedIsComplete(r: Run, b: nat)
    requires Open(r, b) && r.s.state.AES_FINISHED?
    ensures Finished(r.open)
  {
    LastBlock(Size(r.open.job), |r.open.fetched|, b - 1);
  }

  lemma RangesKeep(s: Fsm, i: In)
    requires Ranges(s) && (!s.state.AES_IDLE? ==> i.job.length < WORD)
    ensures Ranges(Step(s, i))
  {
  }

  lemma IdleKeeps(r: Run, i: In)
    requires Tracks(r) && Legal(r, i) && r.s.state.AES_IDLE?
    ensures Tracks(Cycle(r, i))
  {
    RangesKeep(r.s, i);
    if i.start {
      assert Open(Cycle(r, i), 0);
    }
  }

  lemma AnswersKeep(r: Run, i: In, b: nat)
    requires Ranges(r.s) && Answered(r.s, r.open, b) && Working(r) && Legal(r, i) && !r.s.state.AES_IDLE?
    ensures Answered(Step(r.s, i), LogNext(r, i), NextBlock(r.s, b))
  {
  }

  /** The job at work goes on, at its block or the next one. */
  lemma OpenKeeps(r: Run, i: In, b: nat)
    requires Ranges(r.s) && Open(r, b) && Working(r) && Legal(r, i) && !r.s.state.AES_IDLE?
    ensures Open(Cycle(r, i), NextBlock(r.s, b))
  {
    StateKeeps(r, i, b);
    AnswersKeep(r, i, b);
    AddressesKeep(r, i, b);
  }

  lemma JobsKeep(r: Run, i: In)
    requires Jobs(r) && !r.s.state.AES_IDLE? && !i.clear
    ensures Jobs(Cycle(r, i))
  {
  }

  lemma BusyKeeps(r: Run, i: In)
    requires Tracks(r) && Legal(r, i) && !r.s.state.AES_IDLE?
    ensures Tracks(Cycle(r, i))
  {
    var b: nat :| Open(r, b);
    RangesKeep(r.s, i);
    OpenKeeps(r, i, b);
    JobsKeep(r, i);
    if r.s.state.AES_FINISHED? {
      FinishedIsComplete(r, b);
    }
  }

  /** In every run without clear: each accepted job raises done in exactly one cycle, in order, except the one at
      work; and each job that is done has moved all its words. */
  lemma {:induction false} EveryRunCompletesJobs(r: Run, inputs: seq<In>)
    requires Tracks(r) && LegalFrom(r, inputs)
    ensures Tracks(RunFrom(r, inputs))
  {
    if inputs == [] {
    } else {
      var last, i := RunFrom(r, inputs[..|inputs| - 1]), inputs[|inputs| - 1];
      EveryRunCompletesJobs(r, inputs[..|inputs| - 1]);
      if last.s.state.AES_IDLE? {
        IdleKeeps(last, i);
      } else {
        BusyKeeps(last, i);
      }
    }
  }

  lemma StartTracks()
    ensures Tracks(Start())
  {
  }

  /** A clear, in whatever state it comes, drops the job: the machine is idle, and the cycles that follow are a run
      of their own. */
  lemma ClearRestarts(s: Fsm, i: In, l: Log)
    requires Ranges(s) && i.clear && i.job.length < WORD
    ensures Step(s, i).state.AES_IDLE? && Step(s, i).blockCounter == 0 && Tracks(Run(Step(s, i), l, [], []))
  {
    RangesKeep(s, i);
  }

  /** A job that is done has moved the bytes of its length exactly when there are any: an empty job has moved
      2^32 bytes. */
  lemma CompleteUnlessEmpty(inputs: seq<In>, k: nat)
    requires LegalFrom(Start(), inputs) && k < |RunFrom(Start(), inputs).done|
    ensures var l := RunFrom(Start(), inputs).done[k];
            && (Complete(l, l.job.length) <==> l.job.length >= 1)
            && (l.job.length == 0 ==> |l.fetched| == 0x4000_0000 && l.starts == 0x1000_0000)
  {
    StartTracks();
    EveryRunCompletesJobs(Start(), inputs);
  }

  lemma WithinJob(length: nat, n: nat, b: nat)
    requires n > 0 && Left(length, n - 1) > 0 && n <= 4 * b + 4
    ensures n <= WordsOf(length) && (4 * b < n ==> b < BlocksOf(length))
  {
  }

  /** A job never fetches or writes more than it should. */
  lemma NeverTooMuch(r: Run)
    requires Tracks(r) && !r.s.state.AES_IDLE?
    ensures |r.open.fetched| <= WordsOf(Size(r.open.job)) && |r.open.written| <= 4 * BlocksOf(Size(r.open.job))
  {
    var b: nat :| Open(r, b);
    var length, n := Size(r.open.job), |r.open.fetched|;
    match r.s.state {
      case AES_REQUEST_DATA => WithinJob(length, n + 1, b);
      case AES_FINISHED => WithinJob(length, n, b - 1);
      case AES_IDLE | AES_START_KEY | AES_WAIT_KEY =>
      case _ => WithinJob(length, n, b);
    }
  }

  // ----- each step follows its answer -----

  /** Nothing is fetched before the key is ready; a core start comes after the words of its block, or the last
      ones, are received; no word of a block is written before the core has answered its start; and no word of
      the next block is fetched before those of this one are written, valid, and the engine is cleared. */
  predicate InOrder(l: Log) {
    && (l.fetched != [] ==> l.keyDone)
    && l.received <= |l.fetched| <= l.received + 1
    && (4 * l.starts <= l.received || l.received == WordsOf(Size(l.job)))
    && l.answered <= l.starts <= l.answered + 1 && |l.written| <= 4 * l.answered
    && l.valid <= |l.written| <= l.valid + 1
    && |l.fetched| <= 4 * l.clears + 4 && 4 * l.clears <= l.valid
  }

  lemma OpenInOrder(r: Run, b: nat)
    requires Ranges(r.s) && Open(r, b) && !r.s.state.AES_IDLE?
    ensures InOrder(r.open)
  {
    var size, n := Size(r.open.job), |r.open.fetched|;
    var block := if r.s.state.AES_FINISHED? then b - 1 else b;
    if Fetched(r.s, r.open, block) && r.s.dataSize == 0 {
      LastBlock(size, n, block);
    }
  }

  /** At every cycle of every run, the job at work has done its steps in order. */
  lemma EveryRunInOrder(r: Run, inputs: seq<In>)
    requires Tracks(r) && LegalFrom(r, inputs) && Working(RunFrom(r, inputs))
    ensures InOrder(RunFrom(r, inputs).open)
  {
    EveryRunCompletesJobs(r, inputs);
    var now := RunFrom(r, inputs);
    var b: nat :| Open(now, b);
    OpenInOrder(now, b);
  }

  // ----- jobs come to an end -----

  /** The cycles in which the machine waits for slave, core or streamers. */
  predicate Waits(s: Fsm, i: In) {
    match s.state
    case AES_IDLE => !i.start
    case AES_START_KEY | AES_WAIT_KEY | AES_WAIT_CORE => !i.coreReady
    case AES_REQUEST_DATA => !i.inputReady
    case AES_REQUEST_DATA_WAIT => !i.inputDone
    case AES_SEND_DATA => !i.outputReady
    case _ => false
  }

  /** The transitions of a job: three for key and done, two for each word fetched, and for each block two for the
      core, three for each of four words written, and one to end it. */
  function Takes(j: Job): nat {
    3 + 2 * WordsOf(Size(j)) + 15 * BlocksOf(Size(j))
  }

  /** The transitions to go when so many words are still to be fetched and so many blocks to be ended. */
  function ToGo(s: Fsm, words: int, blocks: int): int {
    var rest, c := 2 * words + 15 * blocks, s.requestCounter;
    match s.state
    case AES_IDLE => 0
    case AES_FINISHED => 1
    case AES_MEMORY_WRITE_DONE => rest - 13
    case AES_MEMORY_WRITE_WAIT => rest - 3 - 3 * c
    case AES_SEND_DATA_WAIT => rest - 2 - 3 * c
    case AES_SEND_DATA => rest - 1 - 3 * c
    case AES_WAIT_CORE => rest
    case AES_START_CORE => rest + 1
    case AES_REQUEST_DATA_WAIT => rest + 2
    case AES_REQUEST_DATA => rest + 1
    case AES_WAIT_KEY => rest + 2
    case AES_START_KEY => rest + 3
  }

  function WordsLeft(l: Log): int {
    WordsOf(Size(l.job)) - |l.fetched|
  }

  function BlocksLeft(l: Log, b: nat): int {
    BlocksOf(Size(l.job)) - b
  }

  /** The transitions to go for the job of a run that is at block b. */
  function Work(r: Run, b: nat): int {
    ToGo(r.s, WordsLeft(r.open), BlocksLeft(r.open, b))
  }

  lemma SomethingLeft(s: Fsm, l: Log, b: nat)
    requires Progress(s, l, b) && l.job.length < WORD && s.requestCounter < 4
    ensures !s.state.AES_IDLE? ==> WordsLeft(l) >= 0
    ensures !s.state.AES_IDLE? && !s.state.AES_FINISHED? ==> BlocksLeft(l, b) > 0
    ensures s.state.AES_MEMORY_WRITE_DONE? && s.dataSize == 0 ==> WordsLeft(l) == 0 && BlocksLeft(l, b) == 1
    ensures s.state.AES_WAIT_CORE? ==> s.requestCounter == 0
  {
    var size, n := Size(l.job), |l.fetched|;
    match s.state {
      case AES_IDLE | AES_START_KEY | AES_WAIT_KEY =>
      case AES_FINISHED => WithinJob(size, n, b - 1);
      case AES_REQUEST_DATA => WithinJob(size, n + 1, b);
      case AES_MEMORY_WRITE_DONE =>
        WithinJob(size, n, b);
        if s.dataSize == 0 {
          LastBlock(size, n, b);
        }
      case _ => WithinJob(size, n, b);
    }
  }

  lemma MoveShrinks(s: Fsm, i: In, words: int, blocks: int)
    requires Ranges(s) && !s.state.AES_IDLE? && !i.clear && !Waits(s, i)
    requires s.state.AES_WAIT_CORE? ==> s.requestCounter == 0
    requires s.state.AES_MEMORY_WRITE_DONE? && s.dataSize == 0 ==> words == 0 && blocks == 1
    ensures ToGo(Step(s, i), if s.state.AES_REQUEST_DATA? then words - 1 else words,
                 if s.state.AES_MEMORY_WRITE_DONE? then blocks - 1 else blocks)
         == ToGo(s, words, blocks) - 1
  {
  }

  lemma WaitStays(s: Fsm, i: In, words: int, blocks: int)
    requires !s.state.AES_IDLE? && !i.clear && Waits(s, i)
    ensures Step(s, i).state == s.state && ToGo(Step(s, i), words, blocks) == ToGo(s, words, blocks)
  {
  }

  lemma SomeToGo(s: Fsm, words: int, blocks: int)
    requires s.requestCounter < 4 && !s.state.AES_IDLE? && words >= 0 && (!s.state.AES_FINISHED? ==> blocks > 0)
    ensures ToGo(s, words, blocks) > 0
  {
  }

  lemma WorkOfNext(r: Run, i: In, b: nat)
    requires Working(r)
    ensures Work(Cycle(r, i), NextBlock(r.s, b))
         == ToGo(Step(r.s, i),
                 if r.s.state.AES_REQUEST_DATA? && i.inputReady then WordsLeft(r.open) - 1 else WordsLeft(r.open),
                 if r.s.state.AES_MEMORY_WRITE_DONE? then BlocksLeft(r.open, b) - 1 else BlocksLeft(r.open, b))
  {
  }

  lemma Shrinks(s: Fsm, i: In, words: int, blocks: int)
    requires Ranges(s) && !s.state.AES_IDLE? && !i.clear && words >= 0 && (!s.state.AES_FINISHED? ==> blocks > 0)
    requires s.state.AES_WAIT_CORE? ==> s.requestCounter == 0
    requires s.state.AES_MEMORY_WRITE_DONE? && s.dataSize == 0 ==> words == 0 && blocks == 1
    ensures ToGo(s, words, blocks) > 0 && (Waits(s, i) ==> Step(s, i).state == s.state)
    ensures ToGo(Step(s, i), if s.state.AES_REQUEST_DATA? && i.inputReady then words - 1 else words,
                 if s.state.AES_MEMORY_WRITE_DONE? then blocks - 1 else blocks)
         == ToGo(s, words, blocks) - if Waits(s, i) then 0 else 1
  {
    SomeToGo(s, words, blocks);
    if Waits(s, i) {
      WaitStays(s, i, words, blocks);
    } else {
      MoveShrinks(s, i, words, blocks);
    }
  }

  /** Every cycle of a job either waits, and then stays where it is, or is one of the transitions it takes. */
  lemma WorkShrinks(r: Run, i: In, b: nat)
    requires Ranges(r.s) && Open(r, b) && Working(r) && Legal(r, i) && !r.s.state.AES_IDLE?
    ensures Work(r, b) > 0
    ensures Waits(r.s, i) ==> Step(r.s, i).state == r.s.state
    ensures Work(Cycle(r, i), NextBlock(r.s, b)) == Work(r, b) - if Waits(r.s, i) then 0 else 1
  {
    SomethingLeft(r.s, r.open, b);
    WorkOfNext(r, i, b);
    Shrinks(r.s, i, WordsLeft(r.open), BlocksLeft(r.open, b));
  }

  /** The cycles of a run that do not wait. */
  function Moves(r: Run, inputs: seq<In>): nat {
    if inputs == [] then 0
    else
      var before := inputs[..|inputs| - 1];
      Moves(r, before) + if Waits(RunFrom(r, before).s, inputs[|inputs| - 1]) then 0 else 1
  }

  /** The job of r is still at work, at block b, with its log still open. */
  predicate AtWork(r: Run, now: Run, b: nat) {
    && !now.s.state.AES_IDLE? && Open(now, b)
    && now.open.job == r.open.job && now.started == r.started && now.done == r.done
  }

  /** The job of r has raised done. */
  predicate IsDone(r: Run, now: Run) {
    |r.done| < |now.done| && now.done[|r.done|].job == r.open.job
  }

  /** At work after so many transitions, with the rest of them to go. */
  ghost predicate Going(r: Run, now: Run, moves: nat, work: int) {
    exists b: nat :: AtWork(r, now, b) && Work(now, b) + moves == work
  }

  lemma WorkKeeps(r: Run, now: Run, i: In, b: nat)
    requires Ranges(now.s) && AtWork(r, now, b) && Working(now) && Legal(now, i) && !now.s.state.AES_FINISHED?
    ensures AtWork(r, Cycle(now, i), NextBlock(now.s, b))
  {
    OpenKeeps(now, i, b);
  }

  lemma OneCycle(r: Run, now: Run, i: In, moves: nat, work: int)
    requires Ranges(now.s) && Going(r, now, moves, work) && Working(now) && Legal(now, i)
    ensures var n, more := Cycle(now, i), moves + if Waits(now.s, i) then 0 else 1;
            (IsDone(r, n) && more >= work) || Going(r, n, more, work)
  {
    var b: nat :| AtWork(r, now, b) && Work(now, b) + moves == work;
    if now.s.state.AES_FINISHED? {
      assert Cycle(now, i).done[|r.done|] == now.open;
    } else {
      WorkShrinks(now, i, b);
      WorkKeeps(r, now, i, b);
    }
  }

  lemma {:induction false} DoneOrGoing(r: Run, inputs: seq<In>, work: int)
    requires Tracks(r) && Going(r, r, 0, work) && LegalFrom(r, inputs)
    ensures var now := RunFrom(r, inputs);
            (IsDone(r, now) && Moves(r, inputs) >= work) || Going(r, now, Moves(r, inputs), work)
  {
    if inputs == [] {
    } else {
      var before := inputs[..|inputs| - 1];
      DoneOrGoing(r, before, work);
      EveryRunCompletesJobs(r, before);
      if IsDone(r, RunFrom(r, before)) {
      } else {
        OneCycle(r, RunFrom(r, before), inputs[|inputs| - 1], Moves(r, before), work);
      }
    }
  }

  lemma NotDoneYet(r: Run, now: Run, moves: nat, work: int)
    requires Ranges(now.s) && Going(r, now, moves, work)
    ensures !IsDone(r, now) && moves < work
  {
    var b: nat :| AtWork(r, now, b) && Work(now, b) + moves == work;
    SomethingLeft(now.s, now.open, b);
    SomeToGo(now.s, WordsLeft(now.open), BlocksLeft(now.open, b));
  }

  /** From any point of a job, its done comes with the last of the transitions that are left, and not before. */
  lemma DoneExactlyAfter(r: Run, inputs: seq<In>, b: nat)
    requires Tracks(r) && !r.s.state.AES_IDLE? && Open(r, b) && LegalFrom(r, inputs)
    ensures IsDone(r, RunFrom(r, inputs)) <==> Moves(r, inputs) >= Work(r, b)
  {
    var now := RunFrom(r, inputs);
    assert AtWork(r, r, b);
    DoneOrGoing(r, inputs, Work(r, b));
    EveryRunCompletesJobs(r, inputs);
    if Going(r, now, Moves(r, inputs), Work(r, b)) {
      NotDoneYet(r, now, Moves(r, inputs), Work(r, b));
    }
  }

  /** A job that has just begun raises done with its transition number 3 + 2 * ceil(L / 4) + 15 * ceil(L / 16), with
      slave, core and streamers answering however late, and not before. */
  lemma JobTakes(r: Run, inputs: seq<In>)
    requires Tracks(r) && r.s.state.AES_START_KEY? && LegalFrom(r, inputs)
    ensures IsDone(r, RunFrom(r, inputs)) <==> Moves(r, inputs) >= Takes(r.open.job)
  {
    var b: nat :| Open(r, b);
    DoneExactlyAfter(r, inputs, b);
  }

  /** And every job that is at work ends, within that number. */
  lemma EveryJobEnds(r: Run, inputs: seq<In>)
    requires Tracks(r) && !r.s.state.AES_IDLE? && LegalFrom(r, inputs) && Moves(r, inputs) >= Takes(r.open.job)
    ensures IsDone(r, RunFrom(r, inputs))
  {
    var b: nat :| Open(r, b);
    DoneExactlyAfter(r, inputs, b);
  }

  /** The addresses are base, base + 4, base + 8, ... exactly when the job has at most 2^20 bytes: then its
      blocks fit the 16-bit block counter. */
  lemma AddressesInOrder(base: nat, length: nat)
    ensures (forall k :: 0 <= k < 4 * BlocksOf(length) ==> WordAddress(base, k) == (base + 4 * k) % WORD)
            <==> length <= 0x10_0000
  {
    if length <= 0x10_0000 {
      forall k | 0 <= k < 4 * BlocksOf(length) ensures WordAddress(base, k) == (base + 4 * k) % WORD {
        assert k / 4 < BLOCKS;
      }
    } else {
      var k := 4 * BLOCKS;
      assert k < 4 * BlocksOf(length) && WordAddress(base, k) == base % WORD;
    }
  }

  /** Counting a word off is right exactly when there is a byte left: an empty job wraps around. */
  lemma CountsDownExactly(size: nat)
    requires size < WORD
    ensures FourLess(size) == (if size >= 4 then size - 4 else 0) <==> size != 0
    ensures FourLess(0) == WORD - 4
  {
  }
}

/** Cores that offload jobs through the control slave: acquire a context, write its parameters, commit it.
    Whole runs of any number of cores against the slave, and what they may rely on.

    Main theorems: in every legal run jobs are stored as their cores wrote them, run in commit order, and raise
    one event each (`EveryRunKeepsJobs`), and a soft clear starts a new run (`SoftClearRestarts`). */
module CtrlProtocol {
  import opened Arith
  import opened Bytes
  import opened CtrlRegfile
  import opened CtrlSlave
  import opened Options

  /** A committed job: the core that offloaded it, and the parameters that core wrote. */
  datatype Job = Job(core: nat, params: seq<Word>)

  /** The slave, and what an observer of the bus and of the events has seen: the core between a successful
      acquire and its commit, the parameters it has written, the jobs that wait or run, those that are
      finished, all commits, successful acquires, start strobes, events, and whether a trigger was ever written. */
  datatype Run = Run(s: Slave, owner: Option<nat>, staged: seq<Word>, queue: seq<Job>, finished: seq<Job>,
                     committed: seq<Job>, acquires: nat, starts: nat, pulses: seq<nat>, triggered: bool)

  const REGISTERS: nat := 64

  predicate OneHot(p: Layout, id: set<nat>) {
    exists c :: c in id && c < p.cores && id == {c}
  }

  /** The requesting core, when the identifier is one-hot. */
  function CoreOf(p: Layout, i: In): nat {
    Requester(i.id, p.cores, 0)
  }

  /** What a core does on the bus, by the register map: register 0 commits, and triggers with a zero; register 1,
      read, acquires; register 5 clears, and clears the parameters with a zero; the generic registers are 8 to 15, and
      the parameters follow. */
  datatype Act =
    Nothing | Acquire | Commit(trigger: bool) | SoftClear(all: bool) | Generic(k: nat) | Parameter(k: nat) | Other

  predicate IsZero(w: Word) {
    w.b0 == 0 && w.b1 == 0 && w.b2 == 0 && w.b3 == 0
  }

  function ActOf(i: In): Act {
    if !i.req then Nothing
    else if i.wen then (if i.idx == 1 then Acquire else Other)
    else if i.idx == 0 then Commit(IsZero(i.data))
    else if i.idx == 5 then SoftClear(IsZero(i.data))
    else if i.idx >= 16 then Parameter(i.idx - 16)
    else if i.idx >= 8 then Generic(i.idx - 8)
    else Other
  }

  /** The slave reads the bus by that map. */
  lemma ReadsBus(i: In)
    ensures ActOf(i).Acquire? <==> IsTestset(i)
    ensures ActOf(i).Commit? <==> IsCommit(i)
    ensures ActOf(i).Commit? ==> (ActOf(i).trigger <==> IsTrigger(i))
    ensures ActOf(i).SoftClear? <==> IsSoftClear(i)
    ensures ActOf(i).SoftClear? ==> (ActOf(i).all <==> i.data == Word(0, 0, 0, 0))
    ensures ActOf(i).Generic? || ActOf(i).Parameter? <==> WritesStorage(i)
    ensures ActOf(i).Generic? ==> ActOf(i).k == i.idx - MANDATORY
    ensures ActOf(i).Parameter? <==> WritesStorage(i) && i.idx >= MANDATORY + GENERIC
    ensures ActOf(i).Parameter? ==> ActOf(i).k == i.idx - MANDATORY - GENERIC
  {
  }

  /** One requester at a time, only the core that acquired writes the registers of the context, below some
      limit, and commits it, nobody clears, and the accelerator is done only after it was started. */
  predicate Polite(p: Layout, r: Run, i: In, limit: nat) {
    && (i.req ==> OneHot(p, i.id) && i.idx < REGISTERS)
    && !IsSoftClear(i)
    && (IsCommit(i) ==> r.owner == Some(CoreOf(p, i)))
    && (WritesStorage(i) && i.idx >= MANDATORY + GENERIC ==> r.owner == Some(CoreOf(p, i)) && i.idx < limit)
    && (i.done ==> !r.s.state.RUN_STARTING?)
  }

  /** The protocol: registers are those of one context. */
  predicate Legal(p: Layout, r: Run, i: In) {
    Polite(p, r, i, MANDATORY + GENERIC + p.io)
  }

  /** An acquire that was answered with a job id. */
  predicate Acquires(p: Layout, s: Slave, i: In)
    requires Valid(p) && Shaped(p, s)
  {
    IsTestset(i) && RegfileStep(p, s.regfile, FlagsOf(p, s), i).rdata >= 0
  }

  function OwnerNext(p: Layout, r: Run, i: In): Option<nat>
    requires Valid(p) && Shaped(p, r.s)
  {
    if IsCommit(i) then None else if Acquires(p, r.s, i) then Some(CoreOf(p, i)) else r.owner
  }

  /** What the owner has programmed: the context as acquired, then register by register. */
  function StagedNext(p: Layout, r: Run, i: In): seq<Word>
    requires Valid(p) && Shaped(p, r.s)
  {
    var k := i.idx - MANDATORY - GENERIC;
    if Acquires(p, r.s, i) then Params(p, r.s.regfile.mem, r.s.pointer)
    else if WritesStorage(i) && 0 <= k < |r.staged| then r.staged[k := Merged(r.staged[k], i.data, i.be)]
    else r.staged
  }

  function Committed(p: Layout, r: Run, i: In): seq<Job> {
    if IsCommit(i) then [Job(CoreOf(p, i), r.staged)] else []
  }

  predicate Finishes(r: Run, i: In) {
    TrueDone(r.s, i) && r.queue != []
  }

  function QueueNext(p: Layout, r: Run, i: In): seq<Job> {
    (if Finishes(r, i) then r.queue[1..] else r.queue) + Committed(p, r, i)
  }

  /** The cores whose event is raised, in order. */
  function Raised(evt: seq<bool>, n: nat): seq<nat>
    requires n <= |evt|
  {
    if n == 0 then [] else Raised(evt, n - 1) + if evt[n - 1] then [n - 1] else []
  }

  function Cycle(p: Layout, r: Run, i: In): (n: Run)
    requires Valid(p) && Shaped(p, r.s)
    ensures Shaped(p, n.s)
  {
    var s := Step(p, r.s, i);
    Run(s, OwnerNext(p, r, i), StagedNext(p, r, i), QueueNext(p, r, i),
        r.finished + if Finishes(r, i) then [r.queue[0]] else [], r.committed + Committed(p, r, i),
        r.acquires + (if Acquires(p, r.s, i) then 1 else 0), r.starts + (if s.start then 1 else 0),
        r.pulses + Raised(s.evt, |s.evt|), r.triggered || IsTrigger(i))
  }

  /** A slave without jobs, and an observer who starts to look. */
  function Fresh(s: Slave): Run {
    Run(s, None, [], [], [], [], s.regfile.jobId, 0, [], false)
  }

  function Start(p: Layout): (r: Run)
    requires Valid(p)
    ensures Shaped(p, r.s)
  {
    Fresh(Reset(p)).(acquires := 0)
  }

  /** A run that goes on from r. */
  function RunFrom(p: Layout, r: Run, inputs: seq<In>): (n: Run)
    requires Valid(p) && Shaped(p, r.s)
    ensures Shaped(p, n.s)
  {
    if inputs == [] then r else Cycle(p, RunFrom(p, r, inputs[..|inputs| - 1]), inputs[|inputs| - 1])
  }

  predicate PoliteFrom(p: Layout, r: Run, inputs: seq<In>, limit: nat)
    requires Valid(p) && Shaped(p, r.s)
  {
    inputs == [] ||
    var before := inputs[..|inputs| - 1];
    PoliteFrom(p, r, before, limit) && Polite(p, RunFrom(p, r, before), inputs[|inputs| - 1], limit)
  }

  predicate LegalFrom(p: Layout, r: Run, inputs: seq<In>)
    requires Valid(p) && Shaped(p, r.s)
  {
    PoliteFrom(p, r, inputs, MANDATORY + GENERIC + p.io)
  }

  // ----- the invariant -----

  /** The context k places ahead in the ring. */
  function Ahead(n: nat, x: nat, k: nat): nat
    requires x < n && k <= n
  {
    if x + k < n then x + k else x + k - n
  }

  predicate Ring(p: Layout, s: Slave)
    requires Valid(p) && Shaped(p, s)
  {
    s.pending <= Contexts(p) && s.pointer == Ahead(Contexts(p), s.running, s.pending)
  }

  predicate Uncleared(s: Slave) {
    s.clear == Strobe(0, false) && s.clearRegfile == Strobe(0, false)
  }

  predicate Critical(p: Layout, r: Run)
    requires Valid(p) && Shaped(p, r.s)
  {
    && (r.s.critical <==> r.owner.Some?) && (r.s.cxt.CXT_PROGRAM? <==> r.owner.Some?)
    && (r.owner.Some? ==> r.s.pending < Contexts(p) && r.owner.value < p.cores)
  }

  /** The acquired context holds what its core has written. */
  predicate Programs(p: Layout, r: Run)
    requires Valid(p) && Shaped(p, r.s)
  {
    r.owner.Some? ==> Params(p, r.s.regfile.mem, r.s.pointer) == r.staged
  }

  predicate HoldsJob(p: Layout, s: Slave, c: nat, j: Job)
    requires Valid(p) && Shaped(p, s) && c < Contexts(p)
  {
    s.offloading[c] == j.core < p.cores && Params(p, s.regfile.mem, c) == j.params
  }

  /** The waiting and running jobs sit in the ring in commit order, with their parameters. */
  predicate Jobs(p: Layout, r: Run)
    requires Valid(p) && Shaped(p, r.s)
  {
    && |r.queue| == r.s.pending <= Contexts(p)
    && forall k :: 0 <= k < |r.queue| ==> HoldsJob(p, r.s, Ahead(Contexts(p), r.s.running, k), r.queue[k])
  }

  predicate Working(r: Run) {
    && (r.s.working <==> !r.s.state.RUN_IDLE?) && (r.s.working ==> r.s.pending > 0)
    && (r.s.start ==> r.s.state.RUN_RUN?) && (r.s.triggered <==> r.triggered)
    && (r.s.working ==> r.triggered) && r.starts == |r.finished| + if r.s.state.RUN_RUN? then 1 else 0
  }

  predicate Ids(r: Run) {
    && (r.s.regfile.jobIdIncr ==> r.s.critical)
    && (r.s.regfile.jobId + if r.s.regfile.jobIdIncr then 1 else 0) % 256 == r.acquires % 256
  }

  function Cores(jobs: seq<Job>): seq<nat> {
    if jobs == [] then [] else Cores(jobs[..|jobs| - 1]) + [jobs[|jobs| - 1].core]
  }

  predicate Logs(r: Run) {
    r.committed == r.finished + r.queue && r.pulses == Cores(r.finished)
  }

  predicate Tracks(p: Layout, r: Run)
    requires Valid(p)
  {
    Shaped(p, r.s) && Uncleared(r.s) && Ring(p, r.s) && Critical(p, r) && Programs(p, r) && Jobs(p, r) && Working(r) && Ids(r) && Logs(r)
  }

  // ----- one cycle keeps it -----

  lemma RequesterIs(id: set<nat>, cores: nat, otherwise: nat, c: nat)
    requires id == {c} && c < cores
    ensures Requester(id, cores, otherwise) == c
  {
    if cores - 1 == c {
    } else {
      RequesterIs(id, cores - 1, otherwise, c);
    }
  }

  lemma OneRequester(p: Layout, i: In, otherwise: nat)
    requires OneHot(p, i.id)
    ensures Requester(i.id, p.cores, otherwise) == CoreOf(p, i) < p.cores && i.id == {CoreOf(p, i)}
  {
    var c :| c in i.id && c < p.cores && i.id == {c};
    RequesterIs(i.id, p.cores, otherwise, c);
    RequesterIs(i.id, p.cores, 0, c);
  }

  lemma RingKeeps(p: Layout, r: Run, i: In)
    requires Valid(p) && Tracks(p, r) && Legal(p, r, i)
    ensures Ring(p, Step(p, r.s, i)) && Step(p, r.s, i).pending == |QueueNext(p, r, i)|
  {
  }

  /** The ring never wraps onto a context that still holds a job. */
  lemma AheadDistinct(n: nat, x: nat, j: nat, k: nat)
    requires x < n && j < k <= n && k - j < n
    ensures Ahead(n, x, j) != Ahead(n, x, k)
  {
  }

  /** A legal write leaves every context alone except the one its core has acquired. */
  lemma OthersUntouched(p: Layout, r: Run, i: In, c: nat)
    requires Valid(p) && Tracks(p, r) && Legal(p, r, i) && c < Contexts(p)
    requires c != r.s.pointer || !WritesStorage(i) || i.idx < MANDATORY + GENERIC
    ensures Params(p, Step(p, r.s, i).regfile.mem, c) == Params(p, r.s.regfile.mem, c)
  {
    WriteChanges(p, r.s.regfile, FlagsOf(p, r.s), i, c);
    if WritesStorage(i) {
      if i.idx < MANDATORY + GENERIC {
        GenericHitsNone(p, r.s.pointer, i.idx, c);
      } else {
        OwnContextOnly(p, r.s.pointer, i.idx, c);
      }
    }
  }

  lemma OldJobKept(p: Layout, r: Run, i: In, k: nat)
    requires Valid(p) && Tracks(p, r) && Legal(p, r, i) && k < |r.queue|
    ensures HoldsJob(p, Step(p, r.s, i), Ahead(Contexts(p), r.s.running, k), r.queue[k])
  {
    var c := Ahead(Contexts(p), r.s.running, k);
    assert HoldsJob(p, r.s, c, r.queue[k]);
    if r.owner.Some? {
      AheadDistinct(Contexts(p), r.s.running, k, r.s.pending);
    }
    OthersUntouched(p, r, i, c);
  }

  lemma NewJobKept(p: Layout, r: Run, i: In)
    requires Valid(p) && Tracks(p, r) && Legal(p, r, i) && IsCommit(i)
    ensures HoldsJob(p, Step(p, r.s, i), r.s.pointer, Job(CoreOf(p, i), r.staged))
  {
    OneRequester(p, i, r.s.offloading[r.s.pointer]);
    OthersUntouched(p, r, i, r.s.pointer);
  }

  /** Place k of the ring after the cycle is place k, or k + 1, before it. */
  lemma PlaceMoves(n: nat, x: nat, k: nat)
    requires x < n && k < n
    ensures Ahead(n, Next(x, n), k) == Ahead(n, x, k + 1)
  {
  }

  lemma JobKept(p: Layout, r: Run, i: In, k: nat)
    requires Valid(p) && Tracks(p, r) && Legal(p, r, i) && k < |QueueNext(p, r, i)| <= Contexts(p)
    ensures HoldsJob(p, Step(p, r.s, i), Ahead(Contexts(p), RunningNext(p, r.s, i), k), QueueNext(p, r, i)[k])
  {
    var n, shift := Contexts(p), if Finishes(r, i) then 1 else 0;
    PlaceMoves(n, r.s.running, k);
    assert Ahead(n, RunningNext(p, r.s, i), k) == Ahead(n, r.s.running, k + shift);
    if k + shift < |r.queue| {
      OldJobKept(p, r, i, k + shift);
    } else {
      NewJobKept(p, r, i);
    }
  }

  lemma JobsKept(p: Layout, r: Run, i: In)
    requires Valid(p) && Tracks(p, r) && Legal(p, r, i)
    ensures Jobs(p, Cycle(p, r, i))
  {
    RingKeeps(p, r, i);
    var queue := QueueNext(p, r, i);
    forall k | 0 <= k < |queue|
      ensures HoldsJob(p, Step(p, r.s, i), Ahead(Contexts(p), RunningNext(p, r.s, i), k), queue[k])
    {
      JobKept(p, r, i, k);
    }
  }

  lemma CriticalKept(p: Layout, r: Run, i: In)
    requires Valid(p) && Tracks(p, r) && Legal(p, r, i)
    ensures Critical(p, Cycle(p, r, i))
  {
    if i.req {
      OneRequester(p, i, 0);
    }
  }

  /** A register the owner writes is the one it has staged. */
  lemma OwnWrite(p: Layout, r: Run, i: In)
    requires Valid(p) && Tracks(p, r) && Legal(p, r, i) && WritesStorage(i) && i.idx >= MANDATORY + GENERIC
    ensures Params(p, Step(p, r.s, i).regfile.mem, r.s.pointer) == StagedNext(p, r, i)
  {
    WriteChanges(p, r.s.regfile, FlagsOf(p, r.s), i, r.s.pointer);
    OwnContextOnly(p, r.s.pointer, i.idx, r.s.pointer);
  }

  lemma ProgramsKept(p: Layout, r: Run, i: In)
    requires Valid(p) && Tracks(p, r) && Legal(p, r, i)
    ensures Programs(p, Cycle(p, r, i))
  {
    if IsCommit(i) {
    } else if WritesStorage(i) && i.idx >= MANDATORY + GENERIC {
      OwnWrite(p, r, i);
    } else {
      OthersUntouched(p, r, i, r.s.pointer);
    }
  }

  /** The trigger flag is never reset: its reset asks for a done with an empty ring. */
  lemma TriggerIsSticky(p: Layout, r: Run, i: In)
    requires Valid(p) && Tracks(p, r)
    ensures !(r.s.running == r.s.pointer && !Full(p, r.s) && TrueDone(r.s, i))
    ensures Step(p, r.s, i).triggered <==> r.s.triggered || IsTrigger(i)
  {
  }

  lemma WorkingKept(p: Layout, r: Run, i: In)
    requires Valid(p) && Tracks(p, r) && Legal(p, r, i)
    ensures Working(Cycle(p, r, i))
  {
    TriggerIsSticky(p, r, i);
    RingKeeps(p, r, i);
  }

  /** What an acquire should be answered: taken, full, or the number of the job, modulo the eight bits of an id. */
  function Answer(p: Layout, r: Run): int
    requires Valid(p)
  {
    if r.owner.Some? then -2
    else if |r.queue| == Contexts(p) then -1
    else r.acquires % 256
  }

  /** An acquire succeeds when no core is between acquire and commit and a context is free. */
  lemma AcquireSucceeds(p: Layout, r: Run, i: In)
    requires Valid(p) && Tracks(p, r)
    ensures Acquires(p, r.s, i) <==> IsTestset(i) && r.owner == None && |r.queue| < Contexts(p)
    ensures IsTestset(i) ==> Step(p, r.s, i).regfile.rdata == Answer(p, r)
  {
  }

  lemma IdsKept(p: Layout, r: Run, i: In)
    requires Valid(p) && Tracks(p, r) && Legal(p, r, i)
    ensures Ids(Cycle(p, r, i))
  {
    AcquireSucceeds(p, r, i);
    NextId(r.s.regfile.jobId, r.s.regfile.jobIdIncr, r.acquires, Acquires(p, r.s, i));
  }

  lemma NextId(x: nat, incr: bool, n: nat, acquired: bool)
    requires x < 256 && (x + if incr then 1 else 0) % 256 == n % 256 && (acquired ==> !incr)
    ensures ((if incr then Next(x, 256) else x) + if acquired then 1 else 0) % 256
         == (n + if acquired then 1 else 0) % 256
  {
    assert n == n / 256 * 256 + n % 256;
  }

  lemma RaisedIs(evt: seq<bool>, n: nat, d: bool, c: nat)
    requires n <= |evt| && forall k :: 0 <= k < n ==> evt[k] == (d && c == k)
    ensures Raised(evt, n) == if d && c < n then [c] else []
  {
  }

  /** The event register pulses once, on the offloading core of the job that is done, and on no other. */
  lemma PulseIs(p: Layout, r: Run, i: In)
    requires Valid(p) && Tracks(p, r)
    ensures var evt := Step(p, r.s, i).evt;
            Raised(evt, |evt|) == if Finishes(r, i) then [r.queue[0].core] else []
    ensures var own := Step(p, r.s, i).own;
            r.queue != [] ==> Raised(own, |own|) == if i.evt then [r.queue[0].core] else []
  {
    var s, d := Step(p, r.s, i), TrueDone(r.s, i);
    RaisedIs(s.evt, |s.evt|, d, r.s.offloading[r.s.running]);
    RaisedIs(s.own, |s.own|, i.evt, r.s.offloading[r.s.running]);
    if r.queue != [] {
      assert HoldsJob(p, r.s, Ahead(Contexts(p), r.s.running, 0), r.queue[0]);
    }
  }

  lemma LogGrows(finished: seq<Job>, queue: seq<Job>, more: seq<Job>, fin: bool)
    requires fin ==> queue != []
    ensures var done := if fin then [queue[0]] else [];
            && finished + queue + more == finished + done + ((if fin then queue[1..] else queue) + more)
            && Cores(finished + done) == Cores(finished) + if fin then [queue[0].core] else []
  {
    if fin {
      assert (finished + [queue[0]])[..|finished|] == finished;
    } else {
      assert finished + [] == finished;
    }
  }

  lemma LogsKept(p: Layout, r: Run, i: In)
    requires Valid(p) && Tracks(p, r)
    ensures Logs(Cycle(p, r, i))
  {
    PulseIs(p, r, i);
    LogGrows(r.finished, r.queue, Committed(p, r, i), Finishes(r, i));
  }

  lemma CycleKeeps(p: Layout, r: Run, i: In)
    requires Valid(p) && Tracks(p, r) && Legal(p, r, i)
    ensures Tracks(p, Cycle(p, r, i))
  {
    RingKeeps(p, r, i);
    JobsKept(p, r, i);
    CriticalKept(p, r, i);
    ProgramsKept(p, r, i);
    WorkingKept(p, r, i);
    IdsKept(p, r, i);
    LogsKept(p, r, i);
  }

  /** In every legal run the slave keeps its jobs: the committed jobs are the finished ones followed by those in
      the ring, at most one context per job; each finished job was started once and raised one event, on the
      core that committed it; and every job in the ring has the parameters its core wrote. */
  lemma {:induction false} EveryRunKeepsJobs(p: Layout, r: Run, inputs: seq<In>)
    requires Valid(p) && Tracks(p, r) && LegalFrom(p, r, inputs)
    ensures Tracks(p, RunFrom(p, r, inputs))
  {
    if inputs == [] {
    } else {
      var before := inputs[..|inputs| - 1];
      EveryRunKeepsJobs(p, r, before);
      CycleKeeps(p, RunFrom(p, r, before), inputs[|inputs| - 1]);
    }
  }

  lemma StartTracks(p: Layout)
    requires Valid(p)
    ensures Tracks(p, Start(p)) && forall k :: 0 <= k < Slots(p) ==> Start(p).s.regfile.mem[k] == Word(0, 0, 0, 0)
  {
  }

  /** While the accelerator works, the running context holds the oldest unfinished commit, as its core wrote it,
      whatever was committed or programmed since. */
  lemma RunsOldestCommit(p: Layout, r: Run)
    requires Valid(p) && Tracks(p, r) && r.s.working
    ensures |r.finished| < |r.committed|
    ensures Params(p, r.s.regfile.mem, r.s.running) == r.committed[|r.finished|].params
    ensures r.s.offloading[r.s.running] == r.committed[|r.finished|].core
  {
    assert HoldsJob(p, r.s, Ahead(Contexts(p), r.s.running, 0), r.queue[0]);
  }

  /** Commits minus dones is the pending counter, between 0 and the number of contexts, and the next free
      context is that many places behind the running one. */
  lemma PendingCountsJobs(p: Layout, r: Run)
    requires Valid(p) && Tracks(p, r)
    ensures 0 <= |r.committed| - |r.finished| == r.s.pending <= Contexts(p)
    ensures r.s.pointer == (r.s.running + r.s.pending) % Contexts(p)
  {
    AheadIsModulo(Contexts(p), r.s.running, r.s.pending);
  }

  lemma AheadIsModulo(n: nat, x: nat, k: nat)
    requires x < n && k <= n
    ensures Ahead(n, x, k) == (x + k) % n
  {
    DivModUnique(x + k, n, if x + k < n then 0 else 1, Ahead(n, x, k));
  }

  // ----- soft clear -----

  /** The clear is up with its counter at k; that of the register file goes with it, or stays down. */
  predicate Clearing(s: Slave, k: nat, all: bool) {
    && s.clear == Strobe(k, true) && s.clearRegfile == (if all then Strobe(k, true) else Strobe(0, false))
    && !s.regfile.jobIdIncr
  }

  function Incremented(r: Regfile): nat {
    if r.jobIdIncr then Next(r.jobId, 256) else r.jobId
  }

  /** The clear comes up two clocks after the write that asks for it. */
  lemma ClearComesUp(p: Layout, s: Slave, w: In, a: In)
    requires Valid(p) && Shaped(p, s) && s.clear.count == 0 && s.clearRegfile == Strobe(0, false)
    requires IsSoftClear(w) && !a.req
    ensures var n := Step(p, Step(p, s, w), a);
            && Clearing(n, 2, w.data == Word(0, 0, 0, 0))
            && n.regfile.mem == s.regfile.mem && n.regfile.jobId == Incremented(s.regfile)
  {
    var s1 := Step(p, s, w);
    assert s1.clearRegfile == Strobe(if w.data == Word(0, 0, 0, 0) then 1 else 0, false);
    assert s1.regfile.mem == s.regfile.mem && s1.regfile.jobId == Incremented(s.regfile);
  }

  /** The slave after a clock with the clear up. */
  predicate Cleared(p: Layout, s: Slave)
    requires Valid(p) && Shaped(p, s)
  {
    && s.pointer == 0 && s.running == 0 && s.pending == 0 && !s.triggered && s.state.RUN_IDLE?
    && !s.start && !s.working && !s.critical && s.cxt.CXT_IDLE?
    && forall c :: 0 <= c < p.cores ==> !s.evt[c] && !s.own[c]
  }

  lemma ClearStays(p: Layout, s: Slave, i: In, k: nat, all: bool)
    requires Valid(p) && Shaped(p, s) && Clearing(s, k, all) && 0 < k < 4 && !i.req
    ensures var n := Step(p, s, i);
            && Clearing(n, (k + 1) % 4, all) && Cleared(p, n)
            && n.regfile.mem == (if all then Zeros(p) else s.regfile.mem)
            && n.regfile.jobId == if all then 0 else s.regfile.jobId
  {
  }

  lemma ClearGoesDown(p: Layout, s: Slave, i: In, all: bool)
    requires Valid(p) && Shaped(p, s) && Clearing(s, 0, all) && !i.req
    ensures var n := Step(p, s, i);
            && Uncleared(n) && Cleared(p, n) && !n.regfile.jobIdIncr
            && n.regfile.mem == (if all then Zeros(p) else s.regfile.mem)
            && n.regfile.jobId == if all then 0 else s.regfile.jobId
  {
  }

  lemma ClearedTracks(p: Layout, s: Slave)
    requires Valid(p) && Shaped(p, s) && Cleared(p, s) && Uncleared(s) && !s.regfile.jobIdIncr
    ensures Tracks(p, Fresh(s))
  {
  }

  /** Four quiet cycles after a write to the soft clear register, in whatever state it came unless a
      clear is under way, the slave has no jobs, events or critical section, and the legal cycles that follow are
      a run of their own. A write of zero has also cleared the parameters and the job ids; any other write has
      left them. */
  lemma SoftClearRestarts(p: Layout, s: Slave, w: In, a: In, b: In, c: In, d: In)
    requires Valid(p) && Shaped(p, s) && s.clear.count == 0 && s.clearRegfile == Strobe(0, false) && IsSoftClear(w)
    requires !a.req && !b.req && !c.req && !d.req
    ensures var n, all := Step(p, Step(p, Step(p, Step(p, Step(p, s, w), a), b), c), d), w.data == Word(0, 0, 0, 0);
            && Tracks(p, Fresh(n)) && Cleared(p, n)
            && (all ==> forall k :: 0 <= k < Slots(p) ==> n.regfile.mem[k] == Word(0, 0, 0, 0))
            && (!all ==> n.regfile.mem == s.regfile.mem)
            && n.regfile.jobId == if all then 0 else Incremented(s.regfile)
  {
    var s2, all := Step(p, Step(p, s, w), a), w.data == Word(0, 0, 0, 0);
    var s3 := Step(p, s2, b);
    var s4 := Step(p, s3, c);
    ClearComesUp(p, s, w, a);
    ClearStays(p, s2, b, 2, all);
    ClearStays(p, s3, c, 3, all);
    ClearGoesDown(p, s4, d, all);
    ClearedTracks(p, Step(p, s4, d));
  }

  // ----- starting -----

  /** Once any trigger was written, a waiting job starts by itself when the accelerator is free. */
  lemma WaitingJobStarts(p: Layout, r: Run, i: In)
    requires Valid(p) && Tracks(p, r) && r.queue != [] && r.s.state.RUN_IDLE?
    ensures r.triggered || IsTrigger(i) <==> Step(p, r.s, i).state.RUN_STARTING?
    ensures !Step(p, r.s, i).state.RUN_STARTING? ==> Step(p, r.s, i).state.RUN_IDLE?
  {
  }

  /** The strobe is up, for the job that was the oldest of the queue, with the parameters it was committed with. */
  predicate Starts(p: Layout, n: Run, starts: nat, j: Job)
    requires Valid(p) && Shaped(p, n.s)
  {
    && n.s.start && n.s.working && n.starts == starts + 1 && n.queue != [] && n.queue[0] == j
    && Params(p, n.s.regfile.mem, n.s.running) == j.params
  }

  /** The job at the head of the queue stays there for a clock in which it is not done. */
  lemma HeadStays(p: Layout, r: Run, i: In)
    requires Valid(p) && Tracks(p, r) && Legal(p, r, i) && r.queue != [] && !TrueDone(r.s, i)
    ensures var n := Cycle(p, r, i);
            Tracks(p, n) && n.queue != [] && n.queue[0] == r.queue[0] && n.finished == r.finished
  {
    CycleKeeps(p, r, i);
  }

  /** A free accelerator with a triggered job is started by that job after two clocks, whatever is offloaded
      meanwhile, with a strobe of one clock. */
  lemma IdleJobStarts(p: Layout, r: Run, i: In, j: In, k: In)
    requires Valid(p) && Tracks(p, r) && r.s.state.RUN_IDLE? && r.queue != [] && (r.triggered || IsTrigger(i))
    requires Legal(p, r, i) && Legal(p, Cycle(p, r, i), j)
    ensures var n := Cycle(p, Cycle(p, r, i), j);
            Starts(p, n, r.starts, r.queue[0]) && n.finished == r.finished && !Step(p, n.s, k).start
  {
    var m := Cycle(p, r, i);
    HeadStays(p, r, i);
    WaitingJobStarts(p, r, i);
    HeadStays(p, m, j);
    RunsOldestCommit(p, Cycle(p, m, j));
  }

  /** The job behind the one that is done. */
  lemma DoneFreesAccelerator(p: Layout, r: Run, d: In)
    requires Valid(p) && Tracks(p, r) && r.s.state.RUN_RUN? && |r.queue| >= 2 && d.done && Legal(p, r, d)
    ensures var n := Cycle(p, r, d);
            && Tracks(p, n) && n.s.state.RUN_IDLE? && n.triggered && n.starts == r.starts
            && n.queue != [] && n.queue[0] == r.queue[1] && n.finished == r.finished + [r.queue[0]]
  {
    CycleKeeps(p, r, d);
  }

  /** Back to back: two clocks after the one in which a job is done, the next job in the queue is started. */
  lemma NextJobFollows(p: Layout, r: Run, d: In, i: In, j: In)
    requires Valid(p) && Tracks(p, r) && r.s.state.RUN_RUN? && |r.queue| >= 2 && d.done
    requires Legal(p, r, d) && Legal(p, Cycle(p, r, d), i) && Legal(p, Cycle(p, Cycle(p, r, d), i), j)
    ensures var n := Cycle(p, Cycle(p, Cycle(p, r, d), i), j);
            Starts(p, n, r.starts, r.queue[1]) && n.finished == r.finished + [r.queue[0]]
  {
    DoneFreesAccelerator(p, r, d);
    IdleJobStarts(p, Cycle(p, r, d), i, j, j);
  }
}

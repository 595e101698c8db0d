/** How far the guarantees of the control slave reach: what the accelerator sees is the oldest commit exactly when
    there are two contexts (`SeesOldestExactly`), and jobs are safe exactly when cores keep to the registers of one
    context (`JobsSafeExactly`). Both are shown on runs of one core. */
module CtrlLimits {
  import opened Arith
  import opened Bytes
  import opened CtrlProtocol
  import opened CtrlRegfile
  import opened CtrlSlave
  import opened Options

  function Idle(done: bool): In {
    In(false, false, {}, 0, Word(0, 0, 0, 0), Lanes(false, false, false, false), done, false)
  }

  function AcquireRequest(): In {
    In(true, true, {0}, ACQUIRE, Word(0, 0, 0, 0), Lanes(true, true, true, true), false, false)
  }

  function WriteRequest(idx: nat, w: Word): In {
    In(true, false, {0}, idx, w, Lanes(true, true, true, true), false, false)
  }

  function TriggerRequest(): In {
    WriteRequest(TRIGGER, Word(0, 0, 0, 0))
  }

  /** Core 0 acquires a context, writes its first parameter, and commits it with a trigger. */
  function AndOffload(inputs: seq<In>, w: Word): seq<In> {
    inputs + [AcquireRequest()] + [WriteRequest(MANDATORY + GENERIC, w)] + [TriggerRequest()]
  }

  /** The accelerator is given two clocks to start. */
  function AndWait(inputs: seq<In>): seq<In> {
    inputs + [Idle(false)] + [Idle(false)]
  }

  function AndFinish(inputs: seq<In>): seq<In> {
    AndWait(inputs) + [Idle(true)]
  }

  lemma Grows(p: Layout, r: Run, inputs: seq<In>, i: In, limit: nat)
    requires Valid(p) && Shaped(p, r.s)
    ensures RunFrom(p, r, inputs + [i]) == Cycle(p, RunFrom(p, r, inputs), i)
    ensures PoliteFrom(p, r, inputs, limit) && Polite(p, RunFrom(p, r, inputs), i, limit)
            <==> PoliteFrom(p, r, inputs + [i], limit)
  {
    assert (inputs + [i])[..|inputs|] == inputs;
  }

  /** One more legal cycle of a run from reset, and what it keeps. */
  lemma GrowsLegally(p: Layout, inputs: seq<In>, i: In)
    requires Valid(p) && LegalFrom(p, Start(p), inputs) && Legal(p, RunFrom(p, Start(p), inputs), i)
    ensures LegalFrom(p, Start(p), inputs + [i])
    ensures RunFrom(p, Start(p), inputs + [i]) == Cycle(p, RunFrom(p, Start(p), inputs), i)
    ensures Tracks(p, RunFrom(p, Start(p), inputs)) && Tracks(p, RunFrom(p, Start(p), inputs + [i]))
  {
    Grows(p, Start(p), inputs, i, MANDATORY + GENERIC + p.io);
    StartTracks(p);
    EveryRunKeepsJobs(p, Start(p), inputs);
    EveryRunKeepsJobs(p, Start(p), inputs + [i]);
  }

  // ----- single cycles -----

  lemma CoreZero(p: Layout)
    requires Valid(p)
    ensures OneHot(p, {0}) && Requester({0}, p.cores, 0) == 0
  {
    assert 0 in {0};
    RequesterIs({0}, p.cores, 0, 0);
  }

  lemma Acquired(p: Layout, r: Run)
    requires Valid(p) && Tracks(p, r) && r.owner == None && |r.queue| < Contexts(p)
    ensures Legal(p, r, AcquireRequest())
    ensures var n := Cycle(p, r, AcquireRequest());
            && n.owner == Some(0) && n.queue == r.queue && n.finished == r.finished
            && n.s.running == r.s.running && n.s.pointer == r.s.pointer && n.s.regfile.mem == r.s.regfile.mem
  {
    CoreZero(p);
    AcquireSucceeds(p, r, AcquireRequest());
  }

  lemma Written(p: Layout, r: Run, w: Word)
    requires Valid(p) && Tracks(p, r) && r.owner == Some(0)
    ensures Legal(p, r, WriteRequest(MANDATORY + GENERIC, w))
    ensures var n := Cycle(p, r, WriteRequest(MANDATORY + GENERIC, w));
            && n.owner == Some(0) && n.queue == r.queue && n.finished == r.finished
            && n.s.running == r.s.running && |n.staged| == p.io && n.staged[0] == w
  {
    CoreZero(p);
  }

  lemma Triggered(p: Layout, r: Run)
    requires Valid(p) && Tracks(p, r) && r.owner == Some(0)
    ensures Legal(p, r, TriggerRequest())
    ensures var n := Cycle(p, r, TriggerRequest());
            && n.owner == None && n.queue == r.queue + [Job(0, r.staged)] && n.finished == r.finished
            && n.s.running == r.s.running && n.triggered
  {
    CoreZero(p);
  }

  /** What an idle cycle leaves alone. */
  predicate Same(r: Run, n: Run) {
    && n.owner == r.owner && n.queue == r.queue && n.finished == r.finished && n.triggered == r.triggered
    && n.s.running == r.s.running && n.s.regfile.mem == r.s.regfile.mem
  }

  lemma Idled(p: Layout, r: Run)
    requires Valid(p) && Tracks(p, r) && r.queue != [] && r.triggered
    ensures Legal(p, r, Idle(false))
    ensures var n := Cycle(p, r, Idle(false));
            && Same(r, n) && (r.s.state.RUN_IDLE? ==> n.s.state.RUN_STARTING?)
            && (!r.s.state.RUN_IDLE? ==> n.s.state.RUN_RUN?)
  {
  }

  lemma Finished(p: Layout, r: Run)
    requires Valid(p) && Tracks(p, r) && r.queue != [] && r.s.state.RUN_RUN?
    ensures Legal(p, r, Idle(true))
    ensures var n := Cycle(p, r, Idle(true));
            && n.owner == r.owner && n.queue == r.queue[1..] && n.finished == r.finished + [r.queue[0]]
            && n.triggered == r.triggered && n.s.running == Next(r.s.running, Contexts(p))
            && n.s.regfile.mem == r.s.regfile.mem
  {
  }

  // ----- building blocks of runs -----

  lemma Offloads(p: Layout, inputs: seq<In>, w: Word)
    requires Valid(p) && LegalFrom(p, Start(p), inputs)
    requires var r := RunFrom(p, Start(p), inputs); r.owner == None && |r.queue| < Contexts(p)
    ensures LegalFrom(p, Start(p), AndOffload(inputs, w))
    ensures var r, n := RunFrom(p, Start(p), inputs), RunFrom(p, Start(p), AndOffload(inputs, w));
            && n.owner == None && n.triggered && n.finished == r.finished && n.s.running == r.s.running
            && |n.queue| == |r.queue| + 1 && n.queue[..|r.queue|] == r.queue
            && |n.queue[|r.queue|].params| == p.io && n.queue[|r.queue|].params[0] == w
  {
    var one := inputs + [AcquireRequest()];
    var two := one + [WriteRequest(MANDATORY + GENERIC, w)];
    StartTracks(p);
    EveryRunKeepsJobs(p, Start(p), inputs);
    Acquired(p, RunFrom(p, Start(p), inputs));
    GrowsLegally(p, inputs, AcquireRequest());
    Written(p, RunFrom(p, Start(p), one), w);
    GrowsLegally(p, one, WriteRequest(MANDATORY + GENERIC, w));
    Triggered(p, RunFrom(p, Start(p), two));
    GrowsLegally(p, two, TriggerRequest());
  }

  lemma Waited(p: Layout, inputs: seq<In>)
    requires Valid(p) && LegalFrom(p, Start(p), inputs)
    requires var r := RunFrom(p, Start(p), inputs); r.queue != [] && r.triggered
    ensures LegalFrom(p, Start(p), AndWait(inputs))
    ensures var r, n := RunFrom(p, Start(p), inputs), RunFrom(p, Start(p), AndWait(inputs));
            Tracks(p, n) && Same(r, n) && n.s.state.RUN_RUN?
  {
    StartTracks(p);
    EveryRunKeepsJobs(p, Start(p), inputs);
    Idled(p, RunFrom(p, Start(p), inputs));
    GrowsLegally(p, inputs, Idle(false));
    Idled(p, RunFrom(p, Start(p), inputs + [Idle(false)]));
    GrowsLegally(p, inputs + [Idle(false)], Idle(false));
  }

  /** The oldest job is done, and nothing else has changed. */
  predicate OneDone(p: Layout, r: Run, n: Run)
    requires Valid(p) && r.queue != []
  {
    && n.owner == r.owner && n.queue == r.queue[1..] && n.finished == r.finished + [r.queue[0]]
    && n.triggered && n.s.running == Next(r.s.running, Contexts(p)) && n.s.regfile.mem == r.s.regfile.mem
  }

  lemma Finishes(p: Layout, inputs: seq<In>)
    requires Valid(p) && LegalFrom(p, Start(p), inputs)
    requires var r := RunFrom(p, Start(p), inputs); r.queue != [] && r.triggered
    ensures LegalFrom(p, Start(p), AndFinish(inputs))
    ensures OneDone(p, RunFrom(p, Start(p), inputs), RunFrom(p, Start(p), AndFinish(inputs)))
  {
    Waited(p, inputs);
    Finished(p, RunFrom(p, Start(p), AndWait(inputs)));
    GrowsLegally(p, AndWait(inputs), Idle(true));
  }

  // ----- what the accelerator sees -----

  /** The accelerator sees the parameters of the oldest unfinished commit. */
  predicate SeesOldest(p: Layout, r: Run)
    requires Valid(p) && Shaped(p, r.s)
  {
    |r.finished| < |r.committed| && View(p, r.s.regfile.mem, r.s.running) == r.committed[|r.finished|].params
  }

  /** If the cycles are legal, what a working accelerator sees after them is right. */
  predicate RightAfter(p: Layout, inputs: seq<In>)
    requires Valid(p)
  {
    LegalFrom(p, Start(p), inputs) && RunFrom(p, Start(p), inputs).s.working
    ==> SeesOldest(p, RunFrom(p, Start(p), inputs))
  }

  /** Three jobs with a, b and c in their first parameter. */
  function Three(a: Word, b: Word, c: Word): seq<In> {
    AndOffload(AndOffload(AndOffload([], a), b), c)
  }

  /** The first two are done, and the third is at work. */
  function ThirdAtWork(inputs: seq<In>): seq<In> {
    AndWait(AndFinish(AndFinish(inputs)))
  }

  lemma ThreeJobsStored(p: Layout, a: Word, b: Word, c: Word)
    requires Valid(p) && Contexts(p) >= 4
    ensures LegalFrom(p, Start(p), Three(a, b, c))
    ensures var n := RunFrom(p, Start(p), Three(a, b, c));
            && n.triggered && n.s.running == 0 && |n.queue| == 3 && n.finished == []
            && Params(p, n.s.regfile.mem, 0)[0] == a && |n.queue[2].params| == p.io && n.queue[2].params[0] == c
  {
    var first := AndOffload([], a);
    var second := AndOffload(first, b);
    Offloads(p, [], a);
    Offloads(p, first, b);
    Offloads(p, second, c);
    StartTracks(p);
    EveryRunKeepsJobs(p, Start(p), Three(a, b, c));
    var n := RunFrom(p, Start(p), Three(a, b, c));
    assert n.queue[0] == n.queue[..2][..1][0];
    assert HoldsJob(p, n.s, Ahead(Contexts(p), n.s.running, 0), n.queue[0]);
  }

  lemma ThirdOfThree(p: Layout, r: Run, m: Run, n: Run, k: Run)
    requires Valid(p) && Contexts(p) >= 4 && r.s.running == 0 && |r.queue| == 3 && r.finished == []
    requires OneDone(p, r, m) && OneDone(p, m, n) && Same(n, k) && Tracks(p, k)
    ensures k.s.running == 2 && |k.finished| == 2 < |k.committed| && k.committed[2] == r.queue[2]
    ensures k.s.regfile.mem == r.s.regfile.mem
  {
  }

  lemma TwoJobsDone(p: Layout, inputs: seq<In>)
    requires Valid(p) && Contexts(p) >= 4 && LegalFrom(p, Start(p), inputs)
    requires var r := RunFrom(p, Start(p), inputs);
             r.triggered && r.s.running == 0 && |r.queue| == 3 && r.finished == []
    ensures LegalFrom(p, Start(p), ThirdAtWork(inputs))
    ensures var r, n := RunFrom(p, Start(p), inputs), RunFrom(p, Start(p), ThirdAtWork(inputs));
            && n.s.working && n.s.running == 2 && |n.finished| == 2 < |n.committed|
            && n.committed[2] == r.queue[2] && n.s.regfile.mem == r.s.regfile.mem
  {
    var once := AndFinish(inputs);
    var twice := AndFinish(once);
    Finishes(p, inputs);
    Finishes(p, once);
    Waited(p, twice);
    ThirdOfThree(p, RunFrom(p, Start(p), inputs), RunFrom(p, Start(p), once),
                 RunFrom(p, Start(p), twice), RunFrom(p, Start(p), AndWait(twice)));
  }

  /** With four contexts or more, the third job works on the parameters of the first one. */
  lemma ThirdJobSeesFirst(p: Layout, a: Word, b: Word, c: Word)
    requires Valid(p) && p.log >= 2
    ensures LegalFrom(p, Start(p), ThirdAtWork(Three(a, b, c)))
    ensures var r := RunFrom(p, Start(p), ThirdAtWork(Three(a, b, c)));
            && r.s.working && r.s.running == 2 && |r.finished| == 2 < |r.committed|
            && View(p, r.s.regfile.mem, r.s.running)[0] == a
            && r.committed[2].params != [] && r.committed[2].params[0] == c
  {
    FourContexts(p);
    ThreeJobsStored(p, a, b, c);
    TwoJobsDone(p, Three(a, b, c));
  }

  lemma FourContexts(p: Layout)
    requires Valid(p)
    ensures p.log == 1 <==> Contexts(p) == 2
    ensures p.log >= 2 <==> Contexts(p) >= 4
  {
    assert p.log >= 2 ==> Pow2(p.log) == 4 * Pow2(p.log - 2);
    assert p.log == 1 ==> Pow2(p.log) == 2 * Pow2(0);
  }

  lemma Misled(p: Layout, a: Word, c: Word) returns (inputs: seq<In>)
    requires Valid(p) && p.log >= 2 && a != c
    ensures !RightAfter(p, inputs)
  {
    inputs := ThirdAtWork(Three(a, a, c));
    ThirdJobSeesFirst(p, a, a, c);
  }

  lemma TwoContextsSee(p: Layout, r: Run)
    requires Valid(p) && p.log == 1 && Tracks(p, r) && r.s.working
    ensures SeesOldest(p, r)
  {
    FourContexts(p);
    RunsOldestCommit(p, r);
  }

  lemma RightForTwo(p: Layout, inputs: seq<In>)
    requires Valid(p) && p.log == 1
    ensures RightAfter(p, inputs)
  {
    if LegalFrom(p, Start(p), inputs) && RunFrom(p, Start(p), inputs).s.working {
      StartTracks(p);
      EveryRunKeepsJobs(p, Start(p), inputs);
      TwoContextsSee(p, RunFrom(p, Start(p), inputs));
    }
  }

  /** In all legal runs a working accelerator sees the oldest unfinished commit, as its core wrote it, exactly when
      there are two contexts: the flag that names the running one has a single bit. */
  lemma SeesOldestExactly(p: Layout)
    requires Valid(p)
    ensures (forall inputs :: RightAfter(p, inputs)) <==> p.log == 1
  {
    if p.log == 1 {
      forall inputs ensures RightAfter(p, inputs) {
        RightForTwo(p, inputs);
      }
    } else {
      var inputs := Misled(p, Word(1, 0, 0, 0), Word(2, 0, 0, 0));
    }
  }

  // ----- registers of other contexts -----

  /** If registers below the limit are written, jobs are stored as they were committed. */
  predicate StoredAfter(p: Layout, inputs: seq<In>, limit: nat)
    requires Valid(p)
  {
    PoliteFrom(p, Start(p), inputs, limit) ==> Jobs(p, RunFrom(p, Start(p), inputs))
  }

  /** A larger limit allows more. */
  lemma {:induction false} LimitGrows(p: Layout, r: Run, inputs: seq<In>, limit: nat, larger: nat)
    requires Valid(p) && Shaped(p, r.s) && PoliteFrom(p, r, inputs, limit) && limit <= larger
    ensures PoliteFrom(p, r, inputs, larger)
  {
    if inputs == [] {
    } else {
      LimitGrows(p, r, inputs[..|inputs| - 1], limit, larger);
    }
  }

  lemma LegalStores(p: Layout, inputs: seq<In>)
    requires Valid(p) && LegalFrom(p, Start(p), inputs)
    ensures Jobs(p, RunFrom(p, Start(p), inputs))
  {
    StartTracks(p);
    EveryRunKeepsJobs(p, Start(p), inputs);
  }

  lemma WithinIsLegal(p: Layout, inputs: seq<In>, limit: nat)
    requires Valid(p) && PoliteFrom(p, Start(p), inputs, limit) && limit <= MANDATORY + GENERIC + p.io
    ensures LegalFrom(p, Start(p), inputs)
  {
    LimitGrows(p, Start(p), inputs, limit, MANDATORY + GENERIC + p.io);
  }

  lemma StoredWithin(p: Layout, inputs: seq<In>, limit: nat)
    requires Valid(p) && limit <= MANDATORY + GENERIC + p.io
    ensures StoredAfter(p, inputs, limit)
  {
    if PoliteFrom(p, Start(p), inputs, limit) {
      WithinIsLegal(p, inputs, limit);
      LegalStores(p, inputs);
    }
  }

  /** A legal run that leaves one job in each of k contexts. */
  predicate Filled(p: Layout, inputs: seq<In>, k: nat)
    requires Valid(p)
  {
    LegalFrom(p, Start(p), inputs) &&
    var n := RunFrom(p, Start(p), inputs);
    n.owner == None && (k > 0 ==> n.triggered) && n.s.running == 0 && |n.queue| == k
  }

  lemma FillsOne(p: Layout, inputs: seq<In>, k: nat, w: Word)
    requires Valid(p) && k < Contexts(p) && Filled(p, inputs, k)
    ensures Filled(p, AndOffload(inputs, w), k + 1)
  {
    Offloads(p, inputs, w);
  }

  lemma {:induction false} Fills(p: Layout, k: nat, w: Word) returns (inputs: seq<In>)
    requires Valid(p) && k <= Contexts(p)
    ensures Filled(p, inputs, k)
  {
    if k == 0 {
      inputs := [];
    } else {
      var before := Fills(p, k - 1, w);
      FillsOne(p, before, k - 1, w);
      inputs := AndOffload(before, w);
    }
  }

  /** Core 0 has acquired context 0 while a job sits in context 1, which runs. */
  predicate JobBehind(p: Layout, r: Run)
    requires Valid(p)
  {
    Tracks(p, r) && r.owner == Some(0) && r.s.pointer == 0 && r.s.running == 1 && r.queue != []
  }

  lemma AcquiresZero(p: Layout, inputs: seq<In>)
    requires Valid(p) && LegalFrom(p, Start(p), inputs)
    requires var r := RunFrom(p, Start(p), inputs);
             r.owner == None && r.s.running == 1 && |r.queue| == Contexts(p) - 1
    ensures LegalFrom(p, Start(p), inputs + [AcquireRequest()])
    ensures JobBehind(p, RunFrom(p, Start(p), inputs + [AcquireRequest()]))
  {
    StartTracks(p);
    EveryRunKeepsJobs(p, Start(p), inputs);
    Acquired(p, RunFrom(p, Start(p), inputs));
    GrowsLegally(p, inputs, AcquireRequest());
  }

  /** These cycles, with registers below the limit, end in r. */
  predicate Reaches(p: Layout, inputs: seq<In>, r: Run, limit: nat)
    requires Valid(p)
  {
    PoliteFrom(p, Start(p), inputs, limit) && RunFrom(p, Start(p), inputs) == r
  }

  lemma LegalReaches(p: Layout, inputs: seq<In>, r: Run, limit: nat)
    requires Valid(p) && Reaches(p, inputs, r, MANDATORY + GENERIC + p.io) && MANDATORY + GENERIC + p.io <= limit
    ensures Reaches(p, inputs, r, limit)
  {
    LimitGrows(p, Start(p), inputs, MANDATORY + GENERIC + p.io, limit);
  }

  /** All contexts are filled, the first job is done, and its context is acquired again. */
  lemma JobInContextOne(p: Layout, w: Word, limit: nat) returns (inputs: seq<In>, r: Run)
    requires Valid(p) && MANDATORY + GENERIC + p.io <= limit
    ensures Reaches(p, inputs, r, limit) && JobBehind(p, r)
  {
    var full := Fills(p, Contexts(p), w);
    Finishes(p, full);
    AcquiresZero(p, AndFinish(full));
    inputs := AndFinish(full) + [AcquireRequest()];
    r := RunFrom(p, Start(p), inputs);
    LegalReaches(p, inputs, r, limit);
  }

  /** While a job sits in context 1, the owner of context 0 writes the register behind its own: the parameters of
      the job are no longer those of its commit. */
  lemma WriteDamages(p: Layout, r: Run, w: Word, limit: nat)
    requires Valid(p) && JobBehind(p, r)
    requires MANDATORY + GENERIC + p.io < limit <= REGISTERS && w != Params(p, r.s.regfile.mem, 1)[0]
    ensures var i := WriteRequest(MANDATORY + GENERIC + p.io, w);
            Polite(p, r, i, limit) &&
            var n := Cycle(p, r, i);
            && n.s.running == 1 && n.queue == r.queue && Params(p, n.s.regfile.mem, 1)[0] == w
            && Params(p, r.s.regfile.mem, 1) == r.queue[0].params != Params(p, n.s.regfile.mem, 1)
            && !Jobs(p, n)
  {
    var i := WriteRequest(MANDATORY + GENERIC + p.io, w);
    CoreZero(p);
    NextRegister(p);
    WriteChanges(p, r.s.regfile, FlagsOf(p, r.s), i, 1);
    assert HoldsJob(p, r.s, Ahead(Contexts(p), r.s.running, 0), r.queue[0]);
    var n := Cycle(p, r, i);
    assert !HoldsJob(p, n.s, Ahead(Contexts(p), n.s.running, 0), n.queue[0]);
  }

  lemma NextRegister(p: Layout)
    requires Valid(p)
    ensures WriteSlot(p, 0, MANDATORY + GENERIC + p.io) == Base(p, 1)
    ensures Hits(p, 0, MANDATORY + GENERIC + p.io, 1)
  {
    Regions(p, 1, 2);
    DivModUnique(GENERIC + p.io, Slots(p), 0, GENERIC + p.io);
  }

  /** One of a and b that the running job does not have in its first parameter. */
  function Unlike(p: Layout, r: Run, a: Word, b: Word): (w: Word)
    requires Valid(p) && JobBehind(p, r) && a != b
    ensures w != Params(p, r.s.regfile.mem, 1)[0]
  {
    if Params(p, r.s.regfile.mem, 1)[0] == a then b else a
  }

  lemma Damages(p: Layout, before: seq<In>, r: Run, w: Word, limit: nat)
    requires Valid(p) && Reaches(p, before, r, limit) && JobBehind(p, r) && w != Params(p, r.s.regfile.mem, 1)[0]
    requires MANDATORY + GENERIC + p.io < limit <= REGISTERS
    ensures !StoredAfter(p, before + [WriteRequest(MANDATORY + GENERIC + p.io, w)], limit)
  {
    WriteDamages(p, r, w, limit);
    Grows(p, Start(p), before, WriteRequest(MANDATORY + GENERIC + p.io, w), limit);
  }

  lemma Damaged(p: Layout, limit: nat, a: Word, b: Word) returns (inputs: seq<In>)
    requires Valid(p) && MANDATORY + GENERIC + p.io < limit <= REGISTERS && a != b
    ensures !StoredAfter(p, inputs, limit)
  {
    var before, r := JobInContextOne(p, a, limit);
    var w := Unlike(p, r, a, b);
    Damages(p, before, r, w, limit);
    inputs := before + [WriteRequest(MANDATORY + GENERIC + p.io, w)];
  }

  /** Jobs are stored as committed in all runs in which cores write registers below some limit, exactly when the
      limit is that of one context: the register file does not check the index. */
  lemma JobsSafeExactly(p: Layout, limit: nat)
    requires Valid(p) && limit <= REGISTERS
    ensures (forall inputs :: StoredAfter(p, inputs, limit)) <==> limit <= MANDATORY + GENERIC + p.io
  {
    if limit <= MANDATORY + GENERIC + p.io {
      forall inputs ensures StoredAfter(p, inputs, limit) {
        StoredWithin(p, inputs, limit);
      }
    } else {
      var inputs := Damaged(p, limit, Word(0, 0, 0, 0), Word(1, 0, 0, 0));
    }
  }
}

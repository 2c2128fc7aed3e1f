/** The cache, its backend queues and the DRAM behave like one flat memory, over every run. */
module CacheRefinement {
  import opened Wrappers
  import opened CacheEntry
  import opened Databank
  import opened Cache
  import opened CacheInvariant

  // --- The flat memory --------------------------------------------------------------------

  function FlatStep(mem: Memory, c: Completion): Memory {
    mem[c.addr := Merge(Get(mem, c.addr), c.wData, c.wMask)]
  }

  /** A hit answers the value before its write, a refill the value with its write merged. */
  predicate FlatAnswers(mem: Memory, c: Completion) {
    c.data == if c.refill then Merge(Get(mem, c.addr), c.wData, c.wMask) else Get(mem, c.addr)
  }

  function FlatRun(mem: Memory, trace: seq<Completion>): Memory
    decreases |trace|
  {
    if trace == [] then mem else FlatRun(FlatStep(mem, trace[0]), trace[1..])
  }

  predicate FlatAccepts(mem: Memory, trace: seq<Completion>)
    decreases |trace|
  {
    trace == [] || (FlatAnswers(mem, trace[0]) && FlatAccepts(FlatStep(mem, trace[0]), trace[1..]))
  }

  /** The cache system stands for the flat memory. */
  ghost predicate StandsFor(g: Geometry, st: State, mem: Memory)
    requires g.sets > 0
  {
    forall addr: nat :: View(g, st, addr) == Get(mem, addr)
  }

  // --- One step -----------------------------------------------------------------------------

  /** A completed request answers the view: before its write on a hit, after it on a refill. */
  ghost predicate AnswersView(g: Geometry, st: State, c: Completion)
    requires g.sets > 0
  {
    c.data == if c.refill then Merge(View(g, st, c.addr), c.wData, c.wMask) else View(g, st, c.addr)
  }

  /** The view after a step: only the completed request, if any, has written. */
  ghost function WrittenView(g: Geometry, st: State, done: Option<Completion>, addr: nat): Block
    requires g.sets > 0
  {
    if done.Some? && done.value.addr == addr
    then Merge(View(g, st, addr), done.value.wData, done.value.wMask)
    else View(g, st, addr)
  }

  ghost predicate StepIsFlat(g: Geometry, st: State, step: Step)
    requires g.sets > 0 && Enabled(g, st, step)
  {
    var done := Completed(g, st, step);
    && Inv(g, Next(g, st, step))
    && (done.Some? ==> AnswersView(g, st, done.value))
    && forall addr: nat :: View(g, Next(g, st, step), addr) == WrittenView(g, st, done, addr)
  }

  lemma PipelineLeavesQuietly(g: Geometry, st: State, addr: nat, wData: Block, wMask: Block, victim: nat)
    requires Inv(g, st) && CanAccess(g, st, addr, victim) && !AndR(wMask)
    ensures LeavesQuietly(g, st, PipelineRequest(addr, wData, wMask), victim)
  {
    forall i | 0 <= i < |st.refillQ| && Cached(g, st, st.refillQ[i].addr)
      ensures Cached(g, Serve(g, st, PipelineRequest(addr, wData, wMask), victim), st.refillQ[i].addr)
    {
      CachedAfter(g, st, PipelineRequest(addr, wData, wMask), victim, st.refillQ[i].addr);
    }
  }

  lemma FlushLeavesQuietly(g: Geometry, st: State, addr: nat, victim: nat)
    requires Inv(g, st) && CanAccess(g, st, addr, victim) && (Cached(g, st, addr) ==> MayLeave(st, addr))
    ensures !AndR(FlushRequest(addr).wMask) && LeavesQuietly(g, st, FlushRequest(addr), victim)
  {
    assert !FlushRequest(addr).wMask[0];
    forall i | 0 <= i < |st.refillQ| && Cached(g, st, st.refillQ[i].addr)
      ensures Cached(g, Serve(g, st, FlushRequest(addr), victim), st.refillQ[i].addr)
    {
      CachedAfter(g, st, FlushRequest(addr), victim, st.refillQ[i].addr);
    }
  }

  lemma PipelineStep(g: Geometry, st: State, addr: nat, wData: Block, wMask: Block, victim: nat)
    requires Inv(g, st) && CanAccess(g, st, addr, victim) && !AndR(wMask)
    ensures StepIsFlat(g, st, Pipeline(addr, wData, wMask, victim))
  {
    var req := PipelineRequest(addr, wData, wMask);
    HitMeansHeld(RowOf(g, st, addr), TagOf(g, addr));
    PipelineLeavesQuietly(g, st, addr, wData, wMask, victim);
    ServeKeepsInv(g, st, req, victim);
    forall a: nat ensures View(g, Serve(g, st, req, victim), a) ==
        if a == addr && Cached(g, st, addr) then Merge(View(g, st, addr), wData, wMask) else View(g, st, a)
    {
      ViewAfter(g, st, req, victim, a);
    }
  }

  lemma FlushStep(g: Geometry, st: State, addr: nat, victim: nat)
    requires Inv(g, st) && CanAccess(g, st, addr, victim)
    requires Cached(g, st, addr) ==> MayLeave(st, addr)
    ensures StepIsFlat(g, st, Flush(addr, victim))
    ensures !Cached(g, Next(g, st, Flush(addr, victim)), addr)
  {
    var req := FlushRequest(addr);
    FlushLeavesQuietly(g, st, addr, victim);
    ServeKeepsInv(g, st, req, victim);
    CachedAfter(g, st, req, victim, addr);
    forall a: nat ensures View(g, Serve(g, st, req, victim), a) == View(g, st, a) {
      ViewAfter(g, st, req, victim, a);
    }
  }

  /** A flush takes no other block out of the cache. */
  lemma FlushKeepsOthers(g: Geometry, st: State, addr: nat, victim: nat, other: nat)
    requires Inv(g, st) && CanAccess(g, st, addr, victim) && other != addr
    ensures Cached(g, Next(g, st, Flush(addr, victim)), other) == Cached(g, st, other)
  {
    assert !FlushRequest(addr).wMask[0];
    CachedAfter(g, st, FlushRequest(addr), victim, other);
  }

  /** Taking the first miss and its answer off their queues keeps the invariant. */
  lemma PopKeepsInv(g: Geometry, st: State)
    requires Inv(g, st) && st.refillQ != [] && st.replies != []
    ensures var popped := st.(refillQ := st.refillQ[1..], replies := st.replies[1..]);
      Inv(g, popped) && forall addr :: View(g, popped, addr) == View(g, st, addr)
  {
    var popped := st.(refillQ := st.refillQ[1..], replies := st.replies[1..]);
    assert Served(popped) == Served(st)[1..];
    forall i | 0 <= i < |popped.refillQ| && !Cached(g, popped, popped.refillQ[i].addr)
      ensures Served(popped)[i] == Backing(popped, popped.refillQ[i].addr)
    {
      assert Served(st)[i + 1] == Backing(st, st.refillQ[i + 1].addr);
    }
  }

  lemma RefillServes(g: Geometry, st: State, victim: nat)
    requires Inv(g, st) && Enabled(g, st, Refill(victim)) && Guard(g, st, Refill(victim))
    ensures var popped := st.(refillQ := st.refillQ[1..], replies := st.replies[1..]);
      var req := RefillRequest(st.refillQ[0], st.replies[0]);
      && Inv(g, popped) && Served1(g, popped, req, victim)
      && BringsCurrent(g, popped, req) && LeavesQuietly(g, popped, req, victim)
      && forall addr :: View(g, popped, addr) == View(g, st, addr)
  {
    var m := st.refillQ[0];
    var req := RefillRequest(m, st.replies[0]);
    var popped := st.(refillQ := st.refillQ[1..], replies := st.replies[1..]);
    PopKeepsInv(g, st);
    assert !Cached(g, st, m.addr) ==> Served(st)[0] == Backing(st, m.addr);
    forall i | 0 <= i < |popped.refillQ| && Cached(g, popped, popped.refillQ[i].addr)
      ensures Cached(g, Serve(g, popped, req, victim), popped.refillQ[i].addr)
    {
      var b := popped.refillQ[i].addr;
      CachedAfter(g, popped, req, victim, b);
      Split(g, b);
      assert Waiting(popped.refillQ, b);
    }
  }

  lemma RefillView(g: Geometry, st: State, victim: nat, addr: nat)
    requires Inv(g, st) && Enabled(g, st, Refill(victim)) && Guard(g, st, Refill(victim))
    ensures var m := st.refillQ[0];
      View(g, Next(g, st, Refill(victim)), addr) ==
      if addr == m.addr then Merge(View(g, st, addr), m.wData, m.wMask) else View(g, st, addr)
  {
    RefillServes(g, st, victim);
    ViewAfter(g, st.(refillQ := st.refillQ[1..], replies := st.replies[1..]),
              RefillRequest(st.refillQ[0], st.replies[0]), victim, addr);
    PopKeepsInv(g, st);
    assert !Cached(g, st, st.refillQ[0].addr) ==> Served(st)[0] == Backing(st, st.refillQ[0].addr);
  }

  lemma RefillReply(g: Geometry, st: State, victim: nat)
    requires Inv(g, st) && Enabled(g, st, Refill(victim))
    ensures var m := st.refillQ[0];
      Completed(g, st, Refill(victim)) ==
      Some(Completion(m.addr, m.wData, m.wMask, Merge(View(g, st, m.addr), m.wData, m.wMask), true))
  {
    var m := st.refillQ[0];
    HitMeansHeld(RowOf(g, st, m.addr), TagOf(g, m.addr));
    assert !Cached(g, st, m.addr) ==> Served(st)[0] == Backing(st, m.addr);
  }

  lemma RefillStep(g: Geometry, st: State, victim: nat)
    requires Inv(g, st) && Enabled(g, st, Refill(victim)) && Guard(g, st, Refill(victim))
    ensures StepIsFlat(g, st, Refill(victim))
  {
    RefillServes(g, st, victim);
    ServeKeepsInv(g, st.(refillQ := st.refillQ[1..], replies := st.replies[1..]),
                  RefillRequest(st.refillQ[0], st.replies[0]), victim);
    RefillReply(g, st, victim);
    forall a: nat ensures View(g, Next(g, st, Refill(victim)), a) ==
        WrittenView(g, st, Completed(g, st, Refill(victim)), a)
    {
      RefillView(g, st, victim, a);
    }
  }

  lemma BackendStep(g: Geometry, st: State, step: Step)
    requires Inv(g, st) && Enabled(g, st, step) && Guard(g, st, step)
    requires step.MergeRead? || step.MergeWrite? || step.Dram?
    ensures StepIsFlat(g, st, step)
  {
    forall addr: nat ensures Backing(Next(g, st, step), addr) == Backing(st, addr) {
      BackendStepServes(g, st, step, addr);
    }
    BackendStepServes(g, st, step, 0);
    SameBank(g, st, Next(g, st, step));
  }

  lemma BackendStepServes(g: Geometry, st: State, step: Step, addr: nat)
    requires step.MergeRead? || step.MergeWrite? || step.Dram?
    requires Enabled(g, st, step) && Guard(g, st, step)
    ensures var st' := Next(g, st, step);
      && st'.bank == st.bank
      && Backing(st', addr) == Backing(st, addr)
      && st'.refillQ == st.refillQ + (if step.MergeRead? then [st.missQ[0]] else [])
      && Served(st') == Served(st) + (if step.MergeRead? then [Backing(st, st.missQ[0].addr)] else [])
  {
    match step {
      case MergeRead => MergeReadFresh(g, st, addr);
      case MergeWrite => MergeWriteSame(g, st, addr);
      case Dram => DramSame(g, st, addr);
    }
  }

  lemma SameBank(g: Geometry, st: State, st': State)
    requires Inv(g, st)
    requires st'.bank == st.bank
    requires forall addr: nat :: Backing(st', addr) == Backing(st, addr)
    requires || (st'.refillQ == st.refillQ && Served(st') == Served(st))
             || exists m: Miss :: st'.refillQ == st.refillQ + [m] && Served(st') == Served(st) + [Backing(st, m.addr)]
    ensures Inv(g, st') && forall addr: nat :: View(g, st', addr) == View(g, st, addr)
  {
  }

  /** The refinement, one step at a time: every guarded step keeps the invariant, answers the view,
      and changes the view by the completed request alone. */
  lemma StepRefines(g: Geometry, st: State, step: Step)
    requires Inv(g, st) && Enabled(g, st, step) && Guard(g, st, step)
    ensures StepIsFlat(g, st, step)
  {
    match step
    case Pipeline(addr, wData, wMask, victim) => PipelineStep(g, st, addr, wData, wMask, victim);
    case Flush(addr, victim) => FlushStep(g, st, addr, victim);
    case Refill(victim) => RefillStep(g, st, victim);
    case _ => BackendStep(g, st, step);
  }

  // --- Whole runs -----------------------------------------------------------------------------

  ghost predicate Admissible(g: Geometry, st: State, run: seq<Step>)
    decreases |run|
  {
    run == [] || (Enabled(g, st, run[0]) && Guard(g, st, run[0]) && Admissible(g, Next(g, st, run[0]), run[1..]))
  }

  ghost function Final(g: Geometry, st: State, run: seq<Step>): State
    requires Admissible(g, st, run)
    decreases |run|
  {
    if run == [] then st else Final(g, Next(g, st, run[0]), run[1..])
  }

  function AsSeq<T>(o: Option<T>): seq<T> {
    if o.Some? then [o.value] else []
  }

  ghost function Trace(g: Geometry, st: State, run: seq<Step>): seq<Completion>
    requires Admissible(g, st, run)
    decreases |run|
  {
    if run == [] then [] else AsSeq(Completed(g, st, run[0])) + Trace(g, Next(g, st, run[0]), run[1..])
  }

  /** After reset: nothing cached, every queue empty. */
  ghost predicate Initial(g: Geometry, st: State) {
    && Shape(g, st)
    && (forall s, w :: 0 <= s < |st.bank| && 0 <= w < |st.bank[s]| ==> !st.bank[s][w].v && !st.bank[s][w].d)
    && st.missQ == [] && st.writebackQ == [] && st.refillQ == [] && st.backendQ == [] && st.replies == []
  }

  lemma InitialStands(g: Geometry, st: State)
    requires Initial(g, st)
    ensures Inv(g, st) && StandsFor(g, st, st.dram)
  {
    forall addr: nat ensures View(g, st, addr) == Get(st.dram, addr) {
      Split(g, addr);
      HitMeansHeld(RowOf(g, st, addr), TagOf(g, addr));
      assert st.backendQ + AsWrites(st.writebackQ) == [];
    }
  }

  /** A view that changed by one request is the flat memory changed by that request. */
  lemma FlatFollows(g: Geometry, st: State, st': State, done: Option<Completion>, mem: Memory)
    requires g.sets > 0 && StandsFor(g, st, mem)
    requires done.Some? ==> AnswersView(g, st, done.value)
    requires forall addr: nat :: View(g, st', addr) == WrittenView(g, st, done, addr)
    ensures done.None? ==> StandsFor(g, st', mem)
    ensures done.Some? ==> FlatAnswers(mem, done.value) && StandsFor(g, st', FlatStep(mem, done.value))
  {
    if done.Some? {
      var mem' := FlatStep(mem, done.value);
      forall addr: nat ensures View(g, st', addr) == Get(mem', addr) {
        assert View(g, st', addr) == WrittenView(g, st, done, addr);
        assert View(g, st, addr) == Get(mem, addr);
      }
    }
  }

  /** The flat memory takes the same step. */
  lemma StepStandsFor(g: Geometry, st: State, step: Step, mem: Memory)
    requires Inv(g, st) && StandsFor(g, st, mem) && Enabled(g, st, step) && Guard(g, st, step)
    ensures var done := Completed(g, st, step);
      && Inv(g, Next(g, st, step))
      && (done.None? ==> StandsFor(g, Next(g, st, step), mem))
      && (done.Some? ==> FlatAnswers(mem, done.value) && StandsFor(g, Next(g, st, step), FlatStep(mem, done.value)))
  {
    StepRefines(g, st, step);
    FlatFollows(g, st, Next(g, st, step), Completed(g, st, step), mem);
  }

  /** Main result: over every admissible run the completed requests are those of a flat memory
      executing them in completion order, and the system still stands for that memory. */
  lemma {:induction false} RunRefinesFlatMemory(g: Geometry, st: State, run: seq<Step>, mem: Memory)
    requires Inv(g, st) && StandsFor(g, st, mem) && Admissible(g, st, run)
    ensures Inv(g, Final(g, st, run))
    ensures FlatAccepts(mem, Trace(g, st, run))
    ensures StandsFor(g, Final(g, st, run), FlatRun(mem, Trace(g, st, run)))
    decreases |run|
  {
    if run == [] {
    } else {
      StepStandsFor(g, st, run[0], mem);
      var done := Completed(g, st, run[0]);
      var st' := Next(g, st, run[0]);
      var rest := Trace(g, st', run[1..]);
      if done.Some? {
        RunRefinesFlatMemory(g, st', run[1..], FlatStep(mem, done.value));
        assert Trace(g, st, run)[1..] == rest;
      } else {
        RunRefinesFlatMemory(g, st', run[1..], mem);
        assert Trace(g, st, run) == rest;
      }
    }
  }

  /** From reset, the memory the system refines is the DRAM's initial contents. */
  lemma ResetRunRefinesFlatMemory(g: Geometry, st: State, run: seq<Step>)
    requires Initial(g, st) && Admissible(g, st, run)
    ensures FlatAccepts(st.dram, Trace(g, st, run))
    ensures StandsFor(g, Final(g, st, run), FlatRun(st.dram, Trace(g, st, run)))
  {
    InitialStands(g, st);
    RunRefinesFlatMemory(g, st, run, st.dram);
  }

  // --- Answers are current over every run ---------------------------------------------------------

  lemma PopKeepsCurrent(st: State)
    requires RepliesCurrent(st) && st.refillQ != [] && st.replies != []
    ensures RepliesCurrent(st.(refillQ := st.refillQ[1..], replies := st.replies[1..]))
  {
    var popped := st.(refillQ := st.refillQ[1..], replies := st.replies[1..]);
    assert Served(popped) == Served(st)[1..];
  }

  /** Every guarded step keeps all answers current. */
  lemma StepKeepsCurrent(g: Geometry, st: State, step: Step)
    requires Inv(g, st) && RepliesCurrent(st) && Enabled(g, st, step) && Guard(g, st, step)
    ensures RepliesCurrent(Next(g, st, step))
  {
    match step
    case Pipeline(addr, wData, wMask, victim) =>
      PipelineLeavesQuietly(g, st, addr, wData, wMask, victim);
      ServeKeepsCurrent(g, st, PipelineRequest(addr, wData, wMask), victim);
    case Flush(addr, victim) =>
      FlushLeavesQuietly(g, st, addr, victim);
      ServeKeepsCurrent(g, st, FlushRequest(addr), victim);
    case Refill(victim) =>
      RefillServes(g, st, victim);
      PopKeepsCurrent(st);
      ServeKeepsCurrent(g, st.(refillQ := st.refillQ[1..], replies := st.replies[1..]),
                        RefillRequest(st.refillQ[0], st.replies[0]), victim);
    case _ =>
      forall addr: nat ensures Backing(Next(g, st, step), addr) == Backing(st, addr) {
        BackendStepServes(g, st, step, addr);
      }
      BackendStepServes(g, st, step, 0);
  }

  /** Main result: in every state reached from reset every answer on its way is what lies behind the
      cache, also for blocks that have been cached in the meantime. */
  lemma {:induction false} RunKeepsCurrent(g: Geometry, st: State, run: seq<Step>)
    requires Inv(g, st) && RepliesCurrent(st) && Admissible(g, st, run)
    ensures Inv(g, Final(g, st, run)) && RepliesCurrent(Final(g, st, run))
    decreases |run|
  {
    if run == [] {
    } else {
      StepRefines(g, st, run[0]);
      StepKeepsCurrent(g, st, run[0]);
      RunKeepsCurrent(g, Next(g, st, run[0]), run[1..]);
    }
  }

  lemma ResetRunKeepsCurrent(g: Geometry, st: State, run: seq<Step>)
    requires Initial(g, st) && Admissible(g, st, run)
    ensures Inv(g, Final(g, st, run)) && RepliesCurrent(Final(g, st, run))
  {
    InitialStands(g, st);
    RunKeepsCurrent(g, st, run);
  }

  // --- Misses are neither lost, duplicated nor reordered -----------------------------------------

  function Pending(st: State): seq<Miss> {
    st.refillQ + st.missQ
  }

  /** The requests that missed, in order. */
  ghost function Missed(g: Geometry, st: State, run: seq<Step>): seq<Miss>
    requires Admissible(g, st, run)
    decreases |run|
  {
    if run == [] then []
    else
      var st' := Next(g, st, run[0]);
      (if run[0].Pipeline? then st'.missQ[|st.missQ|..] else []) + Missed(g, st', run[1..])
  }

  function RefilledBy(c: Completion): seq<Miss> {
    if c.refill then [Miss(c.addr, c.wData, c.wMask)] else []
  }

  /** The misses that were answered, in order. */
  function Refilled(trace: seq<Completion>): seq<Miss> {
    if trace == [] then [] else RefilledBy(trace[0]) + Refilled(trace[1..])
  }

  /** No request is dropped: a load or store is answered in its clock, or it joins the misses as it is,
      and it is answered exactly when the block is cached, if its mask is not all ones. */
  lemma AnsweredOrMissed(g: Geometry, st: State, addr: nat, wData: Block, wMask: Block, victim: nat)
    requires CanAccess(g, st, addr, victim)
    ensures var st' := Next(g, st, Pipeline(addr, wData, wMask, victim));
      var done := Completed(g, st, Pipeline(addr, wData, wMask, victim));
      && (done.None? ==> st'.missQ == st.missQ + [Miss(addr, wData, wMask)])
      && (done.Some? ==> st'.missQ == st.missQ)
      && (!AndR(wMask) ==> (done.Some? <==> Cached(g, st, addr)))
  {
  }

  /** What has been answered, then what waits, is what waited before, then what has missed. */
  ghost predicate KeepsMisses(g: Geometry, st: State, step: Step)
    requires Enabled(g, st, step)
  {
    var st' := Next(g, st, step);
    && (step.Pipeline? ==> |st.missQ| <= |st'.missQ|)
    && Refilled(AsSeq(Completed(g, st, step))) + Pending(st') ==
       Pending(st) + (if step.Pipeline? then st'.missQ[|st.missQ|..] else [])
  }

  lemma PipelineKeepsMisses(g: Geometry, st: State, addr: nat, wData: Block, wMask: Block, victim: nat)
    requires CanAccess(g, st, addr, victim)
    ensures KeepsMisses(g, st, Pipeline(addr, wData, wMask, victim))
  {
    var st' := Next(g, st, Pipeline(addr, wData, wMask, victim));
    var done := Completed(g, st, Pipeline(addr, wData, wMask, victim));
    if done.Some? {
      RefilledOne(done.value);
    }
    assert st'.missQ == st.missQ + st'.missQ[|st.missQ|..];
    Regroup(st.refillQ, st.missQ, st'.missQ[|st.missQ|..]);
  }

  lemma RefillKeepsMisses(g: Geometry, st: State, victim: nat)
    requires Enabled(g, st, Refill(victim))
    ensures KeepsMisses(g, st, Refill(victim))
  {
    var st', m := Next(g, st, Refill(victim)), st.refillQ[0];
    RefilledOne(Completed(g, st, Refill(victim)).value);
    assert st'.missQ == st.missQ && st'.refillQ == st.refillQ[1..];
    assert st.refillQ == [m] + st'.refillQ;
    Regroup([m], st'.refillQ, st.missQ);
  }

  lemma MergeReadKeepsMisses(g: Geometry, st: State)
    requires st.missQ != []
    ensures KeepsMisses(g, st, MergeRead)
  {
    var st' := Next(g, st, MergeRead);
    assert st.missQ == [st.missQ[0]] + st'.missQ;
    Regroup(st.refillQ, [st.missQ[0]], st'.missQ);
  }

  lemma StepKeepsMisses(g: Geometry, st: State, step: Step)
    requires Enabled(g, st, step)
    ensures KeepsMisses(g, st, step)
  {
    match step
    case Pipeline(addr, wData, wMask, victim) => PipelineKeepsMisses(g, st, addr, wData, wMask, victim);
    case Refill(victim) => RefillKeepsMisses(g, st, victim);
    case MergeRead => MergeReadKeepsMisses(g, st);
    case _ =>
  }

  lemma Regroup<T>(a: seq<T>, b: seq<T>, c: seq<T>)
    ensures (a + b) + c == a + (b + c)
    ensures [] + a == a && a + [] == a
  {
  }

  lemma RegroupRun<T>(now: seq<T>, later: seq<T>, left: seq<T>, left1: seq<T>, left0: seq<T>, missed: seq<T>,
                      missed': seq<T>)
    requires now + left1 == left0 + missed
    requires later + left == left1 + missed'
    ensures (now + later) + left == left0 + (missed + missed')
  {
    assert (now + later) + left == now + (later + left);
    assert now + (left1 + missed') == (now + left1) + missed';
  }

  lemma RefilledOne(c: Completion)
    ensures Refilled([c]) == RefilledBy(c)
  {
    assert [c][1..] == [];
  }

  lemma {:induction false} RefilledAppend(a: seq<Completion>, b: seq<Completion>)
    ensures Refilled(a + b) == Refilled(a) + Refilled(b)
  {
    if a == [] {
      assert a + b == b;
    } else {
      RefilledAppend(a[1..], b);
      assert (a + b)[0] == a[0] && (a + b)[1..] == a[1..] + b;
      Regroup(RefilledBy(a[0]), Refilled(a[1..]), Refilled(b));
    }
  }

  lemma {:induction false} MissesAnsweredOnceInOrder(g: Geometry, st: State, run: seq<Step>)
    requires Admissible(g, st, run)
    ensures Refilled(Trace(g, st, run)) + Pending(Final(g, st, run)) == Pending(st) + Missed(g, st, run)
    decreases |run|
  {
    if run != [] {
      var st' := Next(g, st, run[0]);
      StepKeepsMisses(g, st, run[0]);
      MissesAnsweredOnceInOrder(g, st', run[1..]);
      var now, later := AsSeq(Completed(g, st, run[0])), Trace(g, st', run[1..]);
      RefilledAppend(now, later);
      RegroupRun(Refilled(now), Refilled(later), Pending(Final(g, st', run[1..])), Pending(st'), Pending(st),
                 if run[0].Pipeline? then st'.missQ[|st.missQ|..] else [], Missed(g, st', run[1..]));
    } else {
      Regroup(Pending(st), [], []);
    }
  }
}

/** The page deletor working on the cache its page lives in, clock by clock: flush requests go
    through the databank's request register, writebacks through its two-entry queue into the
    backend queue of the adaptor, whose empty flag is all the deletor sees. */
module Eviction {
  import opened Wrappers
  import opened CacheEntry
  import opened Databank
  import opened Cache
  import opened CacheInvariant
  import opened CacheRefinement
  import opened PageTypes
  import PD = PageDeletor

  /** The databank's writeback queue holds two entries (Databank.scala:398). */
  const WRITEBACK_ENTRIES: nat := 2

  /** `depth` is the capacity of the adaptor's request queue. */
  datatype Params = Params(g: Geometry, depth: nat)

  /** `atGrant` remembers the cache as it was when the pipeline gave its permission. */
  datatype System = System(pd: PD.State, cache: Cache.State, s1: Option<nat>, atGrant: Cache.State)

  /** One clock's worth of surroundings. `activity` is what the pipeline does with the cache while
      it may; the rest are the ready signals, the DMA's done signal and the replacement choice. */
  datatype Input = Input(
    request: Option<Item>, permReady: bool, tlbReady: bool, tlbReply: Option<PD.TlbReply>,
    startReady: bool, doneReady: bool, completedReady: bool,
    dmaDone: bool, victim: nat, activity: seq<Step>)

  /** The pipeline sends requests until it grants the flush and again after it is told of the end. */
  predicate Open(d: PD.State) {
    d.phase.Idle? || d.phase.ReqLsu?
  }

  // --- Handshakes of one clock ----------------------------------------------------------------

  predicate BackendReady(p: Params, sys: System) {
    |sys.cache.backendQ| < p.depth
  }

  predicate WritebackMoves(p: Params, sys: System) {
    sys.cache.writebackQ != [] && BackendReady(p, sys)
  }

  predicate DramServes(sys: System, i: Input) {
    sys.cache.backendQ != [] && i.dmaDone
  }

  /** The request in the register is decided when the writeback queue can take its result. */
  predicate RegisterMoves(p: Params, sys: System) {
    sys.s1.Some? && (|sys.cache.writebackQ| < WRITEBACK_ENTRIES || BackendReady(p, sys))
  }

  predicate FlushReady(p: Params, sys: System) {
    sys.s1.None? || RegisterMoves(p, sys)
  }

  function DeletorInput(p: Params, sys: System, i: Input): PD.Input {
    PD.Input(i.request, i.permReady, i.tlbReady, i.tlbReply, i.startReady,
             FlushReady(p, sys), sys.cache.backendQ == [], i.doneReady, i.completedReady)
  }

  // --- One clock ------------------------------------------------------------------------------

  function AfterMove(p: Params, sys: System): Cache.State {
    if WritebackMoves(p, sys) then Cache.Next(p.g, sys.cache, MergeWrite) else sys.cache
  }

  function AfterDram(p: Params, sys: System, i: Input): Cache.State {
    if DramServes(sys, i) then Cache.Next(p.g, AfterMove(p, sys), Step.Dram) else AfterMove(p, sys)
  }

  function AfterRegister(p: Params, sys: System, i: Input): Cache.State
    requires sys.s1.Some? ==> CanAccess(p.g, sys.cache, sys.s1.value, i.victim)
  {
    if RegisterMoves(p, sys)
    then Cache.Next(p.g, AfterDram(p, sys, i), Flush(sys.s1.value, i.victim))
    else AfterDram(p, sys, i)
  }

  /** No miss is outstanding and the queues are within their capacities. */
  ghost predicate Quiet(p: Params, c: Cache.State) {
    && c.missQ == [] && c.refillQ == [] && c.replies == []
    && (forall k :: 0 <= k < |c.backendQ| ==> c.backendQ[k].Write?)
    && |c.writebackQ| <= WRITEBACK_ENTRIES && |c.backendQ| <= p.depth
  }

  /** What the surroundings must respect: while the pipeline may use the cache it follows the cache
      protocol; it grants the flush only when nothing is outstanding, and sends nothing after. */
  ghost predicate Possible(p: Params, sys: System, i: Input) {
    && Admissible(p.g, sys.cache, i.activity)
    && (!Open(sys.pd) ==> i.activity == [])
    && (sys.pd.phase.ReqLsu? && i.permReady ==> i.activity == [] && Quiet(p, sys.cache))
    && i.victim < p.g.ways
  }

  ghost function Clock(p: Params, sys: System, i: Input): System
    requires Possible(p, sys, i)
    requires sys.s1.Some? ==> CanAccess(p.g, sys.cache, sys.s1.value, i.victim)
  {
    var d := DeletorInput(p, sys, i);
    System(
      PD.Next(sys.pd, d),
      if Open(sys.pd) then Final(p.g, sys.cache, i.activity) else AfterRegister(p, sys, i),
      if PD.FlushFires(sys.pd, d) then Some(PD.FlushAddr(sys.pd))
      else if RegisterMoves(p, sys) then None
      else sys.s1,
      if sys.pd.phase.ReqLsu? && i.permReady then sys.cache else sys.atGrant)
  }

  // --- Invariant --------------------------------------------------------------------------------

  function PageBlock(item: Item, k: nat): nat {
    item.entry.ppn * PD.BLOCKS_PER_PAGE + k
  }

  /** Block k of the page has left the cache, or its flush is in the request register. */
  ghost predicate Gone(p: Params, sys: System, k: nat)
    requires p.g.sets > 0
  {
    !Cached(p.g, sys.cache, PageBlock(sys.pd.item, k)) || sys.s1 == Some(PageBlock(sys.pd.item, k))
  }

  /** Clocks until register and writeback queue are empty if the backend queue never fills up. */
  function Distance(sys: System): nat {
    if sys.s1.Some? then (if sys.cache.writebackQ == [] then 2 else |sys.cache.writebackQ| + 1)
    else |sys.cache.writebackQ|
  }

  /** The backend queue is (almost) full, and a writeback is waiting to fill the next free slot. */
  predicate BackedUp(p: Params, sys: System) {
    |sys.cache.backendQ| + 1 >= p.depth && sys.cache.writebackQ != []
  }

  ghost predicate Drains(p: Params, sys: System, clocks: int) {
    Distance(sys) <= clocks || BackedUp(p, sys)
  }

  ghost predicate FlushProgress(p: Params, sys: System)
    requires p.g.sets > 0
  {
    match sys.pd.phase
    case FlushTlbReq => sys.s1.None? && sys.pd.flushCnt == 0
    case FlushTlbReply => sys.s1.None? && sys.pd.flushCnt == 0
    case Notify => sys.s1.None? && sys.pd.flushCnt == 0
    case FlushPage => sys.pd.flushCnt < PD.BLOCKS_PER_PAGE && forall k :: 0 <= k < sys.pd.flushCnt ==> Gone(p, sys, k)
    case Pipe =>
      && sys.pd.pipeCnt < PD.PIPE_CYCLES && Drains(p, sys, PD.PIPE_CYCLES - 1 - sys.pd.pipeCnt)
      && forall k :: 0 <= k < PD.BLOCKS_PER_PAGE ==> Gone(p, sys, k)
    case Wait => Drains(p, sys, 0) && forall k :: 0 <= k < PD.BLOCKS_PER_PAGE ==> Gone(p, sys, k)
    case _ => PageInDram(p, sys)
  }

  /** Nothing of the page is left above the DRAM, which holds what the page was at the grant. */
  ghost predicate PageInDram(p: Params, sys: System)
    requires p.g.sets > 0
  {
    && sys.s1.None? && sys.cache.writebackQ == [] && sys.cache.backendQ == []
    && forall k :: 0 <= k < PD.BLOCKS_PER_PAGE ==>
      var b := PageBlock(sys.pd.item, k);
      !Cached(p.g, sys.cache, b) && Get(sys.cache.dram, b) == View(p.g, sys.atGrant, b)
  }

  ghost predicate SysInv(p: Params, sys: System) {
    && Inv(p.g, sys.cache)
    && (Open(sys.pd) ==> sys.s1.None? && (sys.pd.phase.ReqLsu? ==> sys.pd.flushCnt == 0))
    && (!Open(sys.pd) ==>
      && Quiet(p, sys.cache)
      && (forall addr: nat :: View(p.g, sys.cache, addr) == View(p.g, sys.atGrant, addr))
      && FlushProgress(p, sys))
  }

  // --- Proof -------------------------------------------------------------------------------------

  lemma CanFlush(p: Params, sys: System, i: Input)
    requires Inv(p.g, sys.cache) && i.victim < p.g.ways && sys.s1.Some?
    ensures CanAccess(p.g, sys.cache, sys.s1.value, i.victim)
  {
    Split(p.g, sys.s1.value);
  }

  /** What the three moves of a clock do to the cache: the view stays, the invariant stays, and
      only the flushed block leaves. */
  lemma MovesKeep(p: Params, sys: System, i: Input)
    requires Inv(p.g, sys.cache) && Quiet(p, sys.cache) && i.victim < p.g.ways
    requires sys.s1.Some? ==> CanAccess(p.g, sys.cache, sys.s1.value, i.victim)
    ensures var c := AfterRegister(p, sys, i);
      && Inv(p.g, c)
      && (forall addr: nat :: View(p.g, c, addr) == View(p.g, sys.cache, addr))
      && (forall addr: nat :: Cached(p.g, c, addr) ==> Cached(p.g, sys.cache, addr))
      && (RegisterMoves(p, sys) ==> !Cached(p.g, c, sys.s1.value))
  {
    BackendMovesKeep(p, sys, i);
    var c := AfterDram(p, sys, i);
    if RegisterMoves(p, sys) {
      FlushStep(p.g, c, sys.s1.value, i.victim);
      forall addr: nat | addr != sys.s1.value
        ensures Cached(p.g, AfterRegister(p, sys, i), addr) == Cached(p.g, c, addr)
      {
        FlushKeepsOthers(p.g, c, sys.s1.value, i.victim, addr);
      }
    }
  }

  lemma BackendMovesKeep(p: Params, sys: System, i: Input)
    requires Inv(p.g, sys.cache) && Quiet(p, sys.cache)
    ensures var c := AfterDram(p, sys, i);
      && Inv(p.g, c) && c.bank == sys.cache.bank && c.refillQ == [] && c.missQ == [] && c.replies == []
      && (forall addr: nat :: View(p.g, c, addr) == View(p.g, sys.cache, addr))
  {
    if WritebackMoves(p, sys) {
      BackendStep(p.g, sys.cache, MergeWrite);
    }
    var c1 := AfterMove(p, sys);
    if DramServes(sys, i) {
      BackendStep(p.g, c1, Step.Dram);
      assert c1.backendQ[0] == sys.cache.backendQ[0];
    }
  }

  /** Queue lengths after the three moves. */
  lemma QueueLengths(p: Params, sys: System, i: Input)
    requires Quiet(p, sys.cache) && i.victim < p.g.ways
    requires sys.s1.Some? ==> CanAccess(p.g, sys.cache, sys.s1.value, i.victim)
    ensures var c := AfterRegister(p, sys, i);
      var moved := if WritebackMoves(p, sys) then 1 else 0;
      var served := if DramServes(sys, i) then 1 else 0;
      && |c.backendQ| == |sys.cache.backendQ| + moved - served
      && |sys.cache.writebackQ| - moved <= |c.writebackQ|
      && |c.writebackQ| <= |sys.cache.writebackQ| - moved + (if RegisterMoves(p, sys) then 1 else 0)
  {
    if DramServes(sys, i) {
      assert AfterMove(p, sys).backendQ[0] == sys.cache.backendQ[0];
    }
  }

  lemma StaysQuiet(p: Params, sys: System, i: Input)
    requires Quiet(p, sys.cache) && i.victim < p.g.ways
    requires sys.s1.Some? ==> CanAccess(p.g, sys.cache, sys.s1.value, i.victim)
    ensures Quiet(p, AfterRegister(p, sys, i))
  {
    QueueLengths(p, sys, i);
    if DramServes(sys, i) {
      assert AfterMove(p, sys).backendQ[0] == sys.cache.backendQ[0];
    }
  }

  /** One clock without a new flush request brings the queues one clock closer to empty, or leaves
      them backed up behind a backend queue that cannot look empty. */
  lemma DrainStep(p: Params, sys: System, i: Input, clocks: nat)
    requires Inv(p.g, sys.cache) && Quiet(p, sys.cache) && Possible(p, sys, i)
    requires sys.pd.phase.Pipe? || sys.pd.phase.Wait?
    requires Drains(p, sys, clocks)
    ensures sys.s1.Some? ==> CanAccess(p.g, sys.cache, sys.s1.value, i.victim)
    ensures Drains(p, Clock(p, sys, i), if clocks > 0 then clocks - 1 else 0)
  {
    if sys.s1.Some? {
      CanFlush(p, sys, i);
    }
    QueueLengths(p, sys, i);
  }

  lemma OnlyTheRegisterLeaves(p: Params, sys: System, i: Input, addr: nat)
    requires Inv(p.g, sys.cache) && Quiet(p, sys.cache) && i.victim < p.g.ways
    requires sys.s1.Some? ==> CanAccess(p.g, sys.cache, sys.s1.value, i.victim)
    requires !Cached(p.g, sys.cache, addr) || sys.s1 == Some(addr)
    ensures !Cached(p.g, AfterRegister(p, sys, i), addr) || (!RegisterMoves(p, sys) && sys.s1 == Some(addr))
  {
    MovesKeep(p, sys, i);
  }

  lemma GoneStays(p: Params, sys: System, i: Input, k: nat)
    requires Inv(p.g, sys.cache) && Quiet(p, sys.cache) && Possible(p, sys, i) && !Open(sys.pd)
    requires Gone(p, sys, k)
    requires sys.s1.Some? ==> CanAccess(p.g, sys.cache, sys.s1.value, i.victim)
    ensures PageBlock(Clock(p, sys, i).pd.item, k) == PageBlock(sys.pd.item, k)
    ensures Gone(p, Clock(p, sys, i), k)
  {
    var b := PageBlock(sys.pd.item, k);
    OnlyTheRegisterLeaves(p, sys, i, b);
    var sys' := Clock(p, sys, i);
    assert sys'.cache == AfterRegister(p, sys, i);
    if PD.FlushFires(sys.pd, DeletorInput(p, sys, i)) {
      assert FlushReady(p, sys);
    }
  }

  lemma ClosedKeepsView(p: Params, sys: System, i: Input)
    requires SysInv(p, sys) && Possible(p, sys, i) && !Open(sys.pd)
    ensures sys.s1.Some? ==> CanAccess(p.g, sys.cache, sys.s1.value, i.victim)
    ensures var sys' := Clock(p, sys, i);
      && Inv(p.g, sys'.cache) && Quiet(p, sys'.cache)
      && (forall addr: nat :: View(p.g, sys'.cache, addr) == View(p.g, sys'.atGrant, addr))
  {
    if sys.s1.Some? {
      CanFlush(p, sys, i);
    }
    MovesKeep(p, sys, i);
    StaysQuiet(p, sys, i);
  }

  /** The empty flag seen in the waiting state is enough: nothing is left on the way. */
  lemma EmptyFlagSound(p: Params, sys: System)
    requires SysInv(p, sys) && p.depth >= 2
    requires sys.pd.phase.Wait? && sys.cache.backendQ == []
    ensures PageInDram(p, sys)
  {
    assert !BackedUp(p, sys);
    assert Distance(sys) == 0;
    forall k | 0 <= k < PD.BLOCKS_PER_PAGE
      ensures var b := PageBlock(sys.pd.item, k);
        !Cached(p.g, sys.cache, b) && Get(sys.cache.dram, b) == View(p.g, sys.atGrant, b)
    {
      assert Gone(p, sys, k);
      assert sys.cache.backendQ + AsWrites(sys.cache.writebackQ) == [];
    }
  }

  lemma IdleQueues(p: Params, sys: System, i: Input)
    requires sys.s1.None? && sys.cache.writebackQ == [] && sys.cache.backendQ == []
    ensures AfterRegister(p, sys, i) == sys.cache
  {
  }

  lemma FlushPhaseProgress(p: Params, sys: System, i: Input)
    requires SysInv(p, sys) && Possible(p, sys, i) && sys.pd.phase.FlushPage?
    requires sys.s1.Some? ==> CanAccess(p.g, sys.cache, sys.s1.value, i.victim)
    ensures FlushProgress(p, Clock(p, sys, i))
  {
    var sys' := Clock(p, sys, i);
    forall k | 0 <= k < sys.pd.flushCnt ensures Gone(p, sys', k) {
      assert Gone(p, sys, k);
      GoneStays(p, sys, i, k);
    }
    QuietDistance(p, sys, i);
    FlushCounter(p, sys, i);
    OneMoreGone(p, sys, sys');
  }

  lemma FlushCounter(p: Params, sys: System, i: Input)
    requires SysInv(p, sys) && Possible(p, sys, i) && sys.pd.phase.FlushPage?
    requires sys.s1.Some? ==> CanAccess(p.g, sys.cache, sys.s1.value, i.victim)
    ensures Counted(sys, Clock(p, sys, i))
  {
  }

  /** The deletor's side of a clock in the flushing state. */
  ghost predicate Counted(sys: System, sys': System) {
    && sys'.pd.item == sys.pd.item
    && if sys'.pd == sys.pd then true
       else
         && sys'.s1 == Some(PageBlock(sys.pd.item, sys.pd.flushCnt))
         && if sys.pd.flushCnt == PD.BLOCKS_PER_PAGE - 1
            then sys'.pd.phase.Pipe? && sys'.pd.pipeCnt == 0
            else sys'.pd.phase.FlushPage? && sys'.pd.flushCnt == sys.pd.flushCnt + 1
  }

  lemma OneMoreGone(p: Params, sys: System, sys': System)
    requires p.g.sets > 0 && sys.pd.phase.FlushPage? && sys.pd.flushCnt < PD.BLOCKS_PER_PAGE
    requires Counted(sys, sys')
    requires forall k :: 0 <= k < sys.pd.flushCnt ==> Gone(p, sys', k)
    requires Distance(sys') <= PD.PIPE_CYCLES - 1
    ensures FlushProgress(p, sys')
  {
    if sys'.pd != sys.pd {
      assert Gone(p, sys', sys.pd.flushCnt);
    }
  }

  lemma QuietDistance(p: Params, sys: System, i: Input)
    requires Quiet(p, sys.cache) && Possible(p, sys, i) && !Open(sys.pd)
    requires sys.s1.Some? ==> CanAccess(p.g, sys.cache, sys.s1.value, i.victim)
    ensures Distance(Clock(p, sys, i)) <= WRITEBACK_ENTRIES + 1
  {
    StaysQuiet(p, sys, i);
  }

  lemma DrainPhaseProgress(p: Params, sys: System, i: Input)
    requires SysInv(p, sys) && Possible(p, sys, i) && p.depth >= 2
    requires sys.pd.phase.Pipe? || sys.pd.phase.Wait?
    ensures sys.s1.Some? ==> CanAccess(p.g, sys.cache, sys.s1.value, i.victim)
    ensures FlushProgress(p, Clock(p, sys, i))
  {
    var clocks: nat := if sys.pd.phase.Pipe? then PD.PIPE_CYCLES - 1 - sys.pd.pipeCnt else 0;
    DrainStep(p, sys, i, clocks);
    ClosedKeepsView(p, sys, i);
    if sys.pd.phase.Wait? && sys.cache.backendQ == [] {
      EmptyFlagSound(p, sys);
      IdleQueues(p, sys, i);
    } else {
      forall k | 0 <= k < PD.BLOCKS_PER_PAGE ensures Gone(p, Clock(p, sys, i), k) {
        assert Gone(p, sys, k);
        GoneStays(p, sys, i, k);
      }
    }
  }

  /** Every clock keeps the invariant. */
  lemma ClockKeepsInv(p: Params, sys: System, i: Input)
    requires SysInv(p, sys) && Possible(p, sys, i) && p.depth >= 2
    ensures sys.s1.Some? ==> CanAccess(p.g, sys.cache, sys.s1.value, i.victim)
    ensures SysInv(p, Clock(p, sys, i))
  {
    if Open(sys.pd) {
      RunKeepsInv(p.g, sys.cache, i.activity);
    } else {
      ClosedKeepsView(p, sys, i);
      match sys.pd.phase {
        case FlushPage => FlushPhaseProgress(p, sys, i);
        case Pipe => DrainPhaseProgress(p, sys, i);
        case Wait => DrainPhaseProgress(p, sys, i);
        case Send => IdleQueues(p, sys, i);
        case NotifyLsu => IdleQueues(p, sys, i);
        case _ =>
      }
    }
  }

  lemma {:induction false} RunKeepsInv(g: Geometry, st: Cache.State, run: seq<Step>)
    requires Inv(g, st) && Admissible(g, st, run)
    ensures Inv(g, Final(g, st, run))
    decreases |run|
  {
    if run == [] {
    } else {
      StepRefines(g, st, run[0]);
      RunKeepsInv(g, Cache.Next(g, st, run[0]), run[1..]);
    }
  }

  // --- Runs ----------------------------------------------------------------------------------------

  ghost predicate Started(p: Params, sys: System) {
    Inv(p.g, sys.cache) && sys.s1.None? && sys.pd.phase.Idle?
  }

  /** The states of a run, one per clock. */
  ghost predicate IsRun(p: Params, run: seq<System>, inputs: seq<Input>)
    requires |run| == |inputs| + 1
  {
    && Started(p, run[0])
    && forall n :: 0 <= n < |inputs| ==>
      && Possible(p, run[n], inputs[n])
      && (run[n].s1.Some? ==> CanAccess(p.g, run[n].cache, run[n].s1.value, inputs[n].victim))
      && run[n + 1] == Clock(p, run[n], inputs[n])
  }

  lemma {:induction false} RunInv(p: Params, run: seq<System>, inputs: seq<Input>, n: nat)
    requires |run| == |inputs| + 1 && IsRun(p, run, inputs) && p.depth >= 2 && n < |run|
    ensures SysInv(p, run[n])
  {
    if n == 0 {
    } else {
      RunInv(p, run, inputs, n - 1);
      ClockKeepsInv(p, run[n - 1], inputs[n - 1]);
    }
  }

  /** The pipeline lets go of the page in clock n. */
  predicate GrantedAt(run: seq<System>, inputs: seq<Input>, n: nat)
    requires n < |inputs| && n < |run|
  {
    run[n].pd.phase.ReqLsu? && inputs[n].permReady
  }

  /** What is remembered of the grant is the cache at the last one. */
  lemma {:induction false} LastGrant(p: Params, run: seq<System>, inputs: seq<Input>, k: nat, n: nat)
    requires |run| == |inputs| + 1 && IsRun(p, run, inputs) && k < n <= |inputs| && GrantedAt(run, inputs, k)
    requires forall j :: k < j < n ==> !GrantedAt(run, inputs, j)
    ensures run[n].atGrant == run[k].cache
  {
    if n == k + 1 {
    } else {
      LastGrant(p, run, inputs, k, n - 1);
      assert !GrantedAt(run, inputs, n - 1);
    }
  }

  /** ... so at the reported end of an eviction the DRAM holds, for every block of the page, what was seen of
      it in the clock of the grant. */
  lemma DramHoldsPageOfGrant(p: Params, run: seq<System>, inputs: seq<Input>, k: nat, n: nat)
    requires |run| == |inputs| + 1 && IsRun(p, run, inputs) && p.depth >= 2 && k < n < |inputs|
    requires GrantedAt(run, inputs, k) && forall j :: k < j < n ==> !GrantedAt(run, inputs, j)
    requires run[n].pd.phase.Send? || PD.Done(run[n].pd, DeletorInput(p, run[n], inputs[n]))
    ensures p.g.sets > 0
    ensures forall b: nat :: run[n].pd.item.entry.ppn * 64 <= b < run[n].pd.item.entry.ppn * 64 + 64 ==>
      && !Cached(p.g, run[n].cache, b)
      && Get(run[n].cache.dram, b) == View(p.g, run[k].cache, b)
  {
    EvictDoneMeansPageInDram(p, run, inputs, n);
    LastGrant(p, run, inputs, k, n);
    var ppn := run[n].pd.item.entry.ppn;
    forall b: nat | ppn * 64 <= b < ppn * 64 + 64
      ensures !Cached(p.g, run[n].cache, b) && Get(run[n].cache.dram, b) == View(p.g, run[k].cache, b)
    {
      assert b == PageBlock(run[n].pd.item, b - ppn * 64);
    }
  }

  /** Main result: whenever the deletor reports the end of an eviction (by message or by the pulse
      the handlers wait for), all 64 blocks of the page are out of the cache, no writeback is under
      way, and the DRAM holds what the page was when the pipeline let go of it. */
  lemma EvictDoneMeansPageInDram(p: Params, run: seq<System>, inputs: seq<Input>, n: nat)
    requires |run| == |inputs| + 1 && IsRun(p, run, inputs) && p.depth >= 2 && n < |inputs|
    requires run[n].pd.phase.Send? || PD.Done(run[n].pd, DeletorInput(p, run[n], inputs[n]))
    ensures PageInDram(p, run[n])
  {
    RunInv(p, run, inputs, n);
    if run[n].pd.phase.Wait? {
      EmptyFlagSound(p, run[n]);
    }
  }
}

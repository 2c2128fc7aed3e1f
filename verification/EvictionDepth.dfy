/** Why the adaptor's request queue needs two entries: with one, the deletor's flag reads empty while a
    block of the page has not reached the DRAM. The run that shows it starts at reset. */
module EvictionDepth {
  import opened Arithmetic
  import opened Wrappers
  import opened CacheEntry
  import opened Databank
  import opened Cache
  import opened CacheInvariant
  import opened CacheRefinement
  import opened CacheRuns
  import opened PageTypes
  import PD = PageDeletor
  import E = Eviction

  predicate OneEntry(p: E.Params) {
    p.depth == 1 && p.g.sets > 0 && p.g.sets != 2 && p.g.ways > 0
  }

  // --- The cache before the deletion -----------------------------------------------------------------

  function Page(): Item {
    Item(Tag(0, 0), Pte(1, 0, false))
  }

  /** The first block of the page, and a block of the same row outside the page. */
  const FIRST: nat := 64

  function Outside(g: Geometry): nat {
    64 * g.sets + 64
  }

  lemma SameRow(g: Geometry)
    requires g.sets > 0 && g.sets != 2
    ensures SetIndex(g, Outside(g)) == SetIndex(g, FIRST) < g.sets
    ensures TagOf(g, Outside(g)) != TagOf(g, FIRST) && Outside(g) >= 128
  {
    Split(g, FIRST);
    Split(g, Outside(g));
    if g.sets > 2 {
      DivModOfSum(g.sets, 64 + FIRST / g.sets, FIRST % g.sets);
      assert Outside(g) == (64 + FIRST / g.sets) * g.sets + FIRST % g.sets;
    }
  }

  function Activity(g: Geometry): seq<Step> {
    StoreMiss(Outside(g)) + (StoreMiss(FIRST) + [MergeWrite])
  }

  /** A bank with one entry, in way zero of the page's row. */
  function OneEntryBank(g: Geometry, e: Entry): (bank: seq<seq<Entry>>)
    requires g.sets > 0 && g.sets != 2 && g.ways > 0
    ensures |bank| == g.sets && forall s :: 0 <= s < g.sets ==> |bank[s]| == g.ways
  {
    SameRow(g);
    var s := SetIndex(g, FIRST);
    EmptyBank(g)[s := EmptyBank(g)[s][0 := e]]
  }

  function WithEntry(g: Geometry, addr: nat): Entry
    requires g.sets > 0
  {
    Entry(true, true, TagOf(g, addr), Stored())
  }

  function AfterFirst(g: Geometry): State
    requires g.sets > 0 && g.sets != 2 && g.ways > 0
  {
    AtReset(g).(bank := OneEntryBank(g, WithEntry(g, Outside(g))))
  }

  function AfterSecond(g: Geometry): State
    requires g.sets > 0 && g.sets != 2 && g.ways > 0
  {
    AtReset(g).(bank := OneEntryBank(g, WithEntry(g, FIRST)), writebackQ := [WriteBack(Outside(g), Stored())])
  }

  lemma FirstStore(g: Geometry)
    requires g.sets > 0 && g.sets != 2 && g.ways > 0
    ensures CanMiss(g, AtReset(g), Outside(g))
    ensures AfterStore(g, AtReset(g), Outside(g)) == AfterFirst(g)
  {
    SameRow(g);
    EmptyRowMisses(EmptyBank(g)[SetIndex(g, FIRST)], TagOf(g, Outside(g)));
  }

  lemma SecondStore(g: Geometry)
    requires g.sets > 0 && g.sets != 2 && g.ways > 0
    ensures CanMiss(g, AfterFirst(g), FIRST)
    ensures AfterStore(g, AfterFirst(g), FIRST) == AfterSecond(g)
  {
    SameRow(g);
    var s := SetIndex(g, FIRST);
    var st := AfterFirst(g);
    OneEntryHits(st.bank[s], WithEntry(g, Outside(g)), TagOf(g, FIRST));
    Split(g, Outside(g));
    assert st.bank[s][0 := WithEntry(g, FIRST)] == EmptyBank(g)[s][0 := WithEntry(g, FIRST)];
    assert st.bank[s := st.bank[s][0 := WithEntry(g, FIRST)]] == OneEntryBank(g, WithEntry(g, FIRST));
  }

  /** The first block dirty in the cache, the other one displaced and on its way to the DRAM. */
  function BeforeGrant(g: Geometry): State
    requires g.sets > 0 && g.sets != 2 && g.ways > 0
  {
    AtReset(g).(bank := OneEntryBank(g, WithEntry(g, FIRST)),
                backendQ := [BackendRequest.Write(Outside(g), Stored())])
  }

  lemma ThreeRuns(g: Geometry, st0: State, a: seq<Step>, st1: State, b: seq<Step>, st2: State, c: Step, st3: State)
    requires Admissible(g, st0, a) && Final(g, st0, a) == st1
    requires Admissible(g, st1, b) && Final(g, st1, b) == st2
    requires Enabled(g, st2, c) && Guard(g, st2, c) && Next(g, st2, c) == st3
    ensures Admissible(g, st0, a + (b + [c])) && Final(g, st0, a + (b + [c])) == st3
  {
    StepRuns(g, st2, c, [], st3);
    assert [c] + [] == [c];
    RunsOn(g, st1, b, [c]);
    RunsOn(g, st0, a, b + [c]);
  }

  lemma FirstStoreRuns(g: Geometry)
    requires g.sets > 0 && g.sets != 2 && g.ways > 0
    ensures Admissible(g, AtReset(g), StoreMiss(Outside(g)))
    ensures Final(g, AtReset(g), StoreMiss(Outside(g))) == AfterFirst(g)
  {
    FirstStore(g);
    StoreMissRuns(g, AtReset(g), Outside(g));
  }

  lemma SecondStoreRuns(g: Geometry)
    requires g.sets > 0 && g.sets != 2 && g.ways > 0
    ensures Admissible(g, AfterFirst(g), StoreMiss(FIRST))
    ensures Final(g, AfterFirst(g), StoreMiss(FIRST)) == AfterSecond(g)
  {
    SecondStore(g);
    StoreMissRuns(g, AfterFirst(g), FIRST);
  }

  lemma WritebackSent(g: Geometry)
    requires g.sets > 0 && g.sets != 2 && g.ways > 0
    ensures Enabled(g, AfterSecond(g), MergeWrite) && Next(g, AfterSecond(g), MergeWrite) == BeforeGrant(g)
  {
  }

  lemma ActivityRuns(g: Geometry)
    requires g.sets > 0 && g.sets != 2 && g.ways > 0
    ensures Admissible(g, AtReset(g), Activity(g))
    ensures Final(g, AtReset(g), Activity(g)) == BeforeGrant(g)
  {
    FirstStoreRuns(g);
    SecondStoreRuns(g);
    WritebackSent(g);
    ThreeRuns(g, AtReset(g), StoreMiss(Outside(g)), AfterFirst(g), StoreMiss(FIRST), AfterSecond(g), MergeWrite,
              BeforeGrant(g));
  }

  // --- The flush ---------------------------------------------------------------------------------------

  /** The page's block has left the cache; its writeback waits behind the other one. */
  function AfterFlush(g: Geometry): State {
    AtReset(g).(backendQ := [BackendRequest.Write(Outside(g), Stored())], writebackQ := [WriteBack(FIRST, Stored())])
  }

  /** The DRAM has served the other one. */
  function AfterServed(g: Geometry): State {
    AtReset(g).(writebackQ := [WriteBack(FIRST, Stored())], dram := map[Outside(g) := Stored()])
  }

  lemma FirstFlush(g: Geometry)
    requires g.sets > 0 && g.sets != 2 && g.ways > 0
    ensures CanAccess(g, BeforeGrant(g), FIRST, 0)
    ensures Next(g, BeforeGrant(g), Flush(FIRST, 0)) == AfterFlush(g)
  {
    SameRow(g);
    var s := SetIndex(g, FIRST);
    var bank := OneEntryBank(g, WithEntry(g, FIRST));
    OneEntryHits(bank[s], WithEntry(g, FIRST), TagOf(g, FIRST));
    assert !FlushRequest(FIRST).wMask[0];
    assert bank[s][0 := FlushedEntry()] == EmptyBank(g)[s];
    assert bank[s := bank[s][0 := FlushedEntry()]] == EmptyBank(g);
  }

  // --- The run -------------------------------------------------------------------------------------------

  // Clock in which each phase is seen first.
  const FLUSHING: nat := 5
  const PIPING: nat := 69
  const WAITING: nat := 73
  const DONE: nat := 74

  function InputAt(p: E.Params, n: nat): E.Input {
    E.Input(Some(Page()), true, true, Some(PD.TlbReply(false, false)), true, true, true,
            n == WAITING, 0, if n == 0 then Activity(p.g) else [])
  }

  function DeletorAt(n: nat): PD.State
    requires n <= DONE
  {
    PD.State(
      if n == 0 then PD.Idle
      else if n == 1 then PD.ReqLsu
      else if n == 2 then PD.FlushTlbReq
      else if n == 3 then PD.FlushTlbReply
      else if n == 4 then PD.Notify
      else if n < PIPING then PD.FlushPage
      else if n < WAITING then PD.Pipe
      else PD.Wait,
      Page(),
      if FLUSHING <= n < PIPING then n - FLUSHING else 0,
      if PIPING <= n < WAITING then n - PIPING else 0)
  }

  function CacheAt(p: E.Params, n: nat): State
    requires OneEntry(p)
  {
    if n == 0 then AtReset(p.g)
    else if n <= FLUSHING + 1 then BeforeGrant(p.g)
    else if n <= WAITING then AfterFlush(p.g)
    else AfterServed(p.g)
  }

  function RegisterAt(n: nat): Option<nat> {
    if FLUSHING < n <= PIPING then Some(FIRST + (n - FLUSHING - 1)) else None
  }

  function SystemAt(p: E.Params, n: nat): E.System
    requires OneEntry(p) && n <= DONE
  {
    E.System(DeletorAt(n), CacheAt(p, n), RegisterAt(n), if n <= 1 then AtReset(p.g) else BeforeGrant(p.g))
  }

  /** Every handshake is answered at once; the queue looks empty after the waiting clock only. */
  lemma DeletorAdvances(n: nat, i: PD.Input)
    requires n < DONE && i.permReady && i.tlbReady && i.tlbReply == Some(PD.TlbReply(false, false)) && i.startReady
    requires i.flushReady && (n == 0 ==> i.request == Some(Page())) && (n == WAITING ==> !i.queueEmpty)
    ensures PD.Next(DeletorAt(n), i) == DeletorAt(n + 1)
  {
  }

  lemma PhaseAdvances(p: E.Params, n: nat)
    requires OneEntry(p) && n < DONE
    ensures PD.Next(DeletorAt(n), E.DeletorInput(p, SystemAt(p, n), InputAt(p, n))) == DeletorAt(n + 1)
  {
    DeletorAdvances(n, E.DeletorInput(p, SystemAt(p, n), InputAt(p, n)));
  }

  lemma RegisterAdvances(p: E.Params, n: nat)
    requires OneEntry(p) && n < DONE
    ensures var sys := SystemAt(p, n);
      var d := E.DeletorInput(p, sys, InputAt(p, n));
      RegisterAt(n + 1) ==
        if PD.FlushFires(sys.pd, d) then Some(PD.FlushAddr(sys.pd))
        else if E.RegisterMoves(p, sys) then None
        else sys.s1
  {
  }

  /** From the grant on nothing moves but the flush in the register, until the DRAM serves. */
  lemma CacheAdvances(p: E.Params, n: nat)
    requires OneEntry(p) && 2 <= n < DONE
    ensures var sys := SystemAt(p, n);
      && (sys.s1.Some? ==> CanAccess(p.g, sys.cache, sys.s1.value, 0))
      && E.AfterRegister(p, sys, InputAt(p, n)) == CacheAt(p, n + 1)
  {
    if n == FLUSHING + 1 {
      FirstFlush(p.g);
    } else if FLUSHING + 1 < n <= PIPING {
      EmptyFlush(p.g, AfterFlush(p.g), FIRST + (n - FLUSHING - 1));
    }
  }

  lemma ClockAt(p: E.Params, n: nat)
    requires OneEntry(p) && n < DONE
    ensures var sys := SystemAt(p, n);
      && E.Possible(p, sys, InputAt(p, n))
      && (sys.s1.Some? ==> CanAccess(p.g, sys.cache, sys.s1.value, 0))
      && E.Clock(p, sys, InputAt(p, n)) == SystemAt(p, n + 1)
  {
    PhaseAdvances(p, n);
    RegisterAdvances(p, n);
    if n == 0 {
      ActivityRuns(p.g);
    } else if n >= 2 {
      CacheAdvances(p, n);
    }
  }

  /** The flag reads empty and the deletor reports the end while the first block of the page is neither in
      the cache nor in the DRAM. */
  lemma DoneTooEarly(p: E.Params)
    requires OneEntry(p)
    ensures var sys := SystemAt(p, DONE);
      && PD.Done(sys.pd, E.DeletorInput(p, sys, InputAt(p, DONE)))
      && Get(sys.cache.dram, E.PageBlock(sys.pd.item, 0)) != View(p.g, sys.atGrant, E.PageBlock(sys.pd.item, 0))
      && !E.PageInDram(p, sys)
  {
    var g := p.g;
    SameRow(g);
    OneEntryHits(BeforeGrant(g).bank[SetIndex(g, FIRST)], WithEntry(g, FIRST), TagOf(g, FIRST));
    assert View(g, BeforeGrant(g), FIRST) == Stored();
    assert Stored()[0] != ZeroBlock()[0];
  }

  lemma StartsAtReset(p: E.Params)
    requires OneEntry(p)
    ensures E.Started(p, SystemAt(p, 0)) && Initial(p.g, SystemAt(p, 0).cache)
  {
    ResetInitial(p.g);
  }

  /** The last clock is possible, too. */
  lemma CanEnd(p: E.Params)
    requires OneEntry(p)
    ensures E.Possible(p, SystemAt(p, DONE), InputAt(p, DONE)) && SystemAt(p, DONE).s1.None?
  {
  }

  ghost predicate FollowsScript(p: E.Params, run: seq<E.System>, inputs: seq<E.Input>)
    requires OneEntry(p)
  {
    && |run| == DONE + 2 && |inputs| == DONE + 1
    && (forall k :: 0 <= k <= DONE ==> run[k] == SystemAt(p, k) && inputs[k] == InputAt(p, k))
    && E.Possible(p, SystemAt(p, DONE), InputAt(p, DONE))
    && run[DONE + 1] == E.Clock(p, SystemAt(p, DONE), InputAt(p, DONE))
  }

  lemma ScriptIsRun(p: E.Params, run: seq<E.System>, inputs: seq<E.Input>)
    requires OneEntry(p) && FollowsScript(p, run, inputs)
    ensures E.IsRun(p, run, inputs) && Initial(p.g, run[0].cache)
  {
    StartsAtReset(p);
    CanEnd(p);
    forall k | 0 <= k < |inputs|
      ensures E.Possible(p, run[k], inputs[k])
      ensures run[k].s1.Some? ==> CanAccess(p.g, run[k].cache, run[k].s1.value, inputs[k].victim)
      ensures run[k + 1] == E.Clock(p, run[k], inputs[k])
    {
      if k < DONE {
        ClockAt(p, k);
        assert run[k + 1] == SystemAt(p, k + 1);
      }
    }
  }

  /** With a one-entry queue there is a run from reset in which the end of an eviction is reported although
      the DRAM does not hold the page. */
  lemma ShallowQueueMisleads(p: E.Params) returns (run: seq<E.System>, inputs: seq<E.Input>, n: nat)
    requires OneEntry(p)
    ensures |run| == |inputs| + 1 && E.IsRun(p, run, inputs) && n < |inputs|
    ensures Initial(p.g, run[0].cache)
    ensures PD.Done(run[n].pd, E.DeletorInput(p, run[n], inputs[n])) && !E.PageInDram(p, run[n])
  {
    n := DONE;
    CanEnd(p);
    inputs := seq(DONE + 1, k requires 0 <= k <= DONE => InputAt(p, k));
    var states := seq(DONE + 1, k requires 0 <= k <= DONE => SystemAt(p, k));
    run := states + [E.Clock(p, SystemAt(p, DONE), InputAt(p, DONE))];
    ScriptIsRun(p, run, inputs);
    DoneTooEarly(p);
  }

  /** In every run the reported end of an eviction means that the page is in the DRAM. */
  ghost predicate SoundInEveryRun(p: E.Params)
    requires p.g.sets > 0
  {
    forall run: seq<E.System>, inputs: seq<E.Input>, n: nat ::
      |run| == |inputs| + 1 && E.IsRun(p, run, inputs) && n < |inputs|
      && (run[n].pd.phase.Send? || PD.Done(run[n].pd, E.DeletorInput(p, run[n], inputs[n])))
      ==> E.PageInDram(p, run[n])
  }

  /** Main result: the deletor's report is sound in every run if and only if the adaptor's request queue has
      at least two entries. */
  lemma SoundIff(p: E.Params)
    requires p.g.sets > 0 && p.g.sets != 2 && p.g.ways > 0 && p.depth >= 1
    ensures SoundInEveryRun(p) <==> p.depth >= 2
  {
    if p.depth >= 2 {
      forall run: seq<E.System>, inputs: seq<E.Input>, n: nat
        | |run| == |inputs| + 1 && E.IsRun(p, run, inputs) && n < |inputs|
          && (run[n].pd.phase.Send? || PD.Done(run[n].pd, E.DeletorInput(p, run[n], inputs[n])))
        ensures E.PageInDram(p, run[n])
      {
        E.EvictDoneMeansPageInDram(p, run, inputs, n);
      }
    } else {
      var run, inputs, n := ShallowQueueMisleads(p);
    }
  }
}

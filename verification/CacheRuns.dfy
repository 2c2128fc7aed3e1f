/** Concrete runs of the cache: from reset, step by step. */
module CacheRuns {
  import opened Wrappers
  import opened CacheEntry
  import opened Databank
  import opened Cache
  import opened CacheInvariant
  import opened CacheRefinement
  import Encoders

  // --- Reset -----------------------------------------------------------------------------------

  function EmptyBank(g: Geometry): (bank: seq<seq<Entry>>)
    ensures |bank| == g.sets && forall s :: 0 <= s < g.sets ==> bank[s] == seq(g.ways, _ => FlushedEntry())
  {
    seq(g.sets, _ => seq(g.ways, _ => FlushedEntry()))
  }

  function AtReset(g: Geometry): State {
    State(EmptyBank(g), [], [], [], [], [], map[])
  }

  function Stored(): Block {
    Merge(ZeroBlock(), OneBit(), OneBit())
  }

  lemma ResetInitial(g: Geometry)
    requires g.sets > 0 && g.sets != 2
    ensures Initial(g, AtReset(g)) && Inv(g, AtReset(g))
  {
    InitialStands(g, AtReset(g));
  }

  lemma EmptyRowMisses(row: seq<Entry>, tag: nat)
    requires forall w :: 0 <= w < |row| ==> !row[w].v
    ensures !Hit(row, tag)
  {
    Encoders.PopCountZero(Matches(row, tag));
  }

  lemma OneEntryHits(row: seq<Entry>, e: Entry, tag: nat)
    requires row != [] && e.v && forall w :: 0 < w < |row| ==> row[w] == FlushedEntry()
    requires row[0] == e
    ensures RowOk(row) && (Hit(row, tag) <==> tag == e.tag)
    ensures tag == e.tag ==> HitWay(row, tag) == 0
  {
    HitMeansHeld(row, tag);
    assert HoldsAt(row, e.tag, 0);
  }

  /** A flush finds nothing in an empty bank. */
  lemma EmptyFlush(g: Geometry, st: State, addr: nat)
    requires g.sets > 0 && g.sets != 2 && g.ways > 0 && st.bank == EmptyBank(g)
    ensures CanAccess(g, st, addr, 0) && Next(g, st, Flush(addr, 0)) == st
  {
    Split(g, addr);
    var s := SetIndex(g, addr);
    EmptyRowMisses(EmptyBank(g)[s], TagOf(g, addr));
    assert !FlushRequest(addr).wMask[0];
    assert EmptyBank(g)[s := EmptyBank(g)[s]] == EmptyBank(g);
  }

  // --- A store that misses ------------------------------------------------------------------------

  function OneBit(): Block {
    seq(BLOCK_BITS, i => i == 0)
  }

  function StoreMiss(addr: nat): seq<Step> {
    [Pipeline(addr, OneBit(), OneBit(), 0), MergeRead, Step.Dram, Refill(0)]
  }

  predicate Settled(st: State) {
    st.missQ == [] && st.writebackQ == [] && st.refillQ == [] && st.backendQ == [] && st.replies == []
  }

  function Dirty(g: Geometry, st: State, addr: nat): Entry
    requires g.sets > 0
  {
    Entry(true, true, TagOf(g, addr), Merge(Get(st.dram, addr), OneBit(), OneBit()))
  }

  /** The state after a store has missed and been refilled into way zero. */
  function AfterStore(g: Geometry, st: State, addr: nat): State
    requires g.sets > 0 && CanAccess(g, st, addr, 0)
  {
    var s := SetIndex(g, addr);
    var prev := st.bank[s][0];
    st.(bank := st.bank[s := st.bank[s][0 := Dirty(g, st, addr)]],
        writebackQ := if prev.d then [WriteBack(Rebuild(g, prev.tag, s), prev.data)] else [])
  }

  lemma BitsOfOne()
    ensures !AndR(OneBit()) && OrR(OneBit())
  {
    assert !OneBit()[1] && OneBit()[0];
  }

  function StoreWaiting(st: State, addr: nat): State {
    st.(missQ := [Miss(addr, OneBit(), OneBit())])
  }

  function StoreAsked(st: State, addr: nat): State {
    st.(refillQ := [Miss(addr, OneBit(), OneBit())], backendQ := [Read(addr)])
  }

  function StoreAnswered(st: State, addr: nat): State {
    st.(refillQ := [Miss(addr, OneBit(), OneBit())], replies := [Get(st.dram, addr)])
  }

  predicate CanMiss(g: Geometry, st: State, addr: nat) {
    g.sets > 0 && CanAccess(g, st, addr, 0) && Settled(st) && !Hit(RowOf(g, st, addr), TagOf(g, addr))
  }

  lemma StoreMisses(g: Geometry, st: State, addr: nat)
    requires CanMiss(g, st, addr)
    ensures Next(g, st, Pipeline(addr, OneBit(), OneBit(), 0)) == StoreWaiting(st, addr)
  {
    BitsOfOne();
    var s := SetIndex(g, addr);
    assert st.bank[s := st.bank[s]] == st.bank;
  }

  lemma ReadAsked(g: Geometry, st: State, addr: nat)
    requires g.sets > 0 && Settled(st)
    ensures Enabled(g, StoreWaiting(st, addr), MergeRead) && Guard(g, StoreWaiting(st, addr), MergeRead)
    ensures Next(g, StoreWaiting(st, addr), MergeRead) == StoreAsked(st, addr)
  {
  }

  lemma ReadAnswered(g: Geometry, st: State, addr: nat)
    requires g.sets > 0 && Settled(st)
    ensures Enabled(g, StoreAsked(st, addr), Step.Dram) && Guard(g, StoreAsked(st, addr), Step.Dram)
    ensures Next(g, StoreAsked(st, addr), Step.Dram) == StoreAnswered(st, addr)
  {
  }

  lemma RefillStores(g: Geometry, st: State, addr: nat)
    requires CanMiss(g, st, addr)
    ensures Enabled(g, StoreAnswered(st, addr), Refill(0)) && Guard(g, StoreAnswered(st, addr), Refill(0))
    ensures Next(g, StoreAnswered(st, addr), Refill(0)) == AfterStore(g, st, addr)
  {
    BitsOfOne();
    var req := RefillRequest(Miss(addr, OneBit(), OneBit()), Get(st.dram, addr));
    var row := st.bank[SetIndex(g, addr)];
    assert Access(g, row, req, 0).write == Some(BankWrite(0, Dirty(g, st, addr)));
  }

  /** One step more in front. */
  lemma StepRuns(g: Geometry, st: State, step: Step, rest: seq<Step>, last: State)
    requires Enabled(g, st, step) && Guard(g, st, step)
    requires Admissible(g, Next(g, st, step), rest) && Final(g, Next(g, st, step), rest) == last
    ensures Admissible(g, st, [step] + rest) && Final(g, st, [step] + rest) == last
  {
    assert ([step] + rest)[1..] == rest;
  }

  lemma StoreMissRuns(g: Geometry, st: State, addr: nat)
    requires CanMiss(g, st, addr)
    ensures Admissible(g, st, StoreMiss(addr)) && Final(g, st, StoreMiss(addr)) == AfterStore(g, st, addr)
  {
    var last := AfterStore(g, st, addr);
    BitsOfOne();
    StoreMisses(g, st, addr);
    ReadAsked(g, st, addr);
    ReadAnswered(g, st, addr);
    RefillStores(g, st, addr);
    StepRuns(g, StoreAnswered(st, addr), Refill(0), [], last);
    StepRuns(g, StoreAsked(st, addr), Step.Dram, [Refill(0)] + [], last);
    StepRuns(g, StoreWaiting(st, addr), MergeRead, [Step.Dram] + ([Refill(0)] + []), last);
    StepRuns(g, st, Pipeline(addr, OneBit(), OneBit(), 0), [MergeRead] + ([Step.Dram] + ([Refill(0)] + [])), last);
    assert StoreMiss(addr) ==
      [Pipeline(addr, OneBit(), OneBit(), 0)] + ([MergeRead] + ([Step.Dram] + ([Refill(0)] + [])));
  }

  lemma {:induction false} RunsOn(g: Geometry, st: State, a: seq<Step>, b: seq<Step>)
    requires Admissible(g, st, a) && Admissible(g, Final(g, st, a), b)
    ensures Admissible(g, st, a + b) && Final(g, st, a + b) == Final(g, Final(g, st, a), b)
    decreases |a|
  {
    if a == [] {
      assert a + b == b;
    } else {
      assert (a + b)[1..] == a[1..] + b;
      RunsOn(g, Next(g, st, a[0]), a[1..], b);
    }
  }

  // --- Reached states -----------------------------------------------------------------------------

  /** Some admissible run from reset ends in the state. */
  ghost predicate Reached(g: Geometry, st: State) {
    exists run: seq<Step> :: Admissible(g, AtReset(g), run) && Final(g, AtReset(g), run) == st
  }

  lemma ResetReached(g: Geometry)
    ensures Reached(g, AtReset(g))
  {
    assert Admissible(g, AtReset(g), []);
  }

  lemma StepReaches(g: Geometry, st: State, step: Step)
    requires Reached(g, st) && Enabled(g, st, step) && Guard(g, st, step)
    ensures Reached(g, Next(g, st, step))
  {
    var run :| Admissible(g, AtReset(g), run) && Final(g, AtReset(g), run) == st;
    StepRuns(g, st, step, [], Next(g, st, step));
    RunsOn(g, AtReset(g), run, [step] + []);
  }
}

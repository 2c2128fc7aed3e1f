/** For each branch of each guard a state, reached from reset by an admissible run, in which the step that
    breaks it loses data. */
module CacheGuardStates {
  import opened Wrappers
  import opened CacheEntry
  import opened Databank
  import opened Cache
  import opened CacheInvariant
  import opened CacheRefinement
  import opened CacheRuns

  // --- Reached states in which dropping a guard loses data -----------------------------------------------

  function EmptyBackend(bank: seq<seq<Entry>>): State {
    State(bank, [], [], [], [], [], map[])
  }

  const TINY: Geometry := Geometry(1, 1)

  function Load(addr: nat): Miss {
    Miss(addr, ZeroBlock(), ZeroBlock())
  }

  function Store(addr: nat): Miss {
    Miss(addr, OneBit(), OneBit())
  }

  function EmptyTiny(): State {
    EmptyBackend([[FlushedEntry()]])
  }

  function Reads(ms: seq<Miss>): (q: seq<BackendRequest>)
    ensures |q| == |ms| && forall i :: 0 <= i < |q| ==> q[i] == Read(ms[i].addr)
  {
    seq(|ms|, i requires 0 <= i < |ms| => Read(ms[i].addr))
  }

  function Zeros(n: nat): (q: seq<Block>)
    ensures |q| == n && forall i :: 0 <= i < n ==> q[i] == ZeroBlock()
  {
    seq(n, _ => ZeroBlock())
  }

  lemma NothingCached(st: State, addr: nat)
    requires st.bank == [[FlushedEntry()]]
    ensures CanAccess(TINY, st, addr, 0) && !Cached(TINY, st, addr)
  {
    EmptyRowMisses([FlushedEntry()], TagOf(TINY, addr));
  }

  lemma MissJoins(st: State, m: Miss)
    requires Reached(TINY, st) && st.bank == [[FlushedEntry()]] && !AndR(m.wMask)
    ensures Reached(TINY, st.(missQ := st.missQ + [m]))
  {
    NothingCached(st, m.addr);
    StepReaches(TINY, st, Pipeline(m.addr, m.wData, m.wMask, 0));
    assert st.bank[0 := st.bank[0]] == st.bank;
  }

  lemma TinyReset()
    ensures AtReset(TINY) == EmptyTiny()
  {
    var row := seq(1, _ => FlushedEntry());
    assert row == [FlushedEntry()];
    assert EmptyBank(TINY) == [row];
  }

  function MissedAll(ms: seq<Miss>): State {
    EmptyTiny().(missQ := ms)
  }

  lemma MissedLast(ms: seq<Miss>)
    requires ms != []
    ensures var before := MissedAll(ms[..|ms| - 1]);
      before.(missQ := before.missQ + [ms[|ms| - 1]]) == MissedAll(ms)
  {
    assert ms[..|ms| - 1] + [ms[|ms| - 1]] == ms;
  }

  lemma {:induction false} AllMiss(ms: seq<Miss>)
    requires forall i :: 0 <= i < |ms| ==> !AndR(ms[i].wMask)
    ensures Reached(TINY, MissedAll(ms))
  {
    if ms == [] {
      TinyReset();
      ResetReached(TINY);
    } else {
      AllMiss(ms[..|ms| - 1]);
      MissJoins(MissedAll(ms[..|ms| - 1]), ms[|ms| - 1]);
      MissedLast(ms);
    }
  }

  function SentOne(st: State): State
    requires st.missQ != []
  {
    st.(missQ := st.missQ[1..], refillQ := st.refillQ + [st.missQ[0]],
        backendQ := st.backendQ + [Read(st.missQ[0].addr)])
  }

  function SentAll(st: State): State {
    st.(missQ := [], refillQ := st.refillQ + st.missQ, backendQ := st.backendQ + Reads(st.missQ))
  }

  lemma SentOneMore(st: State)
    ensures st.missQ == [] ==> SentAll(st) == st
    ensures st.missQ != [] ==> SentAll(SentOne(st)) == SentAll(st)
  {
    if st.missQ == [] {
      assert st.refillQ + [] == st.refillQ && st.backendQ + Reads([]) == st.backendQ;
    } else {
      var m, rest := st.missQ[0], st.missQ[1..];
      assert (st.refillQ + [m]) + rest == st.refillQ + st.missQ;
      assert (st.backendQ + [Read(m.addr)]) + Reads(rest) == st.backendQ + Reads(st.missQ);
    }
  }

  lemma OneSent(st: State)
    requires Reached(TINY, st) && st.writebackQ == [] && st.missQ != []
    ensures Reached(TINY, SentOne(st))
  {
    StepReaches(TINY, st, MergeRead);
  }

  lemma {:induction false} AllSent(st: State)
    requires Reached(TINY, st) && st.writebackQ == []
    ensures Reached(TINY, SentAll(st))
    decreases |st.missQ|
  {
    SentOneMore(st);
    if st.missQ == [] {
    } else {
      OneSent(st);
      AllSent(SentOne(st));
    }
  }

  predicate OnlyReads(st: State) {
    st.dram == map[] && forall i :: 0 <= i < |st.backendQ| ==> st.backendQ[i].Read?
  }

  function AnsweredOne(st: State): State
    requires st.backendQ != []
  {
    st.(backendQ := st.backendQ[1..], replies := st.replies + [ZeroBlock()])
  }

  function AnsweredAll(st: State): State {
    st.(backendQ := [], replies := st.replies + Zeros(|st.backendQ|))
  }

  lemma AnsweredOneMore(st: State)
    ensures st.backendQ == [] ==> AnsweredAll(st) == st
    ensures st.backendQ != [] ==> AnsweredAll(AnsweredOne(st)) == AnsweredAll(st)
  {
    var n := |st.backendQ|;
    if n == 0 {
      assert st.replies + Zeros(0) == st.replies;
    } else {
      assert (st.replies + [ZeroBlock()]) + Zeros(n - 1) == st.replies + Zeros(n);
    }
  }

  lemma OneAnswered(st: State)
    requires Reached(TINY, st) && OnlyReads(st) && st.backendQ != []
    ensures Reached(TINY, AnsweredOne(st)) && OnlyReads(AnsweredOne(st))
  {
    StepReaches(TINY, st, Step.Dram);
  }

  lemma {:induction false} AllAnswered(st: State)
    requires Reached(TINY, st) && OnlyReads(st)
    ensures Reached(TINY, AnsweredAll(st))
    decreases |st.backendQ|
  {
    AnsweredOneMore(st);
    if st.backendQ == [] {
    } else {
      OneAnswered(st);
      AllAnswered(AnsweredOne(st));
    }
  }

  /** All misses of the empty cache are with the DRAM, which has answered. */
  function WaitingAll(ms: seq<Miss>): State {
    EmptyTiny().(refillQ := ms, replies := Zeros(|ms|))
  }

  lemma WaitingAllIs(ms: seq<Miss>)
    ensures AnsweredAll(SentAll(MissedAll(ms))) == WaitingAll(ms) && OnlyReads(SentAll(MissedAll(ms)))
  {
    assert [] + ms == ms && [] + Reads(ms) == Reads(ms) && [] + Zeros(|ms|) == Zeros(|ms|);
  }

  lemma AllWait(ms: seq<Miss>)
    requires forall i :: 0 <= i < |ms| ==> !AndR(ms[i].wMask)
    ensures Reached(TINY, WaitingAll(ms))
  {
    AllMiss(ms);
    AllSent(MissedAll(ms));
    WaitingAllIs(ms);
    AllAnswered(SentAll(MissedAll(ms)));
  }

  /** Block 0 is stored to, then the other misses wait for their refills, all answered with zeros. */
  function Stored0(rest: seq<Miss>): State {
    EmptyBackend([[DirtyEntry()]]).(refillQ := rest, replies := Zeros(|rest|))
  }

  lemma StoreRefilled(rest: seq<Miss>)
    ensures var st := WaitingAll([Store(0)] + rest);
      Enabled(TINY, st, Refill(0)) && Guard(TINY, st, Refill(0)) && Next(TINY, st, Refill(0)) == Stored0(rest)
  {
    var ms := [Store(0)] + rest;
    var st := WaitingAll(ms);
    NothingCached(st, 0);
    BitsOfOne();
    assert Merge(ZeroBlock(), OneBit(), OneBit()) == OneBit();
    var row := [FlushedEntry()];
    assert Access(TINY, row, RefillRequest(Store(0), ZeroBlock()), 0).write == Some(BankWrite(0, DirtyEntry()));
    assert row[0 := DirtyEntry()] == [DirtyEntry()] && st.bank[0 := [DirtyEntry()]] == [[DirtyEntry()]];
    assert ms[1..] == rest && Zeros(|ms|)[1..] == Zeros(|rest|);
  }

  lemma StoreReached(rest: seq<Miss>)
    requires forall i :: 0 <= i < |rest| ==> !AndR(rest[i].wMask)
    ensures Reached(TINY, Stored0(rest))
  {
    BitsOfOne();
    AllWait([Store(0)] + rest);
    StoreRefilled(rest);
    StepReaches(TINY, WaitingAll([Store(0)] + rest), Refill(0));
  }

  // --- The states ----------------------------------------------------------------------------------------

  function DirtyEntry(): Entry {
    Entry(true, true, 0, OneBit())
  }

  function OneWaiting(): State {
    EmptyBackend([[DirtyEntry()]]).(refillQ := [Load(0)], replies := [ZeroBlock()])
  }

  function TwoWaiting(): State {
    EmptyBackend([[DirtyEntry()]]).(refillQ := [Load(1), Load(0)], replies := [ZeroBlock(), ZeroBlock()])
  }

  function ReadBehindWriteback(): State {
    EmptyTiny().(missQ := [Load(0)], writebackQ := [WriteBack(0, OneBit())])
  }

  lemma FlushedOut()
    ensures var st := EmptyBackend([[DirtyEntry()]]);
      && Enabled(TINY, st, Flush(0, 0)) && Guard(TINY, st, Flush(0, 0))
      && Next(TINY, st, Flush(0, 0)) == EmptyTiny().(writebackQ := [WriteBack(0, OneBit())])
  {
    var row := [DirtyEntry()];
    assert HoldsAt(row, 0, 0);
    HitMeansHeld(row, 0);
    assert !FlushRequest(0).wMask[0];
    assert Access(TINY, row, FlushRequest(0), 0).write == Some(BankWrite(0, FlushedEntry()));
    assert row[0 := FlushedEntry()] == [FlushedEntry()] && [row][0 := [FlushedEntry()]] == [[FlushedEntry()]];
  }

  lemma DirtyReached()
    ensures Reached(TINY, EmptyBackend([[DirtyEntry()]]))
  {
    StoreReached([]);
    StatesAreStored();
  }

  lemma WaitingReached()
    ensures Reached(TINY, OneWaiting()) && Reached(TINY, TwoWaiting())
  {
    ZerosNotFull();
    StoreReached([Load(0)]);
    StoreReached([Load(1), Load(0)]);
    StatesAreStored();
  }

  lemma ZerosNotFull()
    ensures !AndR(ZeroBlock())
  {
    assert !ZeroBlock()[0];
  }

  lemma ReadBehindReached()
    ensures Reached(TINY, ReadBehindWriteback())
  {
    ZerosNotFull();
    DirtyReached();
    FlushedOut();
    StepReaches(TINY, EmptyBackend([[DirtyEntry()]]), Flush(0, 0));
    MissJoins(EmptyTiny().(writebackQ := [WriteBack(0, OneBit())]), Load(0));
    StatesAreStored();
  }

  /** Admissible runs from reset lead to each of the states below. */
  lemma StatesReached()
    ensures Reached(TINY, EmptyBackend([[DirtyEntry()]])) && Reached(TINY, OneWaiting())
    ensures Reached(TINY, TwoWaiting()) && Reached(TINY, ReadBehindWriteback())
  {
    DirtyReached();
    WaitingReached();
    ReadBehindReached();
  }

  lemma StatesAreStored()
    ensures Stored0([]) == EmptyBackend([[DirtyEntry()]]) && Stored0([Load(0)]) == OneWaiting()
    ensures Stored0([Load(1), Load(0)]) == TwoWaiting()
    ensures var st := EmptyTiny().(writebackQ := [WriteBack(0, OneBit())]);
      st.(missQ := st.missQ + [Load(0)]) == ReadBehindWriteback()
  {
    assert Zeros(0) == [] && Zeros(1) == [ZeroBlock()] && Zeros(2) == [ZeroBlock(), ZeroBlock()];
  }

  /** Block 0 waits to be written back when a read of it is sent ahead: the refill is stale. */
  lemma ReadAheadStale()
    ensures var st := ReadBehindWriteback();
      && Inv(TINY, st) && View(TINY, st, 0) == OneBit()
      && var st1 := Next(TINY, st, MergeRead);
         var st2 := Next(TINY, st1, Dram);
         Enabled(TINY, st2, Refill(0)) && Completed(TINY, st2, Refill(0)).value.data == ZeroBlock() != OneBit()
  {
    var st := ReadBehindWriteback();
    var row := [FlushedEntry()];
    assert ZeroBlock()[0] != OneBit()[0];
    assert SetIndex(TINY, 0) == 0 && RowOf(TINY, st, 0) == row;
    HitMeansHeld(row, TagOf(TINY, 0));
    var pending := [BackendRequest.Write(0, OneBit())];
    assert st.backendQ + AsWrites(st.writebackQ) == pending && pending[1..] == [];
    assert Settle(pending, 0, ZeroBlock()) == Settle([], 0, OneBit());
    MergeNothing(ZeroBlock(), ZeroBlock(), ZeroBlock());
    var st2 := Next(TINY, Next(TINY, st, MergeRead), Dram);
    assert st2.refillQ == st.missQ && st2.replies == [ZeroBlock()];
  }

  /** Block 0 is dirty in the cache while a miss on it is answered with the older value: after a
      flush the answer is taken at its word and the write is lost. */
  lemma FlushWhileWaitingStale()
    ensures var st := OneWaiting();
      && Inv(TINY, st) && View(TINY, st, 0) == OneBit()
      && var st1 := Next(TINY, st, Flush(0, 0));
         Enabled(TINY, st1, Refill(0)) && Completed(TINY, st1, Refill(0)).value.data == ZeroBlock() != OneBit()
  {
    var row := [DirtyEntry()];
    var st := OneWaiting();
    assert ZeroBlock()[0] != OneBit()[0];
    assert SetIndex(TINY, 0) == 0 && RowOf(TINY, st, 0) == row && TagOf(TINY, 0) == 0;
    assert HoldsAt(row, 0, 0);
    HitMeansHeld(row, 0);
    var st1 := Next(TINY, st, Flush(0, 0));
    assert !FlushRequest(0).wMask[0];
    assert st1.bank[0] == [FlushedEntry()];
    HitMeansHeld([FlushedEntry()], 0);
    MergeNothing(ZeroBlock(), ZeroBlock(), ZeroBlock());
  }

  /** Block 0 is dirty in the cache, with a second miss on it answered with the older value; the refill of
      block 1 takes its way, and the answer that follows is stale. */
  lemma RefillPushesWaitingStale()
    ensures var st := TwoWaiting();
      && Inv(TINY, st) && View(TINY, st, 0) == OneBit()
      && Enabled(TINY, st, Refill(0))
      && var st1 := Next(TINY, st, Refill(0));
         Enabled(TINY, st1, Refill(0)) && Completed(TINY, st1, Refill(0)).value.data == ZeroBlock() != OneBit()
  {
    OneDirty(TwoWaiting());
    TwoWaitingFresh();
    var st1 := Next(TINY, TwoWaiting(), Refill(0));
    var row1 := [Entry(true, false, 1, ZeroBlock())];
    assert st1.bank[0] == row1 by {
      HitMeansHeld([DirtyEntry()], 1);
      MergeNothing(ZeroBlock(), ZeroBlock(), ZeroBlock());
      assert !OrR(ZeroBlock());
    }
    HitMeansHeld(row1, 0);
    MergeNothing(ZeroBlock(), ZeroBlock(), ZeroBlock());
  }

  /** One block, number 0, dirty in a bank of one entry. */
  lemma OneDirty(st: State)
    requires st.bank == [[DirtyEntry()]]
    ensures Shape(TINY, st) && RowsOk(st) && CleanAgrees(TINY, st)
    ensures Cached(TINY, st, 0) && !Cached(TINY, st, 1) && View(TINY, st, 0) == OneBit() != ZeroBlock()
  {
    var row := [DirtyEntry()];
    assert ZeroBlock()[0] != OneBit()[0];
    assert HoldsAt(row, 0, 0);
    HitMeansHeld(row, 0);
    HitMeansHeld(row, 1);
  }

  lemma TwoWaitingFresh()
    ensures RepliesFresh(TINY, TwoWaiting())
  {
    OneDirty(TwoWaiting());
    assert Served(TwoWaiting()) == [ZeroBlock(), ZeroBlock()];
    assert Backing(TwoWaiting(), 1) == ZeroBlock();
  }

  function AllOnes(): Block {
    seq(BLOCK_BITS, _ => true)
  }

  /** Block 0 is dirty in the cache; an all-ones write to block 1 takes its way without a writeback, and
      block 0 is back at its older value. */
  lemma FullWriteLosesVictim()
    ensures var st := EmptyBackend([[DirtyEntry()]]);
      && Inv(TINY, st) && View(TINY, st, 0) == OneBit()
      && Enabled(TINY, st, Pipeline(1, ZeroBlock(), AllOnes(), 0))
      && View(TINY, Next(TINY, st, Pipeline(1, ZeroBlock(), AllOnes(), 0)), 0) == ZeroBlock() != OneBit()
  {
    var st := EmptyBackend([[DirtyEntry()]]);
    OneDirty(st);
    assert Served(st) == [];
    var st1 := Next(TINY, st, Pipeline(1, ZeroBlock(), AllOnes(), 0));
    assert st1.bank[0][0].tag == 1;
    HitMeansHeld(st1.bank[0], 0);
    assert st1.backendQ + AsWrites(st1.writebackQ) == [];
  }
}

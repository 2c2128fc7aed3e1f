/** Two handlers that store one set: the transaction of the first is lost, although it has finished. The
    runs that show it start with both handlers idle. */
module LostTransactions {
  import opened Wrappers
  import opened PageTypes
  import opened PageTable
  import opened PageTableClock
  import opened PageTableRuns
  import C = Cache
  import opened CacheRefinement
  import opened CacheRuns
  import H = Handlers
  import M = Mmu
  import PD = PageDeletor
  import E = Eviction
  import D = EvictionDepth

  // --- Two stores of one set -------------------------------------------------------------------------------

  /** Both handlers are about to store their copies of one set, from which a page is being evicted. */
  ghost predicate BothReady(table: Table, m: H.Miss, e: H.Evict) {
    && Inv(table, m, e) && SetNumber(m.request.tag) == SetNumber(e.tag)
    && m.phase.Moveback? && e.phase.EUpdatePt? && Walk(table, e.tag).Some?
    && (Displaced(table, m.request.tag).Some? ==> Displaced(table, m.request.tag).value.tag != e.tag)
  }

  /** If the evict handler stores first, its finished eviction is lost: the page is in the table
      afterwards, although nothing has inserted it since. */
  lemma EvictionLost(table: Table, m: H.Miss, mi: H.MissInput, e: H.Evict, ei: H.EvictInput,
                     mi2: H.MissInput, ei2: H.EvictInput)
    requires BothReady(table, m, e) && !mi.writeDone && ei.writeDone && mi2.writeDone
    ensures var m', e' := H.MissNext(m, mi), H.EvictNext(e, ei);
      var table' := TableNext(table, m, mi, e, ei);
      var table2 := TableNext(table', m', mi2, e', ei2);
      && MissFinishes(m, mi) + EvictFinishes(e, ei) == [Removal(e.tag)]
      && MissFinishes(m', mi2) + EvictFinishes(e', ei2) == [Reply(m.request)]
      && Walk(AllApplied(table, [Removal(e.tag), Reply(m.request)]), e.tag).None?
      && Walk(table2, e.tag) == Walk(table, e.tag)
  {
    EvictStoresAlone(table, m, mi, e, ei);
    MissStoresAlone(TableNext(table, m, mi, e, ei), m, mi2, e.(phase := H.EIdle), ei2);
    MissStoreOverwrites(table, m, e.tag, e.buf);
    ReplyKeeps(table, m.request, e.tag);
    RemovedThenReplied(table, e.tag, m.request);
  }

  lemma EvictStoresAlone(table: Table, m: H.Miss, mi: H.MissInput, e: H.Evict, ei: H.EvictInput)
    requires H.MissInv(m) && H.EvictInv(e) && m.phase.Moveback? && !mi.writeDone && EvictStores(e, ei)
    ensures TableNext(table, m, mi, e, ei) == M.Stored(table, true, e.tag, e.buf)
    ensures MissFinishes(m, mi) == [] && EvictFinishes(e, ei) == [Removal(e.tag)]
    ensures H.MissNext(m, mi) == m && H.EvictNext(e, ei) == e.(phase := H.EIdle)
  {
  }

  lemma MissStoresAlone(table: Table, m: H.Miss, mi: H.MissInput, e: H.Evict, ei: H.EvictInput)
    requires MissStores(m, mi) && e.phase.EIdle?
    ensures TableNext(table, m, mi, e, ei) == M.Stored(table, true, m.request.tag, m.buf)
    ensures MissFinishes(m, mi) == [Reply(m.request)] && EvictFinishes(e, ei) == []
  {
  }

  lemma MissStoreOverwrites(table: Table, m: H.Miss, tag: Tag, s: PtSet)
    requires MissSees(table, m) && m.phase.Moveback? && SetNumber(m.request.tag) == SetNumber(tag)
    ensures M.Stored(M.Stored(table, true, tag, s), true, m.request.tag, m.buf) == Applied(table, Reply(m.request))
    ensures Walk(table, m.request.tag).None?
  {
  }

  lemma ReplyKeeps(table: Table, r: H.MissRequest, tag: Tag)
    requires TableOk(table) && TagOk(r.tag) && r.tag != tag
    requires Displaced(table, r.tag).Some? ==> Displaced(table, r.tag).value.tag != tag
    ensures Walk(Applied(table, Reply(r)), tag) == Walk(table, tag)
  {
    MissReplyRefinesMap(table, r.tag, r.perm, r.ppn, tag);
  }

  lemma RemovedThenReplied(table: Table, tag: Tag, r: H.MissRequest)
    requires TableOk(table) && TagOk(tag) && TagOk(r.tag) && Walk(table, tag).Some? && r.tag != tag
    ensures Walk(AllApplied(table, [Removal(tag), Reply(r)]), tag).None?
  {
    var removed := Applied(table, Removal(tag));
    EvictRemovesOne(table, tag, tag);
    MissReplyRefinesMap(removed, r.tag, r.perm, r.ppn, tag);
    assert [Removal(tag), Reply(r)] == [Removal(tag)] + [Reply(r)];
    AppliedAppend(table, [Removal(tag)], [Reply(r)]);
    OneApplied(table, Removal(tag));
    OneApplied(removed, Reply(r));
  }

  /** If the miss handler stores first, its finished reply is lost: the page it inserted is not in the
      table afterwards, although nothing has evicted or displaced it. */
  lemma ReplyLost(table: Table, m: H.Miss, mi: H.MissInput, e: H.Evict, ei: H.EvictInput,
                  mi2: H.MissInput, ei2: H.EvictInput)
    requires BothReady(table, m, e) && mi.writeDone && !ei.writeDone && ei2.writeDone
    ensures var m', e' := H.MissNext(m, mi), H.EvictNext(e, ei);
      var table' := TableNext(table, m, mi, e, ei);
      var table2 := TableNext(table', m', mi2, e', ei2);
      && MissFinishes(m, mi) + EvictFinishes(e, ei) == [Reply(m.request)]
      && MissFinishes(m', mi2) + EvictFinishes(e', ei2) == [Removal(e.tag)]
      && Walk(AllApplied(table, [Reply(m.request), Removal(e.tag)]), m.request.tag) ==
         Some(H.NewItem(m.request).entry)
      && Walk(table2, m.request.tag).None?
  {
    MissStoresFirst(table, m, mi, e, ei);
    EvictStoresSecond(TableNext(table, m, mi, e, ei), H.MissNext(m, mi), mi2, e, ei2);
    EvictStoreOverwrites(table, e, m.request.tag, m.buf);
    MissStoreOverwrites(table, m, e.tag, e.buf);
    EvictRemovesOne(table, e.tag, m.request.tag);
    RepliedThenRemoved(table, m.request, e.tag);
  }

  lemma MissStoresFirst(table: Table, m: H.Miss, mi: H.MissInput, e: H.Evict, ei: H.EvictInput)
    requires H.MissInv(m) && H.EvictInv(e) && MissStores(m, mi) && e.phase.EUpdatePt? && !ei.writeDone
    ensures TableNext(table, m, mi, e, ei) == M.Stored(table, true, m.request.tag, m.buf)
    ensures MissFinishes(m, mi) == [Reply(m.request)] && EvictFinishes(e, ei) == []
    ensures H.EvictNext(e, ei) == e && (H.MissNext(m, mi).phase.Idle? || H.MissNext(m, mi).phase.ReplyTlb?)
  {
  }

  lemma EvictStoresSecond(table: Table, m: H.Miss, mi: H.MissInput, e: H.Evict, ei: H.EvictInput)
    requires (m.phase.Idle? || m.phase.ReplyTlb?) && EvictStores(e, ei)
    ensures TableNext(table, m, mi, e, ei) == M.Stored(table, true, e.tag, e.buf)
    ensures MissFinishes(m, mi) == [] && EvictFinishes(e, ei) == [Removal(e.tag)]
  {
  }

  lemma EvictStoreOverwrites(table: Table, e: H.Evict, tag: Tag, s: PtSet)
    requires EvictSees(table, e) && e.phase.EUpdatePt? && SetNumber(e.tag) == SetNumber(tag)
    ensures M.Stored(M.Stored(table, true, tag, s), true, e.tag, e.buf) == Applied(table, Removal(e.tag))
  {
  }

  lemma RepliedThenRemoved(table: Table, r: H.MissRequest, tag: Tag)
    requires TableOk(table) && TagOk(tag) && TagOk(r.tag) && r.tag != tag
    requires Walk(table, tag).Some? && Walk(table, r.tag).None?
    requires Displaced(table, r.tag).Some? ==> Displaced(table, r.tag).value.tag != tag
    ensures Walk(AllApplied(table, [Reply(r), Removal(tag)]), r.tag) == Some(H.NewItem(r).entry)
  {
    var replied := Applied(table, Reply(r));
    MissReplyRefinesMap(table, r.tag, r.perm, r.ppn, r.tag);
    MissReplyRefinesMap(table, r.tag, r.perm, r.ppn, tag);
    EvictRemovesOne(replied, tag, r.tag);
    assert [Reply(r), Removal(tag)] == [Reply(r)] + [Removal(tag)];
    AppliedAppend(table, [Reply(r)], [Removal(tag)]);
    OneApplied(table, Reply(r));
    OneApplied(replied, Removal(tag));
  }

  // --- A run that gets there from both handlers idle -----------------------------------------------------------

  predicate SomeCache(p: E.Params) {
    p.g.sets > 0 && p.g.sets != 2 && p.g.ways > 0
  }

  /** The page that is evicted is the table's only one; the one that is inserted belongs to the same set. */
  const GONE: Tag := Tag(0, 0)
  const REQUEST: H.MissRequest := H.MissRequest(Tag(1, 0), 0, 2, None)

  function OnePage(): Table {
    Store(map[], GONE, 0, D.Page(), false)
  }

  function OneSlot(): PtSet {
    WriteEntry(EmptySet(), 0, D.Page(), false)
  }

  /** The only set that is not empty. */
  ghost predicate HasPage(s: PtSet) {
    && UniqueTags(s) && HitV(s, GONE) && HitIndex(s, GONE) == 0 && s.ptes[0] == D.Page().entry
    && !HitV(s, REQUEST.tag) && !Full(s)
  }

  lemma OnePageTable()
    ensures TableOk(OnePage()) && SetOf(OnePage(), GONE) == OneSlot()
    ensures Walk(OnePage(), GONE) == Some(D.Page().entry) && Walk(OnePage(), REQUEST.tag).None?
  {
    var none: Table := map[];
    StoreExact(none, GONE, 0, D.Page().entry, false, GONE);
    StoreExact(none, GONE, 0, D.Page().entry, false, REQUEST.tag);
  }

  lemma OneSlotHasPage()
    ensures HasPage(OneSlot())
  {
    OnePageTable();
    assert UniqueTags(Load(OnePage(), 0));
    LookupExact(OneSlot(), GONE);
    assert Holds(OneSlot(), GONE, 0);
    assert !OneSlot().valids[1];
  }

  // Clocks: the eviction asks for the deletion; the flush is over; both handlers wait for their stores.
  const ASKED: nat := 3
  const WAITED: nat := 76
  const READY: nat := 78

  function MissAt(s: PtSet, n: nat): H.Miss {
    H.Miss(
      if n == 0 then H.Idle
      else if n == 1 then H.LoadSet
      else if n == 2 then H.CheckHit
      else if n == 3 then H.GetEvict
      else if n == 4 then H.Replace
      else H.Moveback,
      REQUEST, if n <= 4 then s else WriteEntry(s, TargetIndex(s), H.NewItem(REQUEST), false),
      false, LruItem(s), TargetIndex(s), s)
  }

  lemma MissAdvances(s: PtSet, n: nat, i: H.MissInput)
    requires HasPage(s) && i.request == Some(REQUEST) && i.readDone && i.fetched == s && !i.writeDone
    ensures H.MissNext(MissAt(s, n), i) == MissAt(s, n + 1)
  {
  }

  function EvictAt(s: PtSet, n: nat): H.Evict {
    H.Evict(
      if n == 0 then H.EIdle
      else if n == 1 then H.ELoadSet
      else if n == 2 then H.EGetEntry
      else if n == ASKED then H.EDeletePageReq
      else if n <= WAITED then H.EDeletePage
      else if n == WAITED + 1 then H.EFlushEntry
      else H.EUpdatePt,
      GONE, if n <= WAITED + 1 then s else WriteEntry(s, 0, D.Page(), true), D.Page(), 0, s)
  }

  lemma EvictAdvances(s: PtSet, n: nat, i: H.EvictInput)
    requires HasPage(s) && i.request == Some(GONE) && i.readDone && i.fetched == s && !i.writeDone
    requires (n == ASKED ==> i.deleteReady) && (ASKED < n <= WAITED ==> (i.deleteDone <==> n == WAITED))
    ensures H.EvictNext(EvictAt(s, n), i) == EvictAt(s, n + 1)
  {
  }

  function DeletorAt(n: nat): PD.State
    requires n <= READY
  {
    if n <= ASKED then D.DeletorAt(0)
    else if n <= WAITED then D.DeletorAt(n - ASKED)
    else PD.State(PD.Send, D.Page(), 0, 0)
  }

  /** The last clocks' state follows from the waiting state. */
  lemma DeletorAdvances(n: nat, i: PD.Input)
    requires n < READY && i.permReady && i.tlbReady && i.tlbReply == Some(PD.TlbReply(false, false)) && i.startReady
    requires i.flushReady && i.queueEmpty && !i.doneReady
    requires if n < ASKED then i.request.None? else n == ASKED ==> i.request == Some(D.Page())
    ensures PD.Next(DeletorAt(n), i) == DeletorAt(n + 1)
    ensures n < WAITED + 1 ==> (PD.Done(DeletorAt(n), i) <==> n == WAITED)
  {
    if ASKED <= n < WAITED {
      D.DeletorAdvances(n - ASKED, i);
    }
  }

  function SystemAt(p: E.Params, n: nat): E.System
    requires n <= READY
  {
    E.System(DeletorAt(n), AtReset(p.g), if n < ASKED then None else D.RegisterAt(n - ASKED), AtReset(p.g))
  }

  function StateAt(p: E.Params, n: nat): M.State
    requires n <= READY
  {
    M.State(OnePage(), MissAt(OneSlot(), n), EvictAt(OneSlot(), n), SystemAt(p, n))
  }

  /** What both stores see of the surroundings does not change; `miss` and `evict` say who may store. */
  function Surroundings(): E.Input {
    E.Input(None, true, true, Some(PD.TlbReply(false, false)), true, false, true, false, 0, [])
  }

  function InputOf(miss: bool, evict: bool): M.Input {
    M.Input(Some(REQUEST), true, miss, true, Some(GONE), true, evict, Surroundings())
  }

  /** The cache is empty: flushes pass through the register and find nothing. */
  lemma EmptyCacheClock(p: E.Params, n: nat, i: E.Input)
    requires SomeCache(p) && n < READY && i == Surroundings().(request := i.request)
    requires if n < ASKED then i.request.None? else n == ASKED ==> i.request == Some(D.Page())
    ensures var sys := SystemAt(p, n);
      && E.Possible(p, sys, i)
      && (sys.s1.Some? ==> C.CanAccess(p.g, sys.cache, sys.s1.value, 0))
      && E.Clock(p, sys, i) == SystemAt(p, n + 1)
      && (n < WAITED + 1 ==> (PD.Done(sys.pd, E.DeletorInput(p, sys, i)) <==> n == WAITED))
  {
    var sys := SystemAt(p, n);
    DeletorAdvances(n, E.DeletorInput(p, sys, i));
    if sys.s1.Some? {
      EmptyFlush(p.g, AtReset(p.g), sys.s1.value);
    }
  }

  lemma ClockAt(p: E.Params, n: nat)
    requires SomeCache(p) && n < READY
    ensures var i := InputOf(false, false);
      && M.Possible(p, StateAt(p, n), i)
      && M.Clock(p, StateAt(p, n), i) == StateAt(p, n + 1)
  {
    var st, i := StateAt(p, n), InputOf(false, false);
    OnePageTable();
    OneSlotHasPage();
    EmptyCacheClock(p, n, M.Surroundings(st, i));
    MissAdvances(OneSlot(), n, M.MissInput(p, st, i));
    EvictAdvances(OneSlot(), n, M.EvictInput(p, st, i));
  }

  /** From then on the deletor waits for the host to take its message. */
  lemma ReadyClock(p: E.Params, st: M.State, i: M.Input)
    requires SomeCache(p) && st.ev == SystemAt(p, READY) && i.surroundings == Surroundings()
    requires st.miss.target < ENTRIES && st.evict.index < ENTRIES
    ensures M.Possible(p, st, i) && M.Clock(p, st, i).ev == SystemAt(p, READY)
  {
  }

  lemma ReadyHandlers(table: Table, s: PtSet)
    requires HasPage(s) && TableOk(table) && SetOf(table, GONE) == s
    requires Walk(table, GONE).Some? && Walk(table, REQUEST.tag).None?
    ensures BothReady(table, MissAt(s, READY), EvictAt(s, READY))
  {
    assert SetOf(table, REQUEST.tag) == s;
  }

  lemma ReadyState(p: E.Params)
    ensures var st := StateAt(p, READY);
      BothReady(st.table, st.miss, st.evict) && st.evict.tag == GONE && st.miss.request == REQUEST
    ensures Walk(StateAt(p, READY).table, GONE).Some?
  {
    OnePageTable();
    OneSlotHasPage();
    ReadyHandlers(OnePage(), OneSlot());
  }

  ghost function FirstStored(p: E.Params, evictFirst: bool): M.State
    requires SomeCache(p)
  {
    ReadyClock(p, StateAt(p, READY), InputOf(!evictFirst, evictFirst));
    M.Clock(p, StateAt(p, READY), InputOf(!evictFirst, evictFirst))
  }

  /** READY clocks without a store ... */
  ghost predicate QuietPart(p: E.Params, run: seq<M.State>, inputs: seq<M.Input>) {
    && |run| == READY + 3 && |inputs| == READY + 2
    && (forall n :: 0 <= n <= READY ==> run[n] == StateAt(p, n))
    && (forall n :: 0 <= n < READY ==> inputs[n] == InputOf(false, false))
  }

  /** ... then one store after the other. */
  ghost predicate StoringPart(p: E.Params, run: seq<M.State>, inputs: seq<M.Input>, evictFirst: bool)
    requires SomeCache(p)
  {
    && |run| == READY + 3 && |inputs| == READY + 2
    && run[READY] == StateAt(p, READY)
    && inputs[READY] == InputOf(!evictFirst, evictFirst) && run[READY + 1] == FirstStored(p, evictFirst)
    && inputs[READY + 1] == InputOf(evictFirst, !evictFirst)
    && M.Possible(p, run[READY + 1], inputs[READY + 1])
    && run[READY + 2] == M.Clock(p, run[READY + 1], inputs[READY + 1])
  }

  ghost predicate IsScript(p: E.Params, run: seq<M.State>, inputs: seq<M.Input>, evictFirst: bool)
    requires SomeCache(p)
  {
    QuietPart(p, run, inputs) && StoringPart(p, run, inputs, evictFirst)
  }

  /** The clock from one state of a run to the next. */
  ghost predicate ClockIn(p: E.Params, run: seq<M.State>, inputs: seq<M.Input>, n: nat)
    requires n < |inputs| && n + 1 < |run|
  {
    M.Possible(p, run[n], inputs[n]) && run[n + 1] == M.Clock(p, run[n], inputs[n]) && TagsOkAt(p, run[n], inputs[n])
  }

  lemma StartsIdle(p: E.Params)
    requires SomeCache(p)
    ensures M.Started(p, StateAt(p, 0)) && TableOk(StateAt(p, 0).table)
  {
    ResetInitial(p.g);
    OnePageTable();
  }

  lemma InputTagged(p: E.Params, st: M.State, miss: bool, evict: bool)
    ensures TagsOkAt(p, st, InputOf(miss, evict))
  {
  }

  lemma QuietClocks(p: E.Params, n: nat)
    requires SomeCache(p) && n < READY
    ensures var st, i := StateAt(p, n), InputOf(false, false);
      M.Possible(p, st, i) && StateAt(p, n + 1) == M.Clock(p, st, i) && TagsOkAt(p, st, i)
  {
    ClockAt(p, n);
    InputTagged(p, StateAt(p, n), false, false);
  }

  lemma StoreClock(p: E.Params, evictFirst: bool)
    requires SomeCache(p)
    ensures var st, i := StateAt(p, READY), InputOf(!evictFirst, evictFirst);
      M.Possible(p, st, i) && FirstStored(p, evictFirst) == M.Clock(p, st, i) && TagsOkAt(p, st, i)
  {
    ReadyClock(p, StateAt(p, READY), InputOf(!evictFirst, evictFirst));
    InputTagged(p, StateAt(p, READY), !evictFirst, evictFirst);
  }

  lemma QuietPartClock(p: E.Params, run: seq<M.State>, inputs: seq<M.Input>, n: nat)
    requires SomeCache(p) && QuietPart(p, run, inputs) && n < READY
    ensures ClockIn(p, run, inputs, n)
  {
    QuietClocks(p, n);
  }

  lemma StoringPartClocks(p: E.Params, run: seq<M.State>, inputs: seq<M.Input>, evictFirst: bool)
    requires SomeCache(p) && StoringPart(p, run, inputs, evictFirst)
    ensures ClockIn(p, run, inputs, READY) && ClockIn(p, run, inputs, READY + 1)
  {
    StoreClock(p, evictFirst);
    InputTagged(p, run[READY + 1], evictFirst, !evictFirst);
  }

  lemma QuietPartClocks(p: E.Params, run: seq<M.State>, inputs: seq<M.Input>)
    requires SomeCache(p) && QuietPart(p, run, inputs)
    ensures forall n: nat :: n < READY ==> ClockIn(p, run, inputs, n)
    ensures M.Started(p, run[0]) && TableOk(run[0].table)
  {
    StartsIdle(p);
    forall n: nat | n < READY ensures ClockIn(p, run, inputs, n) {
      QuietPartClock(p, run, inputs, n);
    }
  }

  lemma ScriptIsRun(p: E.Params, run: seq<M.State>, inputs: seq<M.Input>, evictFirst: bool)
    requires SomeCache(p) && QuietPart(p, run, inputs) && StoringPart(p, run, inputs, evictFirst)
    ensures |run| == |inputs| + 1 && TaggedRun(p, run, inputs)
  {
    QuietPartClocks(p, run, inputs);
    StoringPartClocks(p, run, inputs, evictFirst);
    ClocksMakeRun(p, run, inputs);
  }

  lemma ClocksMakeRun(p: E.Params, run: seq<M.State>, inputs: seq<M.Input>)
    requires |run| == READY + 3 && |inputs| == READY + 2 && M.Started(p, run[0]) && TableOk(run[0].table)
    requires forall n: nat :: n < READY ==> ClockIn(p, run, inputs, n)
    requires ClockIn(p, run, inputs, READY) && ClockIn(p, run, inputs, READY + 1)
    ensures TaggedRun(p, run, inputs)
  {
    forall n | 0 <= n < |inputs|
      ensures M.Possible(p, run[n], inputs[n]) && run[n + 1] == M.Clock(p, run[n], inputs[n])
      ensures TagsOkAt(p, run[n], inputs[n])
    {
      assert ClockIn(p, run, inputs, n);
    }
  }

  lemma {:induction false} NothingIn<T>(part: nat -> seq<T>, n: nat)
    requires forall k: nat :: k < n ==> part(k) == []
    ensures Concat(part, n) == []
  {
    if n == 0 {
    } else {
      NothingIn(part, n - 1);
      assert part(n - 1) == [];
    }
  }

  lemma LastTwo<T>(part: nat -> seq<T>, n: nat)
    requires forall k: nat :: k < n ==> part(k) == []
    ensures Concat(part, n + 2) == part(n) + part(n + 1)
  {
    NothingIn(part, n);
    assert Concat(part, n + 1) == [] + part(n);
  }

  lemma QuietClock(p: E.Params, n: nat)
    requires n <= READY
    ensures FinishedAt(p, StateAt(p, n), InputOf(false, false)) == []
  {
  }

  /** What matters of the script: both handlers start idle, nothing is finished before the two stores. */
  ghost predicate TwoStores(p: E.Params, run: seq<M.State>, inputs: seq<M.Input>, evictFirst: bool) {
    var n := READY;
    && |run| == |inputs| + 1 && |inputs| == n + 2 && TaggedRun(p, run, inputs)
    && run[0].miss.phase.Idle? && run[0].evict.phase.EIdle? && run[0].table == run[n].table
    && BothReady(run[n].table, run[n].miss, run[n].evict)
    && run[n].evict.tag == GONE && run[n].miss.request == REQUEST && Walk(run[n].table, GONE).Some?
    && inputs[n].evictWriteDone == evictFirst && inputs[n].missWriteDone == !evictFirst
    && inputs[n + 1].evictWriteDone == !evictFirst && inputs[n + 1].missWriteDone == evictFirst
    && Finished(p, run, inputs, n + 2) == FinishedAt(p, run[n], inputs[n]) + FinishedAt(p, run[n + 1], inputs[n + 1])
  }

  lemma ScriptFinishes(p: E.Params, run: seq<M.State>, inputs: seq<M.Input>, evictFirst: bool)
    requires SomeCache(p) && IsScript(p, run, inputs, evictFirst)
    ensures Finished(p, run, inputs, READY + 2)
      == FinishedAt(p, run[READY], inputs[READY]) + FinishedAt(p, run[READY + 1], inputs[READY + 1])
  {
    var f := FinishedBy(p, run, inputs);
    forall k: nat | k < READY ensures f(k) == [] {
      QuietClock(p, k);
    }
    LastTwo(f, READY);
  }

  /** The script as a run, for either order of the two stores. */
  lemma Script(p: E.Params, evictFirst: bool) returns (run: seq<M.State>, inputs: seq<M.Input>)
    requires SomeCache(p)
    ensures IsScript(p, run, inputs, evictFirst)
  {
    var next, last := FirstStored(p, evictFirst), InputOf(evictFirst, !evictFirst);
    FirstStoredReady(p, evictFirst);
    run := seq(READY + 1, n requires 0 <= n <= READY => StateAt(p, n)) + [next, M.Clock(p, next, last)];
    inputs := seq(READY, n => InputOf(false, false)) + [InputOf(!evictFirst, evictFirst), last];
  }

  lemma ScriptStores(p: E.Params, run: seq<M.State>, inputs: seq<M.Input>, evictFirst: bool)
    requires SomeCache(p) && IsScript(p, run, inputs, evictFirst)
    ensures TwoStores(p, run, inputs, evictFirst)
  {
    ScriptIsRun(p, run, inputs, evictFirst);
    ScriptFinishes(p, run, inputs, evictFirst);
    ReadyState(p);
  }

  lemma FirstStoredReady(p: E.Params, evictFirst: bool)
    requires SomeCache(p)
    ensures M.Possible(p, FirstStored(p, evictFirst), InputOf(evictFirst, !evictFirst))
  {
    var st, i := StateAt(p, READY), InputOf(!evictFirst, evictFirst);
    ReadyClock(p, st, i);
    ReadyState(p);
    UnitClock(p, st, i);
    H.MissKeepsInv(st.miss, M.MissInput(p, st, i));
    H.EvictKeepsInv(st.evict, M.EvictInput(p, st, i));
    ReadyClock(p, FirstStored(p, evictFirst), InputOf(evictFirst, !evictFirst));
  }

  /** The two stores on the unit's clock. */
  lemma EvictionLostAt(p: E.Params, st: M.State, i: M.Input, st': M.State, i': M.Input, st2: M.State)
    requires BothReady(st.table, st.miss, st.evict) && !i.missWriteDone && i.evictWriteDone && i'.missWriteDone
    requires M.Possible(p, st, i) && st' == M.Clock(p, st, i)
    requires M.Possible(p, st', i') && st2 == M.Clock(p, st', i')
    ensures FinishedAt(p, st, i) == [Removal(st.evict.tag)] && FinishedAt(p, st', i') == [Reply(st.miss.request)]
    ensures Walk(AllApplied(st.table, [Removal(st.evict.tag), Reply(st.miss.request)]), st.evict.tag).None?
    ensures Walk(st2.table, st.evict.tag) == Walk(st.table, st.evict.tag)
  {
    UnitClock(p, st, i);
    UnitClock(p, st', i');
    EvictionLost(st.table, st.miss, M.MissInput(p, st, i), st.evict, M.EvictInput(p, st, i),
                 M.MissInput(p, st', i'), M.EvictInput(p, st', i'));
  }

  lemma ReplyLostAt(p: E.Params, st: M.State, i: M.Input, st': M.State, i': M.Input, st2: M.State)
    requires BothReady(st.table, st.miss, st.evict) && i.missWriteDone && !i.evictWriteDone && i'.evictWriteDone
    requires M.Possible(p, st, i) && st' == M.Clock(p, st, i)
    requires M.Possible(p, st', i') && st2 == M.Clock(p, st', i')
    ensures FinishedAt(p, st, i) == [Reply(st.miss.request)] && FinishedAt(p, st', i') == [Removal(st.evict.tag)]
    ensures Walk(AllApplied(st.table, [Reply(st.miss.request), Removal(st.evict.tag)]), st.miss.request.tag).Some?
    ensures Walk(st2.table, st.miss.request.tag).None?
  {
    UnitClock(p, st, i);
    UnitClock(p, st', i');
    ReplyLost(st.table, st.miss, M.MissInput(p, st, i), st.evict, M.EvictInput(p, st, i),
              M.MissInput(p, st', i'), M.EvictInput(p, st', i'));
  }

  lemma EvictionLostIn(p: E.Params, run: seq<M.State>, inputs: seq<M.Input>)
    requires TwoStores(p, run, inputs, true)
    ensures Finished(p, run, inputs, |inputs|) == [Removal(GONE), Reply(REQUEST)]
    ensures Walk(AllApplied(run[0].table, [Removal(GONE), Reply(REQUEST)]), GONE).None?
    ensures Walk(run[|inputs|].table, GONE).Some?
  {
    var n := READY;
    EvictionLostAt(p, run[n], inputs[n], run[n + 1], inputs[n + 1], run[n + 2]);
  }

  lemma ReplyLostIn(p: E.Params, run: seq<M.State>, inputs: seq<M.Input>)
    requires TwoStores(p, run, inputs, false)
    ensures Finished(p, run, inputs, |inputs|) == [Reply(REQUEST), Removal(GONE)]
    ensures Walk(AllApplied(run[0].table, [Reply(REQUEST), Removal(GONE)]), REQUEST.tag).Some?
    ensures Walk(run[|inputs|].table, REQUEST.tag).None?
  {
    var n := READY;
    ReplyLostAt(p, run[n], inputs[n], run[n + 1], inputs[n + 1], run[n + 2]);
  }

  /** Main result: there is a run from both handlers idle in which an eviction and then a miss reply have
      finished, and the evicted page is in the table. */
  lemma RunLosesEviction(p: E.Params) returns (run: seq<M.State>, inputs: seq<M.Input>)
    requires SomeCache(p)
    ensures |run| == |inputs| + 1 && TaggedRun(p, run, inputs)
    ensures run[0].miss.phase.Idle? && run[0].evict.phase.EIdle?
    ensures var done := Finished(p, run, inputs, |inputs|);
      && done == [Removal(GONE), Reply(REQUEST)]
      && Walk(AllApplied(run[0].table, done), GONE).None? && Walk(run[|inputs|].table, GONE).Some?
  {
    run, inputs := Script(p, true);
    ScriptStores(p, run, inputs, true);
    EvictionLostIn(p, run, inputs);
  }

  /** ... and one in which a miss reply and then an eviction have finished, and the inserted page is not. */
  lemma RunLosesReply(p: E.Params) returns (run: seq<M.State>, inputs: seq<M.Input>)
    requires SomeCache(p)
    ensures |run| == |inputs| + 1 && TaggedRun(p, run, inputs)
    ensures run[0].miss.phase.Idle? && run[0].evict.phase.EIdle?
    ensures var done := Finished(p, run, inputs, |inputs|);
      && done == [Reply(REQUEST), Removal(GONE)]
      && Walk(AllApplied(run[0].table, done), REQUEST.tag).Some? && Walk(run[|inputs|].table, REQUEST.tag).None?
  {
    run, inputs := Script(p, false);
    ScriptStores(p, run, inputs, false);
    ReplyLostIn(p, run, inputs);
  }
}

/** The two handlers, the page deletor with its cache, and the page table, all on one clock. The
    handlers share the deletor: its requests are arbitrated, its completion pulse goes to both. */
module Mmu {
  import opened Wrappers
  import opened PageTypes
  import opened PageTable
  import H = Handlers
  import PD = PageDeletor
  import C = Cache
  import E = Eviction

  datatype State = State(table: Table, miss: H.Miss, evict: H.Evict, ev: E.System)

  datatype Input = Input(
    missRequest: Option<H.MissRequest>, missReadDone: bool, missWriteDone: bool, missTlbReady: bool,
    evictRequest: Option<Tag>, evictReadDone: bool, evictWriteDone: bool,
    surroundings: E.Input)

  // --- Wiring ------------------------------------------------------------------------------------

  predicate MissAsks(st: State) {
    st.miss.phase.DeletePageReq?
  }

  predicate EvictAsks(st: State) {
    st.evict.phase.EDeletePageReq?
  }

  /** The manual arbiter: the miss handler goes first. */
  function DeleteRequest(st: State): Option<Item> {
    if MissAsks(st) then Some(st.miss.victim) else if EvictAsks(st) then Some(st.evict.victim) else None
  }

  predicate DeletorReady(st: State) {
    st.ev.pd.phase.Idle?
  }

  function Surroundings(st: State, i: Input): E.Input {
    i.surroundings.(request := DeleteRequest(st))
  }

  predicate DonePulse(p: E.Params, st: State, i: Input) {
    PD.Done(st.ev.pd, E.DeletorInput(p, st.ev, Surroundings(st, i)))
  }

  function MissInput(p: E.Params, st: State, i: Input): H.MissInput {
    H.MissInput(i.missRequest, i.missReadDone, SetOf(st.table, st.miss.request.tag),
                DeletorReady(st), DonePulse(p, st, i), i.missWriteDone, i.missTlbReady)
  }

  function EvictInput(p: E.Params, st: State, i: Input): H.EvictInput {
    H.EvictInput(i.evictRequest, i.evictReadDone, SetOf(st.table, st.evict.tag),
                 DeletorReady(st) && !MissAsks(st), DonePulse(p, st, i), i.evictWriteDone)
  }

  function Stored(table: Table, write: bool, tag: Tag, s: PtSet): Table {
    if write then table[SetNumber(tag) := s] else table
  }

  ghost predicate Possible(p: E.Params, st: State, i: Input) {
    && E.Possible(p, st.ev, Surroundings(st, i))
    && (st.ev.s1.Some? ==> C.CanAccess(p.g, st.ev.cache, st.ev.s1.value, i.surroundings.victim))
    && st.miss.target < ENTRIES && st.evict.index < ENTRIES
  }

  ghost function Clock(p: E.Params, st: State, i: Input): State
    requires Possible(p, st, i)
  {
    State(
      Stored(Stored(st.table, st.miss.phase.Moveback? && i.missWriteDone, st.miss.request.tag, st.miss.buf),
             st.evict.phase.EUpdatePt? && i.evictWriteDone, st.evict.tag, st.evict.buf),
      H.MissNext(st.miss, MissInput(p, st, i)),
      H.EvictNext(st.evict, EvictInput(p, st, i)),
      E.Clock(p, st.ev, Surroundings(st, i)))
  }

  // --- Who the deletor works for ---------------------------------------------------------------------

  /** The same page; the modified bit may have been updated from the TLB meanwhile. */
  predicate SamePage(a: Item, b: Item) {
    a.tag == b.tag && a.entry.(modified := false) == b.entry.(modified := false)
  }

  predicate MissWaits(d: PD.State, m: H.Miss) {
    m.phase.DeletePage? && SamePage(m.victim, d.item)
  }

  predicate EvictWaits(d: PD.State, e: H.Evict) {
    e.phase.EDeletePage? && SamePage(e.victim, d.item)
  }

  predicate NoneWaits(m: H.Miss, e: H.Evict) {
    !m.phase.DeletePage? && !e.phase.EDeletePage?
  }

  /** Exactly one handler waits, and the deletor has that handler's victim. */
  predicate OneWaits(d: PD.State, m: H.Miss, e: H.Evict) {
    || (MissWaits(d, m) && !e.phase.EDeletePage?)
    || (EvictWaits(d, e) && !m.phase.DeletePage?)
  }

  predicate Ownership(d: PD.State, m: H.Miss, e: H.Evict) {
    match d.phase
    case Idle => NoneWaits(m, e)
    case NotifyLsu => NoneWaits(m, e)
    case Send => if d.item.entry.modified then OneWaits(d, m, e) else NoneWaits(m, e)
    case _ => OneWaits(d, m, e)
  }

  /** How the handlers and the deletor see each other in one clock. */
  predicate Wired(d: PD.State, i: PD.Input, m: H.Miss, mi: H.MissInput, e: H.Evict, ei: H.EvictInput) {
    && i.request == (if m.phase.DeletePageReq? then Some(m.victim)
                     else if e.phase.EDeletePageReq? then Some(e.victim) else None)
    && mi.deleteReady == d.phase.Idle?
    && ei.deleteReady == (d.phase.Idle? && !m.phase.DeletePageReq?)
    && mi.deleteDone == ei.deleteDone == PD.Done(d, i)
    && m.target < ENTRIES && e.index < ENTRIES
  }

  /** Accepting a request makes its sender the one that waits. */
  lemma AcceptingKeepsOwnership(d: PD.State, i: PD.Input, m: H.Miss, mi: H.MissInput, e: H.Evict, ei: H.EvictInput)
    requires Ownership(d, m, e) && Wired(d, i, m, mi, e, ei) && d.phase.Idle?
    ensures Ownership(PD.Next(d, i), H.MissNext(m, mi), H.EvictNext(e, ei))
  {
    var d', m', e' := PD.Next(d, i), H.MissNext(m, mi), H.EvictNext(e, ei);
    if i.request.Some? {
      assert d'.phase.ReqLsu? && d'.item == i.request.value;
      if m.phase.DeletePageReq? {
        assert MissWaits(d', m') && !e'.phase.EDeletePage?;
      } else {
        assert EvictWaits(d', e') && !m'.phase.DeletePage?;
      }
    } else {
      assert d'.phase.Idle? && NoneWaits(m', e');
    }
  }

  lemma MissWaitsOn(m: H.Miss, mi: H.MissInput)
    requires m.target < ENTRIES && !mi.deleteReady
    ensures H.MissNext(m, mi).phase.DeletePage? <==> m.phase.DeletePage? && !mi.deleteDone
    ensures m.phase.DeletePage? ==> H.MissNext(m, mi).victim == m.victim
  {
  }

  lemma EvictWaitsOn(e: H.Evict, ei: H.EvictInput)
    requires e.index < ENTRIES && !ei.deleteReady
    ensures H.EvictNext(e, ei).phase.EDeletePage? <==> e.phase.EDeletePage? && !ei.deleteDone
    ensures e.phase.EDeletePage? ==> H.EvictNext(e, ei).victim == e.victim
  {
  }

  /** A working deletor keeps its page; the modified bit changes only before the page is flushed. */
  lemma PageStays(d: PD.State, i: PD.Input)
    requires !d.phase.Idle?
    ensures forall x: Item :: SamePage(x, d.item) == SamePage(x, PD.Next(d, i).item)
    ensures !d.phase.FlushTlbReply? ==> PD.Next(d, i).item == d.item
  {
  }

  /** While the deletor works, nobody starts to wait, and the one that waits stops at a pulse only. */
  lemma WorkingKeepsOwnership(d: PD.State, i: PD.Input, d': PD.State, m: H.Miss, m': H.Miss, e: H.Evict, e': H.Evict)
    requires Ownership(d, m, e) && !d.phase.Idle?
    requires d'.phase == PD.NextPhase(d, i)
    requires !d.phase.FlushTlbReply? ==> d'.item == d.item
    requires SamePage(m.victim, d.item) == SamePage(m.victim, d'.item)
    requires SamePage(e.victim, d.item) == SamePage(e.victim, d'.item)
    requires m'.phase.DeletePage? <==> m.phase.DeletePage? && !PD.Done(d, i)
    requires e'.phase.EDeletePage? <==> e.phase.EDeletePage? && !PD.Done(d, i)
    requires m.phase.DeletePage? ==> m'.victim == m.victim
    requires e.phase.EDeletePage? ==> e'.victim == e.victim
    ensures Ownership(d', m', e')
  {
  }

  ghost predicate Inv(p: E.Params, st: State) {
    && E.SysInv(p, st.ev)
    && H.MissInv(st.miss) && H.EvictInv(st.evict)
    && Ownership(st.ev.pd, st.miss, st.evict)
  }

  lemma ClockKeepsInv(p: E.Params, st: State, i: Input)
    requires Inv(p, st) && Possible(p, st, i) && p.depth >= 2
    ensures Inv(p, Clock(p, st, i))
  {
    E.ClockKeepsInv(p, st.ev, Surroundings(st, i));
    H.MissKeepsInv(st.miss, MissInput(p, st, i));
    H.EvictKeepsInv(st.evict, EvictInput(p, st, i));
    var d := E.DeletorInput(p, st.ev, Surroundings(st, i));
    if DeletorReady(st) {
      AcceptingKeepsOwnership(st.ev.pd, d, st.miss, MissInput(p, st, i), st.evict, EvictInput(p, st, i));
    } else {
      var mi, ei := MissInput(p, st, i), EvictInput(p, st, i);
      MissWaitsOn(st.miss, mi);
      EvictWaitsOn(st.evict, ei);
      PageStays(st.ev.pd, d);
      WorkingKeepsOwnership(st.ev.pd, d, PD.Next(st.ev.pd, d), st.miss, H.MissNext(st.miss, mi),
                            st.evict, H.EvictNext(st.evict, ei));
    }
  }

  ghost predicate Started(p: E.Params, st: State) {
    && E.Started(p, st.ev)
    && st.miss.phase.Idle? && st.miss.target < ENTRIES
    && st.evict.phase.EIdle? && st.evict.index < ENTRIES
  }

  ghost predicate IsRun(p: E.Params, run: seq<State>, inputs: seq<Input>)
    requires |run| == |inputs| + 1
  {
    && Started(p, run[0])
    && forall n :: 0 <= n < |inputs| ==> Possible(p, run[n], inputs[n]) && run[n + 1] == Clock(p, run[n], inputs[n])
  }

  lemma {:induction false} RunInv(p: E.Params, run: seq<State>, inputs: seq<Input>, n: nat)
    requires |run| == |inputs| + 1 && IsRun(p, run, inputs) && p.depth >= 2 && n < |run|
    ensures Inv(p, run[n])
  {
    if n == 0 {
    } else {
      RunInv(p, run, inputs, n - 1);
      ClockKeepsInv(p, run[n - 1], inputs[n - 1]);
    }
  }

  /** Main result, exclusion: at no time do both handlers wait, and while one waits the deletor is at
      work on exactly that handler's victim. */
  lemma AtMostOneWaits(p: E.Params, run: seq<State>, inputs: seq<Input>, n: nat)
    requires |run| == |inputs| + 1 && IsRun(p, run, inputs) && p.depth >= 2 && n < |run|
    ensures !(run[n].miss.phase.DeletePage? && run[n].evict.phase.EDeletePage?)
    ensures run[n].miss.phase.DeletePage? ==>
      !run[n].ev.pd.phase.Idle? && SamePage(run[n].miss.victim, run[n].ev.pd.item)
    ensures run[n].evict.phase.EDeletePage? ==>
      !run[n].ev.pd.phase.Idle? && SamePage(run[n].evict.victim, run[n].ev.pd.item)
  {
    RunInv(p, run, inputs, n);
  }

  /** The 64 blocks of a page are in DRAM, with the value they had when the flush was granted. */
  ghost predicate Deleted(p: E.Params, st: State, page: Item)
    requires p.g.sets > 0
  {
    forall k :: 0 <= k < PD.BLOCKS_PER_PAGE ==>
      var b := E.PageBlock(page, k);
      && !C.Cached(p.g, st.ev.cache, b)
      && C.Get(st.ev.cache.dram, b) == C.View(p.g, st.ev.atGrant, b)
  }

  lemma PulseMeansInDram(p: E.Params, st: State, i: Input)
    requires E.SysInv(p, st.ev) && p.depth >= 2 && DonePulse(p, st, i)
    ensures p.g.sets > 0 && E.PageInDram(p, st.ev)
  {
    if st.ev.pd.phase.Wait? {
      E.EmptyFlagSound(p, st.ev);
    }
  }

  lemma SamePageDeleted(p: E.Params, st: State, victim: Item)
    requires p.g.sets > 0 && E.PageInDram(p, st.ev) && SamePage(victim, st.ev.pd.item)
    ensures Deleted(p, st, victim)
  {
    forall k: nat ensures E.PageBlock(victim, k) == E.PageBlock(st.ev.pd.item, k) {
    }
  }

  /** A handler stops waiting at a pulse only, and then the deletor has its victim. */
  lemma StopsAtPulse(p: E.Params, st: State, i: Input)
    requires Inv(p, st) && Possible(p, st, i)
    ensures st.miss.phase.DeletePage? && !Clock(p, st, i).miss.phase.DeletePage? ==>
      DonePulse(p, st, i) && SamePage(st.miss.victim, st.ev.pd.item)
    ensures st.evict.phase.EDeletePage? && !Clock(p, st, i).evict.phase.EDeletePage? ==>
      DonePulse(p, st, i) && SamePage(st.evict.victim, st.ev.pd.item)
  {
  }

  /** Main result, no borrowed pulse: the completion pulse comes twice for an unmodified page, yet a
      handler that stops waiting does so with its own victim deleted and safe in DRAM. */
  lemma ContinuesOnlyAfterOwnDeletion(p: E.Params, run: seq<State>, inputs: seq<Input>, n: nat)
    requires |run| == |inputs| + 1 && IsRun(p, run, inputs) && p.depth >= 2 && n < |inputs|
    ensures p.g.sets > 0
    ensures run[n].miss.phase.DeletePage? && !run[n + 1].miss.phase.DeletePage? ==>
      Deleted(p, run[n], run[n].miss.victim)
    ensures run[n].evict.phase.EDeletePage? && !run[n + 1].evict.phase.EDeletePage? ==>
      Deleted(p, run[n], run[n].evict.victim)
  {
    RunInv(p, run, inputs, n);
    var st := run[n];
    StopsAtPulse(p, st, inputs[n]);
    if DonePulse(p, st, inputs[n]) {
      PulseMeansInDram(p, st, inputs[n]);
      if SamePage(st.miss.victim, st.ev.pd.item) {
        SamePageDeleted(p, st, st.miss.victim);
      }
      if SamePage(st.evict.victim, st.ev.pd.item) {
        SamePageDeleted(p, st, st.evict.victim);
      }
    }
  }
}

/** The page table over whole runs of the unit: a map that takes one step for each finished transaction,
    exactly as long as no clock is harmful. */
module PageTableRuns {
  import opened Wrappers
  import opened PageTypes
  import opened PageTable
  import opened PageTableClock
  import H = Handlers
  import M = Mmu
  import E = Eviction

  // --- Runs of the whole unit ------------------------------------------------------------------------

  // --- Harmful clocks -----------------------------------------------------------------------------------

  predicate TagsOkAt(p: E.Params, st: M.State, i: M.Input) {
    TagsOk(M.MissInput(p, st, i), M.EvictInput(p, st, i))
  }

  predicate HarmlessAt(p: E.Params, st: M.State, i: M.Input) {
    Harmless(st.miss, M.MissInput(p, st, i), st.evict, M.EvictInput(p, st, i))
  }

  ghost predicate ExactAt(p: E.Params, st: M.State, i: M.Input)
    requires M.Possible(p, st, i)
  {
    Exact(st.table, st.miss, M.MissInput(p, st, i), st.evict, M.EvictInput(p, st, i))
  }

  /** Messages carry proper tags, and the table is well formed at the start. */
  ghost predicate TaggedRun(p: E.Params, run: seq<M.State>, inputs: seq<M.Input>)
    requires |run| == |inputs| + 1
  {
    && M.IsRun(p, run, inputs) && TableOk(run[0].table)
    && forall n :: 0 <= n < |inputs| ==> TagsOkAt(p, run[n], inputs[n])
  }

  ghost predicate HarmlessRun(p: E.Params, run: seq<M.State>, inputs: seq<M.Input>)
    requires |run| == |inputs| + 1
  {
    TaggedRun(p, run, inputs) && forall n :: 0 <= n < |inputs| ==> HarmlessAt(p, run[n], inputs[n])
  }

  /** The first n parts, one after the other. */
  function Concat<T>(part: nat -> seq<T>, n: nat): seq<T> {
    if n == 0 then [] else Concat(part, n - 1) + part(n - 1)
  }

  /** What is finished in each clock. */
  function FinishedBy(p: E.Params, run: seq<M.State>, inputs: seq<M.Input>): nat -> seq<Transaction> {
    (k: nat) => if k < |run| && k < |inputs| then FinishedAt(p, run[k], inputs[k]) else []
  }

  /** The transactions finished before clock n, in order. */
  function Finished(p: E.Params, run: seq<M.State>, inputs: seq<M.Input>, n: nat): seq<Transaction> {
    Concat(FinishedBy(p, run, inputs), n)
  }

  lemma FinishedNext(p: E.Params, run: seq<M.State>, inputs: seq<M.Input>, n: nat)
    requires n < |inputs| && n < |run|
    ensures Finished(p, run, inputs, n + 1) == Finished(p, run, inputs, n) + FinishedAt(p, run[n], inputs[n])
  {
  }

  function FinishedAt(p: E.Params, st: M.State, i: M.Input): seq<Transaction> {
    MissFinishes(st.miss, M.MissInput(p, st, i)) + EvictFinishes(st.evict, M.EvictInput(p, st, i))
  }

  lemma UnitClock(p: E.Params, st: M.State, i: M.Input)
    requires M.Possible(p, st, i)
    ensures var mi, ei := M.MissInput(p, st, i), M.EvictInput(p, st, i);
      var st' := M.Clock(p, st, i);
      && st'.table == TableNext(st.table, st.miss, mi, st.evict, ei)
      && st'.miss == H.MissNext(st.miss, mi) && st'.evict == H.EvictNext(st.evict, ei)
      && Fetching(st.table, st.miss, mi, st.evict, ei)
  {
  }

  lemma UnitClockExact(p: E.Params, st: M.State, i: M.Input)
    requires M.Possible(p, st, i) && Inv(st.table, st.miss, st.evict) && TagsOkAt(p, st, i)
    ensures ExactAt(p, st, i) <==> HarmlessAt(p, st, i)
    ensures ExactAt(p, st, i) ==>
      var st' := M.Clock(p, st, i);
      && Inv(st'.table, st'.miss, st'.evict)
      && st'.table == AllApplied(st.table, FinishedAt(p, st, i))
  {
    UnitClock(p, st, i);
    ClockExactIff(st.table, st.miss, M.MissInput(p, st, i), st.evict, M.EvictInput(p, st, i));
  }

  lemma StartsWell(p: E.Params, run: seq<M.State>, inputs: seq<M.Input>)
    requires |run| == |inputs| + 1 && TaggedRun(p, run, inputs)
    ensures Inv(run[0].table, run[0].miss, run[0].evict)
  {
  }

  /** Main result: in every run without a harmful clock the table stays well formed, each handler works on
      its set as it is, and the table is what the finished transactions, one after the other, make of the
      table at the start. */
  lemma {:induction false} TableFollowsTransactions(p: E.Params, run: seq<M.State>, inputs: seq<M.Input>, n: nat)
    requires |run| == |inputs| + 1 && HarmlessRun(p, run, inputs) && n <= |inputs|
    ensures Inv(run[n].table, run[n].miss, run[n].evict)
    ensures run[n].table == AllApplied(run[0].table, Finished(p, run, inputs, n))
  {
    if n == 0 {
      StartsWell(p, run, inputs);
    } else {
      TableFollowsTransactions(p, run, inputs, n - 1);
      UnitClockExact(p, run[n - 1], inputs[n - 1]);
      FinishedNext(p, run, inputs, n - 1);
      AppliedAppend(run[0].table, Finished(p, run, inputs, n - 1), FinishedAt(p, run[n - 1], inputs[n - 1]));
    }
  }

  /** Before the first clock that is not exact, handlers and table agree. */
  lemma {:induction false} ExactSoFar(p: E.Params, run: seq<M.State>, inputs: seq<M.Input>, n: nat)
    requires |run| == |inputs| + 1 && TaggedRun(p, run, inputs) && n <= |inputs|
    requires forall k :: 0 <= k < n ==> ExactAt(p, run[k], inputs[k])
    ensures Inv(run[n].table, run[n].miss, run[n].evict)
  {
    if n == 0 {
      StartsWell(p, run, inputs);
    } else {
      ExactSoFar(p, run, inputs, n - 1);
      UnitClockExact(p, run[n - 1], inputs[n - 1]);
    }
  }

  /** Main result, exactly: every clock of a run takes its transactions' steps and keeps both copies
      current if and only if no clock of it is harmful. */
  lemma RunExactIff(p: E.Params, run: seq<M.State>, inputs: seq<M.Input>)
    requires |run| == |inputs| + 1 && TaggedRun(p, run, inputs)
    ensures (forall n :: 0 <= n < |inputs| ==> ExactAt(p, run[n], inputs[n])) <==> HarmlessRun(p, run, inputs)
  {
    if HarmlessRun(p, run, inputs) {
      forall n | 0 <= n < |inputs| ensures ExactAt(p, run[n], inputs[n]) {
        TableFollowsTransactions(p, run, inputs, n);
        UnitClockExact(p, run[n], inputs[n]);
      }
    }
    if forall n :: 0 <= n < |inputs| ==> ExactAt(p, run[n], inputs[n]) {
      forall n | 0 <= n < |inputs| ensures HarmlessAt(p, run[n], inputs[n]) {
        ExactSoFar(p, run, inputs, n);
        UnitClockExact(p, run[n], inputs[n]);
      }
    }
  }

  /** ... and what a walk finds then is the map after those transactions: tags stay unique and in their
      own set, so a lookup names the one slot that holds the tag. */
  lemma WalkFindsMap(p: E.Params, run: seq<M.State>, inputs: seq<M.Input>, n: nat, tag: Tag)
    requires |run| == |inputs| + 1 && HarmlessRun(p, run, inputs) && n <= |inputs|
    ensures Walk(run[n].table, tag).Some? <==> exists i :: Holds(SetOf(run[n].table, tag), tag, i)
    ensures forall i, j :: Holds(SetOf(run[n].table, tag), tag, i) && Holds(SetOf(run[n].table, tag), tag, j) ==> i == j
    ensures Walk(run[n].table, tag) == Walk(AllApplied(run[0].table, Finished(p, run, inputs, n)), tag)
  {
    TableFollowsTransactions(p, run, inputs, n);
    assert UniqueTags(Load(run[n].table, SetNumber(tag)));
    LookupExact(SetOf(run[n].table, tag), tag);
  }

  lemma IdleHarmless(p: E.Params, st: M.State, i: M.Input)
    requires st.miss.phase.Idle? || st.evict.phase.EIdle?
    ensures HarmlessAt(p, st, i)
  {
  }

  /** In particular in every run in which the handlers run one at a time. */
  lemma OneAtATime(p: E.Params, run: seq<M.State>, inputs: seq<M.Input>, n: nat)
    requires |run| == |inputs| + 1 && TaggedRun(p, run, inputs) && n <= |inputs|
    requires forall k :: 0 <= k < |inputs| ==> run[k].miss.phase.Idle? || run[k].evict.phase.EIdle?
    ensures TableOk(run[n].table)
    ensures run[n].table == AllApplied(run[0].table, Finished(p, run, inputs, n))
  {
    forall k | 0 <= k < |inputs| ensures HarmlessAt(p, run[k], inputs[k]) {
      IdleHarmless(p, run[k], inputs[k]);
    }
    TableFollowsTransactions(p, run, inputs, n);
  }

  // --- What each handler does ----------------------------------------------------------------------------

  lemma StoresReply(table: Table, m: H.Miss, mi: H.MissInput, e: H.Evict, ei: H.EvictInput)
    requires Inv(table, m, e) && Exact(table, m, mi, e, ei) && MissStores(m, mi)
    ensures var replied := Applied(table, Reply(m.request));
      TableNext(table, m, mi, e, ei) == if EvictStores(e, ei) then Applied(replied, Removal(e.tag)) else replied
  {
    AppliedAppend(table, [Reply(m.request)], EvictFinishes(e, ei));
    OneApplied(table, Reply(m.request));
    OneApplied(Applied(table, Reply(m.request)), Removal(e.tag));
  }

  lemma StoresRemoval(table: Table, m: H.Miss, mi: H.MissInput, e: H.Evict, ei: H.EvictInput)
    requires Inv(table, m, e) && Exact(table, m, mi, e, ei) && EvictStores(e, ei)
    ensures TableNext(table, m, mi, e, ei) ==
      Applied(if MissStores(m, mi) then Applied(table, Reply(m.request)) else table, Removal(e.tag))
  {
    if MissStores(m, mi) {
      StoresReply(table, m, mi, e, ei);
    } else {
      EvictAlone(table, e, ei);
      OneApplied(table, Removal(e.tag));
    }
  }

  lemma DeletesDisplaced(table: Table, m: H.Miss)
    requires MissSees(table, m) && m.phase.DeletePage?
    ensures Displaced(table, m.request.tag) == Some(m.victim)
  {
  }

  lemma KeepsPresent(table: Table, m: H.Miss, i: H.MissInput)
    requires MissSees(table, m) && m.phase.CheckHit?
    ensures H.MissNext(m, i).phase.GetEvict? <==> Walk(table, m.request.tag).None?
    ensures Walk(table, m.request.tag).Some? ==> Applied(table, Reply(m.request)) == table
  {
  }

  /** When the miss handler finishes its store, the table has taken the map's miss-reply step (and that of
      an eviction finished in the same clock). */
  lemma MissHandlerStoresReply(p: E.Params, run: seq<M.State>, inputs: seq<M.Input>, n: nat)
    requires |run| == |inputs| + 1 && HarmlessRun(p, run, inputs) && n < |inputs|
    requires MissStores(run[n].miss, M.MissInput(p, run[n], inputs[n]))
    ensures var replied := Applied(run[n].table, Reply(run[n].miss.request));
      run[n + 1].table ==
        if EvictStores(run[n].evict, M.EvictInput(p, run[n], inputs[n]))
        then Applied(replied, Removal(run[n].evict.tag))
        else replied
  {
    var st, i := run[n], inputs[n];
    TableFollowsTransactions(p, run, inputs, n);
    UnitClock(p, st, i);
    UnitClockExact(p, st, i);
    StoresReply(st.table, st.miss, M.MissInput(p, st, i), st.evict, M.EvictInput(p, st, i));
  }

  /** The page it waits to be deleted is the one the map's step displaces. */
  lemma MissHandlerDeletesDisplaced(p: E.Params, run: seq<M.State>, inputs: seq<M.Input>, n: nat)
    requires |run| == |inputs| + 1 && HarmlessRun(p, run, inputs) && n <= |inputs|
    requires run[n].miss.phase.DeletePage?
    ensures Displaced(run[n].table, run[n].miss.request.tag) == Some(run[n].miss.victim)
  {
    var st := run[n];
    TableFollowsTransactions(p, run, inputs, n);
    DeletesDisplaced(st.table, st.miss);
  }

  /** It goes on to insert exactly when the key is absent; a present key leaves the map alone. */
  lemma MissHandlerKeepsPresent(p: E.Params, run: seq<M.State>, inputs: seq<M.Input>, n: nat)
    requires |run| == |inputs| + 1 && HarmlessRun(p, run, inputs) && n < |inputs|
    requires run[n].miss.phase.CheckHit?
    ensures run[n + 1].miss.phase.GetEvict? <==> Walk(run[n].table, run[n].miss.request.tag).None?
    ensures Walk(run[n].table, run[n].miss.request.tag).Some? ==>
      Applied(run[n].table, Reply(run[n].miss.request)) == run[n].table
  {
    TableFollowsTransactions(p, run, inputs, n);
    UnitClock(p, run[n], inputs[n]);
    KeepsPresent(run[n].table, run[n].miss, M.MissInput(p, run[n], inputs[n]));
  }

  /** When the evict handler finishes its store, the table has taken the map's eviction step (after that of
      a miss reply finished in the same clock). */
  lemma EvictHandlerStoresRemoval(p: E.Params, run: seq<M.State>, inputs: seq<M.Input>, n: nat)
    requires |run| == |inputs| + 1 && HarmlessRun(p, run, inputs) && n < |inputs|
    requires EvictStores(run[n].evict, M.EvictInput(p, run[n], inputs[n]))
    ensures var st := run[n];
      var before := if MissStores(st.miss, M.MissInput(p, st, inputs[n])) then Applied(st.table, Reply(st.miss.request))
                    else st.table;
      run[n + 1].table == Applied(before, Removal(st.evict.tag))
  {
    var st, i := run[n], inputs[n];
    TableFollowsTransactions(p, run, inputs, n);
    UnitClock(p, st, i);
    UnitClockExact(p, st, i);
    StoresRemoval(st.table, st.miss, M.MissInput(p, st, i), st.evict, M.EvictInput(p, st, i));
  }
}

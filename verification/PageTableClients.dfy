/** All four clients of the page table on one table: the two host-driven handlers, the writeback from the
    TLBs, and the page walker. */
module PageTableClients {
  import opened Wrappers
  import opened PageTypes
  import opened PageTable
  import opened PageTableClock
  import H = Handlers
  import M = Mmu
  import T = TlbHandlers

  datatype State = State(table: Table, miss: H.Miss, evict: H.Evict, back: T.Writeback, walker: T.Walker)

  datatype Input = Input(miss: H.MissInput, evict: H.EvictInput, back: T.WritebackInput, walker: T.WalkInput)

  // --- The writeback handler among the others ------------------------------------------------------

  predicate BackFetches(w: T.Writeback, i: T.WritebackInput) {
    w.phase.WMoveIn? && i.readDone
  }

  predicate BackHolds(w: T.Writeback) {
    w.phase.WPick? || w.phase.WUpdate? || w.phase.WMoveOut?
  }

  predicate BackStores(w: T.Writeback, i: T.WritebackInput) {
    w.phase.WMoveOut? && i.writeDone
  }

  function BackFinishes(w: T.Writeback, i: T.WritebackInput): seq<Transaction> {
    if BackStores(w, i) then [Back(w.request)] else []
  }

  /** The registers in terms of the set as it is. */
  ghost predicate BackSees(table: Table, w: T.Writeback) {
    && T.WritebackInv(T.System(w, table))
    && (!w.phase.WIdle? ==> TagOk(w.request.tag))
  }

  predicate SameSet(a: Tag, b: Tag) {
    SetNumber(a) == SetNumber(b)
  }

  /** The writeback handler stores the set another handler fetches or works on, or the other way round. */
  predicate BackDisturbs(st: State, i: Input) {
    var w := st.back;
    || (SameSet(w.request.tag, st.miss.request.tag) &&
        (|| (BackStores(w, i.back) && (MissFetches(st.miss, i.miss) || MissHolds(st.miss)))
         || (MissStores(st.miss, i.miss) && (BackFetches(w, i.back) || BackHolds(w)))))
    || (SameSet(w.request.tag, st.evict.tag) &&
        (|| (BackStores(w, i.back) && (EvictFetches(st.evict, i.evict) || EvictHolds(st.evict)))
         || (EvictStores(st.evict, i.evict) && (BackFetches(w, i.back) || BackHolds(w)))))
  }

  // --- One clock -------------------------------------------------------------------------------------

  /** Every fetch reads the set as it is, and messages carry proper tags. */
  ghost predicate Possible(st: State, i: Input) {
    && st.miss.target < ENTRIES && st.evict.index < ENTRIES && st.back.index < ENTRIES
    && Fetching(st.table, st.miss, i.miss, st.evict, i.evict) && TagsOk(i.miss, i.evict)
    && i.back.fetched == SetOf(st.table, st.back.request.tag)
    && (i.back.request.Some? ==> TagOk(i.back.request.value.tag))
    && T.ReadsTable(st.walker, st.table, i.walker)
  }

  function BackStored(table: Table, w: T.Writeback, i: T.WritebackInput): Table {
    M.Stored(table, BackStores(w, i), w.request.tag, w.buf)
  }

  function Clock(st: State, i: Input): State
    requires st.miss.target < ENTRIES && st.evict.index < ENTRIES && st.back.index < ENTRIES
  {
    State(BackStored(TableNext(st.table, st.miss, i.miss, st.evict, i.evict), st.back, i.back),
          H.MissNext(st.miss, i.miss), H.EvictNext(st.evict, i.evict),
          T.WritebackNext(st.back, i.back), T.WalkNext(st.walker, i.walker))
  }

  predicate Disturbed(st: State, i: Input) {
    Disturbs(st.miss, i.miss, st.evict, i.evict) || BackDisturbs(st, i)
  }

  ghost predicate AllSee(st: State) {
    Inv(st.table, st.miss, st.evict) && BackSees(st.table, st.back)
  }

  function FinishedAt(st: State, i: Input): seq<Transaction> {
    MissFinishes(st.miss, i.miss) + EvictFinishes(st.evict, i.evict) + BackFinishes(st.back, i.back)
  }

  /** The stores of the other two handlers leave the writeback handler's set alone. */
  lemma OthersKeepBack(st: State, i: Input, table: Table)
    requires !Disturbed(st, i) && (BackFetches(st.back, i.back) || BackHolds(st.back))
    requires table == TableNext(st.table, st.miss, i.miss, st.evict, i.evict)
    ensures SetOf(table, st.back.request.tag) == SetOf(st.table, st.back.request.tag)
  {
  }

  lemma BackSeesOn(table: Table, table': Table, w: T.Writeback)
    requires BackSees(table, w) && (BackHolds(w) ==> SetOf(table', w.request.tag) == SetOf(table, w.request.tag))
    ensures BackSees(table', w)
  {
    if w.phase.WMoveOut? {
      var n := SetNumber(w.request.tag);
      assert table[n := w.buf][n] == T.WriteOne(table, w.request)[n];
    }
  }

  /** A finished writeback has changed the table as the map's step does. */
  lemma BackAlone(table: Table, w: T.Writeback, i: T.WritebackInput)
    requires TableOk(table) && BackSees(table, w)
    ensures TableOk(BackStored(table, w, i)) && BackStored(table, w, i) == AllApplied(table, BackFinishes(w, i))
  {
    if BackStores(w, i) {
      OneApplied(table, Back(w.request));
      WritebackRefinesMap(table, w.request.tag, w.request.entry, w.request.tag);
    }
  }

  lemma BackSeesNext(table: Table, w: T.Writeback, i: T.WritebackInput)
    requires BackSees(table, w) && w.index < ENTRIES
    requires BackFetches(w, i) ==> i.fetched == SetOf(table, w.request.tag)
    requires i.request.Some? ==> TagOk(i.request.value.tag)
    ensures BackSees(BackStored(table, w, i), T.WritebackNext(w, i))
  {
  }

  /** The writeback handler's store leaves the other handlers' sets alone. */
  lemma BackKeepsMiss(st: State, i: Input, table: Table)
    requires !BackDisturbs(st, i) && st.miss.target < ENTRIES && MissSees(table, H.MissNext(st.miss, i.miss))
    ensures MissSees(BackStored(table, st.back, i.back), H.MissNext(st.miss, i.miss))
  {
    var m' := H.MissNext(st.miss, i.miss);
    if MissHolds(m') {
      assert m'.request == st.miss.request && (MissFetches(st.miss, i.miss) || MissHolds(st.miss));
    }
  }

  lemma BackKeepsEvict(st: State, i: Input, table: Table)
    requires !BackDisturbs(st, i) && st.evict.index < ENTRIES && EvictSees(table, H.EvictNext(st.evict, i.evict))
    ensures EvictSees(BackStored(table, st.back, i.back), H.EvictNext(st.evict, i.evict))
  {
    var e' := H.EvictNext(st.evict, i.evict);
    if EvictHolds(e') {
      assert e'.tag == st.evict.tag && (EvictFetches(st.evict, i.evict) || EvictHolds(st.evict));
    }
  }

  /** An undisturbed clock keeps every copy current, and changes the table by the transactions it finishes. */
  lemma ClientClockApplies(st: State, i: Input)
    requires AllSee(st) && Possible(st, i) && !Disturbed(st, i)
    ensures AllSee(Clock(st, i)) && Clock(st, i).table == AllApplied(st.table, FinishedAt(st, i))
  {
    var table := TableNext(st.table, st.miss, i.miss, st.evict, i.evict);
    var w := st.back;
    ClockApplies(st.table, st.miss, i.miss, st.evict, i.evict);
    if BackFetches(w, i.back) || BackHolds(w) {
      OthersKeepBack(st, i, table);
    }
    BackSeesOn(st.table, table, w);
    BackAlone(table, w, i.back);
    BackSeesNext(table, w, i.back);
    BackKeepsMiss(st, i, table);
    BackKeepsEvict(st, i, table);
    AppliedAppend(st.table, MissFinishes(st.miss, i.miss) + EvictFinishes(st.evict, i.evict), BackFinishes(w, i.back));
  }

  // --- Runs ----------------------------------------------------------------------------------------------

  ghost predicate IsRun(run: seq<State>, inputs: seq<Input>)
    requires |run| == |inputs| + 1
  {
    && TableOk(run[0].table)
    && run[0].miss.phase.Idle? && run[0].evict.phase.EIdle? && run[0].back.phase.WIdle? && run[0].walker.phase.Idle?
    && run[0].miss.target < ENTRIES && run[0].evict.index < ENTRIES && run[0].back.index < ENTRIES
    && forall n :: 0 <= n < |inputs| ==> Possible(run[n], inputs[n]) && run[n + 1] == Clock(run[n], inputs[n])
  }

  ghost predicate Undisturbed(run: seq<State>, inputs: seq<Input>)
    requires |run| == |inputs| + 1
  {
    forall n :: 0 <= n < |inputs| ==> !Disturbed(run[n], inputs[n])
  }

  function Finished(run: seq<State>, inputs: seq<Input>, n: nat): seq<Transaction>
    requires n <= |inputs| < |run|
  {
    if n == 0 then [] else Finished(run, inputs, n - 1) + FinishedAt(run[n - 1], inputs[n - 1])
  }

  /** Main result: in every run in which no handler stores a set that another one fetches or works on, the
      table is what the finished miss replies, evictions and writebacks, one after the other, make of the
      table at the start. */
  lemma {:induction false} TableFollowsClients(run: seq<State>, inputs: seq<Input>, n: nat)
    requires |run| == |inputs| + 1 && IsRun(run, inputs) && Undisturbed(run, inputs) && n <= |inputs|
    ensures AllSee(run[n]) && run[n].table == AllApplied(run[0].table, Finished(run, inputs, n))
  {
    if n == 0 {
    } else {
      TableFollowsClients(run, inputs, n - 1);
      ClientClockApplies(run[n - 1], inputs[n - 1]);
      AppliedAppend(run[0].table, Finished(run, inputs, n - 1), FinishedAt(run[n - 1], inputs[n - 1]));
    }
  }

  // --- Which transactions those are ------------------------------------------------------------------------

  /** The transactions that come in with a clock: the messages that meet an idle handler. */
  function MissOffered(st: State, i: Input): seq<Transaction> {
    if st.miss.phase.Idle? && i.miss.request.Some? then [Reply(i.miss.request.value)] else []
  }

  function EvictOffered(st: State, i: Input): seq<Transaction> {
    if st.evict.phase.EIdle? && i.evict.request.Some? then [Removal(i.evict.request.value)] else []
  }

  function BackOffered(st: State, i: Input): seq<Transaction> {
    if st.back.phase.WIdle? && i.back.request.Some? then [Back(i.back.request.value)] else []
  }

  /** The transactions in work. */
  function MissInWork(m: H.Miss): seq<Transaction> {
    if m.phase.Idle? || m.phase.ReplyTlb? then [] else [Reply(m.request)]
  }

  function EvictInWork(e: H.Evict): seq<Transaction> {
    if e.phase.EIdle? then [] else [Removal(e.tag)]
  }

  function BackInWork(w: T.Writeback): seq<Transaction> {
    if w.phase.WIdle? then [] else [Back(w.request)]
  }

  /** Of a sequence, those of one kind: 0 replies, 1 removals, 2 writebacks. */
  function Kind(t: Transaction): nat {
    match t
    case Reply(_) => 0
    case Removal(_) => 1
    case Back(_) => 2
  }

  function OfKind(ts: seq<Transaction>, kind: nat): seq<Transaction> {
    if ts == [] then []
    else OfKind(ts[..|ts| - 1], kind) + (if Kind(ts[|ts| - 1]) == kind then [ts[|ts| - 1]] else [])
  }

  lemma {:induction false} OfKindAppend(a: seq<Transaction>, b: seq<Transaction>, kind: nat)
    ensures OfKind(a + b, kind) == OfKind(a, kind) + OfKind(b, kind)
  {
    if b == [] {
      assert a + b == a;
    } else {
      assert (a + b)[..|a + b| - 1] == a + b[..|b| - 1];
      OfKindAppend(a, b[..|b| - 1], kind);
    }
  }

  lemma OfKindOne(ts: seq<Transaction>, kind: nat)
    requires |ts| <= 1 && forall k :: 0 <= k < |ts| ==> Kind(ts[k]) == kind
    ensures forall other: nat :: OfKind(ts, other) == if other == kind then ts else []
  {
    if ts != [] {
      assert ts[..0] == [] && [] + [ts[0]] == ts;
    }
  }

  lemma FinishedKinds(st: State, i: Input)
    ensures OfKind(FinishedAt(st, i), 0) == MissFinishes(st.miss, i.miss)
    ensures OfKind(FinishedAt(st, i), 1) == EvictFinishes(st.evict, i.evict)
    ensures OfKind(FinishedAt(st, i), 2) == BackFinishes(st.back, i.back)
  {
    var m, e, b := MissFinishes(st.miss, i.miss), EvictFinishes(st.evict, i.evict), BackFinishes(st.back, i.back);
    OfKindOne(m, 0);
    OfKindOne(e, 1);
    OfKindOne(b, 2);
    forall kind: nat ensures OfKind(m + e + b, kind) == OfKind(m, kind) + OfKind(e, kind) + OfKind(b, kind) {
      OfKindAppend(m + e, b, kind);
      OfKindAppend(m, e, kind);
    }
  }

  function OfferedAt(st: State, i: Input, kind: nat): seq<Transaction> {
    if kind == 0 then MissOffered(st, i) else if kind == 1 then EvictOffered(st, i) else BackOffered(st, i)
  }

  function InWork(st: State, kind: nat): seq<Transaction> {
    if kind == 0 then MissInWork(st.miss) else if kind == 1 then EvictInWork(st.evict) else BackInWork(st.back)
  }

  function Offered(run: seq<State>, inputs: seq<Input>, kind: nat, n: nat): seq<Transaction>
    requires n <= |inputs| < |run|
  {
    if n == 0 then [] else Offered(run, inputs, kind, n - 1) + OfferedAt(run[n - 1], inputs[n - 1], kind)
  }

  lemma MissServes(m: H.Miss, i: H.MissInput)
    requires m.target < ENTRIES
    ensures MissInWork(m) + (if m.phase.Idle? && i.request.Some? then [Reply(i.request.value)] else [])
      == MissFinishes(m, i) + MissInWork(H.MissNext(m, i))
  {
  }

  lemma EvictServes(e: H.Evict, i: H.EvictInput)
    requires e.index < ENTRIES
    ensures EvictInWork(e) + (if e.phase.EIdle? && i.request.Some? then [Removal(i.request.value)] else [])
      == EvictFinishes(e, i) + EvictInWork(H.EvictNext(e, i))
  {
  }

  lemma BackServes(w: T.Writeback, i: T.WritebackInput)
    requires w.index < ENTRIES
    ensures BackInWork(w) + (if w.phase.WIdle? && i.request.Some? then [Back(i.request.value)] else [])
      == BackFinishes(w, i) + BackInWork(T.WritebackNext(w, i))
  {
  }

  lemma ClockServes(st: State, i: Input, kind: nat)
    requires Possible(st, i) && kind < 3
    ensures InWork(st, kind) + OfferedAt(st, i, kind) == OfKind(FinishedAt(st, i), kind) + InWork(Clock(st, i), kind)
  {
    FinishedKinds(st, i);
    match kind {
      case 0 => MissServes(st.miss, i.miss);
      case 1 => EvictServes(st.evict, i.evict);
      case _ => BackServes(st.back, i.back);
    }
  }

  /** Main result: over every run the transactions finished are, for each of the three kinds, the messages
      that met an idle handler, each once, unchanged and in order, but for the one still in work. */
  lemma {:induction false} FinishedAreOffered(run: seq<State>, inputs: seq<Input>, kind: nat, n: nat)
    requires |run| == |inputs| + 1 && IsRun(run, inputs) && n <= |inputs| && kind < 3
    ensures OfKind(Finished(run, inputs, n), kind) + InWork(run[n], kind) == Offered(run, inputs, kind, n)
  {
    if n == 0 {
    } else {
      FinishedAreOffered(run, inputs, kind, n - 1);
      var st, i, before := run[n - 1], inputs[n - 1], Finished(run, inputs, n - 1);
      ClockServes(st, i, kind);
      OfKindAppend(before, FinishedAt(st, i), kind);
      T.Chained(OfKind(before, kind), InWork(st, kind), Offered(run, inputs, kind, n - 1),
                OfKind(FinishedAt(st, i), kind), OfferedAt(st, i, kind), InWork(run[n], kind));
    }
  }

  // --- The walker's view of it --------------------------------------------------------------------------

  function Walkers(run: seq<State>): (ws: seq<T.Walker>)
    ensures |ws| == |run| && forall k :: 0 <= k < |ws| ==> ws[k] == run[k].walker
  {
    seq(|run|, k requires 0 <= k < |run| => run[k].walker)
  }

  function WalkInputs(inputs: seq<Input>): (ins: seq<T.WalkInput>)
    ensures |ins| == |inputs| && forall k :: 0 <= k < |ins| ==> ins[k] == inputs[k].walker
  {
    seq(|inputs|, k requires 0 <= k < |inputs| => inputs[k].walker)
  }

  /** The map after the transactions finished before each clock. */
  function Tables(run: seq<State>, inputs: seq<Input>): (ts: seq<Table>)
    requires |run| == |inputs| + 1
    ensures |ts| == |inputs|
    ensures forall k :: 0 <= k < |ts| ==> ts[k] == AllApplied(run[0].table, Finished(run, inputs, k))
  {
    seq(|inputs|, k requires 0 <= k < |inputs| => AllApplied(run[0].table, Finished(run, inputs, k)))
  }

  /** Main result: the walker, among the other three, answers every walk once, in order, with what the
      transactions finished before its fetch have left of the page. */
  lemma WalksSeeClients(run: seq<State>, inputs: seq<Input>, n: nat)
    requires |run| == |inputs| + 1 && IsRun(run, inputs) && Undisturbed(run, inputs) && n <= |inputs|
    ensures var ws, ins := Walkers(run), WalkInputs(inputs);
      var fs := T.FetchedIn(ws, Tables(run, inputs), ins, n);
      && T.RequestsOf(fs) + T.Unfetched(run[n].walker) == T.TakenIn(ws, ins, n)
      && T.SentIn(ws, ins, n) + T.Unsent(run[n].walker, fs) == T.OwedFor(fs)
  {
    var ws, ins, ts := Walkers(run), WalkInputs(inputs), Tables(run, inputs);
    forall k | 0 <= k < |ins| ensures T.ReadsTable(ws[k], ts[k], ins[k]) && ws[k + 1] == T.WalkNext(ws[k], ins[k]) {
      TableFollowsClients(run, inputs, k);
      assert Possible(run[k], inputs[k]);
    }
    T.WalksAnswered(ws, ts, ins, n);
  }
}

/** One clock of the page table with both host-driven handlers: exactly when the table takes the steps of
    the transactions finished in the clock, and each handler's copy of its set stays as the set is. */
module PageTableClock {
  import opened Wrappers
  import opened PageTypes
  import opened PageTable
  import TreeLru
  import H = Handlers
  import M = Mmu

  // --- Who works on which set ---------------------------------------------------------------------

  predicate MissFetches(m: H.Miss, i: H.MissInput) {
    m.phase.LoadSet? && i.readDone
  }

  /** The handler works on the set it has fetched. */
  predicate MissHolds(m: H.Miss) {
    !m.phase.Idle? && !m.phase.LoadSet? && !m.phase.ReplyTlb?
  }

  predicate MissStores(m: H.Miss, i: H.MissInput) {
    m.phase.Moveback? && i.writeDone
  }

  predicate EvictFetches(e: H.Evict, i: H.EvictInput) {
    e.phase.ELoadSet? && i.readDone
  }

  predicate EvictHolds(e: H.Evict) {
    !e.phase.EIdle? && !e.phase.ELoadSet?
  }

  predicate EvictStores(e: H.Evict, i: H.EvictInput) {
    e.phase.EUpdatePt? && i.writeDone
  }

  /** One handler stores the set the other one fetches or works on. */
  predicate Disturbs(m: H.Miss, mi: H.MissInput, e: H.Evict, ei: H.EvictInput) {
    && SetNumber(m.request.tag) == SetNumber(e.tag)
    && (|| (MissStores(m, mi) && (EvictFetches(e, ei) || EvictHolds(e)))
        || (EvictStores(e, ei) && (MissFetches(m, mi) || MissHolds(m))))
  }

  // --- One clock ----------------------------------------------------------------------------------

  /** What the message asks for, once it is carried out. */
  datatype Transaction = Reply(request: H.MissRequest) | Removal(tag: Tag) | Back(item: Item)

  function Applied(table: Table, t: Transaction): Table {
    match t
    case Reply(r) => MissReply(table, r.tag, r.perm, r.ppn)
    case Removal(tag) => EvictEntry(table, tag)
    case Back(item) => WritebackEntry(table, item.tag, item.entry)
  }

  function AllApplied(table: Table, ts: seq<Transaction>): Table
    decreases |ts|
  {
    if ts == [] then table else AllApplied(Applied(table, ts[0]), ts[1..])
  }

  /** A miss reply is carried out when its set is stored, or when its tag is found present. */
  function MissFinishes(m: H.Miss, i: H.MissInput): seq<Transaction> {
    if MissStores(m, i) || (m.phase.CheckHit? && m.hit) then [Reply(m.request)] else []
  }

  function EvictFinishes(e: H.Evict, i: H.EvictInput): seq<Transaction> {
    if EvictStores(e, i) then [Removal(e.tag)] else []
  }

  function TableNext(table: Table, m: H.Miss, mi: H.MissInput, e: H.Evict, ei: H.EvictInput): Table {
    M.Stored(M.Stored(table, MissStores(m, mi), m.request.tag, m.buf), EvictStores(e, ei), e.tag, e.buf)
  }

  /** The tags of messages are as wide as tags are. */
  predicate TagsOk(mi: H.MissInput, ei: H.EvictInput) {
    && (mi.request.Some? ==> TagOk(mi.request.value.tag))
    && (ei.request.Some? ==> TagOk(ei.request.value))
  }

  predicate Fetching(table: Table, m: H.Miss, mi: H.MissInput, e: H.Evict, ei: H.EvictInput) {
    mi.fetched == SetOf(table, m.request.tag) && ei.fetched == SetOf(table, e.tag)
  }

  ghost predicate MissSees(table: Table, m: H.Miss) {
    && H.MissInv(m)
    && (!m.phase.Idle? ==> TagOk(m.request.tag))
    && (MissHolds(m) ==> m.loaded == SetOf(table, m.request.tag))
  }

  ghost predicate EvictSees(table: Table, e: H.Evict) {
    && H.EvictInv(e)
    && (!e.phase.EIdle? ==> TagOk(e.tag))
    && (EvictHolds(e) ==> e.loaded == SetOf(table, e.tag))
  }

  /** Keys unique and in their own sets; each handler works on the set as it is. */
  ghost predicate Inv(table: Table, m: H.Miss, e: H.Evict) {
    TableOk(table) && MissSees(table, m) && EvictSees(table, e)
  }

  lemma StoreElsewhere(table: Table, write: bool, tag: Tag, s: PtSet, other: Tag)
    requires write ==> SetNumber(tag) != SetNumber(other)
    ensures SetOf(M.Stored(table, write, tag, s), other) == SetOf(table, other)
  {
  }

  /** A finished miss reply has changed the table as the map's step does. */
  lemma MissAlone(table: Table, m: H.Miss, i: H.MissInput)
    requires TableOk(table) && MissSees(table, m)
    ensures var table' := M.Stored(table, MissStores(m, i), m.request.tag, m.buf);
      TableOk(table') && table' == AllApplied(table, MissFinishes(m, i))
  {
    var r := m.request;
    if MissFinishes(m, i) == [Reply(r)] {
      MissReplyRefinesMap(table, r.tag, r.perm, r.ppn, r.tag);
      OneApplied(table, Reply(r));
    }
  }

  lemma EvictAlone(table: Table, e: H.Evict, i: H.EvictInput)
    requires TableOk(table) && EvictSees(table, e)
    ensures var table' := M.Stored(table, EvictStores(e, i), e.tag, e.buf);
      TableOk(table') && table' == AllApplied(table, EvictFinishes(e, i))
  {
    if EvictStores(e, i) {
      EvictExact(table, e.tag, e.tag);
      OneApplied(table, Removal(e.tag));
    }
  }

  lemma OneApplied(table: Table, t: Transaction)
    ensures AllApplied(table, [t]) == Applied(table, t)
  {
  }

  lemma {:induction false} AppliedAppend(table: Table, a: seq<Transaction>, b: seq<Transaction>)
    ensures AllApplied(table, a + b) == AllApplied(AllApplied(table, a), b)
    decreases |a|
  {
    if a == [] {
      assert a + b == b;
    } else {
      assert (a + b)[1..] == a[1..] + b;
      AppliedAppend(Applied(table, a[0]), a[1..], b);
    }
  }

  lemma MissSeesNext(table: Table, table': Table, m: H.Miss, i: H.MissInput)
    requires MissSees(table, m) && i.fetched == SetOf(table, m.request.tag)
    requires i.request.Some? ==> TagOk(i.request.value.tag)
    requires MissFetches(m, i) || (MissHolds(m) && !MissStores(m, i)) ==>
      SetOf(table', m.request.tag) == SetOf(table, m.request.tag)
    ensures MissSees(table', H.MissNext(m, i))
  {
    H.MissKeepsInv(m, i);
  }

  lemma EvictSeesNext(table: Table, table': Table, e: H.Evict, i: H.EvictInput)
    requires EvictSees(table, e) && i.fetched == SetOf(table, e.tag)
    requires i.request.Some? ==> TagOk(i.request.value)
    requires EvictFetches(e, i) || (EvictHolds(e) && !EvictStores(e, i)) ==> SetOf(table', e.tag) == SetOf(table, e.tag)
    ensures EvictSees(table', H.EvictNext(e, i))
  {
    H.EvictKeepsInv(e, i);
  }

  /** An undisturbed clock keeps the invariant, and changes the table by the transactions it finishes. */
  lemma ClockApplies(table: Table, m: H.Miss, mi: H.MissInput, e: H.Evict, ei: H.EvictInput)
    requires Inv(table, m, e) && Fetching(table, m, mi, e, ei) && TagsOk(mi, ei) && !Disturbs(m, mi, e, ei)
    ensures var table' := TableNext(table, m, mi, e, ei);
      && table' == AllApplied(table, MissFinishes(m, mi) + EvictFinishes(e, ei))
      && Inv(table', H.MissNext(m, mi), H.EvictNext(e, ei))
  {
    var table1 := M.Stored(table, MissStores(m, mi), m.request.tag, m.buf);
    var table2 := TableNext(table, m, mi, e, ei);
    MissAlone(table, m, mi);
    if EvictFetches(e, ei) || EvictHolds(e) {
      StoreElsewhere(table, MissStores(m, mi), m.request.tag, m.buf, e.tag);
    }
    EvictAlone(table1, e, ei);
    AppliedAppend(table, MissFinishes(m, mi), EvictFinishes(e, ei));
    if MissFetches(m, mi) || (MissHolds(m) && !MissStores(m, mi)) {
      StoreElsewhere(table1, EvictStores(e, ei), e.tag, e.buf, m.request.tag);
    }
    MissSeesNext(table, table2, m, mi);
    EvictSeesNext(table, table2, e, ei);
  }

  // --- Exactly when ---------------------------------------------------------------------------------------

  /** The table takes the steps of the transactions finished in the clock, and the invariant is kept. */
  ghost predicate Exact(table: Table, m: H.Miss, mi: H.MissInput, e: H.Evict, ei: H.EvictInput)
    requires m.target < ENTRIES && e.index < ENTRIES
  {
    var table' := TableNext(table, m, mi, e, ei);
    && table' == AllApplied(table, MissFinishes(m, mi) + EvictFinishes(e, ei))
    && Inv(table', H.MissNext(m, mi), H.EvictNext(e, ei))
  }

  /** Two stores of one set in one clock: the later one may only hide what the transactions make the same,
      both in slot zero, with the very entry the removal leaves behind. */
  predicate BothHarmless(m: H.Miss, e: H.Evict) {
    && TargetIndex(m.loaded) == 0 && HitIndex(e.loaded, e.tag) == 0
    && m.buf.ptes[0] == e.buf.ptes[0]
  }

  /** What the clock's registers and handshakes tell. */
  predicate Harmless(m: H.Miss, mi: H.MissInput, e: H.Evict, ei: H.EvictInput) {
    || !Disturbs(m, mi, e, ei)
    || (EvictStores(e, ei) &&
        if MissStores(m, mi) then BothHarmless(m, e)
        else e.buf == e.loaded || (m.phase.CheckHit? && m.hit))
  }

  // --- What a store does to its set ----------------------------------------------------------------

  /** A miss handler's store changes its set: the tag was not in it. */
  lemma MissStoreChanges(table: Table, m: H.Miss)
    requires MissSees(table, m) && m.phase.Moveback?
    ensures m.buf != SetOf(table, m.request.tag)
  {
    var t := TargetIndex(m.loaded);
    assert HitVector(m.buf, m.request.tag)[t];
  }

  // --- One handler stores ----------------------------------------------------------------------------

  lemma MissStoreDisturbs(table: Table, m: H.Miss, mi: H.MissInput, e: H.Evict, ei: H.EvictInput)
    requires Inv(table, m, e) && Fetching(table, m, mi, e, ei) && TagsOk(mi, ei) && Disturbs(m, mi, e, ei)
    requires MissStores(m, mi) && !EvictStores(e, ei)
    ensures !EvictSees(TableNext(table, m, mi, e, ei), H.EvictNext(e, ei))
  {
    MissStoreChanges(table, m);
    var e' := H.EvictNext(e, ei);
    assert EvictHolds(e') && e'.loaded == SetOf(table, e.tag) && e'.tag == e.tag;
  }

  lemma EvictStoreSeen(table: Table, m: H.Miss, mi: H.MissInput, e: H.Evict, ei: H.EvictInput)
    requires Inv(table, m, e) && Fetching(table, m, mi, e, ei) && TagsOk(mi, ei) && Disturbs(m, mi, e, ei)
    requires EvictStores(e, ei) && !MissStores(m, mi)
    ensures MissSees(TableNext(table, m, mi, e, ei), H.MissNext(m, mi)) <==>
      e.buf == e.loaded || (m.phase.CheckHit? && m.hit)
  {
    H.MissKeepsInv(m, mi);
    var m' := H.MissNext(m, mi);
    var table' := TableNext(table, m, mi, e, ei);
    assert SetOf(table', m.request.tag) == e.buf && e.loaded == SetOf(table, e.tag);
    if m.phase.CheckHit? && m.hit {
      assert !MissHolds(m');
    } else {
      assert MissHolds(m') && m'.loaded == e.loaded && m'.request == m.request;
    }
  }

  lemma EvictStoreApplies(table: Table, m: H.Miss, mi: H.MissInput, e: H.Evict, ei: H.EvictInput)
    requires Inv(table, m, e) && Fetching(table, m, mi, e, ei)
    requires EvictStores(e, ei) && !MissStores(m, mi)
    ensures var table' := TableNext(table, m, mi, e, ei);
      && table' == AllApplied(table, MissFinishes(m, mi) + EvictFinishes(e, ei))
      && TableOk(table') && EvictSees(table', H.EvictNext(e, ei))
  {
    MissAlone(table, m, mi);
    EvictAlone(table, e, ei);
    AppliedAppend(table, MissFinishes(m, mi), EvictFinishes(e, ei));
    H.EvictKeepsInv(e, ei);
  }

  lemma OneStores(table: Table, m: H.Miss, mi: H.MissInput, e: H.Evict, ei: H.EvictInput)
    requires Inv(table, m, e) && Fetching(table, m, mi, e, ei) && TagsOk(mi, ei) && Disturbs(m, mi, e, ei)
    requires !(MissStores(m, mi) && EvictStores(e, ei))
    ensures Exact(table, m, mi, e, ei) <==> Harmless(m, mi, e, ei)
  {
    if MissStores(m, mi) {
      MissStoreDisturbs(table, m, mi, e, ei);
    } else {
      EvictStoreSeen(table, m, mi, e, ei);
      EvictStoreApplies(table, m, mi, e, ei);
    }
  }

  // --- Both store --------------------------------------------------------------------------------------

  /** The set without the entry of a tag, as the evict handler leaves it. */
  function Removed(s: PtSet, tag: Tag): PtSet {
    H.Emptied(s, tag)
  }

  function Inserted(s: PtSet, item: Item): PtSet {
    WriteEntry(s, TargetIndex(s), item, false)
  }

  /** A slot used twice leaves the replacement bits of one use. */
  lemma UsedTwice(s: PtSet, s': PtSet, index: nat)
    requires index < ENTRIES && s'.lruBits == UsedBits(s, index)
    ensures UsedBits(s', index) == UsedBits(s, index)
  {
    SixteenWays();
    var bits, way := s.lruBits[..ENTRIES - 1], TreeLru.ToWay(index, HEIGHT);
    assert s'.lruBits[..ENTRIES - 1] == TreeLru.Update(bits, 0, way);
    TreeLru.UpdateTwice(bits, 0, way);
  }

  lemma SlotOfRemoved(s: PtSet, item: Item, tag: Tag)
    requires UniqueTags(s) && !HitV(s, item.tag)
    ensures var t, h, j := TargetIndex(s), HitIndex(s, tag), HitIndex(Inserted(s, item), tag);
      && (HitV(s, tag) ==> Holds(s, tag, h)) && (!HitV(s, tag) ==> h == 0)
      && (tag == item.tag ==> j == t)
      && (tag != item.tag ==> j == if HitV(s, tag) && h != t then h else 0)
  {
    var t, s1 := TargetIndex(s), Inserted(s, item);
    LookupExact(s, item.tag);
    AnswerAfterWrite(s, t, item, false, tag);
    LookupExact(s, tag);
    LookupExact(s1, tag);
    if tag == item.tag {
      assert Holds(s1, tag, t);
    } else if HitV(s, tag) && HitIndex(s, tag) != t {
      assert Holds(s1, tag, HitIndex(s, tag));
    }
  }

  lemma SameSlotZero(s: PtSet, item: Item, tag: Tag)
    requires UniqueTags(s) && !HitV(s, item.tag)
    requires TargetIndex(s) == 0 && HitIndex(s, tag) == 0 && item.entry == s.ptes[0]
    ensures Removed(Inserted(s, item), tag) == Removed(s, tag)
  {
    SlotOfRemoved(s, item, tag);
    UsedTwice(s, Inserted(s, item), 0);
  }

  lemma SlotZeroOnly(s: PtSet, item: Item, tag: Tag)
    requires UniqueTags(s) && !HitV(s, item.tag)
    requires Removed(Inserted(s, item), tag) == Removed(s, tag)
    ensures TargetIndex(s) == 0 && HitIndex(s, tag) == 0 && item.entry == s.ptes[0]
  {
    var t, h, j := TargetIndex(s), HitIndex(s, tag), HitIndex(Inserted(s, item), tag);
    var a, b := Removed(Inserted(s, item), tag), Removed(s, tag);
    SlotOfRemoved(s, item, tag);
    LookupExact(s, item.tag);
    if j != t {
      assert a.valids[t] && a.tags[t] == item.tag;
      assert Holds(s, item.tag, t);
      assert false;
    }
    assert a.valids[h] == b.valids[h] == false;
    assert h == t || h == 0;
    assert a.ptes[t] == item.entry && b.ptes[t] == s.ptes[t];
  }

  /** The later store hides the earlier one: the table is left as the removal alone leaves it. */
  lemma EvictStoresLast(table: Table, m: H.Miss, mi: H.MissInput, e: H.Evict, ei: H.EvictInput)
    requires Inv(table, m, e) && SetNumber(m.request.tag) == SetNumber(e.tag)
    requires MissStores(m, mi) && EvictStores(e, ei)
    ensures var table' := TableNext(table, m, mi, e, ei);
      table' == M.Stored(table, true, e.tag, e.buf) == table[SetNumber(e.tag) := Removed(SetOf(table, e.tag), e.tag)]
  {
  }

  lemma BothDone(table: Table, m: H.Miss, mi: H.MissInput, e: H.Evict, ei: H.EvictInput)
    requires Inv(table, m, e) && SetNumber(m.request.tag) == SetNumber(e.tag)
    requires MissStores(m, mi) && EvictStores(e, ei)
    ensures Inv(TableNext(table, m, mi, e, ei), H.MissNext(m, mi), H.EvictNext(e, ei))
  {
    EvictStoresLast(table, m, mi, e, ei);
    EvictAlone(table, e, ei);
    H.MissKeepsInv(m, mi);
    H.EvictKeepsInv(e, ei);
  }

  /** ... while the two transactions one after the other insert first. */
  lemma BothApplied(table: Table, r: H.MissRequest, tag: Tag)
    requires SetNumber(r.tag) == SetNumber(tag) && !HitV(SetOf(table, tag), r.tag)
    ensures AllApplied(table, [Reply(r)] + [Removal(tag)])
      == table[SetNumber(tag) := Removed(Inserted(SetOf(table, tag), H.NewItem(r)), tag)]
  {
    AppliedAppend(table, [Reply(r)], [Removal(tag)]);
    OneApplied(table, Reply(r));
    var replied := Applied(table, Reply(r));
    OneApplied(replied, Removal(tag));
    assert replied == table[SetNumber(tag) := Inserted(SetOf(table, tag), H.NewItem(r))];
  }

  lemma SameAfterBoth(s: PtSet, item: Item, tag: Tag)
    requires UniqueTags(s) && !HitV(s, item.tag)
    ensures Removed(Inserted(s, item), tag) == Removed(s, tag) <==>
      TargetIndex(s) == 0 && HitIndex(s, tag) == 0 && item.entry == s.ptes[0]
  {
    if TargetIndex(s) == 0 && HitIndex(s, tag) == 0 && item.entry == s.ptes[0] {
      SameSlotZero(s, item, tag);
    }
    if Removed(Inserted(s, item), tag) == Removed(s, tag) {
      SlotZeroOnly(s, item, tag);
    }
  }

  lemma SameEntry(table: Table, n: nat, s: PtSet, s': PtSet)
    ensures table[n := s] == table[n := s'] <==> s == s'
  {
    assert table[n := s][n] == s && table[n := s'][n] == s';
  }

  /** The registers tell the sets they were made from. */
  lemma BothRegisters(table: Table, m: H.Miss, e: H.Evict)
    requires MissSees(table, m) && EvictSees(table, e) && SetNumber(m.request.tag) == SetNumber(e.tag)
    requires m.phase.Moveback? && e.phase.EUpdatePt?
    ensures var s := SetOf(table, e.tag);
      && m.loaded == s && e.loaded == s && !HitV(s, m.request.tag)
      && (BothHarmless(m, e) <==>
          TargetIndex(s) == 0 && HitIndex(s, e.tag) == 0 && H.NewItem(m.request).entry == s.ptes[0])
  {
  }

  lemma BothStore(table: Table, m: H.Miss, mi: H.MissInput, e: H.Evict, ei: H.EvictInput)
    requires Inv(table, m, e) && SetNumber(m.request.tag) == SetNumber(e.tag)
    requires MissStores(m, mi) && EvictStores(e, ei)
    ensures Exact(table, m, mi, e, ei) <==> BothHarmless(m, e)
  {
    var s, n, item := SetOf(table, e.tag), SetNumber(e.tag), H.NewItem(m.request);
    assert UniqueTags(Load(table, n));
    BothRegisters(table, m, e);
    EvictStoresLast(table, m, mi, e, ei);
    BothDone(table, m, mi, e, ei);
    BothApplied(table, m.request, e.tag);
    SameEntry(table, n, Removed(s, e.tag), Removed(Inserted(s, item), e.tag));
    SameAfterBoth(s, item, e.tag);
  }

  /** Main result for a clock: the table takes the finished transactions' steps and both copies stay
      current if and only if the clock is harmless. */
  lemma ClockExactIff(table: Table, m: H.Miss, mi: H.MissInput, e: H.Evict, ei: H.EvictInput)
    requires Inv(table, m, e) && Fetching(table, m, mi, e, ei) && TagsOk(mi, ei)
    ensures Exact(table, m, mi, e, ei) <==> Harmless(m, mi, e, ei)
  {
    if !Disturbs(m, mi, e, ei) {
      ClockApplies(table, m, mi, e, ei);
    } else if MissStores(m, mi) && EvictStores(e, ei) {
      BothStore(table, m, mi, e, ei);
    } else {
      OneStores(table, m, mi, e, ei);
    }
  }
}

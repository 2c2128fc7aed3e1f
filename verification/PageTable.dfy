/** The page table in DRAM: sets of sixteen entries, found by address-space id and page number,
    and what the page-table handlers do to it. Seen as a map from tags to page-table entries. */
module PageTable {
  import opened Arithmetic
  import opened Wrappers
  import opened Encoders
  import opened PageTypes
  import TreeLru

  const ENTRIES: nat := 16
  const HEIGHT: nat := 4

  // Widths of the tag fields and of the set number (SoftwareBundle.scala, MMU.scala:66-79).
  const VPN_LIMIT: nat := 0x10_0000_0000_0000
  const ASID_LIMIT: nat := 0x8000
  const SET_LIMIT: nat := 0x100_0000
  const BEATS_PER_SET: nat := 3
  const BYTES_PER_BEAT: nat := 64

  predicate TagOk(tag: Tag) {
    tag.vpn < VPN_LIMIT && tag.asid < ASID_LIMIT
  }

  /** The page number above its six lowest bits, next to the address-space id, cut to 24 bits. */
  function SetNumber(tag: Tag): (n: nat) {
    (tag.vpn / 64 * ASID_LIMIT + tag.asid) % SET_LIMIT
  }

  /** Byte address of the set a tag belongs to. */
  function SetAddress(tag: Tag): nat {
    SetNumber(tag) * BEATS_PER_SET * BYTES_PER_BEAT
  }

  lemma SetNumberFields(tag: Tag)
    requires TagOk(tag)
    ensures SetNumber(tag) == tag.vpn / 64 % 512 * ASID_LIMIT + tag.asid
  {
    var v := tag.vpn / 64;
    assert v == v / 512 * 512 + v % 512;
    assert v * ASID_LIMIT + tag.asid == v / 512 * SET_LIMIT + (v % 512 * ASID_LIMIT + tag.asid);
    assert v % 512 * ASID_LIMIT + tag.asid < SET_LIMIT;
  }

  /** The address in terms of the tag's fields: nine bits of the page number above the address-space id,
      192 bytes for each. */
  lemma SetAddressExact(tag: Tag)
    requires TagOk(tag)
    ensures SetAddress(tag) == (tag.vpn / 64 % 512 * 0x8000 + tag.asid) * 192
  {
    SetNumberFields(tag);
  }

  lemma SameFields(high: nat, low: nat, high': nat, low': nat)
    requires low < ASID_LIMIT && low' < ASID_LIMIT
    ensures high * ASID_LIMIT + low == high' * ASID_LIMIT + low' <==> high == high' && low == low'
  {
    if high < high' {
      assert (high + 1) * ASID_LIMIT <= high' * ASID_LIMIT;
    } else if high' < high {
      assert (high' + 1) * ASID_LIMIT <= high * ASID_LIMIT;
    }
  }

  /** The 192 bytes of two tags' sets are the same or do not overlap; they are the same exactly when
      the address-space ids and nine bits of the page numbers agree; and they lie in 36-bit memory. */
  lemma SetsSameOrDisjoint(a: Tag, b: Tag)
    requires TagOk(a) && TagOk(b)
    ensures SetAddress(a) == SetAddress(b) <==> a.asid == b.asid && a.vpn / 64 % 512 == b.vpn / 64 % 512
    ensures SetAddress(a) != SetAddress(b) ==>
      SetAddress(a) + 192 <= SetAddress(b) || SetAddress(b) + 192 <= SetAddress(a)
    ensures SetAddress(a) % BYTES_PER_BEAT == 0 && SetAddress(a) + 192 <= 0x10_0000_0000
  {
    var n, m := SetNumber(a), SetNumber(b);
    assert n == m <==> a.asid == b.asid && a.vpn / 64 % 512 == b.vpn / 64 % 512 by {
      SetNumberFields(a);
      SetNumberFields(b);
      SameFields(a.vpn / 64 % 512, a.asid, b.vpn / 64 % 512, b.asid);
    }
    Beat(n * BEATS_PER_SET);
  }

  lemma Beat(k: nat)
    ensures k * BYTES_PER_BEAT % BYTES_PER_BEAT == 0
  {
  }

  // --- One set -----------------------------------------------------------------------------

  datatype Slots = Slots(tags: seq<Tag>, ptes: seq<Pte>, valids: seq<bool>, lruBits: seq<bool>)

  predicate Sixteen(s: Slots) {
    |s.tags| == |s.ptes| == |s.valids| == |s.lruBits| == ENTRIES
  }

  type PtSet = s: Slots | Sixteen(s)
    witness Slots(seq(ENTRIES, _ => Tag(0, 0)), seq(ENTRIES, _ => Pte(0, 0, false)),
                  seq(ENTRIES, _ => false), seq(ENTRIES, _ => false))

  function EmptySet(): PtSet {
    Slots(seq(ENTRIES, _ => Tag(0, 0)), seq(ENTRIES, _ => Pte(0, 0, false)),
          seq(ENTRIES, _ => false), seq(ENTRIES, _ => false))
  }

  function HitVector(s: PtSet, tag: Tag): seq<bool> {
    seq(ENTRIES, i requires 0 <= i < ENTRIES => s.valids[i] && s.tags[i] == tag)
  }

  predicate HitV(s: PtSet, tag: Tag) {
    exists i :: 0 <= i < ENTRIES && HitVector(s, tag)[i]
  }

  function HitIndex(s: PtSet, tag: Tag): (i: nat)
    ensures i < ENTRIES
  {
    OHToUInt(HitVector(s, tag))
  }

  function Answer(s: PtSet, tag: Tag): Option<Pte> {
    if HitV(s, tag) then Some(s.ptes[HitIndex(s, tag)]) else None
  }

  predicate Full(s: PtSet) {
    forall i :: 0 <= i < ENTRIES ==> s.valids[i]
  }

  lemma SixteenWays()
    ensures Pow2(HEIGHT) == ENTRIES
  {
    SmallPowers();
  }

  function LruIndex(s: PtSet): (i: nat)
    ensures i < ENTRIES
  {
    SixteenWays();
    TreeLru.Index(TreeLru.GetLru(s.lruBits[..ENTRIES - 1], 0, HEIGHT))
  }

  /** Where a new entry goes: the first free slot, or the replacement victim of a full set. */
  function TargetIndex(s: PtSet): (i: nat)
    ensures i < ENTRIES
    ensures !Full(s) ==> !s.valids[i] && forall k :: 0 <= k < i ==> s.valids[k]
  {
    if Full(s) then LruIndex(s)
    else
      var free := seq(ENTRIES, i requires 0 <= i < ENTRIES => !s.valids[i]);
      assert forall k :: 0 <= k < ENTRIES ==> free[k] == !s.valids[k];
      PriorityEncoder(free)
  }

  /** The entry the replacement bits point to. */
  function LruItem(s: PtSet): Item {
    Item(s.tags[LruIndex(s)], s.ptes[LruIndex(s)])
  }

  function UsedBits(s: PtSet, index: nat): (bits: seq<bool>)
    requires index < ENTRIES
    ensures |bits| == ENTRIES
  {
    SixteenWays();
    TreeLru.Update(s.lruBits[..ENTRIES - 1], 0, TreeLru.ToWay(index, HEIGHT)) + [false]
  }

  function WriteEntry(s: PtSet, index: nat, item: Item, flush: bool): (s': PtSet)
    requires index < ENTRIES
  {
    Slots(s.tags[index := item.tag], s.ptes[index := item.entry], s.valids[index := !flush], UsedBits(s, index))
  }

  // --- Replacement ----------------------------------------------------------------------------------

  datatype SlotWrite = SlotWrite(index: nat, item: Item, flush: bool)

  predicate OtherSlots(index: nat, writes: seq<SlotWrite>) {
    forall i :: 0 <= i < |writes| ==> writes[i].index < ENTRIES && writes[i].index != index
  }

  function AfterWrites(s: PtSet, writes: seq<SlotWrite>): PtSet
    requires forall i :: 0 <= i < |writes| ==> writes[i].index < ENTRIES
    decreases |writes|
  {
    if writes == [] then s
    else AfterWrites(WriteEntry(s, writes[0].index, writes[0].item, writes[0].flush), writes[1..])
  }

  /** The replacement bits as the tree core has them. */
  function TreeBits(s: PtSet): (bits: seq<bool>)
    ensures TreeLru.InTree(bits, 0, HEIGHT)
  {
    SixteenWays();
    s.lruBits[..ENTRIES - 1]
  }

  function SlotWay(index: nat): (way: TreeLru.Way)
    requires index < ENTRIES
    ensures |way| == HEIGHT
  {
    SixteenWays();
    TreeLru.ToWay(index, HEIGHT)
  }

  function SlotWays(writes: seq<SlotWrite>): (ways: seq<TreeLru.Way>)
    requires forall i :: 0 <= i < |writes| ==> writes[i].index < ENTRIES
    ensures |ways| == |writes| && forall i :: 0 <= i < |ways| ==> |ways[i]| == HEIGHT
  {
    seq(|writes|, i requires 0 <= i < |writes| => SlotWay(writes[i].index))
  }

  lemma WriteUsesSlot(s: PtSet, index: nat, item: Item, flush: bool)
    requires index < ENTRIES
    ensures TreeBits(WriteEntry(s, index, item, flush)) == TreeLru.Update(TreeBits(s), 0, SlotWay(index))
  {
    SixteenWays();
  }

  lemma {:induction false} WritesUseSlots(s: PtSet, writes: seq<SlotWrite>)
    requires forall i :: 0 <= i < |writes| ==> writes[i].index < ENTRIES
    ensures TreeBits(AfterWrites(s, writes)) == TreeLru.AfterUses(TreeBits(s), 0, HEIGHT, SlotWays(writes))
    decreases |writes|
  {
    if writes == [] {
    } else {
      var w := writes[0];
      WriteUsesSlot(s, w.index, w.item, w.flush);
      WritesUseSlots(WriteEntry(s, w.index, w.item, w.flush), writes[1..]);
      assert SlotWays(writes)[1..] == SlotWays(writes[1..]);
    }
  }

  lemma SlotOfWay(way: TreeLru.Way)
    requires |way| == HEIGHT
    ensures TreeLru.Index(way) < ENTRIES && SlotWay(TreeLru.Index(way)) == way
  {
    SixteenWays();
    TreeLru.WayOfIndex(way);
  }

  lemma WayOfSlot(index: nat)
    requires index < ENTRIES
    ensures TreeLru.Index(SlotWay(index)) == index
  {
    SixteenWays();
    TreeLru.IndexOfWay(index, HEIGHT);
  }

  lemma VictimByWay(s: PtSet, index: nat)
    requires index < ENTRIES
    ensures LruIndex(s) == index <==> TreeLru.GetLru(TreeBits(s), 0, HEIGHT) == SlotWay(index)
  {
    SlotOfWay(TreeLru.GetLru(TreeBits(s), 0, HEIGHT));
    WayOfSlot(index);
  }

  /** Slot writes for given ways; what is written does not matter to the replacement. */
  lemma WritesForWays(index: nat, item: Item, ways: seq<TreeLru.Way>) returns (writes: seq<SlotWrite>)
    requires index < ENTRIES && TreeLru.Others(SlotWay(index), ways)
    ensures |writes| == |ways| && OtherSlots(index, writes) && SlotWays(writes) == ways
  {
    writes := seq(|ways|, i requires 0 <= i < |ways| => SlotWrite(TreeLru.Index(ways[i]), item, false));
    forall i | 0 <= i < |ways|
      ensures writes[i].index < ENTRIES && SlotWay(writes[i].index) == ways[i] && writes[i].index != index
    {
      SlotOfWay(ways[i]);
    }
    assert SlotWays(writes) == ways;
  }

  ghost predicate BecomesVictim(s: PtSet, index: nat, writes: seq<SlotWrite>)
    requires index < ENTRIES
  {
    OtherSlots(index, writes) && LruIndex(AfterWrites(s, writes)) == index
  }

  /** A slot that has just been written can be made the next victim by m writes of other slots of its set
      if and only if m is at least four. */
  lemma WrittenSlotProtected(s: PtSet, index: nat, item: Item, flush: bool, m: nat)
    requires index < ENTRIES
    ensures (exists writes: seq<SlotWrite> ::
              |writes| == m && BecomesVictim(WriteEntry(s, index, item, flush), index, writes))
            <==> m >= HEIGHT
  {
    var s', way := WriteEntry(s, index, item, flush), SlotWay(index);
    WriteUsesSlot(s, index, item, flush);
    TreeLru.ProtectedForHeightUses(TreeBits(s), 0, way, m);
    if writes: seq<SlotWrite> :| |writes| == m && BecomesVictim(s', index, writes) {
      WritesUseSlots(s', writes);
      VictimByWay(AfterWrites(s', writes), index);
      forall i | 0 <= i < m ensures SlotWays(writes)[i] != way {
        WayOfSlot(writes[i].index);
        WayOfSlot(index);
      }
      assert TreeLru.Others(way, SlotWays(writes));
    }
    if m >= HEIGHT {
      var uses: seq<TreeLru.Way> :| |uses| == m && TreeLru.Others(way, uses)
        && TreeLru.GetLru(TreeLru.AfterUses(TreeLru.Update(TreeBits(s), 0, way), 0, HEIGHT, uses), 0, HEIGHT) == way;
      var writes := WritesForWays(index, item, uses);
      WritesUseSlots(s', writes);
      VictimByWay(AfterWrites(s', writes), index);
      assert BecomesVictim(s', index, writes);
    }
  }

  // --- Invariants of a set --------------------------------------------------------------------

  ghost predicate UniqueTags(s: PtSet) {
    forall i, j :: 0 <= i < ENTRIES && 0 <= j < ENTRIES && s.valids[i] && s.valids[j] && s.tags[i] == s.tags[j] ==>
      i == j
  }

  /** Every valid tag is a proper tag of this very set. */
  ghost predicate AtHome(n: nat, s: PtSet) {
    forall i :: 0 <= i < ENTRIES && s.valids[i] ==> TagOk(s.tags[i]) && SetNumber(s.tags[i]) == n
  }

  ghost predicate Holds(s: PtSet, tag: Tag, i: nat) {
    i < ENTRIES && s.valids[i] && s.tags[i] == tag
  }

  lemma LookupExact(s: PtSet, tag: Tag)
    requires UniqueTags(s)
    ensures forall i :: Holds(s, tag, i) ==> HitV(s, tag) && HitIndex(s, tag) == i
    ensures HitV(s, tag) ==> Holds(s, tag, HitIndex(s, tag))
    ensures !HitV(s, tag) ==> HitIndex(s, tag) == 0
  {
    var bits := HitVector(s, tag);
    if i: nat :| Holds(s, tag, i) {
      assert bits[i];
      OneHot(bits, i);
    } else {
      forall i | 0 <= i < |bits| ensures !bits[i] {
        assert !Holds(s, tag, i);
      }
      NoneHot(bits);
    }
  }

  /** The set's answers after a write, for every tag. */
  lemma AnswerAfterWrite(s: PtSet, index: nat, item: Item, flush: bool, tag: Tag)
    requires UniqueTags(s) && index < ENTRIES
    requires !flush ==> forall i :: Holds(s, item.tag, i) ==> i == index
    ensures UniqueTags(WriteEntry(s, index, item, flush))
    ensures Answer(WriteEntry(s, index, item, flush), tag) ==
      if !flush && tag == item.tag then Some(item.entry)
      else if Holds(s, tag, index) then None
      else Answer(s, tag)
  {
    var s' := WriteEntry(s, index, item, flush);
    forall i: nat, j: nat | i < ENTRIES && j < ENTRIES && s'.valids[i] && s'.valids[j] && s'.tags[i] == s'.tags[j]
      ensures i == j
    {
      assert i != index && j == index ==> Holds(s, item.tag, i);
      assert j != index && i == index ==> Holds(s, item.tag, j);
    }
    LookupExact(s, tag);
    LookupExact(s', tag);
    if !flush && tag == item.tag {
      assert Holds(s', tag, index);
    } else {
      forall i | i != index ensures Holds(s', tag, i) == Holds(s, tag, i) {
      }
      if HitV(s, tag) && !Holds(s, tag, index) {
        assert Holds(s', tag, HitIndex(s, tag));
      }
    }
  }

  // --- The table as a map -----------------------------------------------------------------------

  /** Sets by number; a set never written is empty. */
  type Table = map<nat, PtSet>

  function Load(table: Table, n: nat): PtSet {
    if n in table then table[n] else EmptySet()
  }

  ghost predicate TableOk(table: Table) {
    forall n: nat :: UniqueTags(Load(table, n)) && AtHome(n, Load(table, n))
  }

  function SetOf(table: Table, tag: Tag): PtSet {
    Load(table, SetNumber(tag))
  }

  /** What the page walker answers: the entry, or a page fault. */
  function Walk(table: Table, tag: Tag): Option<Pte> {
    Answer(SetOf(table, tag), tag)
  }

  function Store(table: Table, tag: Tag, index: nat, item: Item, flush: bool): Table
    requires index < ENTRIES
  {
    table[SetNumber(tag) := WriteEntry(SetOf(table, tag), index, item, flush)]
  }

  /** The tag a slot holds, if it holds one. */
  function Occupant(table: Table, tag: Tag, index: nat): Option<Tag>
    requires index < ENTRIES
  {
    if SetOf(table, tag).valids[index] then Some(SetOf(table, tag).tags[index]) else None
  }

  /** Storing into a slot changes the map at the stored tag and at the slot's former tag only. */
  lemma StoreExact(table: Table, tag: Tag, index: nat, entry: Pte, flush: bool, t: Tag)
    requires TableOk(table) && TagOk(tag) && index < ENTRIES
    requires !flush ==> forall i :: Holds(SetOf(table, tag), tag, i) ==> i == index
    ensures TableOk(Store(table, tag, index, Item(tag, entry), flush))
    ensures Walk(Store(table, tag, index, Item(tag, entry), flush), t) ==
      if !flush && t == tag then Some(entry)
      else if Occupant(table, tag, index) == Some(t) then None
      else Walk(table, t)
  {
    var n := SetNumber(tag);
    var s := Load(table, n);
    var table' := Store(table, tag, index, Item(tag, entry), flush);
    forall m: nat ensures UniqueTags(Load(table', m)) && AtHome(m, Load(table', m)) {
      assert UniqueTags(Load(table, m)) && AtHome(m, Load(table, m));
      if m == n {
        AnswerAfterWrite(s, index, Item(tag, entry), flush, t);
      }
    }
    assert UniqueTags(s) && AtHome(n, s);
    if SetNumber(t) == n {
      AnswerAfterWrite(s, index, Item(tag, entry), flush, t);
    }
  }

  // --- Miss reply ---------------------------------------------------------------------------------

  /** The page-fault answer of the host: a present tag is left alone, an absent one gets a slot. */
  function MissReply(table: Table, tag: Tag, perm: nat, ppn: nat): Table {
    if HitV(SetOf(table, tag), tag) then table
    else Store(table, tag, TargetIndex(SetOf(table, tag)), Item(tag, Pte(ppn, perm, false)), false)
  }

  /** The page deleted to make room: only from a full set without the tag. */
  function Displaced(table: Table, tag: Tag): Option<Item> {
    if !HitV(SetOf(table, tag), tag) && Full(SetOf(table, tag)) then Some(LruItem(SetOf(table, tag))) else None
  }

  lemma MissReplyRefinesMap(table: Table, tag: Tag, perm: nat, ppn: nat, t: Tag)
    requires TableOk(table) && TagOk(tag)
    ensures TableOk(MissReply(table, tag, perm, ppn))
    ensures Displaced(table, tag).Some? ==>
      Displaced(table, tag).value.tag != tag
      && Walk(table, Displaced(table, tag).value.tag) == Some(Displaced(table, tag).value.entry)
    ensures Walk(MissReply(table, tag, perm, ppn), t) ==
      if t == tag then (if Walk(table, tag).Some? then Walk(table, tag) else Some(Pte(ppn, perm, false)))
      else if Displaced(table, tag).Some? && Displaced(table, tag).value.tag == t then None
      else Walk(table, t)
  {
    var s := SetOf(table, tag);
    assert UniqueTags(s) && AtHome(SetNumber(tag), s);
    LookupExact(s, tag);
    if !HitV(s, tag) {
      StoreExact(table, tag, TargetIndex(s), Pte(ppn, perm, false), false, t);
      if Full(s) {
        var victim := s.tags[LruIndex(s)];
        assert Holds(s, victim, LruIndex(s));
        LookupExact(s, victim);
      }
    }
  }

  /** What the handler tells the TLB is the entry of its message, whatever the table holds. */
  function ToldToTlb(perm: nat, ppn: nat): Pte {
    Pte(ppn, perm, false)
  }

  /** The TLB and the table agree after a miss reply exactly when the tag was absent, or present with
      the very entry of the message. */
  lemma TlbAgreesIff(table: Table, tag: Tag, perm: nat, ppn: nat)
    requires TableOk(table) && TagOk(tag)
    ensures Walk(MissReply(table, tag, perm, ppn), tag) == Some(ToldToTlb(perm, ppn)) <==>
      Walk(table, tag).None? || Walk(table, tag) == Some(ToldToTlb(perm, ppn))
  {
    MissReplyRefinesMap(table, tag, perm, ppn, tag);
  }

  // --- Page eviction ---------------------------------------------------------------------------------

  /** The host evicts a page: its entry is flushed. The handler does not look at the hit signal; for
      an absent tag the index it gets is zero. The don't-care item of a flush is the tag itself. */
  function EvictEntry(table: Table, tag: Tag): Table {
    var i := HitIndex(SetOf(table, tag), tag);
    Store(table, tag, i, Item(tag, SetOf(table, tag).ptes[i]), true)
  }

  lemma EvictExact(table: Table, tag: Tag, t: Tag)
    requires TableOk(table) && TagOk(tag)
    ensures TableOk(EvictEntry(table, tag))
    ensures Walk(EvictEntry(table, tag), t) ==
      if Occupant(table, tag, HitIndex(SetOf(table, tag), tag)) == Some(t) then None else Walk(table, t)
  {
    var i := HitIndex(SetOf(table, tag), tag);
    StoreExact(table, tag, i, SetOf(table, tag).ptes[i], true, t);
  }

  lemma EvictRemovesOne(table: Table, tag: Tag, t: Tag)
    requires TableOk(table) && TagOk(tag)
    ensures TableOk(EvictEntry(table, tag))
    ensures Walk(table, tag).Some? ==>
      Walk(EvictEntry(table, tag), t) == if t == tag then None else Walk(table, t)
  {
    var s := SetOf(table, tag);
    assert UniqueTags(s);
    LookupExact(s, tag);
    EvictExact(table, tag, t);
  }

  /** Evicting touches no other page exactly when the page is there or slot zero of its set is free. */
  lemma EvictTouchesNoOtherIff(table: Table, tag: Tag)
    requires TableOk(table) && TagOk(tag)
    ensures (forall t: Tag :: t != tag ==> Walk(EvictEntry(table, tag), t) == Walk(table, t)) <==>
      Walk(table, tag).Some? || Occupant(table, tag, 0).None?
  {
    var s := SetOf(table, tag);
    assert UniqueTags(s) && AtHome(SetNumber(tag), s);
    LookupExact(s, tag);
    forall t: Tag ensures Walk(EvictEntry(table, tag), t) ==
      if Occupant(table, tag, HitIndex(s, tag)) == Some(t) then None else Walk(table, t)
    {
      EvictExact(table, tag, t);
    }
    OccupantIsWalked(table, tag, 0);
  }

  lemma OccupantIsWalked(table: Table, tag: Tag, i: nat)
    requires TableOk(table) && i < ENTRIES
    ensures Occupant(table, tag, i).Some? ==> Walk(table, Occupant(table, tag, i).value).Some?
    ensures !HitV(SetOf(table, tag), tag) ==> Occupant(table, tag, i) != Some(tag)
  {
    var s := SetOf(table, tag);
    assert UniqueTags(s) && AtHome(SetNumber(tag), s);
    if s.valids[i] {
      assert Holds(s, s.tags[i], i);
      LookupExact(s, s.tags[i]);
    }
    LookupExact(s, tag);
  }

  // --- Writeback of a TLB entry -----------------------------------------------------------------------

  /** A modified entry evicted from a TLB is written over the slot the lookup names, hit or not. */
  function WritebackEntry(table: Table, tag: Tag, entry: Pte): Table {
    Store(table, tag, HitIndex(SetOf(table, tag), tag), Item(tag, entry), false)
  }

  /** A writeback that hits changes one entry of the map; one that misses puts the entry into slot
      zero, in place of whatever was there. */
  lemma WritebackRefinesMap(table: Table, tag: Tag, entry: Pte, t: Tag)
    requires TableOk(table) && TagOk(tag)
    ensures TableOk(WritebackEntry(table, tag, entry))
    ensures Walk(WritebackEntry(table, tag, entry), t) ==
      if t == tag then Some(entry)
      else if Walk(table, tag).None? && Occupant(table, tag, 0) == Some(t) then None
      else Walk(table, t)
  {
    var s := SetOf(table, tag);
    assert UniqueTags(s);
    LookupExact(s, tag);
    StoreExact(table, tag, HitIndex(s, tag), entry, false, t);
  }

  /** A writeback touches no other page exactly when it hits or slot zero of its set is free. */
  lemma WritebackTouchesNoOtherIff(table: Table, tag: Tag, entry: Pte)
    requires TableOk(table) && TagOk(tag)
    ensures (forall t: Tag :: t != tag ==> Walk(WritebackEntry(table, tag, entry), t) == Walk(table, t)) <==>
      Walk(table, tag).Some? || Occupant(table, tag, 0).None?
  {
    forall t: Tag ensures Walk(WritebackEntry(table, tag, entry), t) ==
      if t == tag then Some(entry)
      else if Walk(table, tag).None? && Occupant(table, tag, 0) == Some(t) then None
      else Walk(table, t)
    {
      WritebackRefinesMap(table, tag, entry, t);
    }
    OccupantIsWalked(table, tag, 0);
  }
}

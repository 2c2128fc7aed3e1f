/** One entry of the data bank, the block it holds, and how a block address is split over the bank. */
module CacheEntry {
  import opened Arithmetic

  // The memory adaptor only supports 512-bit blocks (AXIDramController.scala:8).
  const BLOCK_BITS: nat := 512

  type Block = b: seq<bool> | |b| == BLOCK_BITS witness seq(BLOCK_BITS, _ => false)

  function ZeroBlock(): Block {
    seq(BLOCK_BITS, _ => false)
  }

  datatype Entry = Entry(v: bool, d: bool, tag: nat, data: Block)

  /** The two bank parameters that matter to the protocol. */
  datatype Geometry = Geometry(sets: nat, ways: nat)

  /** Bank row of a block address. With fewer than four sets the row is constant. */
  function SetIndex(g: Geometry, addr: nat): nat
    requires g.sets > 0
  {
    if g.sets > 2 then addr % g.sets else 0
  }

  function TagOf(g: Geometry, addr: nat): nat
    requires g.sets > 0
  {
    addr / g.sets
  }

  /** Address rebuilt from a stored tag and the row it was read from. */
  function Rebuild(g: Geometry, tag: nat, row: nat): nat {
    if g.sets > 2 then tag * g.sets + row else tag
  }

  function Merge(prev: Block, data: Block, mask: Block): Block {
    seq(BLOCK_BITS, i requires 0 <= i < BLOCK_BITS => if mask[i] then data[i] else prev[i])
  }

  predicate OrR(mask: Block) {
    exists i :: 0 <= i < BLOCK_BITS && mask[i]
  }

  predicate AndR(mask: Block) {
    forall i :: 0 <= i < BLOCK_BITS ==> mask[i]
  }

  /** The fresh, clean entry a refill starts from. */
  function RefillEntry(g: Geometry, addr: nat, data: Block): Entry
    requires g.sets > 0
  {
    Entry(true, false, TagOf(g, addr), data)
  }

  /** Masked write into an entry: the `cacheUpdateFunction` of the cache. */
  function Write(e: Entry, data: Block, mask: Block): Entry {
    Entry(true, OrR(mask) || e.d, e.tag, Merge(e.data, data, mask))
  }

  lemma MergeNothing(prev: Block, data: Block, mask: Block)
    requires !OrR(mask)
    ensures Merge(prev, data, mask) == prev
  {
  }

  // --- The life of an entry -----------------------------------------------------------------------

  datatype MaskedWrite = MaskedWrite(data: Block, mask: Block)

  /** An entry after a sequence of writes. */
  function Written(e: Entry, ws: seq<MaskedWrite>): Entry {
    if ws == [] then e
    else
      var last := ws[|ws| - 1];
      Write(Written(e, ws[..|ws| - 1]), last.data, last.mask)
  }

  ghost predicate CoversLast(ws: seq<MaskedWrite>, i: nat, k: nat)
    requires i < BLOCK_BITS
  {
    && k < |ws| && ws[k].mask[i]
    && forall j :: k < j < |ws| ==> !ws[j].mask[i]
  }

  predicate Changing(ws: seq<MaskedWrite>) {
    exists k :: 0 <= k < |ws| && OrR(ws[k].mask)
  }

  predicate Covers(ws: seq<MaskedWrite>, i: nat)
    requires i < BLOCK_BITS
  {
    exists k :: 0 <= k < |ws| && ws[k].mask[i]
  }

  /** A bit of an entry is that of the last write that covers it ... */
  lemma {:induction false} LastWriteCounts(e: Entry, ws: seq<MaskedWrite>, i: nat, k: nat)
    requires i < BLOCK_BITS && CoversLast(ws, i, k)
    ensures Written(e, ws).data[i] == ws[k].data[i]
  {
    var before := ws[..|ws| - 1];
    if k < |before| {
      LastWriteCounts(e, before, i, k);
    }
  }

  /** ... or else the bit it started with. */
  lemma {:induction false} UncoveredStays(e: Entry, ws: seq<MaskedWrite>, i: nat)
    requires i < BLOCK_BITS && !Covers(ws, i)
    ensures Written(e, ws).data[i] == e.data[i]
  {
    if ws == [] {
    } else {
      UncoveredStays(e, ws[..|ws| - 1], i);
    }
  }

  lemma {:induction false} DirtyIffChanged(e: Entry, ws: seq<MaskedWrite>)
    ensures Written(e, ws).tag == e.tag && (e.v ==> Written(e, ws).v)
    ensures Written(e, ws).d <==> e.d || Changing(ws)
    ensures !Changing(ws) ==> Written(e, ws).data == e.data
  {
    if ws == [] {
    } else {
      var before, last := ws[..|ws| - 1], ws[|ws| - 1];
      DirtyIffChanged(e, before);
      assert Changing(ws) <==> Changing(before) || OrR(last.mask) by {
        if k :| 0 <= k < |before| && OrR(before[k].mask) {
          assert OrR(ws[k].mask);
        }
      }
      if !OrR(last.mask) {
        MergeNothing(Written(e, before).data, last.data, last.mask);
      }
    }
  }

  /** Tag match and valid bit: what the data bank calls a hit. */
  predicate HitBy(g: Geometry, e: Entry, addr: nat)
    requires g.sets > 0
  {
    e.v && e.tag == TagOf(g, addr)
  }

  /** Main result of the entry: refilled and then written any number of times, it goes on to be hit by
      exactly the addresses of its tag; it is dirty exactly when some write had a mask bit; a clean one
      still is the block that was fetched; each bit is the last one written there, or the fetched one. */
  lemma {:induction false} RefilledThenWritten(g: Geometry, addr: nat, fetched: Block, ws: seq<MaskedWrite>)
    requires g.sets > 0
    ensures var e := Written(RefillEntry(g, addr, fetched), ws);
      && (forall other: nat :: HitBy(g, e, other) <==> TagOf(g, other) == TagOf(g, addr))
      && (e.d <==> Changing(ws))
      && (!e.d ==> e.data == fetched)
      && (forall i: nat, k: nat :: i < BLOCK_BITS && CoversLast(ws, i, k) ==> e.data[i] == ws[k].data[i])
      && (forall i: nat :: i < BLOCK_BITS && !Covers(ws, i) ==> e.data[i] == fetched[i])
  {
    var start := RefillEntry(g, addr, fetched);
    DirtyIffChanged(start, ws);
    forall i: nat, k: nat | i < BLOCK_BITS && CoversLast(ws, i, k)
      ensures Written(start, ws).data[i] == ws[k].data[i]
    {
      LastWriteCounts(start, ws, i, k);
    }
    forall i: nat | i < BLOCK_BITS && !Covers(ws, i) ensures Written(start, ws).data[i] == fetched[i] {
      UncoveredStays(start, ws, i);
    }
  }

  // --- Row and tag --------------------------------------------------------------------------------

  lemma Split(g: Geometry, addr: nat)
    requires g.sets > 0 && g.sets != 2
    ensures SetIndex(g, addr) < g.sets
    ensures Rebuild(g, TagOf(g, addr), SetIndex(g, addr)) == addr
  {
    if g.sets > 2 {
      assert addr == addr / g.sets * g.sets + addr % g.sets;
    } else {
      assert addr / 1 == addr;
    }
  }

  lemma SplitBack(g: Geometry, tag: nat, row: nat)
    requires g.sets > 0 && g.sets != 2 && row < g.sets
    ensures SetIndex(g, Rebuild(g, tag, row)) == row
    ensures TagOf(g, Rebuild(g, tag, row)) == tag
  {
    if g.sets > 2 {
      DivModOfSum(g.sets, tag, row);
    }
  }

  ghost predicate AddressesSeparated(g: Geometry)
    requires g.sets > 0
  {
    forall a: nat, b: nat ::
      SetIndex(g, a) == SetIndex(g, b) && TagOf(g, a) == TagOf(g, b) ==> a == b
  }

  /** Row and tag identify a block exactly when the bank does not have two sets: with two
      sets the row is forced to zero while the tag still drops the lowest address bit. */
  lemma SeparatedIff(g: Geometry)
    requires g.sets > 0
    ensures AddressesSeparated(g) <==> g.sets != 2
  {
    if g.sets == 2 {
      assert SetIndex(g, 0) == SetIndex(g, 1) && TagOf(g, 0) == TagOf(g, 1);
    } else {
      forall a: nat, b: nat | SetIndex(g, a) == SetIndex(g, b) && TagOf(g, a) == TagOf(g, b)
        ensures a == b
      {
        Split(g, a);
        Split(g, b);
      }
    }
  }
}

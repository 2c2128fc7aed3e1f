/** Loads and stores of the memory unit: bytes of a register moved to and from their place in a cache
    block, over the flat memory the cache stands for. */
module ByteLanes {
  import opened Arithmetic
  import opened CacheEntry
  import opened Words
  import opened Cache
  import opened CacheRefinement

  const BLOCK_BYTES: nat := 64

  // --- The request and the answer ----------------------------------------------------------------

  /** Access sizes: 1, 2, 4 or 8 bytes. */
  function Bytes(size: nat): (n: nat)
    requires size <= 3
    ensures n == 1 || n == 2 || n == 4 || n == 8
  {
    match size
    case 0 => 1
    case 1 => 2
    case 2 => 4
    case _ => 8
  }

  predicate Aligned(addr: nat, size: nat)
    requires size <= 3
  {
    match size
    case 0 => true
    case 1 => addr % 2 == 0
    case 2 => addr % 4 == 0
    case _ => addr % 8 == 0
  }

  /** Shift into a vector of n bits; what leaves it is lost. */
  function ShiftLeft(bits: Bits, k: nat, n: nat): (r: Bits)
    ensures |r| == n
  {
    seq(n, i requires 0 <= i < n => i >= k && i - k < |bits| && bits[i - k])
  }

  function ShiftRight(bits: Bits, k: nat, n: nat): (r: Bits)
    ensures |r| == n
  {
    seq(n, i requires 0 <= i < n => i + k < |bits| && bits[i + k])
  }

  function Offset(addr: nat): (o: nat)
    ensures o < BLOCK_BYTES
  {
    addr % BLOCK_BYTES
  }

  /** Byte enables of an access of n bytes. */
  function ByteEnable(addr: nat, n: nat): (m: Bits)
    ensures |m| == BLOCK_BYTES
  {
    ShiftLeft(Fill(n, true), Offset(addr), BLOCK_BYTES)
  }

  /** The cache's mask: every byte enable repeated eight times. */
  function BitMask(enable: Bits): Block
    requires |enable| == BLOCK_BYTES
  {
    seq(BLOCK_BITS, i requires 0 <= i < BLOCK_BITS => enable[i / 8])
  }

  function StoreData(addr: nat, data: Word): Block {
    ShiftLeft(data, 8 * Offset(addr), BLOCK_BITS)
  }

  /** The completed write, on the flat memory. */
  function Stored(mem: Memory, addr: nat, size: nat, data: Word): Memory
    requires size <= 3
  {
    FlatStep(mem, Completion(addr / BLOCK_BYTES, StoreData(addr, data), BitMask(ByteEnable(addr, Bytes(size))),
                             ZeroBlock(), false))
  }

  /** Low bytes of a word, zero or sign extended. */
  function Extended(bits: Word, size: nat, signed: bool): Word
    requires size <= 3
  {
    var n := 8 * Bytes(size);
    bits[..n] + Fill(64 - n, signed && bits[n - 1])
  }

  /** The answer's block moved down and extended. */
  function Loaded(block: Block, addr: nat, size: nat, signed: bool): Word
    requires size <= 3
  {
    Extended(ShiftRight(block, 8 * Offset(addr), 64), size, signed)
  }

  /** The widest store, sixteen bytes, never fills the mask of a block: the pipeline keeps guard (c) of
      the cache. */
  lemma StoreMaskNeverFull(addr: nat, n: nat)
    requires n <= 16
    ensures !AndR(BitMask(ByteEnable(addr, n)))
  {
    var mask := BitMask(ByteEnable(addr, n));
    if Offset(addr) == 0 {
      assert !mask[BLOCK_BITS - 1];
    } else {
      assert !mask[0];
    }
  }

  // --- Memory as bytes ----------------------------------------------------------------------------

  function ByteAt(mem: Memory, a: nat): (b: Bits)
    ensures |b| == 8
  {
    Get(mem, a / BLOCK_BYTES)[8 * Offset(a)..8 * Offset(a) + 8]
  }

  function ByteOf(data: Word, k: nat): (b: Bits)
    requires k < 8
    ensures |b| == 8
  {
    data[8 * k..8 * k + 8]
  }

  lemma AlignedOffset(addr: nat, size: nat)
    requires size <= 3 && Aligned(addr, size)
    ensures Offset(addr) + Bytes(size) <= BLOCK_BYTES
  {
    var q, o := addr / BLOCK_BYTES, Offset(addr);
    assert addr == q * BLOCK_BYTES + o;
    match size {
      case 0 =>
      case 1 => assert o == 2 * (addr / 2 - 32 * q);
      case 2 => assert o == 4 * (addr / 4 - 16 * q);
      case _ => assert o == 8 * (addr / 8 - 8 * q);
    }
  }

  /** An aligned access lies in one block. */
  lemma WithinBlock(addr: nat, size: nat, a: nat)
    requires size <= 3 && Aligned(addr, size)
    ensures Offset(addr) + Bytes(size) <= BLOCK_BYTES
    ensures addr <= a < addr + Bytes(size) <==>
      (a / BLOCK_BYTES == addr / BLOCK_BYTES && Offset(addr) <= Offset(a) < Offset(addr) + Bytes(size))
  {
    AlignedOffset(addr, size);
    var q := addr / BLOCK_BYTES;
    assert addr == q * BLOCK_BYTES + Offset(addr);
    assert a == a / BLOCK_BYTES * BLOCK_BYTES + Offset(a);
    if addr <= a < addr + Bytes(size) {
      DivModOfSum(BLOCK_BYTES, q, Offset(addr) + (a - addr));
    }
  }

  lemma MergedByte(block: Block, addr: nat, n: nat, data: Word, o: nat)
    requires o < BLOCK_BYTES && n <= 8
    ensures var merged := Merge(block, StoreData(addr, data), BitMask(ByteEnable(addr, n)));
      merged[8 * o..8 * o + 8] ==
        if Offset(addr) <= o < Offset(addr) + n then ByteOf(data, o - Offset(addr)) else block[8 * o..8 * o + 8]
  {
    var merged := Merge(block, StoreData(addr, data), BitMask(ByteEnable(addr, n)));
    var byte := merged[8 * o..8 * o + 8];
    forall k | 0 <= k < 8
      ensures byte[k] ==
        if Offset(addr) <= o < Offset(addr) + n then data[8 * (o - Offset(addr)) + k] else block[8 * o + k]
    {
      assert (8 * o + k) / 8 == o;
    }
  }

  /** The bytes of a word at n addresses, the rest of the memory as before. */
  ghost predicate Wrote(mem: Memory, mem': Memory, addr: nat, n: nat, data: Word) {
    && n <= 8
    && forall a: nat :: ByteAt(mem', a) == if addr <= a < addr + n then ByteOf(data, a - addr) else ByteAt(mem, a)
  }

  lemma StoredByte(mem: Memory, addr: nat, size: nat, data: Word, a: nat)
    requires size <= 3 && Aligned(addr, size)
    ensures ByteAt(Stored(mem, addr, size, data), a) ==
      if addr <= a < addr + Bytes(size) then ByteOf(data, a - addr) else ByteAt(mem, a)
  {
    WithinBlock(addr, size, a);
    MergedByte(Get(mem, addr / BLOCK_BYTES), addr, Bytes(size), data, Offset(a));
    if a / BLOCK_BYTES == addr / BLOCK_BYTES {
      assert a - addr == Offset(a) - Offset(addr);
    }
  }

  /** Main result: an aligned store writes the low bytes of the register to their addresses and leaves
      every other byte of the memory alone. */
  lemma StoreExact(mem: Memory, addr: nat, size: nat, data: Word)
    requires size <= 3 && Aligned(addr, size)
    ensures Wrote(mem, Stored(mem, addr, size, data), addr, Bytes(size), data)
  {
    forall a: nat
      ensures ByteAt(Stored(mem, addr, size, data), a) ==
        if addr <= a < addr + Bytes(size) then ByteOf(data, a - addr) else ByteAt(mem, a)
    {
      StoredByte(mem, addr, size, data, a);
    }
  }

  lemma ShiftedByte(block: Block, o: nat, k: nat)
    requires o + k < BLOCK_BYTES && k < 8
    ensures ByteOf(ShiftRight(block, 8 * o, 64), k) == block[8 * (o + k)..8 * (o + k) + 8]
  {
    var shifted, byte := ShiftRight(block, 8 * o, 64), block[8 * (o + k)..8 * (o + k) + 8];
    assert 8 * k + 8 <= 64 && 8 * (o + k) + 8 <= BLOCK_BITS;
    forall i | 0 <= i < 8 ensures shifted[8 * k + i] == byte[i] {
      assert 8 * o + (8 * k + i) == 8 * (o + k) + i;
    }
  }

  /** Bytes of the word a load extends. */
  lemma LoadedByte(mem: Memory, addr: nat, size: nat, k: nat)
    requires size <= 3 && Aligned(addr, size) && k < Bytes(size)
    ensures ByteOf(ShiftRight(Get(mem, addr / BLOCK_BYTES), 8 * Offset(addr), 64), k) == ByteAt(mem, addr + k)
  {
    WithinBlock(addr, size, addr + k);
    assert Offset(addr + k) == Offset(addr) + k by {
      assert addr == addr / BLOCK_BYTES * BLOCK_BYTES + Offset(addr);
      assert addr + k == addr / BLOCK_BYTES * BLOCK_BYTES + Offset(addr + k);
    }
    ShiftedByte(Get(mem, addr / BLOCK_BYTES), Offset(addr), k);
  }

  lemma ExtendedBytes(w: Word, size: nat, signed: bool)
    requires size <= 3
    ensures var n := Bytes(size);
      && (forall k :: 0 <= k < n ==> ByteOf(Extended(w, size, signed), k) == ByteOf(w, k))
      && (forall i :: 8 * n <= i < 64 ==> Extended(w, size, signed)[i] == (signed && ByteOf(w, n - 1)[7]))
  {
    var n := Bytes(size);
    assert ByteOf(w, n - 1)[7] == w[8 * n - 1];
  }

  /** Main result: an aligned load returns the bytes at its addresses, lowest first, extended. */
  lemma LoadExact(mem: Memory, addr: nat, size: nat, signed: bool)
    requires size <= 3 && Aligned(addr, size)
    ensures var r := Loaded(Get(mem, addr / BLOCK_BYTES), addr, size, signed);
      var n := Bytes(size);
      && (forall k :: 0 <= k < n ==> ByteOf(r, k) == ByteAt(mem, addr + k))
      && (forall i :: 8 * n <= i < 64 ==> r[i] == (signed && ByteAt(mem, addr + n - 1)[7]))
  {
    var w := ShiftRight(Get(mem, addr / BLOCK_BYTES), 8 * Offset(addr), 64);
    ExtendedBytes(w, size, signed);
    forall k | 0 <= k < Bytes(size) ensures ByteOf(w, k) == ByteAt(mem, addr + k) {
      LoadedByte(mem, addr, size, k);
    }
  }

  /** Extension looks at the low bytes only. */
  lemma ExtendedLow(a: Word, b: Word, size: nat, signed: bool)
    requires size <= 3 && forall k :: 0 <= k < Bytes(size) ==> ByteOf(a, k) == ByteOf(b, k)
    ensures Extended(a, size, signed) == Extended(b, size, signed)
  {
    var n := 8 * Bytes(size);
    forall i | 0 <= i < n ensures a[i] == b[i] {
      assert ByteOf(a, i / 8)[i % 8] == a[i] && ByteOf(b, i / 8)[i % 8] == b[i];
    }
    assert a[..n] == b[..n];
  }

  /** A load of a place that holds a word's bytes. */
  lemma LoadsBack(mem: Memory, addr: nat, size: nat, data: Word, signed: bool)
    requires size <= 3 && Aligned(addr, size)
    requires forall k :: 0 <= k < Bytes(size) ==> ByteAt(mem, addr + k) == ByteOf(data, k)
    ensures Loaded(Get(mem, addr / BLOCK_BYTES), addr, size, signed) == Extended(data, size, signed)
  {
    var w := ShiftRight(Get(mem, addr / BLOCK_BYTES), 8 * Offset(addr), 64);
    forall k | 0 <= k < Bytes(size) ensures ByteOf(w, k) == ByteOf(data, k) {
      LoadedByte(mem, addr, size, k);
    }
    ExtendedLow(w, data, size, signed);
  }

  /** A load after a store of the same place returns the low bytes stored. */
  lemma RoundTrip(mem: Memory, addr: nat, size: nat, data: Word, signed: bool)
    requires size <= 3 && Aligned(addr, size)
    ensures Loaded(Get(Stored(mem, addr, size, data), addr / BLOCK_BYTES), addr, size, signed)
      == Extended(data, size, signed)
  {
    StoreExact(mem, addr, size, data);
    LoadsBack(Stored(mem, addr, size, data), addr, size, data, signed);
  }

  // --- Through the cache --------------------------------------------------------------------------

  predicate IsStore(c: Completion, addr: nat, size: nat, data: Word)
    requires size <= 3
  {
    && c.addr == addr / BLOCK_BYTES
    && c.wData == StoreData(addr, data)
    && c.wMask == BitMask(ByteEnable(addr, Bytes(size)))
  }

  predicate IsLoad(c: Completion, addr: nat) {
    c.addr == addr / BLOCK_BYTES && !OrR(c.wMask)
  }

  /** Each answer of an accepted trace is the flat memory's at that point. */
  lemma {:induction false} AnswersAt(mem: Memory, trace: seq<Completion>, i: nat)
    requires FlatAccepts(mem, trace) && i < |trace|
    ensures FlatAnswers(FlatRun(mem, trace[..i]), trace[i])
    ensures FlatRun(mem, trace[..i + 1]) == FlatStep(FlatRun(mem, trace[..i]), trace[i])
    decreases |trace|
  {
    assert trace[..i + 1][0] == trace[0] && trace[..i + 1][1..] == trace[1..][..i];
    if i == 0 {
    } else {
      assert trace[..i][0] == trace[0] && trace[..i][1..] == trace[1..][..i - 1];
      AnswersAt(FlatStep(mem, trace[0]), trace[1..], i - 1);
    }
  }

  /** A completed request that writes none of the n bytes at an address. */
  predicate LeavesAlone(c: Completion, addr: nat, n: nat) {
    c.addr == addr / BLOCK_BYTES ==>
      forall b :: 8 * Offset(addr) <= b < 8 * (Offset(addr) + n) && b < BLOCK_BITS ==> !c.wMask[b]
  }

  ghost predicate HoldsWord(mem: Memory, addr: nat, size: nat, data: Word)
    requires size <= 3
  {
    forall k :: 0 <= k < Bytes(size) ==> ByteAt(mem, addr + k) == ByteOf(data, k)
  }

  lemma OthersKeepWord(mem: Memory, c: Completion, addr: nat, size: nat, data: Word)
    requires size <= 3 && Aligned(addr, size) && HoldsWord(mem, addr, size, data)
    requires LeavesAlone(c, addr, Bytes(size))
    ensures HoldsWord(FlatStep(mem, c), addr, size, data)
  {
    forall k | 0 <= k < Bytes(size) ensures ByteAt(FlatStep(mem, c), addr + k) == ByteOf(data, k) {
      WithinBlock(addr, size, addr + k);
      assert ByteAt(mem, addr + k) == ByteOf(data, k);
      if c.addr == addr / BLOCK_BYTES {
        UnmaskedByte(Get(mem, c.addr), c.wData, c.wMask, Offset(addr + k));
      }
    }
  }

  lemma UnmaskedByte(block: Block, data: Block, mask: Block, o: nat)
    requires o < BLOCK_BYTES && forall b :: 8 * o <= b < 8 * o + 8 ==> !mask[b]
    ensures Merge(block, data, mask)[8 * o..8 * o + 8] == block[8 * o..8 * o + 8]
  {
  }

  lemma {:induction false} WordStays(mem: Memory, trace: seq<Completion>, i: nat, j: nat, addr: nat, size: nat,
                                     data: Word)
    requires FlatAccepts(mem, trace) && i < j <= |trace|
    requires size <= 3 && Aligned(addr, size) && IsStore(trace[i], addr, size, data)
    requires forall k :: i < k < j ==> LeavesAlone(trace[k], addr, Bytes(size))
    ensures HoldsWord(FlatRun(mem, trace[..j]), addr, size, data)
    decreases j
  {
    AnswersAt(mem, trace, j - 1);
    var before := FlatRun(mem, trace[..j - 1]);
    if i == j - 1 {
      assert FlatStep(before, trace[i]) == Stored(before, addr, size, data);
      StoreExact(before, addr, size, data);
    } else {
      WordStays(mem, trace, i, j - 1, addr, size, data);
      OthersKeepWord(before, trace[j - 1], addr, size, data);
    }
  }

  /** Main result: in every admissible run of the cache from reset, hits or misses, a load returns the
      low bytes of the last store to its place: those of a store after which, up to the load, nothing
      that completed wrote any of its bytes. */
  lemma LoadReturnsLastStore(g: Geometry, st: State, run: seq<Step>, i: nat, j: nat, addr: nat, size: nat, data: Word,
                             signed: bool)
    requires Initial(g, st) && Admissible(g, st, run) && i < j < |Trace(g, st, run)|
    requires size <= 3 && Aligned(addr, size)
    requires IsStore(Trace(g, st, run)[i], addr, size, data) && IsLoad(Trace(g, st, run)[j], addr)
    requires forall k :: i < k < j ==> LeavesAlone(Trace(g, st, run)[k], addr, Bytes(size))
    ensures Loaded(Trace(g, st, run)[j].data, addr, size, signed) == Extended(data, size, signed)
  {
    var trace := Trace(g, st, run);
    ResetRunRefinesFlatMemory(g, st, run);
    WordStays(st.dram, trace, i, j, addr, size, data);
    AnswersAt(st.dram, trace, j);
    var mem := FlatRun(st.dram, trace[..j]);
    MergeNothing(Get(mem, addr / BLOCK_BYTES), trace[j].wData, trace[j].wMask);
    LoadsBack(mem, addr, size, data, signed);
  }

  // --- Pairs --------------------------------------------------------------------------------------

  /** Or with a power of two. */
  function OrBit(x: nat, bit: nat): nat
    requires bit > 0
  {
    if x / bit % 2 == 1 then x else x + bit
  }

  /** Whether the two accesses of a pair are taken to lie in different blocks. What is compared are the
      addresses within the block, and the second one has the access size or-ed in. */
  predicate BlockMisaligned(addr: nat, size: nat)
    requires size <= 3
  {
    Offset(addr) != OrBit(Offset(addr + Bytes(size)), Bytes(size))
  }

  /** So every aligned pair is done in two accesses, also when both words lie in one block. */
  lemma PairsAlwaysSplit(addr: nat, size: nat)
    requires size <= 3 && Aligned(addr, size)
    ensures BlockMisaligned(addr, size)
  {
    WithinBlock(addr, size, addr);
    var n, o := Bytes(size), Offset(addr);
    assert addr == addr / BLOCK_BYTES * BLOCK_BYTES + o;
    assert Offset(addr + n) == if o + n < BLOCK_BYTES then o + n else 0 by {
      if o + n == BLOCK_BYTES {
        assert addr + n == (addr / BLOCK_BYTES + 1) * BLOCK_BYTES;
      }
    }
  }

  /** Both accesses of a pair store. */
  function PairStored(mem: Memory, addr: nat, size: nat, first: Word, second: Word): Memory
    requires size <= 3
  {
    Stored(Stored(mem, addr, size, first), addr + Bytes(size), size, second)
  }

  lemma NextAligned(addr: nat, size: nat)
    requires size <= 3 && Aligned(addr, size)
    ensures Aligned(addr + Bytes(size), size)
  {
  }

  lemma WroteTwice(mem: Memory, mem1: Memory, mem2: Memory, addr: nat, n: nat, first: Word, second: Word, a: nat)
    requires Wrote(mem, mem1, addr, n, first) && Wrote(mem1, mem2, addr + n, n, second)
    ensures ByteAt(mem2, a) ==
      if addr <= a < addr + n then ByteOf(first, a - addr)
      else if addr + n <= a < addr + 2 * n then ByteOf(second, a - addr - n)
      else ByteAt(mem, a)
  {
  }

  lemma FirstReadsBack(mem: Memory, mem1: Memory, mem2: Memory, addr: nat, size: nat, first: Word, second: Word,
                       signed: bool)
    requires size <= 3 && Aligned(addr, size)
    requires Wrote(mem, mem1, addr, Bytes(size), first) && Wrote(mem1, mem2, addr + Bytes(size), Bytes(size), second)
    ensures Loaded(Get(mem2, addr / BLOCK_BYTES), addr, size, signed) == Extended(first, size, signed)
  {
    forall k | 0 <= k < Bytes(size) ensures ByteAt(mem2, addr + k) == ByteOf(first, k) {
      WroteTwice(mem, mem1, mem2, addr, Bytes(size), first, second, addr + k);
    }
    LoadsBack(mem2, addr, size, first, signed);
  }

  lemma PairWrote(mem: Memory, addr: nat, size: nat, first: Word, second: Word)
    requires size <= 3 && Aligned(addr, size)
    ensures var mem1 := Stored(mem, addr, size, first);
      && Wrote(mem, mem1, addr, Bytes(size), first)
      && Wrote(mem1, PairStored(mem, addr, size, first, second), addr + Bytes(size), Bytes(size), second)
  {
    NextAligned(addr, size);
    StoreExact(mem, addr, size, first);
    StoreExact(Stored(mem, addr, size, first), addr + Bytes(size), size, second);
  }

  /** Main result: a pair store followed by a pair load returns both words, wherever the block boundary
      lies ... */
  lemma PairRoundTrip(mem: Memory, addr: nat, size: nat, first: Word, second: Word, signed: bool)
    requires size <= 3 && Aligned(addr, size)
    ensures var mem' := PairStored(mem, addr, size, first, second);
      var next := addr + Bytes(size);
      && Loaded(Get(mem', addr / BLOCK_BYTES), addr, size, signed) == Extended(first, size, signed)
      && Loaded(Get(mem', next / BLOCK_BYTES), next, size, signed) == Extended(second, size, signed)
  {
    var mem1 := Stored(mem, addr, size, first);
    PairWrote(mem, addr, size, first, second);
    FirstReadsBack(mem, mem1, PairStored(mem, addr, size, first, second), addr, size, first, second, signed);
    NextAligned(addr, size);
    RoundTrip(mem1, addr + Bytes(size), size, second, signed);
  }

  /** ... and leaves every byte outside the two words alone. */
  lemma PairFrame(mem: Memory, addr: nat, size: nat, first: Word, second: Word, a: nat)
    requires size <= 3 && Aligned(addr, size)
    requires a < addr || addr + 2 * Bytes(size) <= a
    ensures ByteAt(PairStored(mem, addr, size, first, second), a) == ByteAt(mem, a)
  {
    PairWrote(mem, addr, size, first, second);
    WroteTwice(mem, Stored(mem, addr, size, first), PairStored(mem, addr, size, first, second),
               addr, Bytes(size), first, second, a);
  }

  /** The single access foreseen for a pair within one block: both words shifted to their places and
      or-ed, under one mask of twice the size. */
  function SingleAccess(block: Block, addr: nat, size: nat, first: Word, second: Word): Block
    requires size <= 3
  {
    var a, b := StoreData(addr, first), StoreData(addr + Bytes(size), second);
    Merge(block, seq(BLOCK_BITS, i requires 0 <= i < BLOCK_BITS => a[i] || b[i]),
          BitMask(ByteEnable(addr, 2 * Bytes(size))))
  }

  function TwoAccesses(block: Block, addr: nat, size: nat, first: Word, second: Word): Block
    requires size <= 3
  {
    var n := Bytes(size);
    Merge(Merge(block, StoreData(addr, first), BitMask(ByteEnable(addr, n))),
          StoreData(addr + n, second), BitMask(ByteEnable(addr + n, n)))
  }

  /** Bits of the first register above the access size that the second word does not have. */
  predicate Spills(size: nat, first: Word, second: Word, i: nat)
    requires size <= 3
  {
    var n := 8 * Bytes(size);
    i < n && n + i < 64 && first[n + i] && !second[i]
  }

  lemma SingleAccessBit(block: Block, addr: nat, size: nat, first: Word, second: Word, i: nat)
    requires size <= 3 && Offset(addr) + 2 * Bytes(size) <= BLOCK_BYTES && i < BLOCK_BITS
    ensures Offset(addr + Bytes(size)) == Offset(addr) + Bytes(size)
    ensures var start := 8 * (Offset(addr) + Bytes(size));
      SingleAccess(block, addr, size, first, second)[i] ==
        (TwoAccesses(block, addr, size, first, second)[i] || (i >= start && Spills(size, first, second, i - start)))
  {
    var n := Bytes(size);
    assert addr == addr / BLOCK_BYTES * BLOCK_BYTES + Offset(addr);
    assert addr + n == addr / BLOCK_BYTES * BLOCK_BYTES + (Offset(addr) + n);
  }

  /** That access would do what two accesses do exactly when no such bits exist; 64-bit pairs have
      none. */
  lemma SingleAccessIff(block: Block, addr: nat, size: nat, first: Word, second: Word)
    requires size <= 3 && Offset(addr) + 2 * Bytes(size) <= BLOCK_BYTES
    ensures SingleAccess(block, addr, size, first, second) == TwoAccesses(block, addr, size, first, second)
      <==> forall i: nat :: !Spills(size, first, second, i)
  {
    var one, two := SingleAccess(block, addr, size, first, second), TwoAccesses(block, addr, size, first, second);
    var start := 8 * (Offset(addr) + Bytes(size));
    forall i | 0 <= i < BLOCK_BITS
      ensures one[i] == (two[i] || (i >= start && Spills(size, first, second, i - start)))
    {
      SingleAccessBit(block, addr, size, first, second, i);
    }
    if i: nat :| Spills(size, first, second, i) {
      SecondWordBit(block, addr, size, first, second, i);
      assert one[start + i] && !two[start + i];
    }
  }

  lemma SecondWordBit(block: Block, addr: nat, size: nat, first: Word, second: Word, i: nat)
    requires size <= 3 && Offset(addr) + 2 * Bytes(size) <= BLOCK_BYTES && i < 8 * Bytes(size)
    ensures TwoAccesses(block, addr, size, first, second)[8 * (Offset(addr) + Bytes(size)) + i] == second[i]
  {
    SingleAccessBit(block, addr, size, first, second, 0);
  }
}

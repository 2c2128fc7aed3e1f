/** A loaded value on its way into the register: extended by the memory unit, written by the commit unit. */
module LoadedRegister {
  import opened Wrappers
  import opened Arithmetic
  import opened CacheEntry
  import opened Words
  import opened Cache
  import opened ByteLanes
  import opened CommitUnit

  /** The finished load. All narrow accesses but the immediate sign-extending word load are marked as 32-bit
      operations. */
  function LoadInst(tag: nat, rt: nat, value: nat, size: nat, exempt: bool): Inst {
    Inst(tag, [None, Some(rt), None], [0, value, 0], None, None, false, false, size != 3 && !exempt)
  }

  /** The upper half of an extended narrow value is its sign fill. */
  lemma UpperHalf(w: Word, size: nat, signed: bool)
    requires size <= 2
    ensures Extended(w, size, signed)[32..] == Fill(32, signed && w[8 * Bytes(size) - 1])
  {
  }

  lemma CutToLow(w: Word, fill: bool)
    requires w[32..] == Fill(32, fill)
    ensures Value(w) % LOW == Value(w) <==> !fill
  {
    WordPowers();
    SplitValue(w, 32);
    ValueBound(w[..32]);
    FillValue(32);
  }

  /** Main result: the register receives the extended value exactly when the access is 8 bytes wide, or is the
      exempt one, or nothing is filled in with ones; else only the value's low 32 bits. */
  lemma ExtensionKeptIff(arch: Arch, tag: nat, rt: nat, mem: Memory, addr: nat, size: nat, signed: bool, exempt: bool)
    requires size <= 3 && Aligned(addr, size)
    ensures var value := Value(Loaded(Get(mem, addr / BLOCK_BYTES), addr, size, signed));
      var reg := Of(Committed(arch, LoadInst(tag, rt, value, size, exempt)), tag).regs[rt];
      && (reg == value <==> size == 3 || exempt || !signed || !ByteAt(mem, addr + Bytes(size) - 1)[7])
      && reg % LOW == value % LOW
  {
    var w := ShiftRight(Get(mem, addr / BLOCK_BYTES), 8 * Offset(addr), 64);
    var n := Bytes(size);
    if size < 3 {
      LoadedByte(mem, addr, size, n - 1);
      assert ByteOf(w, n - 1)[7] == w[8 * n - 1];
      UpperHalf(w, size, signed);
      CutToLow(Extended(w, size, signed), signed && w[8 * n - 1]);
    }
  }
}

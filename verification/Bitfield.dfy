/** The bitfield instructions UBFM, SBFM and BFM: rotate, the two masks of the bit-mask decoder, and
    the combination of both, against the instructions' own definition. */
module Bitfield {
  import opened Arithmetic
  import opened Words

  datatype Op = Sbfm | Bfm | Ubfm

  // --- The shared shifter -----------------------------------------------------------------------

  /** Element i of a vector of n rotated right: the source picks one of two indexes, each cut to the
      index width. */
  function RotateIndex(n: nat, i: nat, rot: nat): (k: nat)
    requires i < n
    ensures k < n
  {
    if rot < n - i then (rot - (n - i)) % n else (i + rot) % n
  }

  function RotateRight(norm: Bits, rot: nat): (r: Bits)
    ensures |r| == |norm|
  {
    seq(|norm|, i requires 0 <= i < |norm| => norm[RotateIndex(|norm|, i, rot)])
  }

  lemma RotatedBit(norm: Bits, rot: nat, i: nat)
    requires i < |norm| && rot < |norm|
    ensures RotateRight(norm, rot)[i] == norm[if i + rot < |norm| then i + rot else i + rot - |norm|]
  {
    var n := |norm|;
    if rot < n - i {
      Wrap(rot + i - n, n);
    } else {
      Wrap(i + rot, n);
    }
  }

  // --- The bit-mask decoder ---------------------------------------------------------------------

  /** Position of the highest set bit; 0 when there is none. */
  function HighestBitSet(x: nat): nat {
    if x < 2 then 0 else 1 + HighestBitSet(x / 2)
  }

  function OnesTable(k: nat): (w: Word)
    requires k <= 64
  {
    Fill(k, true) + Fill(64 - k, false)
  }

  datatype Masks = Masks(wmask: Word, tmask: Word)

  function Extend(w: Bits): (r: Word)
    requires |w| <= 64
  {
    w + Fill(64 - |w|, false)
  }

  /** Number of bits of an element, as the position of the highest bit of immn:~imms. */
  function ElementLength(immn: bool, imms: nat): (len: nat)
    requires imms < 64
    ensures len <= 6
  {
    SmallPowers();
    HighestBitBound(64 * Bit(immn) + (63 - imms), 7);
    HighestBitSet(64 * Bit(immn) + (63 - imms))
  }

  lemma ElementLengthCases(immn: bool, imms: nat)
    requires imms < 64
    ensures immn ==> ElementLength(immn, imms) == 6
    ensures !immn && imms < 32 ==> ElementLength(immn, imms) == 5
  {
    SmallPowers();
    if immn {
      HighestBitExact(64 + (63 - imms), 6);
    } else if imms < 32 {
      HighestBitExact(63 - imms, 5);
    }
  }

  lemma {:induction false} HighestBitBound(x: nat, k: nat)
    requires k >= 1 && x < Pow2(k)
    ensures HighestBitSet(x) <= k - 1
  {
    if x >= 2 {
      HighestBitBound(x / 2, k - 1);
    }
  }

  lemma {:induction false} HighestBitExact(x: nat, k: nat)
    requires Pow2(k) <= x < Pow2(k + 1)
    ensures HighestBitSet(x) == k
  {
    if k == 0 {
    } else {
      HighestBitExact(x / 2, k - 1);
    }
  }

  /** The mask of as many ones as the element length, six bits of the table's entry. */
  function Levels(immn: bool, imms: nat): (m: nat)
    requires imms < 64
    ensures m == Pow2(ElementLength(immn, imms)) - 1 < 64
  {
    LevelsValue(ElementLength(immn, imms));
    Value(OnesTable(ElementLength(immn, imms))[..6])
  }

  lemma LevelsValue(len: nat)
    requires len <= 6
    ensures Value(OnesTable(len)[..6]) == Pow2(len) - 1 < 64
  {
    assert OnesTable(len)[..6] == Fill(len, true) + Fill(6 - len, false);
    LowOnes(len, 6 - len);
    assert Pow2(len) <= 64 by {
      SmallPowers();
      PowMonotone(len, 6);
    }
  }

  /** Both masks from the immediates; fields and their difference are cut to the element length. */
  function DecodeBitMasks(immn: bool, imms: nat, immr: nat, is32bit: bool): Masks
    requires imms < 64 && immr < 64
  {
    var levels := Levels(immn, imms);
    var s := And(imms, levels);
    var r := And(immr, levels);
    var d := And((s - r) % 128, levels);
    AndBelow(imms, levels);
    AndBelow((s - r) % 128, levels);
    var welem := OnesTable(s + 1);
    var wmask := if is32bit then Extend(RotateRight(welem[..32], And(r, 31))) else RotateRight(welem, r);
    Masks(wmask, OnesTable(d + 1))
  }

  lemma {:induction false} AndBelow(x: nat, y: nat)
    ensures And(x, y) <= y
    decreases x
  {
    if x == 0 {
    } else {
      AndBelow(x / 2, y / 2);
      assert (x % 2) * (y % 2) <= y % 2;
    }
  }

  predicate ValidFields(is32bit: bool, immn: bool, imms: nat, immr: nat) {
    immn == !is32bit && imms < Width(is32bit) && immr < Width(is32bit)
  }

  function Width(is32bit: bool): nat {
    if is32bit then 32 else 64
  }

  /** In a valid encoding the fields pass the masking unchanged, and their difference wraps at the
      register width. */
  lemma FieldsDecoded(is32bit: bool, immn: bool, imms: nat, immr: nat)
    requires ValidFields(is32bit, immn, imms, immr)
    ensures var levels := Levels(immn, imms);
      && And(imms, levels) == imms && And(immr, levels) == immr
      && And((imms - immr) % 128, levels) == Distance(Width(is32bit), imms, immr)
      && (is32bit ==> And(immr, 31) == immr)
  {
    var w, len := Width(is32bit), if is32bit then 5 else 6;
    ElementLengthCases(immn, imms);
    assert Pow2(len) == w by {
      SmallPowers();
    }
    MaskedBelow(imms, len, w - 1);
    MaskedBelow(immr, len, w - 1);
    MaskedBelow((imms - immr) % 128, len, w - 1);
    DifferenceWraps(w, imms, immr);
  }

  lemma MaskedBelow(x: nat, k: nat, m: nat)
    requires m == Pow2(k) - 1
    ensures And(x, m) == x % Pow2(k)
    ensures x <= m ==> And(x, m) == x
  {
    AndOnes(x, k);
  }

  /** imms - immr, wrapped at the register width. */
  function Distance(w: nat, imms: nat, immr: nat): nat
    requires immr <= w
  {
    if imms >= immr then imms - immr else imms + w - immr
  }

  lemma DifferenceWraps(w: nat, imms: nat, immr: nat)
    requires (w == 32 || w == 64) && imms < w && immr < w
    ensures (imms - immr) % 128 % w == Distance(w, imms, immr)
  {
    Wrap(imms - immr, 128);
    if imms < immr {
      var x := imms - immr + w;
      if w == 32 {
        DivModOfSum(32, 3, x);
      } else {
        DivModOfSum(64, 1, x);
      }
    }
  }

  // --- The instruction --------------------------------------------------------------------------

  function BitNot(a: Word): (r: Word)
    ensures forall i :: 0 <= i < 64 ==> r[i] == !a[i]
  {
    seq(64, i requires 0 <= i < 64 => !a[i])
  }

  function BitAnd(a: Word, b: Word): (r: Word)
    ensures forall i :: 0 <= i < 64 ==> r[i] == (a[i] && b[i])
  {
    seq(64, i requires 0 <= i < 64 => a[i] && b[i])
  }

  function BitOr(a: Word, b: Word): (r: Word)
    ensures forall i :: 0 <= i < 64 ==> r[i] == (a[i] || b[i])
  {
    seq(64, i requires 0 <= i < 64 => a[i] || b[i])
  }

  /** What the shifter hands to the bitfield unit. */
  function Rotated(src: Word, immr: nat, is32bit: bool): Word {
    if is32bit then Extend(RotateRight(src[..32], And(immr, 31))) else RotateRight(src, immr)
  }

  function BitfieldAlu(op: Op, imms: nat, src: Word, dst: Word, m: Masks, ror: Word): Word
    requires imms < 64
  {
    match op
    case Sbfm =>
      var bot := BitAnd(ror, m.wmask);
      var top := Fill(64, src[imms]);
      BitOr(BitAnd(top, BitNot(m.tmask)), BitAnd(bot, m.tmask))
    case Bfm =>
      var bot := BitOr(BitAnd(dst, BitNot(m.wmask)), BitAnd(ror, m.wmask));
      BitOr(BitAnd(dst, BitNot(m.tmask)), BitAnd(bot, m.tmask))
    case Ubfm =>
      var bot := BitAnd(ror, m.wmask);
      BitOr(BitAnd(bot, m.tmask), BitAnd(bot, m.tmask))
  }

  /** What is written to the register file: the low half alone for a 32-bit instruction. */
  function Committed(res: Word, is32bit: bool): Word {
    if is32bit then Extend(res[..32]) else res
  }

  function Execute(op: Op, is32bit: bool, immn: bool, imms: nat, immr: nat, src: Word, dst: Word): Word
    requires imms < 64 && immr < 64
  {
    Committed(
      BitfieldAlu(op, imms, src, dst, DecodeBitMasks(immn, imms, immr, is32bit), Rotated(src, immr, is32bit)),
      is32bit)
  }

  // --- The definition of the instructions (Arm ARM, DDI 0487, section C6.2) -----------------------

  /** Lowest destination bit of the field. */
  function FieldStart(w: nat, imms: nat, immr: nat): int {
    if imms >= immr then 0 else w - immr
  }

  /** Source bit that lands in destination bit i when i is in the field. */
  function FieldSource(w: nat, imms: nat, immr: nat, i: int): int {
    if imms >= immr then i + immr else i - (w - immr)
  }

  predicate InField(w: nat, imms: nat, immr: nat, i: int) {
    FieldStart(w, imms, immr) <= i && FieldSource(w, imms, immr, i) <= imms
  }

  /** Bits imms..immr of the source moved to the bottom when imms >= immr, else bits imms..0 moved up
      to bit width-immr; beside the field zeros, copies of its top bit above it, or the destination. */
  function ArmBit(op: Op, w: nat, imms: nat, immr: nat, src: Word, dst: Word, i: int): bool
    requires w <= 64 && imms < w && immr < w && 0 <= i < w
  {
    if InField(w, imms, immr, i) then src[FieldSource(w, imms, immr, i)]
    else
      match op
      case Ubfm => false
      case Bfm => dst[i]
      case Sbfm => i >= FieldStart(w, imms, immr) && src[imms]
  }

  function ArmResult(op: Op, w: nat, imms: nat, immr: nat, src: Word, dst: Word): (r: Word)
    requires w <= 64 && imms < w && immr < w
  {
    seq(64, i requires 0 <= i < 64 => if i < w then ArmBit(op, w, imms, immr, src, dst, i) else false)
  }

  // --- Main result ------------------------------------------------------------------------------

  /** A run of s+1 ones rotated right by r, inside w bits. */
  lemma RotatedOnes(s: nat, r: nat, w: nat, i: nat)
    requires s < w <= 64 && r < w && i < w
    ensures RotateRight(OnesTable(s + 1)[..w], r)[i] <==> (if i + r < w then i + r else i + r - w) <= s
  {
    RotatedBit(OnesTable(s + 1)[..w], r, i);
  }

  /** The masks in a valid encoding, without the detour over the element length. */
  lemma MasksDecoded(is32bit: bool, immn: bool, imms: nat, immr: nat)
    requires ValidFields(is32bit, immn, imms, immr)
    ensures var w := Width(is32bit);
      DecodeBitMasks(immn, imms, immr, is32bit) == Masks(
        Extend(RotateRight(OnesTable(imms + 1)[..w], immr)), OnesTable(Distance(w, imms, immr) + 1))
  {
    FieldsDecoded(is32bit, immn, imms, immr);
    assert OnesTable(imms + 1)[..64] == OnesTable(imms + 1);
  }

  lemma MaskBits(is32bit: bool, immn: bool, imms: nat, immr: nat, i: nat)
    requires ValidFields(is32bit, immn, imms, immr) && i < Width(is32bit)
    ensures var w := Width(is32bit);
      var m := DecodeBitMasks(immn, imms, immr, is32bit);
      && (m.wmask[i] <==> (if i + immr < w then i + immr else i + immr - w) <= imms)
      && (m.tmask[i] <==> i <= Distance(w, imms, immr))
  {
    MasksDecoded(is32bit, immn, imms, immr);
    RotatedOnes(imms, immr, Width(is32bit), i);
  }

  lemma SourceBit(is32bit: bool, immn: bool, imms: nat, immr: nat, src: Word, i: nat)
    requires ValidFields(is32bit, immn, imms, immr) && i < Width(is32bit)
    ensures var w := Width(is32bit);
      Rotated(src, immr, is32bit)[i] == src[if i + immr < w then i + immr else i + immr - w]
  {
    FieldsDecoded(is32bit, immn, imms, immr);
    if is32bit {
      RotatedBit(src[..32], immr, i);
    } else {
      RotatedBit(src, immr, i);
    }
  }

  lemma ExecutedBit(op: Op, is32bit: bool, immn: bool, imms: nat, immr: nat, src: Word, dst: Word, i: nat)
    requires ValidFields(is32bit, immn, imms, immr) && i < Width(is32bit)
    ensures Execute(op, is32bit, immn, imms, immr, src, dst)[i]
      == ArmBit(op, Width(is32bit), imms, immr, src, dst, i)
  {
    MaskBits(is32bit, immn, imms, immr, i);
    SourceBit(is32bit, immn, imms, immr, src, i);
  }

  /** Main result: for every valid encoding, both widths, every source and destination, the datapath
      leaves in the register what the instruction is defined to leave. */
  lemma BitfieldIsArm(op: Op, is32bit: bool, immn: bool, imms: nat, immr: nat, src: Word, dst: Word)
    requires ValidFields(is32bit, immn, imms, immr)
    ensures Execute(op, is32bit, immn, imms, immr, src, dst)
      == ArmResult(op, Width(is32bit), imms, immr, src, dst)
  {
    var w := Width(is32bit);
    forall i | 0 <= i < 64
      ensures Execute(op, is32bit, immn, imms, immr, src, dst)[i] == ArmResult(op, w, imms, immr, src, dst)[i]
    {
      if i < w {
        ExecutedBit(op, is32bit, immn, imms, immr, src, dst, i);
      }
    }
  }

  // --- Two aliases, as arithmetic ----------------------------------------------------------------

  lemma ShiftRightShape(w: nat, shift: nat, src: Word, dst: Word)
    requires shift < w <= 64
    ensures ArmResult(Ubfm, w, w - 1, shift, src, dst) == src[..w][shift..] + Fill(64 - (w - shift), false)
  {
  }

  lemma ShiftLeftShape(w: nat, shift: nat, src: Word, dst: Word)
    requires shift < w <= 64
    ensures ArmResult(Ubfm, w, w - 1 - shift, if shift == 0 then 0 else w - shift, src, dst)
      == (Fill(shift, false) + src[..w][..w - shift]) + Fill(64 - w, false)
  {
  }

  /** UBFM #shift, #(width-1) divides by a power of two. */
  lemma ShiftRightDivides(is32bit: bool, shift: nat, src: Word, dst: Word)
    requires shift < Width(is32bit)
    ensures var w := Width(is32bit);
      Value(Execute(Ubfm, is32bit, !is32bit, w - 1, shift, src, dst)) == Value(src[..w]) / Pow2(shift)
  {
    var w := Width(is32bit);
    var executed := Execute(Ubfm, is32bit, !is32bit, w - 1, shift, src, dst);
    BitfieldIsArm(Ubfm, is32bit, !is32bit, w - 1, shift, src, dst);
    ShiftRightShape(w, shift, src, dst);
    PaddedQuotient(executed, src[..w], shift, 64 - (w - shift));
  }

  lemma PaddedQuotient(r: Bits, field: Bits, k: nat, n: nat)
    requires k <= |field| && r == field[k..] + Fill(n, false)
    ensures Value(r) == Value(field) / Pow2(k)
  {
    Padded(field[k..], n);
    SplitValue(field, k);
  }

  /** UBFM #(-shift mod width), #(width-1-shift) multiplies by a power of two, modulo the width. */
  lemma ShiftLeftMultiplies(is32bit: bool, shift: nat, src: Word, dst: Word)
    requires shift < Width(is32bit)
    ensures var w := Width(is32bit);
      Value(Execute(Ubfm, is32bit, !is32bit, w - 1 - shift, if shift == 0 then 0 else w - shift, src, dst))
        == Value(src[..w]) * Pow2(shift) % Pow2(w)
  {
    var w := Width(is32bit);
    var immr := if shift == 0 then 0 else w - shift;
    var executed := Execute(Ubfm, is32bit, !is32bit, w - 1 - shift, immr, src, dst);
    BitfieldIsArm(Ubfm, is32bit, !is32bit, w - 1 - shift, immr, src, dst);
    ShiftLeftShape(w, shift, src, dst);
    PaddedProduct(executed, src[..w], shift, 64 - w);
  }

  lemma PaddedProduct(r: Bits, field: Bits, k: nat, n: nat)
    requires k <= |field| && r == (Fill(k, false) + field[..|field| - k]) + Fill(n, false)
    ensures Value(r) == Value(field) * Pow2(k) % Pow2(|field|)
  {
    Padded(Fill(k, false) + field[..|field| - k], n);
    RaisedWithin(field, k);
  }
}

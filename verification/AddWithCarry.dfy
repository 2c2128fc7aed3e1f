/** The adder with its flags, and the unit that tests them: what a condition means after a compare. */
module AddWithCarry {
  import opened Arithmetic

  datatype Nzcv = Nzcv(n: bool, z: bool, c: bool, v: bool)
  datatype Sum = Sum(res: int, nzcv: Nzcv)

  const HALF64: nat := 0x8000_0000_0000_0000
  const HALF32: nat := 0x8000_0000

  /** Half the number of values of a 32-bit or 64-bit operand. */
  function Half(is32bit: bool): (h: int)
    ensures h >= 1
  {
    if is32bit then HALF32 else HALF64
  }

  /** Operands are 32 or 64 bits wide. */
  lemma HalfExact()
    ensures 2 * Half(true) == Pow2(32) && 2 * Half(false) == Pow2(64)
  {
    WordPowers();
  }

  /** A number below 2h read as two's complement. */
  function Signed(h: int, x: int): int {
    if x >= h then x - 2 * h else x
  }

  /** Adder of one width. Both sums are one bit wider than the operands. */
  function AddAt(h: int, a: int, b: int, carry: int): Sum
    requires 0 <= a < 2 * h && 0 <= b < 2 * h && 0 <= carry <= 1
  {
    var unsignedSum := (a + b + carry) % (4 * h);
    var signedSum := ((Signed(h, a) + Signed(h, b)) % (4 * h) + carry) % (4 * h);
    var res := unsignedSum % (2 * h);
    Sum(res, Nzcv(res >= h, res == 0, res != unsignedSum, Signed(h, res) != Signed(2 * h, signedSum)))
  }

  predicate IsWord(x: int) {
    0 <= x < 2 * HALF64
  }

  /** The operand bits an instruction of this width sees. */
  function Low(is32bit: bool, x: int): int {
    x % (2 * Half(is32bit))
  }

  function Adder(is32bit: bool, a: int, b: int, carry: int): Sum
    requires IsWord(a) && IsWord(b) && 0 <= carry <= 1
  {
    if is32bit then AddAt(HALF32, Low(true, a), Low(true, b), carry) else AddAt(HALF64, a, b, carry)
  }

  /** The four condition bits: three choose a test, the lowest negates it, except for 1111. */
  predicate ConditionHolds(cond: nat, f: Nzcv)
    requires cond < 16
  {
    var result :=
      match cond / 2
      case 0 => f.z
      case 1 => f.c
      case 2 => f.n
      case 3 => f.v
      case 4 => f.c && !f.z
      case 5 => f.n == f.v
      case 6 => f.n == f.v && !f.z
      case _ => true;
    if cond % 2 == 1 && cond != 15 then !result else result
  }

  // --- What the adder computes --------------------------------------------------------------------

  /** The sum wraps at the width; carry and overflow tell when the unsigned or the signed sum does
      not fit, and without overflow the result is the signed sum itself. */
  ghost predicate IsSum(h: int, a: int, b: int, carry: int, r: Sum) {
    var total := a + b + carry;
    var signed := Signed(h, a) + Signed(h, b) + carry;
    && r.res == (if total >= 2 * h then total - 2 * h else total)
    && (r.nzcv.n <==> Signed(h, r.res) < 0)
    && (r.nzcv.z <==> r.res == 0)
    && (r.nzcv.c <==> total >= 2 * h)
    && (r.nzcv.v <==> !(-h <= signed < h))
    && (!r.nzcv.v ==> Signed(h, r.res) == signed)
  }

  lemma AddExact(h: int, a: int, b: int, carry: int)
    requires 0 <= a < 2 * h && 0 <= b < 2 * h && 0 <= carry <= 1
    ensures IsSum(h, a, b, carry, AddAt(h, a, b, carry))
  {
    var r := AddAt(h, a, b, carry);
    var total, signed := a + b + carry, Signed(h, a) + Signed(h, b) + carry;
    Wrap(total, 4 * h);
    Wrap(total, 2 * h);
    WideSignedSum(h, Signed(h, a) + Signed(h, b), carry);
    assert r.res == if total >= 2 * h then total - 2 * h else total;
    assert r.nzcv.v <==> Signed(h, r.res) != signed;
  }

  /** The wider signed sum never overflows. */
  lemma WideSignedSum(h: int, s: int, carry: int)
    requires -2 * h <= s < 2 * h - 1 && 0 <= carry <= 1
    ensures Signed(2 * h, (s % (4 * h) + carry) % (4 * h)) == s + carry
  {
    Wrap(s, 4 * h);
    Wrap(s % (4 * h) + carry, 4 * h);
  }

  // --- Compare ------------------------------------------------------------------------------------

  /** All 64 bits inverted. */
  function Inverted(x: int): int
    requires IsWord(x)
  {
    2 * HALF64 - 1 - x
  }

  /** SUBS, CMP and CCMP: add the inverse with a carry. */
  function Subtract(is32bit: bool, x: int, y: int): Sum
    requires IsWord(x) && IsWord(y)
  {
    Adder(is32bit, x, Inverted(y), 1)
  }

  lemma LowOfLow(is32bit: bool, x: int)
    ensures 0 <= Low(is32bit, x) < 2 * Half(is32bit) && IsWord(Low(is32bit, x))
    ensures Low(is32bit, Low(is32bit, x)) == Low(is32bit, x)
    ensures IsWord(x) ==> Low(false, x) == x
  {
    Wrap(Low(is32bit, x), 2 * Half(is32bit));
    if IsWord(x) {
      Wrap(x, 2 * HALF64);
    }
  }

  /** The two adders are one, on the bits of the width. */
  lemma AdderExact(is32bit: bool, a: int, b: int, carry: int)
    requires IsWord(a) && IsWord(b) && 0 <= carry <= 1
    ensures 0 <= Low(is32bit, a) < 2 * Half(is32bit) && 0 <= Low(is32bit, b) < 2 * Half(is32bit)
    ensures Adder(is32bit, a, b, carry) == AddAt(Half(is32bit), Low(is32bit, a), Low(is32bit, b), carry)
  {
    LowOfLow(is32bit, a);
    LowOfLow(is32bit, b);
  }

  lemma LowOfInverted(is32bit: bool, y: int)
    requires IsWord(y)
    ensures Low(is32bit, Inverted(y)) == 2 * Half(is32bit) - 1 - Low(is32bit, y)
  {
    if is32bit {
      var m := 2 * HALF32;
      assert Inverted(y) == (m - 1 - y / m) * m + (m - 1 - y % m);
      DivModOfSum(m, m - 1 - y / m, m - 1 - y % m);
    } else {
      LowOfLow(false, y);
      LowOfLow(false, Inverted(y));
    }
  }

  /** Difference and flags, in terms of the operands' unsigned and signed values. */
  ghost predicate IsDifference(h: int, ux: int, uy: int, r: Sum) {
    var d := Signed(h, ux) - Signed(h, uy);
    && r.res == (if ux >= uy then ux - uy else ux - uy + 2 * h)
    && (r.nzcv.z <==> ux == uy)
    && (r.nzcv.c <==> ux >= uy)
    && (r.nzcv.v <==> !(-h <= d < h))
    && (r.nzcv.n == r.nzcv.v <==> d >= 0)
    && (r.nzcv.n <==> r.res >= h)
  }

  lemma InverseSubtracts(h: int, ux: int, uy: int)
    requires 0 <= ux < 2 * h && 0 <= uy < 2 * h
    ensures IsDifference(h, ux, uy, AddAt(h, ux, 2 * h - 1 - uy, 1))
  {
    AddExact(h, ux, 2 * h - 1 - uy, 1);
  }

  lemma SubtractExact(is32bit: bool, x: int, y: int)
    requires IsWord(x) && IsWord(y)
    ensures IsDifference(Half(is32bit), Low(is32bit, x), Low(is32bit, y), Subtract(is32bit, x, y))
  {
    LowOfInverted(is32bit, y);
    AdderExact(is32bit, x, Inverted(y), 1);
    InverseSubtracts(Half(is32bit), Low(is32bit, x), Low(is32bit, y));
  }

  datatype Relation = EQ | NE | CS | CC | MI | PL | VS | VC | HI | LS | GE | LT | GT | LE | AL | NV

  function Named(cond: nat): Relation
    requires cond < 16
  {
    [EQ, NE, CS, CC, MI, PL, VS, VC, HI, LS, GE, LT, GT, LE, AL, NV][cond]
  }

  /** The relations a condition names (Arm ARM, DDI 0487, section C1.2.4), on operands of width 2h. */
  predicate Related(r: Relation, h: int, ux: int, uy: int)
    requires h >= 1
  {
    var sx, sy := Signed(h, ux), Signed(h, uy);
    match r
    case EQ => ux == uy
    case NE => ux != uy
    case CS => ux >= uy
    case CC => ux < uy
    case MI => (ux - uy) % (2 * h) >= h
    case PL => (ux - uy) % (2 * h) < h
    case VS => sx - sy < -h || sx - sy >= h
    case VC => -h <= sx - sy < h
    case HI => ux > uy
    case LS => ux <= uy
    case GE => sx >= sy
    case LT => sx < sy
    case GT => sx > sy
    case LE => sx <= sy
    case AL => true
    case NV => true
  }

  lemma SignedInjective(h: int, a: int, b: int)
    requires 0 <= a < 2 * h && 0 <= b < 2 * h
    ensures Signed(h, a) == Signed(h, b) <==> a == b
  {
  }

  /** Main result: after a subtract or compare of either width, a condition holds exactly when the
      relation it names holds between the operands. */
  lemma ConditionAfterCompare(is32bit: bool, x: int, y: int, cond: nat)
    requires IsWord(x) && IsWord(y) && cond < 16
    ensures ConditionHolds(cond, Subtract(is32bit, x, y).nzcv)
      <==> Related(Named(cond), Half(is32bit), Low(is32bit, x), Low(is32bit, y))
  {
    var h := Half(is32bit);
    var ux, uy := Low(is32bit, x), Low(is32bit, y);
    SubtractExact(is32bit, x, y);
    SignedInjective(h, ux, uy);
    Wrap(ux - uy, 2 * h);
    NamesByTest(cond);
  }

  /** Each pair of names shares its test. */
  lemma NamesByTest(cond: nat)
    requires cond < 16
    ensures cond == 2 * (cond / 2) + cond % 2
    ensures Named(cond) ==
      match cond / 2
      case 0 => if cond % 2 == 0 then EQ else NE
      case 1 => if cond % 2 == 0 then CS else CC
      case 2 => if cond % 2 == 0 then MI else PL
      case 3 => if cond % 2 == 0 then VS else VC
      case 4 => if cond % 2 == 0 then HI else LS
      case 5 => if cond % 2 == 0 then GE else LT
      case 6 => if cond % 2 == 0 then GT else LE
      case _ => if cond % 2 == 0 then AL else NV
  {
  }

  // --- Conditional select -------------------------------------------------------------------------

  datatype SelectOp = Csel | Csinc | Csinv | Csneg

  /** The wiring of the conditional selects: the second operand passes the adder beside zero. */
  function ConditionalSelect(op: SelectOp, is32bit: bool, holds: bool, x: int, y: int): int
    requires IsWord(x) && IsWord(y)
  {
    var operand := if is32bit then Low(true, y) else y;
    var b := if op.Csinv? || op.Csneg? then Inverted(operand) else operand;
    var res := if holds then x else Adder(is32bit, 0, b, if op.Csinc? || op.Csneg? then 1 else 0).res;
    if is32bit then Low(true, res) else res
  }

  /** The value selected when the condition fails. */
  function Other(op: SelectOp, y: int): int {
    match op
    case Csel => y
    case Csinc => y + 1
    case Csinv => -1 - y
    case Csneg => -y
  }

  lemma OtherAt(op: SelectOp, h: int, u: int)
    requires 0 <= u < 2 * h
    ensures var neg, inc := op.Csinv? || op.Csneg?, op.Csinc? || op.Csneg?;
      AddAt(h, 0, if neg then 2 * h - 1 - u else u, if inc then 1 else 0).res == Other(op, u) % (2 * h)
  {
    var neg, inc := op.Csinv? || op.Csneg?, op.Csinc? || op.Csneg?;
    AddExact(h, 0, if neg then 2 * h - 1 - u else u, if inc then 1 else 0);
    Wrap(Other(op, u), 2 * h);
  }

  lemma LowOfOther(op: SelectOp, is32bit: bool, y: int)
    ensures Low(is32bit, Other(op, Low(is32bit, y))) == Low(is32bit, Other(op, y))
  {
    var m := 2 * Half(is32bit);
    var q := y / m;
    assert y == q * m + Low(is32bit, y);
    OtherCongruent(op, m, q, Low(is32bit, y));
  }

  lemma AddedAlone(op: SelectOp, is32bit: bool, u: int)
    requires IsWord(u) && Low(is32bit, u) == u
    ensures var neg, inc := op.Csinv? || op.Csneg?, op.Csinc? || op.Csneg?;
      Adder(is32bit, 0, if neg then Inverted(u) else u, if inc then 1 else 0).res == Low(is32bit, Other(op, u))
  {
    var neg, inc := op.Csinv? || op.Csneg?, op.Csinc? || op.Csneg?;
    AdderExact(is32bit, 0, if neg then Inverted(u) else u, if inc then 1 else 0);
    LowOfInverted(is32bit, u);
    OtherAt(op, Half(is32bit), u);
  }

  /** Main result: the register receives the first operand, or the second one unchanged, plus one,
      inverted or negated, all modulo the width. */
  lemma SelectExact(op: SelectOp, is32bit: bool, holds: bool, x: int, y: int)
    requires IsWord(x) && IsWord(y)
    ensures ConditionalSelect(op, is32bit, holds, x, y) == Low(is32bit, if holds then x else Other(op, y))
  {
    LowOfLow(is32bit, x);
    LowOfLow(is32bit, y);
    LowOfLow(is32bit, Other(op, y));
    AddedAlone(op, is32bit, Low(is32bit, y));
    LowOfOther(op, is32bit, y);
  }

  /** Multiples of the modulus do not matter. */
  lemma OtherCongruent(op: SelectOp, m: int, q: int, u: int)
    requires m > 0
    ensures Other(op, q * m + u) % m == Other(op, u) % m
  {
    if op.Csinv? || op.Csneg? {
      assert Other(op, q * m + u) == -q * m + Other(op, u);
      Shifted(m, -q, Other(op, u));
    } else {
      Shifted(m, q, Other(op, u));
    }
  }

  lemma Shifted(m: int, q: int, x: int)
    requires m > 0
    ensures (q * m + x) % m == x % m
  {
    var y := q * m + x;
    assert y == (q + x / m) * m + x % m;
    QuotientUnique(m, q + x / m, x % m, y / m, y % m);
  }
}

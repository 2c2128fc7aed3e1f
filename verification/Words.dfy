/** Machine words as bit sequences, lowest bit first, and their value as unsigned numbers. */
module Words {
  import opened Arithmetic

  type Bits = seq<bool>

  type Word = w: Bits | |w| == 64
    witness seq(64, _ => false)

  function Bit(b: bool): nat {
    if b then 1 else 0
  }

  /** The unsigned value. */
  function Value(w: Bits): nat {
    if w == [] then 0 else Bit(w[0]) + 2 * Value(w[1..])
  }

  lemma {:induction false} ValueBound(w: Bits)
    ensures Value(w) < Pow2(|w|)
  {
    if w == [] {
    } else {
      ValueBound(w[1..]);
    }
  }

  lemma {:induction false} ValueConcat(low: Bits, high: Bits)
    ensures Value(low + high) == Value(low) + Pow2(|low|) * Value(high)
  {
    if low == [] {
      assert low + high == high;
    } else {
      assert (low + high)[1..] == low[1..] + high;
      ValueConcat(low[1..], high);
      Regroup(Value(low[1..]), Pow2(|low| - 1), Value(high));
    }
  }

  lemma Regroup(a: nat, p: nat, b: nat)
    ensures 2 * (a + p * b) == 2 * a + (2 * p) * b
  {
  }

  /** The n lowest bits of all-zero, all-one words. */
  function Fill(n: nat, b: bool): (w: Bits)
    ensures |w| == n && forall i :: 0 <= i < n ==> w[i] == b
  {
    seq(n, _ => b)
  }

  lemma {:induction false} FillValue(n: nat)
    ensures Value(Fill(n, false)) == 0
    ensures Value(Fill(n, true)) == Pow2(n) - 1
  {
    if n == 0 {
    } else {
      assert Fill(n, false)[1..] == Fill(n - 1, false);
      assert Fill(n, true)[1..] == Fill(n - 1, true);
      FillValue(n - 1);
    }
  }

  lemma Padded(w: Bits, n: nat)
    ensures Value(w + Fill(n, false)) == Value(w)
  {
    ValueConcat(w, Fill(n, false));
    FillValue(n);
  }

  /** The upper bits are the quotient, the lower bits the remainder. */
  lemma SplitValue(w: Bits, k: nat)
    requires k <= |w|
    ensures Value(w[k..]) == Value(w) / Pow2(k) && Value(w[..k]) == Value(w) % Pow2(k)
  {
    assert w[..k] + w[k..] == w;
    ValueConcat(w[..k], w[k..]);
    ValueBound(w[..k]);
    QuotientOfSum(Value(w), Pow2(k), Value(w[k..]), Value(w[..k]));
  }

  lemma QuotientOfSum(x: nat, p: nat, high: nat, low: nat)
    requires low < p && x == low + p * high
    ensures x / p == high && x % p == low
  {
    DivModOfSum(p, high, low);
  }

  /** Zeros below a word multiply it. */
  lemma Raised(w: Bits, k: nat)
    ensures Value(Fill(k, false) + w) == Pow2(k) * Value(w)
  {
    ValueConcat(Fill(k, false), w);
    FillValue(k);
  }

  /** Dropping the k upper bits and moving the rest up by k multiplies modulo the width. */
  lemma RaisedWithin(w: Bits, k: nat)
    requires k <= |w|
    ensures Value(Fill(k, false) + w[..|w| - k]) == Value(w) * Pow2(k) % Pow2(|w|)
  {
    var n := |w| - k;
    Raised(w[..n], k);
    SplitValue(w, n);
    PowAdd(n, k);
    HighPartDrops(Value(w), Pow2(n), Pow2(k));
  }

  lemma HighPartDrops(x: nat, p: nat, q: nat)
    requires p >= 1 && q >= 1
    ensures p * q >= 1 && x * q % (p * q) == q * (x % p)
  {
    var h, l := x / p, x % p;
    MulGrows(p, q);
    assert x * q == h * (p * q) + q * l by {
      assert x == h * p + l;
      assert (h * p + l) * q == (h * p) * q + l * q;
      assert (h * p) * q == h * (p * q);
    }
    assert q * l < p * q by {
      assert l + 1 <= p;
      assert (l + 1) * q <= p * q;
    }
    DivModOfSum(p * q, h, q * l);
  }

  lemma MulGrows(p: nat, q: nat)
    requires p >= 1 && q >= 1
    ensures p * q >= 1
  {
  }

  /** k ones below n zeros. */
  lemma LowOnes(k: nat, n: nat)
    ensures Value(Fill(k, true) + Fill(n, false)) == Pow2(k) - 1
  {
    ValueConcat(Fill(k, true), Fill(n, false));
    FillValue(k);
    FillValue(n);
  }

  /** Equal values mean equal words of one width. */
  lemma {:induction false} ValueInjective(a: Bits, b: Bits)
    requires |a| == |b| && Value(a) == Value(b)
    ensures a == b
  {
    if a == [] {
    } else {
      assert Bit(a[0]) + 2 * Value(a[1..]) == Bit(b[0]) + 2 * Value(b[1..]);
      assert a[0] == b[0];
      ValueInjective(a[1..], b[1..]);
      assert a == [a[0]] + a[1..] && b == [b[0]] + b[1..];
    }
  }

  /** The n lowest bits of a number. */
  function FromNat(v: nat, n: nat): (w: Bits)
    ensures |w| == n
  {
    if n == 0 then [] else [v % 2 == 1] + FromNat(v / 2, n - 1)
  }

  lemma {:induction false} ValueOfNat(v: nat, n: nat)
    requires v < Pow2(n)
    ensures Value(FromNat(v, n)) == v
  {
    if n == 0 {
    } else {
      assert FromNat(v, n)[1..] == FromNat(v / 2, n - 1);
      ValueOfNat(v / 2, n - 1);
    }
  }

  lemma NatOfValue(w: Bits)
    ensures FromNat(Value(w), |w|) == w
  {
    ValueBound(w);
    ValueOfNat(Value(w), |w|);
    ValueInjective(FromNat(Value(w), |w|), w);
  }

  /** Equally wide fields one behind the other. */
  function Concat(fields: seq<Bits>, width: nat): (w: Bits)
    requires forall i :: 0 <= i < |fields| ==> |fields[i]| == width
    ensures |w| == width * |fields|
  {
    if fields == [] then [] else fields[0] + Concat(fields[1..], width)
  }

  function FieldAt(w: Bits, width: nat, i: nat): (f: Bits)
    requires width * (i + 1) <= |w|
    ensures |f| == width
  {
    assert width * (i + 1) == width * i + width;
    w[width * i..width * i + width]
  }

  lemma {:induction false} FieldOfConcat(fields: seq<Bits>, width: nat, i: nat)
    requires forall k :: 0 <= k < |fields| ==> |fields[k]| == width
    requires i < |fields|
    ensures width * (i + 1) <= |Concat(fields, width)|
    ensures FieldAt(Concat(fields, width), width, i) == fields[i]
  {
    var rest := Concat(fields[1..], width);
    MulMonotone(width, i + 1, |fields|);
    assert width * (i + 1) == width * i + width;
    if i == 0 {
    } else {
      FieldOfConcat(fields[1..], width, i - 1);
      assert width * i == width * (i - 1) + width;
      assert Concat(fields, width)[width * i..width * i + width] == rest[width * (i - 1)..width * i];
    }
  }

  lemma MulMonotone(w: nat, a: nat, b: nat)
    requires a <= b
    ensures w * a <= w * b
  {
  }

  function Fields(w: Bits, width: nat, n: nat): (fields: seq<Bits>)
    requires |w| == width * n
    ensures |fields| == n && forall i :: 0 <= i < n ==> |fields[i]| == width
  {
    seq(n, i requires 0 <= i < n => (MulMonotone(width, i + 1, n); FieldAt(w, width, i)))
  }

  lemma {:induction false} ConcatOfFields(w: Bits, width: nat, n: nat)
    requires |w| == width * n
    ensures Concat(Fields(w, width, n), width) == w
  {
    var fields := Fields(w, width, n);
    if n == 0 {
    } else {
      assert width * n == width + width * (n - 1);
      var rest := w[width..];
      assert fields[1..] == Fields(rest, width, n - 1) by {
        forall i | 0 <= i < n - 1 ensures fields[1..][i] == Fields(rest, width, n - 1)[i] {
          assert width * (i + 1) == width * i + width;
          MulMonotone(width, i + 1, n - 1);
        }
      }
      ConcatOfFields(rest, width, n - 1);
      assert fields[0] == w[..width];
    }
  }

  lemma FieldsOfConcat(fields: seq<Bits>, width: nat)
    requires forall k :: 0 <= k < |fields| ==> |fields[k]| == width
    ensures Fields(Concat(fields, width), width, |fields|) == fields
  {
    forall i | 0 <= i < |fields| ensures Fields(Concat(fields, width), width, |fields|)[i] == fields[i] {
      FieldOfConcat(fields, width, i);
    }
  }

  /** Bitwise and of two naturals. */
  function And(x: nat, y: nat): nat
    decreases x
  {
    if x == 0 then 0 else (x % 2) * (y % 2) + 2 * And(x / 2, y / 2)
  }

  /** Masking with k ones keeps the value modulo 2^k. */
  lemma {:induction false} AndOnes(x: nat, k: nat)
    ensures And(x, Pow2(k) - 1) == x % Pow2(k)
  {
    if x == 0 {
      assert 0 % Pow2(k) == 0;
    } else if k == 0 {
      AndZero(x);
    } else {
      var p := Pow2(k - 1);
      assert (Pow2(k) - 1) / 2 == p - 1 && (Pow2(k) - 1) % 2 == 1;
      AndOnes(x / 2, k - 1);
      ModHalves(x, p);
    }
  }

  lemma {:induction false} AndZero(x: nat)
    ensures And(x, 0) == 0
  {
    if x == 0 {
    } else {
      AndZero(x / 2);
    }
  }
}

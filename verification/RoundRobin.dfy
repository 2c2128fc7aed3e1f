/** The round-robin arbiter: a rotation by shifts, a priority encoder and a pointer. */
module RoundRobin {
  import opened Arithmetic
  import opened Encoders

  /** Values of the pointer register. */
  function Span(n: nat): (m: nat)
    ensures m >= 1 && n <= m
  {
    Pow2(Log2Ceil(n))
  }

  /** The left shift of the rotation: the pointer negated in its own width. */
  function LeftShift(n: nat, rot: nat): nat
    requires rot < Span(n)
  {
    ((Span(n) - 1 - rot) + 1) % Span(n)
  }

  function RotateRight(norm: seq<bool>, rot: nat): (res: seq<bool>)
    requires rot < Span(|norm|)
    ensures |res| == |norm|
  {
    var n, sh := |norm|, LeftShift(|norm|, rot);
    seq(n, i requires 0 <= i < n => (i + rot < n && norm[i + rot]) || (i >= sh && norm[i - sh]))
  }

  function Grant(ready: seq<bool>, curr: nat): nat
    requires ready != [] && curr < Span(|ready|)
  {
    (curr + PriorityEncoder(RotateRight(ready, curr))) % Span(|ready|)
  }

  function NextPointer(ready: seq<bool>, curr: nat, taken: bool): (c: nat)
    requires ready != [] && curr < Span(|ready|)
    ensures c < Span(|ready|)
  {
    if taken && AnyReady(ready) then (Grant(ready, curr) + 1) % Span(|ready|) else curr
  }

  predicate AnyReady(ready: seq<bool>) {
    exists i :: 0 <= i < |ready| && ready[i]
  }

  // --- What is granted --------------------------------------------------------------------------

  /** Threads to pass, going up from the pointer, before reaching thread t. */
  function Distance(n: nat, curr: nat, t: nat): nat
    requires curr < n && t < n
  {
    if t >= curr then t - curr else t + n - curr
  }

  ghost predicate IsFirstReady(ready: seq<bool>, curr: nat, g: nat)
    requires curr < |ready|
  {
    && g < |ready| && ready[g]
    && forall j :: 0 <= j < |ready| && ready[j] ==> Distance(|ready|, curr, g) <= Distance(|ready|, curr, j)
  }

  /** Thread at a distance from the pointer. */
  function At(n: nat, curr: nat, d: nat): (t: nat)
    requires curr < n && d < n
    ensures t < n && Distance(n, curr, t) == d
  {
    if curr + d < n then curr + d else curr + d - n
  }

  /** For a power of two the left shift brings up what the right shift has dropped. */
  lemma LeftShiftExact(n: nat, rot: nat)
    requires Span(n) == n && rot < n
    ensures LeftShift(n, rot) == if rot == 0 then 0 else n - rot
  {
    Wrap(n - rot, n);
  }

  lemma RotationExact(ready: seq<bool>, curr: nat, d: nat)
    requires Span(|ready|) == |ready| && curr < |ready| && d < |ready|
    ensures RotateRight(ready, curr)[d] == ready[At(|ready|, curr, d)]
  {
    var n := |ready|;
    LeftShiftExact(n, curr);
    ShiftedBit(ready, curr, n - curr, d);
  }

  /** The two shifts together, for a given left shift. */
  lemma ShiftedBit(ready: seq<bool>, curr: nat, sh: nat, d: nat)
    requires curr < |ready| && d < |ready| && sh == |ready| - curr
    ensures (d + curr < |ready| && ready[d + curr]) || (curr > 0 && d >= sh && ready[d - sh])
      <==> ready[At(|ready|, curr, d)]
  {
  }

  /** The first set bit of the rotated vector belongs to the first ready thread. */
  lemma FirstOfRotated(ready: seq<bool>, curr: nat, rotated: seq<bool>, p: nat)
    requires curr < |ready| == |rotated| && p < |rotated| && rotated[p]
    requires forall k :: 0 <= k < p ==> !rotated[k]
    requires forall d :: 0 <= d < |ready| ==> rotated[d] == ready[At(|ready|, curr, d)]
    ensures IsFirstReady(ready, curr, At(|ready|, curr, p))
  {
    forall j | 0 <= j < |ready| && ready[j] ensures p <= Distance(|ready|, curr, j) {
      assert At(|ready|, curr, Distance(|ready|, curr, j)) == j;
    }
  }

  /** A set bit of the vector is a set bit of the rotated one. */
  lemma SomeRotated(ready: seq<bool>, curr: nat, rotated: seq<bool>)
    requires curr < |ready| == |rotated| && AnyReady(ready)
    requires forall d :: 0 <= d < |ready| ==> rotated[d] == ready[At(|ready|, curr, d)]
    ensures rotated[PriorityEncoder(rotated)]
  {
    var some: nat :| some < |ready| && ready[some];
    var d := Distance(|ready|, curr, some);
    assert At(|ready|, curr, d) == some;
    assert rotated[d];
  }

  /** For a power of two the first ready thread, counted from the pointer, is granted. */
  lemma GrantsFirstReady(ready: seq<bool>, curr: nat)
    requires Span(|ready|) == |ready| && curr < |ready| && AnyReady(ready)
    ensures IsFirstReady(ready, curr, Grant(ready, curr))
  {
    var rotated := RotateRight(ready, curr);
    forall d | 0 <= d < |ready| ensures rotated[d] == ready[At(|ready|, curr, d)] {
      RotationExact(ready, curr, d);
    }
    SomeRotated(ready, curr, rotated);
    FirstOfRotated(ready, curr, rotated, PriorityEncoder(rotated));
    Wrap(curr + PriorityEncoder(RotateRight(ready, curr)), |ready|);
  }

  ghost predicate GrantsRight(n: nat)
    requires n >= 1
  {
    forall ready: seq<bool>, curr: nat :: |ready| == n && curr < n && AnyReady(ready) ==>
      IsFirstReady(ready, curr, Grant(ready, curr))
  }

  /** Only thread 0 is ready. */
  function OnlyFirst(n: nat): (ready: seq<bool>)
    requires n >= 1
    ensures |ready| == n && ready[0] && forall i :: 0 < i < n ==> !ready[i]
  {
    seq(n, i => i == 0)
  }

  lemma LeftShifts(n: nat)
    requires n >= 2
    ensures Span(n) >= 2 && LeftShift(n, 0) == 0 && LeftShift(n, 1) == Span(n) - 1
  {
    Wrap(Span(n), Span(n));
    Wrap(Span(n) - 1, Span(n));
  }

  lemma SpanOfSmall()
    ensures Span(1) == 1 && Span(2) == 2
  {
    assert Log2Ceil(2) == 1 + Log2Ceil(1);
  }

  /** With a gap in the pointer's range the rotation by one loses thread 0. */
  lemma ThreadLost(n: nat)
    requires n >= 2 && Span(n) > n
    ensures forall i :: 0 <= i < n ==> !RotateRight(OnlyFirst(n), 1)[i]
    ensures RotateRight(OnlyFirst(n), 0)[0]
  {
    LeftShifts(n);
  }

  /** Otherwise, right after the first grant, a ready thread 0 is overlooked and the number granted is
      that of no thread. */
  lemma GrantsNoThread(n: nat)
    requires n >= 1 && Span(n) != n
    ensures var ready := OnlyFirst(n);
      AnyReady(ready) && NextPointer(ready, 0, true) == 1 < n && Grant(ready, 1) == n
  {
    SpanOfSmall();
    ThreadLost(n);
    var ready := OnlyFirst(n);
    assert ready[0];
    assert PriorityEncoder(RotateRight(ready, 0)) == 0;
    Wrap(0, Span(n));
    Wrap(1, Span(n));
    assert PriorityEncoder(RotateRight(ready, 1)) == n - 1;
    Wrap(n, Span(n));
  }

  /** Main result: the arbiter grants the first ready thread for every pointer and every set of ready
      threads exactly when the number of threads is a power of two. */
  lemma GrantsRightIff(n: nat)
    requires n >= 1
    ensures GrantsRight(n) <==> Span(n) == n
  {
    if Span(n) == n {
      forall ready: seq<bool>, curr: nat | |ready| == n && curr < n && AnyReady(ready)
        ensures IsFirstReady(ready, curr, Grant(ready, curr))
      {
        GrantsFirstReady(ready, curr);
      }
    } else {
      GrantsNoThread(n);
      assert !IsFirstReady(OnlyFirst(n), 1, Grant(OnlyFirst(n), 1));
    }
  }

  // --- Fairness ---------------------------------------------------------------------------------

  /** An offer that is not taken leaves the pointer, so it is repeated while the ready threads stay. */
  lemma OfferRepeated(ready: seq<bool>, curr: nat)
    requires ready != [] && curr < Span(|ready|)
    ensures NextPointer(ready, curr, false) == curr
    ensures Grant(ready, NextPointer(ready, curr, false)) == Grant(ready, curr)
  {
  }

  /** Ready threads of a clock, and whether the offer is taken. */
  datatype Offer = Offer(ready: seq<bool>, taken: bool)

  predicate Steady(ins: seq<Offer>, n: nat, t: nat)
    requires t < n
  {
    forall i :: 0 <= i < |ins| ==> |ins[i].ready| == n && ins[i].ready[t]
  }

  /** The pointer after k clocks. */
  function Pointer(ins: seq<Offer>, n: nat, curr: nat, k: nat): (c: nat)
    requires n >= 1 && Span(n) == n && curr < n && k <= |ins|
    requires forall i :: 0 <= i < |ins| ==> |ins[i].ready| == n
    ensures c < n
  {
    if k == 0 then curr else NextPointer(ins[k - 1].ready, Pointer(ins, n, curr, k - 1), ins[k - 1].taken)
  }

  function Offered(ins: seq<Offer>, n: nat, curr: nat, k: nat): nat
    requires n >= 1 && Span(n) == n && curr < n && k < |ins|
    requires forall i :: 0 <= i < |ins| ==> |ins[i].ready| == n
  {
    Grant(ins[k].ready, Pointer(ins, n, curr, k))
  }

  /** Clocks before k in which the offer is taken. */
  function TakenBefore(ins: seq<Offer>, k: nat): (m: nat)
    requires k <= |ins|
    ensures m <= k
  {
    if k == 0 then 0 else TakenBefore(ins, k - 1) + (if ins[k - 1].taken then 1 else 0)
  }

  /** A grant to another thread brings the pointer nearer to a thread that is ready. */
  lemma OtherGrantNears(ready: seq<bool>, curr: nat, t: nat)
    requires Span(|ready|) == |ready| && curr < |ready| && t < |ready| && ready[t]
    requires Grant(ready, curr) != t
    ensures Distance(|ready|, NextPointer(ready, curr, true), t) < Distance(|ready|, curr, t)
  {
    GrantsFirstReady(ready, curr);
    Wrap(Grant(ready, curr) + 1, |ready|);
  }

  lemma {:induction false} NearerEachTime(ins: seq<Offer>, n: nat, curr: nat, t: nat, k: nat)
    requires n >= 1 && Span(n) == n && curr < n && t < n && k <= |ins| && Steady(ins, n, t)
    requires forall i :: 0 <= i < k && ins[i].taken ==> Offered(ins, n, curr, i) != t
    ensures Distance(n, Pointer(ins, n, curr, k), t) + TakenBefore(ins, k) <= Distance(n, curr, t)
  {
    if k == 0 {
    } else {
      NearerEachTime(ins, n, curr, t, k - 1);
      if ins[k - 1].taken {
        assert Offered(ins, n, curr, k - 1) != t;
        OtherGrantNears(ins[k - 1].ready, Pointer(ins, n, curr, k - 1), t);
      }
    }
  }

  /** Main result: a thread that stays ready is granted, and the grant taken, before more than its distance
      from the pointer other grants have been taken, so within n of them, whatever the others do and
      however long offers wait. */
  lemma GrantedWithinRound(ins: seq<Offer>, n: nat, curr: nat, t: nat)
    requires n >= 1 && Span(n) == n && curr < n && t < n && Steady(ins, n, t)
    requires TakenBefore(ins, |ins|) > Distance(n, curr, t)
    ensures exists k :: (0 <= k < |ins| && ins[k].taken && Offered(ins, n, curr, k) == t
                         && TakenBefore(ins, k) <= Distance(n, curr, t))
  {
    if forall k :: 0 <= k < |ins| && ins[k].taken ==> Offered(ins, n, curr, k) != t {
      NearerEachTime(ins, n, curr, t, |ins|);
    } else {
      var k := FirstGrant(ins, n, curr, t, 0);
      NearerEachTime(ins, n, curr, t, k);
    }
  }

  lemma FirstGrant(ins: seq<Offer>, n: nat, curr: nat, t: nat, from: nat) returns (k: nat)
    requires n >= 1 && Span(n) == n && curr < n && t < n && Steady(ins, n, t) && from <= |ins|
    requires forall i :: 0 <= i < from && ins[i].taken ==> Offered(ins, n, curr, i) != t
    requires exists i :: 0 <= i < |ins| && ins[i].taken && Offered(ins, n, curr, i) == t
    ensures k < |ins| && ins[k].taken && Offered(ins, n, curr, k) == t
    ensures forall i :: 0 <= i < k && ins[i].taken ==> Offered(ins, n, curr, i) != t
    decreases |ins| - from
  {
    if ins[from].taken && Offered(ins, n, curr, from) == t {
      k := from;
    } else {
      k := FirstGrant(ins, n, curr, t, from + 1);
    }
  }

  // --- The module -------------------------------------------------------------------------------

  class RoundRobinArbiter {
    const arbN: nat
    var curr: nat

    ghost predicate Valid()
      reads this
    {
      arbN >= 1 && curr < Span(arbN)
    }

    constructor (n: nat)
      requires n >= 1
      ensures Valid() && arbN == n && curr == 0
    {
      arbN, curr := n, 0;
    }

    /** One clock: what is offered, and the pointer after an accepted offer. */
    method Clock(ready: seq<bool>, taken: bool) returns (valid: bool, next: nat)
      requires Valid() && |ready| == arbN
      modifies this
      ensures Valid() && valid == AnyReady(ready)
      ensures next == Grant(ready, old(curr)) && curr == NextPointer(ready, old(curr), taken)
      ensures Span(arbN) == arbN && valid ==> IsFirstReady(ready, old(curr), next)
    {
      var rotated := RotateRight(ready, curr);
      valid := exists i :: 0 <= i < |ready| && ready[i];
      next := (curr + PriorityEncoder(rotated)) % Span(arbN);
      if Span(arbN) == arbN && valid {
        GrantsFirstReady(ready, curr);
      }
      if taken && valid {
        curr := (next + 1) % Span(arbN);
      }
    }
  }
}

/** The tree pseudo-LRU core. A way is its bit string, highest bit first; the tree over 2^h ways is
    laid out in pre-order, so the subtree of height h at `start` takes 2^h - 1 bits, its left child
    starts right behind it and its right child half a tree later. A bit points to the next victim. */
module TreeLru {
  import opened Arithmetic

  type Way = seq<bool>

  /** A way as a number. */
  function Index(way: Way): (i: nat)
    ensures i < Pow2(|way|)
  {
    if way == [] then 0 else (if way[0] then Pow2(|way| - 1) else 0) + Index(way[1..])
  }

  /** A number as a way of h bits. */
  function ToWay(i: nat, h: nat): (way: Way)
    requires i < Pow2(h)
    ensures |way| == h
  {
    if h == 0 then []
    else if i >= Pow2(h - 1) then [true] + ToWay(i - Pow2(h - 1), h - 1)
    else [false] + ToWay(i, h - 1)
  }

  lemma {:induction false} WayOfIndex(way: Way)
    ensures ToWay(Index(way), |way|) == way
  {
    if way == [] {
    } else {
      WayOfIndex(way[1..]);
    }
  }

  lemma {:induction false} IndexOfWay(i: nat, h: nat)
    requires i < Pow2(h)
    ensures Index(ToWay(i, h)) == i
  {
    if h == 0 {
    } else {
      var high := i >= Pow2(h - 1);
      var low: nat := if high then i - Pow2(h - 1) else i;
      IndexOfWay(low, h - 1);
      assert ToWay(i, h)[1..] == ToWay(low, h - 1);
    }
  }

  predicate InTree(e: seq<bool>, start: nat, h: nat) {
    h >= 1 && start + Pow2(h) - 1 <= |e|
  }

  /** Where the child of the node at `start` begins, in a tree of height h. */
  function Child(start: nat, h: nat, right: bool): nat
    requires h >= 1
  {
    if right then start + Pow2(h - 1) else start + 1
  }

  function GetLru(e: seq<bool>, start: nat, h: nat): (way: Way)
    requires InTree(e, start, h)
    ensures |way| == h
    decreases h
  {
    if h == 1 then [e[start]] else [e[start]] + GetLru(e, Child(start, h, e[start]), h - 1)
  }

  function Update(e: seq<bool>, start: nat, way: Way): (e': seq<bool>)
    requires InTree(e, start, |way|)
    ensures |e'| == |e|
    decreases |way|
  {
    var judge := way[0];
    var e1 := e[start := if e[start] == judge then !e[start] else e[start]];
    if |way| == 1 then e1 else Update(e1, Child(start, |way|, judge), way[1..])
  }

  /** The update as the source writes it: bits of one vector, changed in place going down. */
  method UpdateEncoding(bits: array<bool>, start: nat, way: Way)
    requires InTree(bits[..], start, |way|)
    modifies bits
    ensures bits[..] == Update(old(bits[..]), start, way)
    decreases |way|
  {
    var judge := way[0];
    bits[start] := if bits[start] == judge then !bits[start] else bits[start];
    if |way| > 1 {
      UpdateEncoding(bits, Child(start, |way|, judge), way[1..]);
    }
  }

  // --- Where the bits are ----------------------------------------------------------------------

  /** Position of the k-th node on the way down: one further for a step to the left, half of the tree that
      is left for a step to the right. */
  function NodeAt(start: nat, way: Way, k: nat): (i: nat)
    requires k < |way|
  {
    if k == 0 then start else NodeAt(start, way, k - 1) + (if way[k - 1] then Pow2(|way| - k) else 1)
  }

  lemma {:induction false} NodeBelow(start: nat, way: Way, k: nat)
    requires 0 < k < |way|
    ensures NodeAt(start, way, k) == NodeAt(if way[0] then start + Pow2(|way| - 1) else start + 1, way[1..], k - 1)
  {
    if k == 1 {
      assert NodeAt(start, way, 0) == start;
    } else {
      NodeBelow(start, way, k - 1);
    }
  }

  lemma NodeBehind(start: nat, way: Way, k: nat)
    requires k < |way|
    ensures NodeAt(start, way, k) >= start && (k > 0 ==> NodeAt(start, way, k) > start)
    ensures NodeAt(start, way, k) < start + Pow2(|way|) - 1
    decreases |way|
  {
    if k > 0 {
      NodeBelow(start, way, k);
      NodeBehind(if way[0] then start + Pow2(|way| - 1) else start + 1, way[1..], k - 1);
    }
  }

  /** The victim reads off the bits on its own way down, and every other way differs from a bit on its. */
  lemma {:induction false} VictimReadsPath(e: seq<bool>, start: nat, h: nat, k: nat)
    requires InTree(e, start, h) && k < h
    ensures var way := GetLru(e, start, h);
      NodeAt(start, way, k) < |e| && way[k] == e[NodeAt(start, way, k)]
    decreases h
  {
    var way := GetLru(e, start, h);
    NodeBehind(start, way, k);
    if k > 0 {
      NodeBelow(start, way, k);
      VictimReadsPath(e, if e[start] then start + Pow2(h - 1) else start + 1, h - 1, k - 1);
      assert way[1..] == GetLru(e, if e[start] then start + Pow2(h - 1) else start + 1, h - 1);
    }
  }

  predicate OnPath(start: nat, way: Way, i: nat) {
    exists k :: 0 <= k < |way| && NodeAt(start, way, k) == i
  }

  /** A use turns the bits on the way's path away from it, and no other. */
  lemma {:induction false} UseTurnsPath(e: seq<bool>, start: nat, way: Way, i: nat)
    requires InTree(e, start, |way|) && i < |e|
    ensures forall k :: 0 <= k < |way| && NodeAt(start, way, k) == i ==> Update(e, start, way)[i] == !way[k]
    ensures !OnPath(start, way, i) ==> Update(e, start, way)[i] == e[i]
    decreases |way|
  {
    var e1 := e[start := !way[0]];
    assert NodeAt(start, way, 0) == start;
    if |way| == 1 {
    } else {
      var c := if way[0] then start + Pow2(|way| - 1) else start + 1;
      UseTurnsPath(e1, c, way[1..], i);
      forall k | 0 < k < |way| ensures NodeAt(start, way, k) == NodeAt(c, way[1..], k - 1) > start {
        NodeBelow(start, way, k);
        NodeBehind(start, way, k);
      }
      if i == start {
        UpdateFrame(e1, c, way[1..], i);
      } else if OnPath(c, way[1..], i) {
        PathBelow(start, way, c, i);
      }
    }
  }

  lemma PathBelow(start: nat, way: Way, c: nat, i: nat)
    requires |way| > 1 && c == if way[0] then start + Pow2(|way| - 1) else start + 1
    requires OnPath(c, way[1..], i)
    ensures OnPath(start, way, i)
  {
    var k :| 0 <= k < |way| - 1 && NodeAt(c, way[1..], k) == i;
    NodeBelow(start, way, k + 1);
    assert NodeAt(start, way, k + 1) == i;
  }

  // --- Locality --------------------------------------------------------------------------------

  /** An update changes only bits of its own subtree. */
  lemma {:induction false} UpdateFrame(e: seq<bool>, start: nat, way: Way, i: nat)
    requires InTree(e, start, |way|) && i < |e|
    requires i < start || start + Pow2(|way|) - 1 <= i
    ensures Update(e, start, way)[i] == e[i]
    decreases |way|
  {
    if |way| > 1 {
      var e1 := e[start := !way[0]];
      UpdateFrame(e1, Child(start, |way|, way[0]), way[1..], i);
    }
  }

  ghost predicate SameTree(e: seq<bool>, e': seq<bool>, start: nat, h: nat)
    requires InTree(e, start, h)
  {
    |e'| == |e| && forall i :: start <= i < start + Pow2(h) - 1 ==> e'[i] == e[i]
  }

  lemma {:induction false} GetLruLocal(e: seq<bool>, e': seq<bool>, start: nat, h: nat)
    requires InTree(e, start, h) && SameTree(e, e', start, h)
    ensures GetLru(e', start, h) == GetLru(e, start, h)
    decreases h
  {
    if h > 1 {
      GetLruLocal(e, e', Child(start, h, e[start]), h - 1);
    }
  }

  /** Two updates of disjoint subtrees commute. */
  lemma {:induction false} UpdatesCommute(e: seq<bool>, a: nat, wa: Way, b: nat, wb: Way)
    requires InTree(e, a, |wa|) && InTree(e, b, |wb|)
    requires a + Pow2(|wa|) - 1 <= b || b + Pow2(|wb|) - 1 <= a
    ensures Update(Update(e, a, wa), b, wb) == Update(Update(e, b, wb), a, wa)
  {
    forall i | 0 <= i < |e|
      ensures Update(Update(e, a, wa), b, wb)[i] == Update(Update(e, b, wb), a, wa)[i]
    {
      if a <= i < a + Pow2(|wa|) - 1 {
        UpdateFrame(Update(e, a, wa), b, wb, i);
        UpdateLocal(e, Update(e, b, wb), a, wa, b, wb, i);
      } else {
        UpdateFrame(e, a, wa, i);
        UpdateFrame(Update(e, b, wb), a, wa, i);
        UpdateLocal(e, Update(e, a, wa), b, wb, a, wa, i);
      }
    }
  }

  lemma UpdateLocal(e: seq<bool>, e': seq<bool>, start: nat, way: Way, other: nat, wo: Way, i: nat)
    requires InTree(e, start, |way|) && InTree(e, other, |wo|) && e' == Update(e, other, wo) && i < |e|
    requires start + Pow2(|way|) - 1 <= other || other + Pow2(|wo|) - 1 <= start
    ensures start <= i < start + Pow2(|way|) - 1 ==> Update(e', start, way)[i] == Update(e, start, way)[i]
    ensures !(start <= i < start + Pow2(|way|) - 1) ==>
      Update(e', start, way)[i] == e'[i] && Update(e, start, way)[i] == e[i]
  {
    forall j | start <= j < start + Pow2(|way|) - 1 ensures e'[j] == e[j] {
      UpdateFrame(e, other, wo, j);
    }
    if start <= i < start + Pow2(|way|) - 1 {
      UpdateSame(e, e', start, way, i);
    } else {
      UpdateFrame(e, start, way, i);
      UpdateFrame(e', start, way, i);
    }
  }

  lemma {:induction false} UpdateSame(e: seq<bool>, e': seq<bool>, start: nat, way: Way, i: nat)
    requires InTree(e, start, |way|) && SameTree(e, e', start, |way|)
    requires start <= i < start + Pow2(|way|) - 1
    ensures Update(e', start, way)[i] == Update(e, start, way)[i]
    decreases |way|
  {
    if |way| > 1 {
      var e1, e1' := e[start := !way[0]], e'[start := !way[0]];
      var c := Child(start, |way|, way[0]);
      if c <= i < c + Pow2(|way| - 1) - 1 {
        UpdateSame(e1, e1', c, way[1..], i);
      } else {
        UpdateFrame(e1, c, way[1..], i);
        UpdateFrame(e1', c, way[1..], i);
      }
    }
  }

  /** A second use of the same way changes nothing. */
  lemma {:induction false} UpdateTwice(e: seq<bool>, start: nat, way: Way)
    requires InTree(e, start, |way|)
    ensures Update(Update(e, start, way), start, way) == Update(e, start, way)
    decreases |way|
  {
    var e1 := e[start := !way[0]];
    assert Update(e, start, way)[start] == !way[0] by {
      if |way| > 1 {
        UpdateFrame(e1, Child(start, |way|, way[0]), way[1..], start);
      }
    }
    if |way| == 1 {
    } else {
      var c := Child(start, |way|, way[0]);
      UpdateTwice(e1, c, way[1..]);
      assert Update(e, start, way)[start := !way[0]] == Update(e, start, way);
    }
  }

  // --- Feeding the victim back ------------------------------------------------------------------

  /** The victim is used: the replacement's own next step. */
  function Step(e: seq<bool>, start: nat, h: nat): (e': seq<bool>)
    requires InTree(e, start, h)
    ensures |e'| == |e|
  {
    Update(e, start, GetLru(e, start, h))
  }

  function Steps(e: seq<bool>, start: nat, h: nat, k: nat): (e': seq<bool>)
    requires InTree(e, start, h)
    ensures |e'| == |e|
  {
    if k == 0 then e else Step(Steps(e, start, h, k - 1), start, h)
  }

  lemma {:induction false} StepsFrame(e: seq<bool>, start: nat, h: nat, k: nat, i: nat)
    requires InTree(e, start, h) && i < |e|
    requires i < start || start + Pow2(h) - 1 <= i
    ensures Steps(e, start, h, k)[i] == e[i]
  {
    if k == 0 {
    } else {
      StepsFrame(e, start, h, k - 1, i);
      var e1 := Steps(e, start, h, k - 1);
      UpdateFrame(e1, start, GetLru(e1, start, h), i);
    }
  }

  lemma StepsCommute1(e: seq<bool>, a: nat, ha: nat, b: nat, hb: nat)
    requires InTree(e, a, ha) && InTree(e, b, hb)
    requires a + Pow2(ha) - 1 <= b || b + Pow2(hb) - 1 <= a
    ensures Step(Step(e, a, ha), b, hb) == Step(Step(e, b, hb), a, ha)
  {
    var wa, wb := GetLru(e, a, ha), GetLru(e, b, hb);
    forall i | a <= i < a + Pow2(ha) - 1 ensures Step(e, b, hb)[i] == e[i] {
      UpdateFrame(e, b, wb, i);
    }
    forall i | b <= i < b + Pow2(hb) - 1 ensures Step(e, a, ha)[i] == e[i] {
      UpdateFrame(e, a, wa, i);
    }
    GetLruLocal(e, Step(e, b, hb), a, ha);
    GetLruLocal(e, Step(e, a, ha), b, hb);
    UpdatesCommute(e, a, wa, b, wb);
  }

  lemma {:induction false} StepsCommute(e: seq<bool>, a: nat, ha: nat, b: nat, hb: nat, k: nat)
    requires InTree(e, a, ha) && InTree(e, b, hb)
    requires a + Pow2(ha) - 1 <= b || b + Pow2(hb) - 1 <= a
    ensures Steps(Step(e, a, ha), b, hb, k) == Step(Steps(e, b, hb, k), a, ha)
  {
    if k == 0 {
    } else {
      StepsCommute(e, a, ha, b, hb, k - 1);
      StepsCommute1(Steps(e, b, hb, k - 1), a, ha, b, hb);
    }
  }

  /** Both subtrees after j steps each, the root untouched. */
  function Halves(e: seq<bool>, start: nat, h: nat, j: nat): (e': seq<bool>)
    requires InTree(e, start, h) && h > 1
    ensures |e'| == |e|
  {
    Steps(Steps(e, Child(start, h, false), h - 1, j), Child(start, h, true), h - 1, j)
  }

  lemma HalvesParts(e: seq<bool>, start: nat, h: nat, j: nat, right: bool)
    requires InTree(e, start, h) && h > 1
    ensures Halves(e, start, h, j)[start] == e[start]
    ensures InTree(e, Child(start, h, right), h - 1)
    ensures SameTree(Steps(e, Child(start, h, right), h - 1, j), Halves(e, start, h, j), Child(start, h, right), h - 1)
  {
    var l, r := Child(start, h, false), Child(start, h, true);
    var e1 := Steps(e, l, h - 1, j);
    StepsFrame(e, l, h - 1, j, start);
    StepsFrame(e1, r, h - 1, j, start);
    if right {
      forall i | r <= i < r + Pow2(h - 1) - 1 ensures e1[i] == e[i] {
        StepsFrame(e, l, h - 1, j, i);
      }
      forall i | r <= i < r + Pow2(h - 1) - 1
        ensures Halves(e, start, h, j)[i] == Steps(e, r, h - 1, j)[i]
      {
        StepsLocal(e, e1, r, h - 1, j, i);
      }
    } else {
      forall i | l <= i < l + Pow2(h - 1) - 1 ensures Halves(e, start, h, j)[i] == e1[i] {
        StepsFrame(e1, r, h - 1, j, i);
      }
    }
  }

  lemma {:induction false} StepsLocal(e: seq<bool>, e': seq<bool>, start: nat, h: nat, k: nat, i: nat)
    requires InTree(e, start, h) && SameTree(e, e', start, h)
    requires start <= i < start + Pow2(h) - 1
    ensures Steps(e', start, h, k)[i] == Steps(e, start, h, k)[i]
  {
    if k == 0 {
    } else {
      var e1, e1' := Steps(e, start, h, k - 1), Steps(e', start, h, k - 1);
      forall j | start <= j < start + Pow2(h) - 1 ensures e1'[j] == e1[j] {
        StepsLocal(e, e', start, h, k - 1, j);
      }
      GetLruLocal(e1, e1', start, h);
      UpdateSame(e1, e1', start, GetLru(e1, start, h), i);
    }
  }

  /** One step flips the root and steps the side it pointed to. */
  lemma StepSplits(e: seq<bool>, start: nat, h: nat)
    requires InTree(e, start, h) && h > 1
    ensures InTree(e, Child(start, h, e[start]), h - 1)
    ensures Step(e, start, h) == Step(e[start := !e[start]], Child(start, h, e[start]), h - 1)
    ensures Step(e, start, h)[start] == !e[start]
  {
    var b := e[start];
    var c := Child(start, h, b);
    var e1 := e[start := !b];
    GetLruLocal(e, e1, c, h - 1);
    UpdateFrame(e1, c, GetLru(e1, c, h - 1), start);
  }

  /** Two steps restore the root and step both sides once. */
  lemma TwoSteps(e: seq<bool>, start: nat, h: nat)
    requires InTree(e, start, h) && h > 1
    ensures Step(Step(e, start, h), start, h) ==
      Step(Step(e, Child(start, h, false), h - 1), Child(start, h, true), h - 1)
  {
    var b := e[start];
    var c, d := Child(start, h, b), Child(start, h, !b);
    StepSplits(e, start, h);
    var e1 := Step(e, start, h);
    StepSplits(e1, start, h);
    RootTwice(e, start, b, c, d, h - 1);
    StepsCommute1(e, c, h - 1, d, h - 1);
  }

  /** Turning the root away for one step below and back for the next leaves no trace. */
  lemma RootTwice(e: seq<bool>, start: nat, b: bool, c: nat, d: nat, h: nat)
    requires InTree(e, c, h) && InTree(e, d, h) && start < c && start < d && e[start] == b
    ensures Step(Step(e[start := !b], c, h)[start := b], d, h) == Step(Step(e, c, h), d, h)
  {
    RootAside(e, start, !b, c, h);
    UpdateFrame(e, c, GetLru(e, c, h), start);
    assert Step(e, c, h)[start := !b][start := b] == Step(e, c, h);
  }

  /** Steps below the root do not look at it. */
  lemma RootAside(e: seq<bool>, start: nat, v: bool, c: nat, h: nat)
    requires InTree(e, c, h) && start < c
    ensures Step(e[start := v], c, h) == Step(e, c, h)[start := v]
  {
    var e' := e[start := v];
    GetLruLocal(e, e', c, h);
    var w := GetLru(e, c, h);
    forall i | 0 <= i < |e| ensures Update(e', c, w)[i] == Update(e, c, w)[start := v][i] {
      if c <= i < c + Pow2(h) - 1 {
        UpdateSame(e, e', c, w, i);
      } else {
        UpdateFrame(e, c, w, i);
        UpdateFrame(e', c, w, i);
      }
    }
  }

  /** One more step of each half. */
  lemma HalvesNext(e: seq<bool>, start: nat, h: nat, j: nat)
    requires InTree(e, start, h) && h > 1 && j > 0
    ensures Step(Step(Halves(e, start, h, j - 1), Child(start, h, false), h - 1), Child(start, h, true), h - 1)
      == Halves(e, start, h, j)
  {
    var l, r := Child(start, h, false), Child(start, h, true);
    StepsCommute(Steps(e, l, h - 1, j - 1), l, h - 1, r, h - 1, j - 1);
  }

  lemma StepsTwoMore(e: seq<bool>, start: nat, h: nat, k: nat)
    requires InTree(e, start, h)
    ensures Steps(e, start, h, k + 2) == Step(Step(Steps(e, start, h, k), start, h), start, h)
  {
    assert Steps(e, start, h, k + 1) == Step(Steps(e, start, h, k), start, h);
  }

  lemma {:induction false} EvenSteps(e: seq<bool>, start: nat, h: nat, j: nat)
    requires InTree(e, start, h) && h > 1
    ensures Steps(e, start, h, 2 * j) == Halves(e, start, h, j)
  {
    if j == 0 {
    } else {
      EvenSteps(e, start, h, j - 1);
      StepsTwoMore(e, start, h, 2 * (j - 1));
      TwoSteps(Halves(e, start, h, j - 1), start, h);
      HalvesNext(e, start, h, j);
    }
  }

  /** The k-th victim when every victim is used at once. */
  function Victim(e: seq<bool>, start: nat, h: nat, k: nat): Way
    requires InTree(e, start, h)
  {
    GetLru(Steps(e, start, h, k), start, h)
  }

  lemma VictimSplits(e: seq<bool>, start: nat, h: nat, j: nat)
    requires InTree(e, start, h) && h > 1
    ensures var b := e[start];
      && Victim(e, start, h, 2 * j) == [b] + Victim(e, Child(start, h, b), h - 1, j)
      && Victim(e, start, h, 2 * j + 1) == [!b] + Victim(e, Child(start, h, !b), h - 1, j)
  {
    var b := e[start];
    var c, d := Child(start, h, b), Child(start, h, !b);
    var s := Halves(e, start, h, j);
    EvenSteps(e, start, h, j);
    HalvesParts(e, start, h, j, b);
    HalvesParts(e, start, h, j, !b);
    GetLruLocal(Steps(e, c, h - 1, j), s, c, h - 1);
    GetLruLocal(Steps(e, d, h - 1, j), s, d, h - 1);
    OtherSideWaits(s, start, h);
    assert Steps(e, start, h, 2 * j + 1) == Step(s, start, h);
  }

  /** After one step the victim is on the other side, where nothing has moved. */
  lemma OtherSideWaits(e: seq<bool>, start: nat, h: nat)
    requires InTree(e, start, h) && h > 1
    ensures var d := Child(start, h, !e[start]);
      InTree(e, d, h - 1) && GetLru(Step(e, start, h), start, h) == [!e[start]] + GetLru(e, d, h - 1)
  {
    var c, d := Child(start, h, e[start]), Child(start, h, !e[start]);
    StepSplits(e, start, h);
    var flipped := e[start := !e[start]];
    forall i | d <= i < d + Pow2(h - 1) - 1 ensures Step(e, start, h)[i] == e[i] {
      UpdateFrame(flipped, c, GetLru(flipped, c, h - 1), i);
    }
    GetLruLocal(e, Step(e, start, h), d, h - 1);
  }

  /** The step of a round in which a way is the victim. */
  function Turn(e: seq<bool>, start: nat, way: Way): (k: nat)
    requires InTree(e, start, |way|)
    ensures k < Pow2(|way|)
    decreases |way|
  {
    var first := way[0] == e[start];
    if |way| == 1 then (if first then 0 else 1)
    else 2 * Turn(e, Child(start, |way|, way[0]), way[1..]) + (if first then 0 else 1)
  }

  lemma RoundOfTwo(e: seq<bool>, start: nat, k: nat)
    requires InTree(e, start, 1) && k < Pow2(1)
    ensures k < 2 && Victim(e, start, 1, k) == [if k == 0 then e[start] else !e[start]]
  {
    assert Pow2(1) == 2 * Pow2(0);
    assert Steps(e, start, 1, 1) == Step(Steps(e, start, 1, 0), start, 1);
  }

  lemma VictimAt(e: seq<bool>, start: nat, h: nat, k: nat)
    requires InTree(e, start, h) && h > 1
    ensures var b := if k % 2 == 0 then e[start] else !e[start];
      Victim(e, start, h, k) == [b] + Victim(e, Child(start, h, b), h - 1, k / 2)
  {
    VictimSplits(e, start, h, k / 2);
  }

  lemma SameHead(a: bool, v: Way, way: Way)
    requires way != []
    ensures [a] + v == way <==> a == way[0] && v == way[1..]
  {
    assert way == [way[0]] + way[1..];
    assert ([a] + v)[1..] == v;
  }

  lemma HalfAndParity(k: nat, t: nat, first: bool, p: nat)
    requires (first <==> k % 2 == 0) && k < 2 * p
    ensures k / 2 < p && (k == 2 * t + (if first then 0 else 1) <==> k / 2 == t)
  {
  }

  lemma OtherParity(k: nat, t: nat, first: bool)
    requires first <==> k % 2 != 0
    ensures k != 2 * t + (if first then 0 else 1)
  {
  }

  /** Main result: in a round of 2^h steps every way is the victim exactly once, at its turn. */
  lemma {:induction false} EachWayOncePerRound(e: seq<bool>, start: nat, way: Way, k: nat)
    requires InTree(e, start, |way|) && k < Pow2(|way|)
    ensures Victim(e, start, |way|, k) == way <==> k == Turn(e, start, way)
    decreases |way|
  {
    if |way| == 1 {
      RoundOfTwo(e, start, k);
      SameHead(if k == 0 then e[start] else !e[start], [], way);
    } else {
      var below := Child(start, |way|, way[0]);
      EachWayOncePerRound(e, below, way[1..], k / 2);
      TurnOneLevelUp(e, start, way, k, Turn(e, below, way[1..]));
    }
  }

  /** A subtree's turn comes every other step of the tree. */
  lemma TurnOneLevelUp(e: seq<bool>, start: nat, way: Way, k: nat, t: nat)
    requires InTree(e, start, |way|) && |way| > 1 && k < Pow2(|way|)
    requires t == Turn(e, Child(start, |way|, way[0]), way[1..])
    requires Victim(e, Child(start, |way|, way[0]), |way| - 1, k / 2) == way[1..] <==> k / 2 == t
    ensures Victim(e, start, |way|, k) == way <==> k == Turn(e, start, way)
  {
    VictimAt(e, start, |way|, k);
    var b := if k % 2 == 0 then e[start] else !e[start];
    SameHead(b, Victim(e, Child(start, |way|, b), |way| - 1, k / 2), way);
    if way[0] == b {
      HalfAndParity(k, t, b == e[start], Pow2(|way| - 1));
    } else {
      OtherParity(k, t, way[0] == e[start]);
    }
  }

  /** ... and the encoding is back where it was. */
  lemma {:induction false} RoundReturns(e: seq<bool>, start: nat, h: nat)
    requires InTree(e, start, h)
    ensures Steps(e, start, h, Pow2(h)) == e
    decreases h
  {
    if h == 1 {
      assert Pow2(1) == 2;
      var e1 := Steps(e, start, 1, 1);
      assert e1 == Step(Steps(e, start, 1, 0), start, 1) == e[start := !e[start]];
      assert Steps(e, start, 1, 2) == Step(e1, start, 1) == e1[start := e[start]] == e;
    } else {
      EvenSteps(e, start, h, Pow2(h - 1));
      RoundReturns(e, Child(start, h, false), h - 1);
      RoundReturns(e, Child(start, h, true), h - 1);
    }
  }

  // --- How soon a used way can become the victim -------------------------------------------------

  /** Ancestors of a way whose bit points towards it. */
  function Toward(e: seq<bool>, start: nat, way: Way): (n: nat)
    requires InTree(e, start, |way|)
    ensures n <= |way|
    decreases |way|
  {
    (if e[start] == way[0] then 1 else 0)
    + (if |way| == 1 then 0 else Toward(e, Child(start, |way|, way[0]), way[1..]))
  }

  lemma {:induction false} VictimMeansAllToward(e: seq<bool>, start: nat, way: Way)
    requires InTree(e, start, |way|)
    ensures GetLru(e, start, |way|) == way <==> Toward(e, start, way) == |way|
    decreases |way|
  {
    if |way| == 1 {
      SameHead(e[start], [], way);
    } else {
      var c := Child(start, |way|, e[start]);
      SameHead(e[start], GetLru(e, c, |way| - 1), way);
      if e[start] == way[0] {
        VictimMeansAllToward(e, c, way[1..]);
      }
    }
  }

  lemma {:induction false} TowardLocal(e: seq<bool>, e': seq<bool>, start: nat, way: Way)
    requires InTree(e, start, |way|) && SameTree(e, e', start, |way|)
    ensures Toward(e', start, way) == Toward(e, start, way)
    decreases |way|
  {
    if |way| > 1 {
      TowardLocal(e, e', Child(start, |way|, way[0]), way[1..]);
    }
  }

  lemma {:induction false} UseTurnsAway(e: seq<bool>, start: nat, way: Way)
    requires InTree(e, start, |way|)
    ensures Toward(Update(e, start, way), start, way) == 0
    decreases |way|
  {
    if |way| > 1 {
      var e1 := e[start := !way[0]];
      var c := Child(start, |way|, way[0]);
      UseTurnsAway(e1, c, way[1..]);
      UpdateFrame(e1, c, way[1..], start);
    }
  }

  /** Using a way that parts at the root: the root turns towards, nothing below changes for this way. */
  lemma PartsAtRoot(e: seq<bool>, start: nat, way: Way, other: Way)
    requires |other| == |way| && InTree(e, start, |way|) && other[0] != way[0]
    ensures var below := if |way| == 1 then 0 else Toward(e, Child(start, |way|, way[0]), way[1..]);
      Toward(Update(e, start, other), start, way) == 1 + below
  {
    if |way| > 1 {
      var e1 := e[start := !other[0]];
      var c, d := Child(start, |way|, way[0]), Child(start, |way|, other[0]);
      UpdateFrame(e1, d, other[1..], start);
      forall i | c <= i < c + Pow2(|way| - 1) - 1 ensures Update(e1, d, other[1..])[i] == e[i] {
        UpdateFrame(e1, d, other[1..], i);
      }
      TowardLocal(e, Update(e1, d, other[1..]), c, way[1..]);
    }
  }

  /** Using a way on the same side: the root turns away, the rest happens in the child's tree. */
  lemma SharesRoot(e: seq<bool>, start: nat, way: Way, other: Way)
    requires |other| == |way| > 1 && InTree(e, start, |way|) && other[0] == way[0]
    ensures var c := Child(start, |way|, way[0]);
      Toward(Update(e, start, other), start, way) == Toward(Update(e, c, other[1..]), c, way[1..])
  {
    var e1 := e[start := !other[0]];
    var c := Child(start, |way|, way[0]);
    UpdateFrame(e1, c, other[1..], start);
    forall i | c <= i < c + Pow2(|way| - 1) - 1
      ensures Update(e1, c, other[1..])[i] == Update(e, c, other[1..])[i]
    {
      UpdateSame(e, e1, c, other[1..], i);
    }
    TowardLocal(Update(e, c, other[1..]), Update(e1, c, other[1..]), c, way[1..]);
  }

  /** Each use of another way turns at most one more ancestor towards this way. */
  lemma {:induction false} OtherUse(e: seq<bool>, start: nat, way: Way, other: Way)
    requires |other| == |way| && InTree(e, start, |way|) && other != way
    ensures Toward(Update(e, start, other), start, way) <= Toward(e, start, way) + 1
    decreases |way|
  {
    if other[0] != way[0] {
      PartsAtRoot(e, start, way, other);
    } else {
      assert way == [way[0]] + way[1..] && other == [other[0]] + other[1..];
      SharesRoot(e, start, way, other);
      OtherUse(e, Child(start, |way|, way[0]), way[1..], other[1..]);
    }
  }

  ghost predicate Others(way: Way, uses: seq<Way>) {
    forall i :: 0 <= i < |uses| ==> |uses[i]| == |way| && uses[i] != way
  }

  function AfterUses(e: seq<bool>, start: nat, h: nat, uses: seq<Way>): (e': seq<bool>)
    requires InTree(e, start, h) && forall i :: 0 <= i < |uses| ==> |uses[i]| == h
    ensures |e'| == |e|
    decreases |uses|
  {
    if uses == [] then e else AfterUses(Update(e, start, uses[0]), start, h, uses[1..])
  }

  lemma {:induction false} TowardGrowsByOne(e: seq<bool>, start: nat, way: Way, uses: seq<Way>)
    requires InTree(e, start, |way|) && Others(way, uses)
    ensures Toward(AfterUses(e, start, |way|, uses), start, way) <= Toward(e, start, way) + |uses|
    decreases |uses|
  {
    if uses == [] {
    } else {
      OtherUse(e, start, way, uses[0]);
      TowardGrowsByOne(Update(e, start, uses[0]), start, way, uses[1..]);
    }
  }

  /** One other way for each ancestor, deepest first. */
  function Rivals(way: Way): (uses: seq<Way>)
    requires way != []
    ensures |uses| == |way| && forall i :: 0 <= i < |uses| ==> |uses[i]| == |way|
    decreases |way|
  {
    (if |way| == 1 then [] else Under(way[0], Rivals(way[1..]))) + [[!way[0]] + way[1..]]
  }

  function Under(b: bool, uses: seq<Way>): (r: seq<Way>)
    ensures |r| == |uses| && forall i :: 0 <= i < |r| ==> |r[i]| == |uses[i]| + 1
  {
    seq(|uses|, i requires 0 <= i < |uses| => [b] + uses[i])
  }

  lemma {:induction false} RivalsAreOthers(way: Way)
    requires way != []
    ensures Others(way, Rivals(way))
    decreases |way|
  {
    assert ([!way[0]] + way[1..])[0] != way[0];
    if |way| > 1 {
      RivalsAreOthers(way[1..]);
      forall i | 0 <= i < |way| - 1 ensures Rivals(way)[i] != way {
        SameHead(way[0], Rivals(way[1..])[i], way);
      }
    }
  }

  lemma {:induction false} AfterUsesAppend(e: seq<bool>, start: nat, h: nat, a: seq<Way>, b: seq<Way>)
    requires InTree(e, start, h)
    requires forall i :: 0 <= i < |a| ==> |a[i]| == h
    requires forall i :: 0 <= i < |b| ==> |b[i]| == h
    ensures AfterUses(e, start, h, a + b) == AfterUses(AfterUses(e, start, h, a), start, h, b)
    decreases |a|
  {
    if a == [] {
      assert a + b == b;
    } else {
      assert (a + b)[1..] == a[1..] + b;
      AfterUsesAppend(Update(e, start, a[0]), start, h, a[1..], b);
    }
  }

  /** Uses under the way's own child act on that child's tree alone, as far as the way can tell. */
  lemma {:induction false} UsesUnder(e: seq<bool>, e': seq<bool>, start: nat, way: Way, uses: seq<Way>)
    requires |way| > 1 && InTree(e, start, |way|)
    requires SameTree(e, e', Child(start, |way|, way[0]), |way| - 1)
    requires forall i :: 0 <= i < |uses| ==> |uses[i]| == |way| - 1
    ensures SameTree(AfterUses(e, Child(start, |way|, way[0]), |way| - 1, uses),
                     AfterUses(e', start, |way|, Under(way[0], uses)),
                     Child(start, |way|, way[0]), |way| - 1)
    decreases |uses|
  {
    if uses == [] {
    } else {
      var c := Child(start, |way|, way[0]);
      var use := [way[0]] + uses[0];
      assert use[1..] == uses[0] && Under(way[0], uses)[0] == use;
      assert Under(way[0], uses)[1..] == Under(way[0], uses[1..]);
      var e1 := e'[start := !way[0]];
      forall i | c <= i < c + Pow2(|way| - 1) - 1
        ensures Update(e', start, use)[i] == Update(e, c, uses[0])[i]
      {
        UpdateSame(e, e1, c, uses[0], i);
      }
      UsesUnder(Update(e, c, uses[0]), Update(e', start, use), start, way, uses[1..]);
    }
  }

  lemma {:induction false} RivalsPointToward(e: seq<bool>, start: nat, way: Way)
    requires InTree(e, start, |way|)
    ensures Toward(AfterUses(e, start, |way|, Rivals(way)), start, way) == |way|
    decreases |way|
  {
    var last := [!way[0]] + way[1..];
    var below := if |way| == 1 then [] else Under(way[0], Rivals(way[1..]));
    AfterUsesAppend(e, start, |way|, below, [last]);
    var e1 := AfterUses(e, start, |way|, below);
    assert AfterUses(e1, start, |way|, [last]) == Update(e1, start, last);
    PartsAtRoot(e1, start, way, last);
    if |way| > 1 {
      var c := Child(start, |way|, way[0]);
      RivalsPointToward(e, c, way[1..]);
      UsesUnder(e, e, start, way, Rivals(way[1..]));
      TowardLocal(AfterUses(e, c, |way| - 1, Rivals(way[1..])), e1, c, way[1..]);
    }
  }

  function Repeat(way: Way, m: nat): (uses: seq<Way>)
    ensures |uses| == m && forall i :: 0 <= i < m ==> uses[i] == way
  {
    seq(m, _ => way)
  }

  /** Main result: after a way was used, some m uses of other ways make it the victim if and only if
      m is at least the height of the tree, whatever the encoding was. */
  lemma ProtectedForHeightUses(e: seq<bool>, start: nat, way: Way, m: nat)
    requires InTree(e, start, |way|)
    ensures (exists uses: seq<Way> :: |uses| == m && Others(way, uses)
              && GetLru(AfterUses(Update(e, start, way), start, |way|, uses), start, |way|) == way)
            <==> m >= |way|
  {
    var used := Update(e, start, way);
    UseTurnsAway(e, start, way);
    forall uses: seq<Way> | |uses| == m && Others(way, uses)
      && GetLru(AfterUses(used, start, |way|, uses), start, |way|) == way
      ensures m >= |way|
    {
      TowardGrowsByOne(used, start, way, uses);
      VictimMeansAllToward(AfterUses(used, start, |way|, uses), start, way);
    }
    if m >= |way| {
      var other := [!way[0]] + way[1..];
      assert other[0] != way[0];
      var filler := Repeat(other, m - |way|);
      var uses := filler + Rivals(way);
      RivalsAreOthers(way);
      assert Others(way, uses);
      AfterUsesAppend(used, start, |way|, filler, Rivals(way));
      var e1 := AfterUses(used, start, |way|, filler);
      RivalsPointToward(e1, start, way);
      VictimMeansAllToward(AfterUses(e1, start, |way|, Rivals(way)), start, way);
    }
  }
}

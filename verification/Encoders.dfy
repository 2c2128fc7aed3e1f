/** The encoders of the hardware library that several modules use. */
module Encoders {
  function PopCount(bits: seq<bool>): nat {
    if bits == [] then 0 else (if bits[0] then 1 else 0) + PopCount(bits[1..])
  }

  /** Index of the set bit of a one-hot vector; zero for the empty vector, as the encoder gives. */
  function OHToUInt(bits: seq<bool>): (i: nat)
    ensures bits != [] ==> i < |bits|
  {
    if |bits| <= 1 || bits[0] || PopCount(bits) == 0 then 0 else 1 + OHToUInt(bits[1..])
  }

  /** Index of the first set bit; the last index when there is none. */
  function PriorityEncoder(bits: seq<bool>): (i: nat)
    requires bits != []
    ensures i < |bits|
    ensures forall k :: 0 <= k < i ==> !bits[k]
    ensures bits[i] || i == |bits| - 1
  {
    if bits[0] || |bits| == 1 then 0 else 1 + PriorityEncoder(bits[1..])
  }

  lemma {:induction false} PopCountZero(bits: seq<bool>)
    ensures PopCount(bits) == 0 <==> forall i :: 0 <= i < |bits| ==> !bits[i]
  {
    if bits == [] {
    } else {
      PopCountZero(bits[1..]);
      assert forall i :: 0 < i < |bits| ==> bits[i] == bits[1..][i - 1];
    }
  }

  /** A vector with one set bit is counted and encoded as such. */
  lemma {:induction false} OneHot(bits: seq<bool>, w: nat)
    requires w < |bits| && bits[w]
    requires forall i :: 0 <= i < |bits| && bits[i] ==> i == w
    ensures PopCount(bits) == 1 && OHToUInt(bits) == w
  {
    if w == 0 {
      PopCountZero(bits[1..]);
    } else {
      OneHot(bits[1..], w - 1);
    }
  }

  /** The empty vector encodes as index zero. */
  lemma NoneHot(bits: seq<bool>)
    requires forall i :: 0 <= i < |bits| ==> !bits[i]
    ensures PopCount(bits) == 0 && OHToUInt(bits) == 0
  {
    PopCountZero(bits);
  }
}

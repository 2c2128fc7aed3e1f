/** The flushable queue: a ring of entries with two pointers, optionally accepting while full when an
    entry leaves (pipe) and optionally passing an entry straight through while empty (flow). */
module FlushQueue {
  datatype Mode = Mode(pipe: bool, flow: bool)

  datatype Inputs<T> = Inputs(enqValid: bool, enqBits: T, deqReady: bool, flush: bool)

  // --- The queue as a sequence ------------------------------------------------------------------

  predicate EnqReady<T>(mode: Mode, cap: nat, q: seq<T>, i: Inputs<T>) {
    !i.flush && (|q| < cap || (mode.pipe && i.deqReady))
  }

  predicate DeqValid<T>(mode: Mode, q: seq<T>, i: Inputs<T>) {
    !i.flush && (q != [] || (mode.flow && i.enqValid))
  }

  predicate EnqFires<T>(mode: Mode, cap: nat, q: seq<T>, i: Inputs<T>) {
    EnqReady(mode, cap, q, i) && i.enqValid
  }

  predicate DeqFires<T>(mode: Mode, q: seq<T>, i: Inputs<T>) {
    DeqValid(mode, q, i) && i.deqReady
  }

  /** The queue with this cycle's accepted element. */
  function Offered<T>(mode: Mode, cap: nat, q: seq<T>, i: Inputs<T>): (r: seq<T>)
    requires cap >= 1
    ensures DeqValid(mode, q, i) ==> r != []
  {
    if EnqFires(mode, cap, q, i) then q + [i.enqBits] else q
  }

  function After<T>(mode: Mode, cap: nat, q: seq<T>, i: Inputs<T>): seq<T>
    requires cap >= 1
  {
    if i.flush then []
    else if DeqFires(mode, q, i) then Offered(mode, cap, q, i)[1..]
    else Offered(mode, cap, q, i)
  }

  /** Full and empty follow the length: outside a flush the queue accepts while it has room after this
      cycle's departure if the mode lets it see one, and offers while it has an element, counting this
      cycle's arrival if the mode lets it see one. */
  lemma HandshakesExact<T>(mode: Mode, cap: nat, q: seq<T>, i: Inputs<T>)
    requires cap >= 1 && |q| <= cap && !i.flush
    ensures EnqReady(mode, cap, q, i) <==> |q| - (if mode.pipe && DeqFires(mode, q, i) then 1 else 0) < cap
    ensures DeqValid(mode, q, i) <==> |q| + (if mode.flow && EnqFires(mode, cap, q, i) then 1 else 0) > 0
  {
  }

  // --- Runs -------------------------------------------------------------------------------------

  /** Elements accepted and delivered since the last flush, and what is still inside. */
  datatype History<T> = History(accepted: seq<T>, delivered: seq<T>, inside: seq<T>)

  function Record<T>(mode: Mode, cap: nat, h: History<T>, i: Inputs<T>): History<T>
    requires cap >= 1
  {
    if i.flush then History([], [], [])
    else History(
      if EnqFires(mode, cap, h.inside, i) then h.accepted + [i.enqBits] else h.accepted,
      if DeqFires(mode, h.inside, i) then h.delivered + [Offered(mode, cap, h.inside, i)[0]] else h.delivered,
      After(mode, cap, h.inside, i))
  }

  function Run<T>(mode: Mode, cap: nat, inputs: seq<Inputs<T>>): (h: History<T>)
    requires cap >= 1
  {
    if inputs == [] then History([], [], [])
    else Record(mode, cap, Run(mode, cap, inputs[..|inputs| - 1]), inputs[|inputs| - 1])
  }

  /** Main result: in every run, in every mode, what was accepted since the last flush is what was
      delivered followed by what is inside, so nothing is lost, repeated or reordered; and the queue
      never holds more than its capacity. */
  lemma {:induction false} RunIsFifo<T>(mode: Mode, cap: nat, inputs: seq<Inputs<T>>)
    requires cap >= 1
    ensures var h := Run(mode, cap, inputs);
      h.accepted == h.delivered + h.inside && |h.inside| <= cap
  {
    if inputs == [] {
    } else {
      RunIsFifo(mode, cap, inputs[..|inputs| - 1]);
      var h, i := Run(mode, cap, inputs[..|inputs| - 1]), inputs[|inputs| - 1];
      RecordKeepsOrder(mode, cap, h, i);
    }
  }

  lemma RecordKeepsOrder<T>(mode: Mode, cap: nat, h: History<T>, i: Inputs<T>)
    requires cap >= 1 && h.accepted == h.delivered + h.inside && |h.inside| <= cap
    ensures var h' := Record(mode, cap, h, i);
      h'.accepted == h'.delivered + h'.inside && |h'.inside| <= cap
  {
    var offered := Offered(mode, cap, h.inside, i);
    var h' := Record(mode, cap, h, i);
    if !i.flush {
      assert h'.accepted == h.delivered + offered;
      if DeqFires(mode, h.inside, i) {
        assert offered == [offered[0]] + offered[1..];
      }
    }
  }

  // --- The ring ---------------------------------------------------------------------------------

  function Slot(start: nat, k: nat, n: nat): nat {
    if start + k < n then start + k else start + k - n
  }

  function Window<T>(ram: seq<T>, start: nat, count: nat): (q: seq<T>)
    requires start < |ram| && count <= |ram|
    ensures |q| == count
  {
    seq(count, k requires 0 <= k < count => ram[Slot(start, k, |ram|)])
  }

  /** Writing behind the window appends. */
  lemma WindowWrite<T>(ram: seq<T>, start: nat, count: nat, x: T)
    requires start < |ram| && count < |ram|
    ensures var end := Slot(start, count, |ram|);
      Window(ram[end := x], start, count + 1) == Window(ram, start, count) + [x]
  {
  }

  /** Moving its start forward drops the first element. */
  lemma WindowDrop<T>(ram: seq<T>, start: nat, count: nat)
    requires start < |ram| && 1 <= count <= |ram|
    ensures Window(ram, Slot(start, 1, |ram|), count - 1) == Window(ram, start, count)[1..]
  {
  }

  /** Both at once, also when the ring is full and the write lands on the entry that leaves. */
  lemma WindowTurn<T>(ram: seq<T>, start: nat, count: nat, x: T)
    requires start < |ram| && 1 <= count <= |ram|
    ensures var end := Slot(start, count, |ram|);
      Window(ram[end := x], Slot(start, 1, |ram|), count) == (Window(ram, start, count) + [x])[1..]
  {
  }

  class FlushQueue<T(0)> {
    const mode: Mode
    const ram: array<T>
    var enqPtr: nat
    var deqPtr: nat
    var maybeFull: bool

    ghost predicate Valid()
      reads this
    {
      ram.Length >= 1 && enqPtr < ram.Length && deqPtr < ram.Length
    }

    function Count(): (n: nat)
      requires Valid()
      reads this
      ensures n <= ram.Length
    {
      if enqPtr == deqPtr then (if maybeFull then ram.Length else 0)
      else if enqPtr > deqPtr then enqPtr - deqPtr
      else ram.Length - deqPtr + enqPtr
    }

    ghost function Contents(): (q: seq<T>)
      requires Valid()
      reads this, ram
      ensures |q| == Count()
    {
      Window(ram[..], deqPtr, Count())
    }

    constructor (mode: Mode, entries: nat)
      requires entries >= 1
      ensures Valid() && fresh(ram) && ram.Length == entries && this.mode == mode && Contents() == []
    {
      this.mode := mode;
      ram := new T[entries];
      enqPtr, deqPtr, maybeFull := 0, 0, false;
    }

    /** The registers' next values. */
    method Move(doEnq: bool, x: T, doDeq: bool, flush: bool)
      requires Valid()
      requires doDeq ==> Contents() != []
      requires doEnq ==> Count() < ram.Length || doDeq
      modifies this, ram
      ensures Valid()
      ensures Contents() ==
        if flush then []
        else (old(Contents()) + (if doEnq then [x] else []))[if doDeq then 1 else 0..]
    {
      ghost var q, was, start := Contents(), ram[..], deqPtr;
      assert enqPtr == Slot(start, |q|, ram.Length);
      if doEnq {
        ram[enqPtr] := x;
        enqPtr := Slot(enqPtr, 1, ram.Length);
      }
      if doDeq {
        deqPtr := Slot(deqPtr, 1, ram.Length);
      }
      if doEnq != doDeq {
        maybeFull := doEnq;
      }
      if flush {
        enqPtr, deqPtr, maybeFull := 0, 0, false;
      }
      if doDeq && doEnq {
        WindowTurn(was, start, |q|, x);
      } else if doDeq {
        WindowDrop(was, start, |q|);
      } else if doEnq {
        WindowWrite(was, start, |q|, x);
      }
    }

    /** One clock: the handshakes and the new contents are those of the sequence. */
    method Clock(i: Inputs<T>) returns (enqReady: bool, deqValid: bool, deqBits: T)
      requires Valid()
      modifies this, ram
      ensures Valid()
      ensures enqReady == EnqReady(mode, ram.Length, old(Contents()), i)
      ensures deqValid == DeqValid(mode, old(Contents()), i)
      ensures deqValid ==> deqBits == Offered(mode, ram.Length, old(Contents()), i)[0]
      ensures Contents() == After(mode, ram.Length, old(Contents()), i)
    {
      var ptrMatch := enqPtr == deqPtr;
      var empty, full := ptrMatch && !maybeFull, ptrMatch && maybeFull;
      enqReady, deqValid, deqBits := !full, !empty, ram[deqPtr];
      if mode.flow && i.enqValid {
        deqValid := true;
      }
      if mode.flow && empty {
        deqBits := i.enqBits;
      }
      if mode.pipe && i.deqReady {
        enqReady := true;
      }
      if i.flush {
        enqReady, deqValid := false, false;
      }
      // An element passing straight through leaves the ring alone.
      var through := mode.flow && empty;
      Move(enqReady && i.enqValid && !(through && i.deqReady), i.enqBits,
           deqValid && i.deqReady && !through, i.flush);
    }
  }
}

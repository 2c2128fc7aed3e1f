/** The two-stage data bank. A request reads its row in the cycle in which the request before it
    is still writing, so it works on a stale row plus the write register of that request. */
module DatabankPipeline {
  import opened Wrappers
  import opened CacheEntry
  import opened Encoders
  import opened Databank

  /** A request in the second stage: the row was read before its predecessor's write. */
  datatype Slot = Slot(req: Request, victim: nat, row: seq<Entry>)

  /** The write register: what the previous request wrote. */
  datatype Context = Context(addr: nat, data: Block, flush: bool)

  datatype State = State(bank: seq<seq<Entry>>, s1: Option<Slot>, s2: Option<Context>)

  datatype Input = Input(req: Request, victim: nat)

  // --- One cycle ---------------------------------------------------------------------------

  function ForwardedEntry(g: Geometry, c: Context): Entry
    requires g.sets > 0
  {
    Entry(true, true, TagOf(g, c.addr), c.data)
  }

  function Forwards(s2: Option<Context>, addr: nat): bool {
    s2.Some? && s2.value.addr == addr
  }

  function SlotHit(g: Geometry, slot: Slot, s2: Option<Context>): bool
    requires g.sets > 0
  {
    if Forwards(s2, slot.req.addr) then !s2.value.flush else Hit(slot.row, TagOf(g, slot.req.addr))
  }

  /** The decision on the stale row, with the hit and the entry forwarded on an address match. */
  function Process(g: Geometry, slot: Slot, s2: Option<Context>): (o: Outcome)
    requires g.sets > 0 && slot.victim < |slot.row|
    ensures o.write.Some? ==> o.write.value.way < |slot.row|
  {
    var tag := TagOf(g, slot.req.addr);
    var way := HitWay(slot.row, tag);
    Decide(g, slot.row, SlotHit(g, slot, s2), way,
           if Forwards(s2, slot.req.addr) then ForwardedEntry(g, s2.value) else slot.row[way],
           slot.req, slot.victim)
  }

  function WriteContext(req: Request, o: Outcome): Option<Context> {
    if (OrR(req.wMask) || req.flush || req.refill) && o.reply.hit
    then Some(Context(req.addr, o.reply.wData, req.flush))
    else None
  }

  ghost predicate Fits(g: Geometry, bank: seq<seq<Entry>>) {
    && g.sets > 0 && g.sets != 2 && g.ways > 0
    && |bank| == g.sets
    && forall s :: 0 <= s < |bank| ==> |bank[s]| == g.ways && RowOk(bank[s])
  }

  ghost predicate Usable(g: Geometry, i: Input) {
    && i.victim < g.ways
    && (AndR(i.req.wMask) ==> i.req.refill)
    && (i.req.flush ==> !i.req.refill && !OrR(i.req.wMask))
  }

  function BankAfter(g: Geometry, bank: seq<seq<Entry>>, req: Request, o: Outcome): seq<seq<Entry>>
    requires g.sets > 0 && SetIndex(g, req.addr) < |bank|
    requires o.write.Some? ==> o.write.value.way < |bank[SetIndex(g, req.addr)]|
  {
    var s := SetIndex(g, req.addr);
    bank[s := Landed(bank[s], o.write)]
  }

  function Cycle(g: Geometry, st: State, next: Option<Input>): State
    requires g.sets > 0
    requires st.s1.Some? ==> SetIndex(g, st.s1.value.req.addr) < |st.bank|
    requires st.s1.Some? ==> st.s1.value.victim < |st.s1.value.row| == |st.bank[SetIndex(g, st.s1.value.req.addr)]|
    requires next.Some? ==> SetIndex(g, next.value.req.addr) < |st.bank|
  {
    var s1 := if next.Some?
              then Some(Slot(next.value.req, next.value.victim, st.bank[SetIndex(g, next.value.req.addr)]))
              else None;
    if st.s1.None? then State(st.bank, s1, None)
    else
      var o := Process(g, st.s1.value, st.s2);
      State(BankAfter(g, st.bank, st.s1.value.req, o), s1, WriteContext(st.s1.value.req, o))
  }

  // --- One cycle against the sequential bank -------------------------------------------------

  /** Everything the bank does and everything a hit is told. A miss is told no data. */
  ghost predicate SameOutcome(o: Outcome, o': Outcome) {
    && o.write == o'.write && o.miss == o'.miss && o.writeback == o'.writeback && o.touched == o'.touched
    && o.reply.hit == o'.reply.hit
    && (o.reply.hit ==> o.reply == o'.reply)
  }

  /** The stale row and the row in the bank differ by exactly the write in the register. */
  ghost predicate Linked(g: Geometry, slot: Slot, s2: Option<Context>, row: seq<Entry>)
    requires g.sets > 0
  {
    && RowOk(slot.row) && RowOk(row)
    && if s2.None? || SetIndex(g, s2.value.addr) != SetIndex(g, slot.req.addr) then row == slot.row
       else
         var tag := TagOf(g, s2.value.addr);
         && !slot.req.refill
         && HitWay(slot.row, tag) < |slot.row| && Hit(slot.row, tag)
         && row == slot.row[HitWay(slot.row, tag) :=
              if s2.value.flush then FlushedEntry() else ForwardedEntry(g, s2.value)]
  }

  lemma ForwardingExact(g: Geometry, slot: Slot, s2: Option<Context>, row: seq<Entry>)
    requires g.sets > 0 && g.sets != 2 && slot.victim < |slot.row| == |row|
    requires Linked(g, slot, s2, row)
    requires AndR(slot.req.wMask) ==> slot.req.refill
    ensures SameOutcome(Process(g, slot, s2), Access(g, row, slot.req, slot.victim))
  {
    var tag := TagOf(g, slot.req.addr);
    if s2.Some? && SetIndex(g, s2.value.addr) == SetIndex(g, slot.req.addr) {
      var tag2 := TagOf(g, s2.value.addr);
      var w := HitWay(slot.row, tag2);
      HitMeansHeld(slot.row, tag2);
      HitAfter(slot.row, w, row[w], tag);
      Split(g, slot.req.addr);
      Split(g, s2.value.addr);
    } else {
      Split(g, slot.req.addr);
    }
  }

  /** The register describes what the request has just written. */
  lemma RegisterExact(g: Geometry, row: seq<Entry>, req: Request, victim: nat, next: Request)
    requires g.sets > 0 && g.sets != 2 && victim < |row| && RowOk(row)
    requires AndR(req.wMask) ==> req.refill
    requires req.flush ==> !req.refill && !OrR(req.wMask)
    requires SetIndex(g, req.addr) == SetIndex(g, next.addr) ==> !req.refill && !next.refill
    requires SetIndex(g, req.addr) == SetIndex(g, next.addr)
    ensures var o := Access(g, row, req, victim);
      Linked(g, Slot(next, victim, row), WriteContext(req, o), Landed(row, o.write))
  {
    var tag := TagOf(g, req.addr);
    var o := Access(g, row, req, victim);
    AccessKeepsRow(g, row, req, victim);
    HitMeansHeld(row, tag);
    if Hit(row, tag) && !req.flush && !OrR(req.wMask) {
      MergeNothing(row[HitWay(row, tag)].data, req.wData, req.wMask);
      assert Updated(req, row[HitWay(row, tag)]) == row[HitWay(row, tag)];
    }
  }

  // --- Streams of requests ----------------------------------------------------------------------

  ghost predicate Ready(g: Geometry, st: State) {
    && Fits(g, st.bank)
    && (st.s1.Some? ==>
      var slot := st.s1.value;
      && Usable(g, Input(slot.req, slot.victim)) && |slot.row| == g.ways
      && SetIndex(g, slot.req.addr) < |st.bank|
      && Linked(g, slot, st.s2, st.bank[SetIndex(g, slot.req.addr)]))
  }

  /** A refill and its neighbour in the next cycle use different rows. */
  ghost predicate Apart(g: Geometry, a: Request, b: Request)
    requires g.sets > 0
  {
    SetIndex(g, a.addr) == SetIndex(g, b.addr) ==> !a.refill && !b.refill
  }

  ghost predicate Acceptable(g: Geometry, st: State, next: Option<Input>)
    requires g.sets > 0
  {
    next.Some? ==> Usable(g, next.value) && (st.s1.Some? ==> Apart(g, st.s1.value.req, next.value.req))
  }

  /** One cycle does to the bank what the sequential bank does with the pending request. */
  lemma CycleExact(g: Geometry, st: State, next: Option<Input>)
    requires Ready(g, st) && Acceptable(g, st, next)
    requires next.Some? ==> SetIndex(g, next.value.req.addr) < |st.bank|
    ensures Ready(g, Cycle(g, st, next))
    ensures st.s1.None? ==> Cycle(g, st, next).bank == st.bank
    ensures st.s1.Some? ==>
      var slot := st.s1.value;
      var row := st.bank[SetIndex(g, slot.req.addr)];
      && SameOutcome(Process(g, slot, st.s2), Access(g, row, slot.req, slot.victim))
      && Cycle(g, st, next).bank == BankAfter(g, st.bank, slot.req, Access(g, row, slot.req, slot.victim))
  {
    if st.s1.Some? {
      var slot := st.s1.value;
      var s := SetIndex(g, slot.req.addr);
      ForwardingExact(g, slot, st.s2, st.bank[s]);
      AccessKeepsRow(g, st.bank[s], slot.req, slot.victim);
      if next.Some? && SetIndex(g, next.value.req.addr) == s {
        RegisterExact(g, st.bank[s], slot.req, slot.victim, next.value.req);
      }
    }
  }

  ghost function Outputs(g: Geometry, st: State, stream: seq<Option<Input>>): seq<Outcome>
    requires Ready(g, st) && Streamable(g, st, stream)
    decreases |stream|
  {
    if stream == [] then []
    else
      CycleExact(g, st, stream[0]);
      (if st.s1.Some? then [Process(g, st.s1.value, st.s2)] else [])
      + Outputs(g, Cycle(g, st, stream[0]), stream[1..])
  }

  ghost predicate Streamable(g: Geometry, st: State, stream: seq<Option<Input>>)
    requires Ready(g, st)
    decreases |stream|
  {
    stream == [] ||
    (Acceptable(g, st, stream[0])
     && (stream[0].Some? ==> SetIndex(g, stream[0].value.req.addr) < |st.bank|)
     && (CycleExact(g, st, stream[0]); Streamable(g, Cycle(g, st, stream[0]), stream[1..])))
  }

  ghost function LastState(g: Geometry, st: State, stream: seq<Option<Input>>): State
    requires Ready(g, st) && Streamable(g, st, stream)
    decreases |stream|
  {
    if stream == [] then st
    else
      CycleExact(g, st, stream[0]);
      LastState(g, Cycle(g, st, stream[0]), stream[1..])
  }

  /** The requests of a stream without the empty cycles. */
  function Compact(stream: seq<Option<Input>>): seq<Input> {
    if stream == [] then []
    else (if stream[0].Some? then [stream[0].value] else []) + Compact(stream[1..])
  }

  // The sequential bank: each request lands before the next one reads.

  ghost predicate AllUsable(g: Geometry, inputs: seq<Input>) {
    forall i :: 0 <= i < |inputs| ==> Usable(g, inputs[i])
  }

  ghost function SequentialBank(g: Geometry, bank: seq<seq<Entry>>, inputs: seq<Input>): seq<seq<Entry>>
    requires Fits(g, bank) && AllUsable(g, inputs)
    decreases |inputs|
  {
    if inputs == [] then bank
    else
      var o := SequentialOutcome(g, bank, inputs[0]);
      SequentialBank(g, BankAfter(g, bank, inputs[0].req, o), inputs[1..])
  }

  ghost function SequentialOutcome(g: Geometry, bank: seq<seq<Entry>>, i: Input): (o: Outcome)
    requires Fits(g, bank) && Usable(g, i)
    ensures SetIndex(g, i.req.addr) < |bank|
    ensures o.write.Some? ==> o.write.value.way < |bank[SetIndex(g, i.req.addr)]|
    ensures Fits(g, BankAfter(g, bank, i.req, o))
  {
    Split(g, i.req.addr);
    AccessKeepsRow(g, bank[SetIndex(g, i.req.addr)], i.req, i.victim);
    Access(g, bank[SetIndex(g, i.req.addr)], i.req, i.victim)
  }

  ghost function SequentialOutcomes(g: Geometry, bank: seq<seq<Entry>>, inputs: seq<Input>): seq<Outcome>
    requires Fits(g, bank) && AllUsable(g, inputs)
    decreases |inputs|
  {
    if inputs == [] then []
    else
      var o := SequentialOutcome(g, bank, inputs[0]);
      [o] + SequentialOutcomes(g, BankAfter(g, bank, inputs[0].req, o), inputs[1..])
  }

  ghost predicate SameOutcomes(os: seq<Outcome>, os': seq<Outcome>) {
    |os| == |os'| && forall i :: 0 <= i < |os| ==> SameOutcome(os[i], os'[i])
  }

  function PendingInput(st: State): seq<Input> {
    if st.s1.Some? then [Input(st.s1.value.req, st.s1.value.victim)] else []
  }

  lemma SequentialHead(g: Geometry, bank: seq<seq<Entry>>, i: Input, rest: seq<Input>)
    requires Fits(g, bank) && Usable(g, i) && AllUsable(g, rest)
    ensures AllUsable(g, [i] + rest)
    ensures var o := SequentialOutcome(g, bank, i);
      var bank' := BankAfter(g, bank, i.req, o);
      && SequentialOutcomes(g, bank, [i] + rest) == [o] + SequentialOutcomes(g, bank', rest)
      && SequentialBank(g, bank, [i] + rest) == SequentialBank(g, bank', rest)
  {
    assert ([i] + rest)[1..] == rest;
  }

  lemma SameOutcomesHead(o: Outcome, o': Outcome, os: seq<Outcome>, os': seq<Outcome>)
    requires SameOutcome(o, o') && SameOutcomes(os, os')
    ensures SameOutcomes([o] + os, [o'] + os')
  {
  }

  ghost predicate Agrees(g: Geometry, st: State, stream: seq<Option<Input>>, inputs: seq<Input>)
    requires Ready(g, st) && Streamable(g, st, stream) && AllUsable(g, inputs)
  {
    && SameOutcomes(Outputs(g, st, stream), SequentialOutcomes(g, st.bank, inputs))
    && LastState(g, st, stream).bank == SequentialBank(g, st.bank, inputs)
  }

  lemma OneMoreCycle(g: Geometry, st: State, stream: seq<Option<Input>>, rest: seq<Input>)
    requires Ready(g, st) && stream != [] && Streamable(g, st, stream) && AllUsable(g, rest)
    requires Ready(g, Cycle(g, st, stream[0])) && Streamable(g, Cycle(g, st, stream[0]), stream[1..])
    requires Agrees(g, Cycle(g, st, stream[0]), stream[1..], rest)
    ensures AllUsable(g, PendingInput(st) + rest)
    ensures Agrees(g, st, stream, PendingInput(st) + rest)
  {
    var st' := Cycle(g, st, stream[0]);
    CycleExact(g, st, stream[0]);
    if st.s1.Some? {
      var slot := st.s1.value;
      var i := Input(slot.req, slot.victim);
      SequentialHead(g, st.bank, i, rest);
      SameOutcomesHead(Process(g, slot, st.s2), SequentialOutcome(g, st.bank, i),
                       Outputs(g, st', stream[1..]), SequentialOutcomes(g, st'.bank, rest));
    } else {
      assert PendingInput(st) + rest == rest;
      assert Outputs(g, st, stream) == Outputs(g, st', stream[1..]);
    }
  }

  /** Main result: over any stream, with or without empty cycles, the pipelined bank decides every
      request as the sequential bank does and leaves the same bank behind. The last cycle of the
      stream is empty, so that the last request has landed. */
  lemma {:induction false} PipelineRefinesSequential(g: Geometry, st: State, stream: seq<Option<Input>>)
    requires Ready(g, st) && Streamable(g, st, stream)
    requires stream != [] && stream[|stream| - 1].None?
    ensures AllUsable(g, PendingInput(st) + Compact(stream))
    ensures SameOutcomes(Outputs(g, st, stream), SequentialOutcomes(g, st.bank, PendingInput(st) + Compact(stream)))
    ensures LastState(g, st, stream).bank == SequentialBank(g, st.bank, PendingInput(st) + Compact(stream))
    decreases |stream|
  {
    var st' := Cycle(g, st, stream[0]);
    CycleExact(g, st, stream[0]);
    var rest := Compact(stream);
    if |stream| > 1 {
      PipelineRefinesSequential(g, st', stream[1..]);
      assert rest == PendingInput(st') + Compact(stream[1..]);
    } else {
      assert stream[1..] == [] && stream[0] == stream[|stream| - 1];
      assert Compact(stream[1..]) == [];
    }
    OneMoreCycle(g, st, stream, rest);
  }

  // --- The schedule the stream theorem leaves out ------------------------------------------------

  /** A refill that misses, followed in the next cycle by a write to the same block that changes it:
      the write hits through the register, but its way comes from the stale row, where the encoder
      of an empty match says way zero. It lands where it should exactly when the refill went to way
      zero; otherwise the block ends up valid in two ways. */
  lemma RefillThenWriteIff(g: Geometry, row: seq<Entry>, refill: Request, victim: nat, write: Request)
    requires g.sets > 0 && victim < |row| && RowOk(row)
    requires refill.refill && !refill.flush && !Hit(row, TagOf(g, refill.addr))
    requires write.addr == refill.addr && !write.refill && !write.flush && !AndR(write.wMask)
    requires var data := Refilled(g, refill, false, row[0]).data;
      Merge(data, write.wData, write.wMask) != data
    ensures var o := Access(g, row, refill, victim);
      var row' := Landed(row, o.write);
      var piped := Process(g, Slot(write, victim, row), WriteContext(refill, o));
      var sequential := Access(g, row', write, victim);
      && piped.reply.hit && sequential.reply.hit
      && (piped.write == sequential.write <==> victim == 0)
      && (victim != 0 ==> piped.write.Some? && !RowOk(Landed(row', piped.write)))
  {
    var tag := TagOf(g, refill.addr);
    var o := Access(g, row, refill, victim);
    var row' := Landed(row, o.write);
    AccessKeepsRow(g, row, refill, victim);
    MissMeansAbsent(row, tag);
    PopCountZero(Matches(row, tag));
    assert HitWay(row, tag) == 0;
    HitAfter(row, victim, o.write.value.entry, tag);
    if !OrR(write.wMask) {
      MergeNothing(o.reply.wData, write.wData, write.wMask);
    }
    var piped := Process(g, Slot(write, victim, row), WriteContext(refill, o));
    if victim != 0 {
      var row2 := Landed(row', piped.write);
      assert row2[0].v && row2[victim].v && row2[0].tag == row2[victim].tag;
    }
  }

  // --- The stateful module --------------------------------------------------------------------

  /** The registers of the data bank manager and its bank memory, advanced one clock at a time. */
  class DataBankManager {
    const g: Geometry
    var bank: array<seq<Entry>>
    var s1: Option<Slot>
    var s2: Option<Context>

    ghost function Registers(): State
      reads this, bank
    {
      State(bank[..], s1, s2)
    }

    constructor (g: Geometry)
      requires g.sets > 0 && g.sets != 2 && g.ways > 0
      ensures this.g == g && fresh(bank) && s1.None? && s2.None? && Ready(g, Registers())
    {
      this.g := g;
      var row := seq(g.ways, _ => FlushedEntry());
      bank := new seq<Entry>[g.sets](_ => row);
      s1, s2 := None, None;
    }

    /** One clock. The row of the next request is read before this cycle's write. */
    method Clock(next: Option<Input>) returns (o: Option<Outcome>)
      requires Ready(g, Registers()) && Acceptable(g, Registers(), next)
      modifies this, bank
      ensures bank == old(bank) && Ready(g, Registers())
      ensures next.Some? ==> SetIndex(g, next.value.req.addr) < bank.Length
      ensures Registers() == Cycle(g, old(Registers()), next)
      ensures o.Some? <==> old(s1.Some?)
      ensures o.Some? ==>
        SameOutcome(o.value, SequentialOutcome(g, old(bank[..]), Input(old(s1.value.req), old(s1.value.victim))))
    {
      if next.Some? {
        Split(g, next.value.req.addr);
      }
      CycleExact(g, Registers(), next);
      ghost var before := bank[..];
      var stale := if next.Some?
                   then Some(Slot(next.value.req, next.value.victim, bank[SetIndex(g, next.value.req.addr)]))
                   else None;
      if s1.Some? {
        var req := s1.value.req;
        var s := SetIndex(g, req.addr);
        var decided := Process(g, s1.value, s2);
        if decided.write.Some? {
          bank[s] := bank[s][decided.write.value.way := decided.write.value.entry];
        }
        assert bank[..] == BankAfter(g, before, req, decided);
        s2 := WriteContext(req, decided);
        o := Some(decided);
      } else {
        s2 := None;
        o := None;
      }
      s1 := stale;
    }
  }
}

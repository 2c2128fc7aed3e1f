/** The ten-state machine that takes one page out of the TLB and the cache. */
module PageDeletor {
  import opened Wrappers
  import opened PageTypes

  const BLOCKS_PER_PAGE: nat := 64
  const PIPE_CYCLES: nat := 4

  datatype Phase =
    | Idle | ReqLsu | FlushTlbReq | FlushTlbReply | Notify | FlushPage | Pipe | Wait | Send | NotifyLsu

  datatype State = State(phase: Phase, item: Item, flushCnt: nat, pipeCnt: nat)

  datatype TlbReply = TlbReply(hit: bool, modified: bool)

  /** What the deletor sees in one clock: requests, readies and flags. */
  datatype Input = Input(
    request: Option<Item>, permReady: bool, tlbReady: bool, tlbReply: Option<TlbReply>,
    startReady: bool, flushReady: bool, queueEmpty: bool, doneReady: bool, completedReady: bool)

  predicate RequestFires(d: State, i: Input) {
    d.phase.Idle? && i.request.Some?
  }

  predicate FlushFires(d: State, i: Input) {
    d.phase.FlushPage? && i.flushReady
  }

  /** Block address of the flush request: page number and flush counter. */
  function FlushAddr(d: State): nat {
    d.item.entry.ppn * BLOCKS_PER_PAGE + d.flushCnt
  }

  /** The completion pulse the waiting handlers see. It comes twice for an unmodified page. */
  predicate Done(d: State, i: Input) {
    || (d.phase.Wait? && i.queueEmpty && !d.item.entry.modified)
    || (d.phase.Send? && i.doneReady)
  }

  function NextPhase(d: State, i: Input): Phase {
    match d.phase
    case Idle => if i.request.Some? then ReqLsu else Idle
    case ReqLsu => if i.permReady then FlushTlbReq else ReqLsu
    case FlushTlbReq => if i.tlbReady then FlushTlbReply else FlushTlbReq
    case FlushTlbReply => if i.tlbReply.Some? then Notify else FlushTlbReply
    case Notify => if i.startReady then FlushPage else Notify
    case FlushPage => if d.flushCnt == BLOCKS_PER_PAGE - 1 && i.flushReady then Pipe else FlushPage
    case Pipe => if d.pipeCnt == PIPE_CYCLES - 1 then Wait else Pipe
    case Wait => if i.queueEmpty then Send else Wait
    case Send => if i.doneReady then NotifyLsu else Send
    case NotifyLsu => if i.completedReady then Idle else NotifyLsu
  }

  function Next(d: State, i: Input): State {
    State(
      NextPhase(d, i),
      if RequestFires(d, i) then i.request.value
      else if d.phase.FlushTlbReply? && i.tlbReply.Some? && i.tlbReply.value.hit
      then d.item.(entry := d.item.entry.(modified := i.tlbReply.value.modified))
      else d.item,
      if RequestFires(d, i) then 0
      else if FlushFires(d, i) then (d.flushCnt + 1) % BLOCKS_PER_PAGE
      else d.flushCnt,
      if FlushFires(d, i) && d.flushCnt == BLOCKS_PER_PAGE - 1 then 0
      else if d.phase.Pipe? then (d.pipeCnt + 1) % PIPE_CYCLES
      else d.pipeCnt)
  }

  class PageDeletor {
    var phase: Phase
    var item: Item
    var flushCnt: nat
    var pipeCnt: nat

    function Registers(): State
      reads this
    {
      State(phase, item, flushCnt, pipeCnt)
    }

    constructor (item: Item)
      ensures Registers() == State(Idle, item, 0, 0)
    {
      phase, this.item, flushCnt, pipeCnt := Idle, item, 0, 0;
    }

    method Clock(i: Input) returns (done: bool)
      modifies this
      ensures Registers() == Next(old(Registers()), i)
      ensures done == Done(old(Registers()), i)
    {
      var before := phase;
      done := (phase.Wait? && i.queueEmpty && !item.entry.modified) || (phase.Send? && i.doneReady);
      var fired := phase.FlushPage? && i.flushReady;
      var last := flushCnt == BLOCKS_PER_PAGE - 1;
      if phase.Idle? && i.request.Some? {
        item, flushCnt := i.request.value, 0;
      } else if phase.FlushTlbReply? && i.tlbReply.Some? && i.tlbReply.value.hit {
        item := item.(entry := item.entry.(modified := i.tlbReply.value.modified));
      }
      if fired {
        flushCnt := (flushCnt + 1) % BLOCKS_PER_PAGE;
      }
      if fired && last {
        pipeCnt := 0;
      } else if before.Pipe? {
        if pipeCnt == PIPE_CYCLES - 1 { phase := Wait; }
        pipeCnt := (pipeCnt + 1) % PIPE_CYCLES;
      }
      match before {
        case Idle => if i.request.Some? { phase := ReqLsu; }
        case ReqLsu => if i.permReady { phase := FlushTlbReq; }
        case FlushTlbReq => if i.tlbReady { phase := FlushTlbReply; }
        case FlushTlbReply => if i.tlbReply.Some? { phase := Notify; }
        case Notify => if i.startReady { phase := FlushPage; }
        case FlushPage => if last && fired { phase := Pipe; }
        case Pipe =>
        case Wait => if i.queueEmpty { phase := Send; }
        case Send => if i.doneReady { phase := NotifyLsu; }
        case NotifyLsu => if i.completedReady { phase := Idle; }
      }
    }
  }

  // --- The whole protocol ---------------------------------------------------------------------------

  /** Handshakes completed by the deletor; `inst` tells the instruction side from the data side. */
  datatype Event =
    | Permission(inst: bool)
    | TlbFlush(tag: Tag, inst: bool)
    | StartMessage(item: Item)
    | Flush(addr: nat, inst: bool)
    | DoneMessage(item: Item)
    | Completion(inst: bool)

  predicate Inst(item: Item) {
    item.entry.perm == 2
  }

  function Emits(d: State, i: Input): seq<Event> {
    match d.phase
    case ReqLsu => if i.permReady then [Permission(Inst(d.item))] else []
    case FlushTlbReq => if i.tlbReady then [TlbFlush(d.item.tag, Inst(d.item))] else []
    case Notify => if i.startReady then [StartMessage(d.item)] else []
    case FlushPage => if i.flushReady then [Flush(FlushAddr(d), Inst(d.item))] else []
    case Send => if i.doneReady then [DoneMessage(d.item)] else []
    case NotifyLsu => if i.completedReady then [Completion(Inst(d.item))] else []
    case _ => []
  }

  /** The first n blocks of a page, lowest first. */
  function Flushes(item: Item, n: nat): (es: seq<Event>)
    ensures |es| == n
  {
    seq(n, k requires 0 <= k < n => Flush(item.entry.ppn * BLOCKS_PER_PAGE + k, Inst(item)))
  }

  function Opening(item: Item): seq<Event> {
    [Permission(Inst(item)), TlbFlush(item.tag, Inst(item))]
  }

  /** ... and up to n flushes. */
  function Flushed(item: Item, n: nat): seq<Event> {
    Opening(item) + [StartMessage(item)] + Flushes(item, n)
  }

  /** All of the protocol for one page: permission, TLB, start message, 64 flushes, end message,
      completion; every item in a message is the page with the TLB's modified bit. */
  function Protocol(item: Item): seq<Event> {
    Flushed(item, BLOCKS_PER_PAGE) + [DoneMessage(item)] + [Completion(Inst(item))]
  }

  /** How much of the protocol is behind the deletor in a state. */
  function Behind(d: State): seq<Event>
    requires d.flushCnt <= BLOCKS_PER_PAGE
  {
    var item := d.item;
    match d.phase
    case Idle => Protocol(item)
    case ReqLsu => []
    case FlushTlbReq => [Permission(Inst(item))]
    case FlushTlbReply => Opening(item)
    case Notify => Opening(item)
    case FlushPage => Flushed(item, d.flushCnt)
    case Pipe => Flushed(item, BLOCKS_PER_PAGE)
    case Wait => Flushed(item, BLOCKS_PER_PAGE)
    case Send => Flushed(item, BLOCKS_PER_PAGE)
    case NotifyLsu => Flushed(item, BLOCKS_PER_PAGE) + [DoneMessage(item)]
  }

  /** The flush counter is reset before the flushing state and runs through the page in it. */
  predicate Counting(d: State) {
    && d.flushCnt < BLOCKS_PER_PAGE
    && (d.phase.ReqLsu? || d.phase.FlushTlbReq? || d.phase.FlushTlbReply? || d.phase.Notify? ==> d.flushCnt == 0)
  }

  lemma FlushedGrows(item: Item, n: nat)
    ensures Flushed(item, n + 1) == Flushed(item, n) + [Flush(item.entry.ppn * BLOCKS_PER_PAGE + n, Inst(item))]
    ensures Flushed(item, 0) == Opening(item) + [StartMessage(item)]
  {
    assert Flushes(item, n + 1) == Flushes(item, n) + [Flush(item.entry.ppn * BLOCKS_PER_PAGE + n, Inst(item))];
    assert Flushes(item, 0) == [];
  }

  lemma ClockCounts(d: State, i: Input)
    requires Counting(d) && !d.phase.Idle?
    ensures Counting(Next(d, i))
    ensures FlushFires(d, i) && d.flushCnt < BLOCKS_PER_PAGE - 1 ==> Next(d, i).flushCnt == d.flushCnt + 1
  {
  }

  lemma SilentClock(d: State, i: Input)
    requires Counting(d) && !d.phase.Idle? && Emits(d, i) == []
    ensures Counting(Next(d, i)) && Behind(Next(d, i)) == Behind(d)
  {
    ClockCounts(d, i);
  }

  lemma FlushingClock(d: State, i: Input)
    requires Counting(d) && Emits(d, i) != [] && (d.phase.FlushPage? || d.phase.Notify?)
    ensures Counting(Next(d, i)) && Behind(Next(d, i)) == Behind(d) + Emits(d, i)
  {
    ClockCounts(d, i);
    FlushedGrows(d.item, d.flushCnt);
  }

  lemma ClockAdvances(d: State, i: Input)
    requires Counting(d) && !d.phase.Idle?
    ensures Counting(Next(d, i)) && Behind(Next(d, i)) == Behind(d) + Emits(d, i)
  {
    if Emits(d, i) == [] {
      SilentClock(d, i);
      assert Behind(d) + [] == Behind(d);
    } else if d.phase.FlushPage? || d.phase.Notify? {
      FlushingClock(d, i);
    } else {
      ClockCounts(d, i);
    }
  }

  /** The reply the TLB gave, and the page with it. */
  function WithReply(item: Item, reply: Option<TlbReply>): Item {
    if reply.Some? && reply.value.hit then item.(entry := item.entry.(modified := reply.value.modified)) else item
  }

  function ReplyIn(run: seq<State>, ins: seq<Input>, n: nat): Option<TlbReply>
    requires n <= |ins| < |run|
  {
    if n == 0 then None
    else if run[n - 1].phase.FlushTlbReply? && ins[n - 1].tlbReply.Some? then ins[n - 1].tlbReply
    else ReplyIn(run, ins, n - 1)
  }

  function Events(run: seq<State>, ins: seq<Input>, n: nat): seq<Event>
    requires n <= |ins| < |run|
  {
    if n == 0 then [] else Events(run, ins, n - 1) + Emits(run[n - 1], ins[n - 1])
  }

  function Pulses(run: seq<State>, ins: seq<Input>, n: nat): nat
    requires n <= |ins| < |run|
  {
    if n == 0 then 0 else Pulses(run, ins, n - 1) + if Done(run[n - 1], ins[n - 1]) then 1 else 0
  }

  /** One deletion: an accepted request and the clocks until the deletor is idle again, or so far. */
  ghost predicate IsDeletion(item: Item, run: seq<State>, ins: seq<Input>) {
    && |run| == |ins| + 1 && ins != []
    && run[0].phase.Idle? && ins[0].request == Some(item)
    && (forall k :: 0 < k < |ins| ==> !run[k].phase.Idle?)
    && forall k :: 0 <= k < |ins| ==> run[k + 1] == Next(run[k], ins[k])
  }

  predicate BeforeReply(d: State) {
    d.phase.ReqLsu? || d.phase.FlushTlbReq? || d.phase.FlushTlbReply?
  }

  /** Completion pulses a state has behind it. */
  function PulsesBehind(d: State): nat {
    match d.phase
    case Idle => if d.item.entry.modified then 1 else 2
    case NotifyLsu => if d.item.entry.modified then 1 else 2
    case Send => if d.item.entry.modified then 0 else 1
    case _ => 0
  }

  lemma {:induction false} EventsSoFar(item: Item, run: seq<State>, ins: seq<Input>, n: nat)
    requires IsDeletion(item, run, ins) && 0 < n <= |ins|
    ensures Counting(run[n]) && Events(run, ins, n) == Behind(run[n])
  {
    if n > 1 {
      EventsSoFar(item, run, ins, n - 1);
      ClockAdvances(run[n - 1], ins[n - 1]);
    } else {
      assert Events(run, ins, 0) == [];
    }
  }

  lemma ClockKeepsReply(item: Item, d: State, i: Input, reply: Option<TlbReply>)
    requires !d.phase.Idle? && d.item == WithReply(item, reply)
    requires BeforeReply(d) ==> reply.None?
    ensures var reply' := if d.phase.FlushTlbReply? && i.tlbReply.Some? then i.tlbReply else reply;
      && Next(d, i).item == WithReply(item, reply')
      && (BeforeReply(Next(d, i)) ==> reply'.None?)
  {
  }

  lemma {:induction false} ReplySoFar(item: Item, run: seq<State>, ins: seq<Input>, n: nat)
    requires IsDeletion(item, run, ins) && 0 < n <= |ins|
    ensures BeforeReply(run[n]) ==> ReplyIn(run, ins, n).None?
    ensures run[n].item == WithReply(item, ReplyIn(run, ins, n))
  {
    if n > 1 {
      ReplySoFar(item, run, ins, n - 1);
      ClockKeepsReply(item, run[n - 1], ins[n - 1], ReplyIn(run, ins, n - 1));
    } else {
      assert ReplyIn(run, ins, 0).None?;
    }
  }

  lemma ClockCountsPulses(d: State, i: Input)
    requires !d.phase.Idle?
    ensures PulsesBehind(Next(d, i)) == PulsesBehind(d) + if Done(d, i) then 1 else 0
  {
  }

  lemma {:induction false} PulsesSoFar(item: Item, run: seq<State>, ins: seq<Input>, n: nat)
    requires IsDeletion(item, run, ins) && 0 < n <= |ins|
    ensures Pulses(run, ins, n) == PulsesBehind(run[n])
  {
    if n > 1 {
      PulsesSoFar(item, run, ins, n - 1);
      ClockCountsPulses(run[n - 1], ins[n - 1]);
    } else {
      assert Pulses(run, ins, 0) == 0;
    }
  }

  /** Main result: a deletion that has come to its end has done exactly the protocol for its page, in
      order and with nothing else, and has given one completion pulse for a modified page and two for
      an unmodified one. */
  lemma DeletionFollowsProtocol(item: Item, run: seq<State>, ins: seq<Input>)
    requires IsDeletion(item, run, ins) && run[|ins|].phase.Idle?
    ensures var page := WithReply(item, ReplyIn(run, ins, |ins|));
      && Events(run, ins, |ins|) == Protocol(page)
      && Pulses(run, ins, |ins|) == if page.entry.modified then 1 else 2
  {
    EventsSoFar(item, run, ins, |ins|);
    ReplySoFar(item, run, ins, |ins|);
    PulsesSoFar(item, run, ins, |ins|);
  }

  // --- Which side ---------------------------------------------------------------------------------------

  /** The events that go to one of two sides, and which. */
  predicate OnSide(e: Event, inst: bool) {
    match e
    case Permission(i) => i == inst
    case TlbFlush(_, i) => i == inst
    case Flush(_, i) => i == inst
    case Completion(i) => i == inst
    case _ => true
  }

  lemma ProtocolOnSide(item: Item, k: nat)
    requires k < |Protocol(item)|
    ensures OnSide(Protocol(item)[k], item.entry.perm == 2)
  {
    var flushed := Flushed(item, BLOCKS_PER_PAGE);
    if k < |Opening(item)| {
      assert Protocol(item)[k] == Opening(item)[k];
    } else if k == |Opening(item)| {
      assert Protocol(item)[k] == StartMessage(item);
    } else if k < |flushed| {
      assert Protocol(item)[k] == Flushes(item, BLOCKS_PER_PAGE)[k - |Opening(item)| - 1];
    }
  }

  /** Main result: in every deletion that has come to its end the permission, the TLB flush, all 64 block
      flushes and the completion went to the instruction side if the page requested is one of instructions
      (permission 2), and to the data side otherwise. */
  lemma DeletionOnSide(item: Item, run: seq<State>, ins: seq<Input>, k: nat)
    requires IsDeletion(item, run, ins) && run[|ins|].phase.Idle? && k < |Events(run, ins, |ins|)|
    ensures OnSide(Events(run, ins, |ins|)[k], item.entry.perm == 2)
  {
    DeletionFollowsProtocol(item, run, ins);
    ProtocolOnSide(WithReply(item, ReplyIn(run, ins, |ins|)), k);
  }

  /** Every byte of the page, 4096 bytes from its frame on, lies in a block that a deletion flushes. */
  lemma EveryByteFlushed(item: Item, run: seq<State>, ins: seq<Input>, a: nat)
    requires IsDeletion(item, run, ins) && run[|ins|].phase.Idle?
    requires item.entry.ppn * 4096 <= a < item.entry.ppn * 4096 + 4096
    ensures Flush(a / 64, item.entry.perm == 2) in Events(run, ins, |ins|)
  {
    var page := WithReply(item, ReplyIn(run, ins, |ins|));
    DeletionFollowsProtocol(item, run, ins);
    var k := a / 64 - item.entry.ppn * 64;
    var e := Flushes(page, BLOCKS_PER_PAGE)[k];
    assert e == Flush(a / 64, item.entry.perm == 2);
    assert Protocol(page)[|Opening(page)| + 1 + k] == e;
  }

  // --- It comes to its end --------------------------------------------------------------------------------

  /** What the deletor waits for in a clock, if it has not come. */
  predicate Waits(d: State, i: Input) {
    || (d.phase.ReqLsu? && !i.permReady) || (d.phase.FlushTlbReq? && !i.tlbReady)
    || (d.phase.FlushTlbReply? && i.tlbReply.None?) || (d.phase.Notify? && !i.startReady)
    || (d.phase.FlushPage? && !i.flushReady) || (d.phase.Wait? && !i.queueEmpty)
    || (d.phase.Send? && !i.doneReady) || (d.phase.NotifyLsu? && !i.completedReady)
  }

  /** Clocks without waiting until it is idle. */
  function Left(d: State): int {
    match d.phase
    case Idle => 0
    case NotifyLsu => 1
    case Send => 2
    case Wait => 3
    case Pipe => 7 - d.pipeCnt
    case FlushPage => 71 - d.flushCnt
    case Notify => 72
    case FlushTlbReply => 73
    case FlushTlbReq => 74
    case ReqLsu => 75
  }

  predicate Counters(d: State) {
    Counting(d) && d.pipeCnt < 4 && Left(d) >= 0
  }

  /** A busy deletor gets one clock nearer to its end in every clock in which it has not to wait, and stays
      in its phase in the others: a deletion takes 75 clocks besides those waited. */
  lemma GetsOn(d: State, i: Input)
    requires Counters(d) && !d.phase.Idle?
    ensures Counters(Next(d, i))
    ensures Left(Next(d, i)) == if Waits(d, i) then Left(d) else Left(d) - 1
    ensures Waits(d, i) ==> Next(d, i).phase == d.phase
  {
  }

  /** Clocks before n in which it has to wait. */
  function WaitedIn(run: seq<State>, ins: seq<Input>, n: nat): nat
    requires n <= |ins| < |run|
  {
    if n == 0 then 0 else WaitedIn(run, ins, n - 1) + if Waits(run[n - 1], ins[n - 1]) then 1 else 0
  }

  lemma {:induction false} LeftSoFar(item: Item, run: seq<State>, ins: seq<Input>, n: nat)
    requires IsDeletion(item, run, ins) && run[0].pipeCnt < 4 && 0 < n <= |ins|
    ensures Counters(run[n]) && Left(run[n]) == 76 - n + WaitedIn(run, ins, n)
  {
    if n == 1 {
      assert WaitedIn(run, ins, 0) == 0;
    } else {
      LeftSoFar(item, run, ins, n - 1);
      GetsOn(run[n - 1], ins[n - 1]);
    }
  }

  /** Main result: a deletion is at its end exactly after the clock of its request, 75 clocks, and those in
      which it had to wait. */
  lemma DeletionTakes(item: Item, run: seq<State>, ins: seq<Input>)
    requires IsDeletion(item, run, ins) && run[0].pipeCnt < 4
    ensures run[|ins|].phase.Idle? <==> |ins| == 76 + WaitedIn(run, ins, |ins|)
  {
    LeftSoFar(item, run, ins, |ins|);
  }
}

/** The two page-table clients on the TLB's side, clock by clock: the page walker, which only reads a
    set, and the writeback of a modified entry, which rewrites one. */
module TlbHandlers {
  import opened Wrappers
  import opened PageTypes
  import opened PageTable

  // --- Page walker --------------------------------------------------------------------------------

  datatype WalkPhase = Idle | Move | Lookup | Reply

  /** `source` is the TLB that asks. */
  datatype WalkRequest = WalkRequest(tag: Tag, perm: nat, source: nat, thid: nat)

  datatype Walker = Walker(phase: WalkPhase, request: WalkRequest, buf: PtSet, pte: Option<Pte>)

  datatype WalkInput = WalkInput(
    request: Option<WalkRequest>, readDone: bool, fetched: PtSet, tlbReady: seq<bool>, hostReady: bool)

  datatype Message =
    | TlbReply(source: nat, tag: Tag, thid: nat, pte: Pte)
    | PageFault(tag: Tag, perm: nat, thid: nat)

  /** What is offered in the reply state. */
  function Offer(w: Walker): Message {
    if w.pte.Some? then TlbReply(w.request.source, w.request.tag, w.request.thid, w.pte.value)
    else PageFault(w.request.tag, w.request.perm, w.request.thid)
  }

  predicate Accepted(m: Message, i: WalkInput) {
    if m.TlbReply? then m.source < |i.tlbReady| && i.tlbReady[m.source] else i.hostReady
  }

  function WalkNext(w: Walker, i: WalkInput): Walker {
    match w.phase
    case Idle => if i.request.Some? then w.(phase := Move, request := i.request.value) else w
    case Move => if i.readDone then w.(phase := Lookup, buf := i.fetched) else w
    case Lookup => w.(phase := Reply, pte := Answer(w.buf, w.request.tag))
    case Reply => if Accepted(Offer(w), i) then w.(phase := Idle) else w
  }

  function Sent(w: Walker, i: WalkInput): Option<Message> {
    if w.phase.Reply? && Accepted(Offer(w), i) then Some(Offer(w)) else None
  }

  class PageWalker {
    var phase: WalkPhase
    var request: WalkRequest
    var buf: PtSet
    var pte: Option<Pte>

    function Registers(): Walker
      reads this
    {
      Walker(phase, request, buf, pte)
    }

    constructor (request: WalkRequest)
      ensures phase == Idle
    {
      phase, this.request, buf, pte := Idle, request, EmptySet(), None;
    }

    method Clock(i: WalkInput) returns (sent: Option<Message>)
      modifies this
      ensures Registers() == WalkNext(old(Registers()), i)
      ensures sent == Sent(old(Registers()), i)
    {
      sent := None;
      match phase {
        case Idle =>
          if i.request.Some? {
            request, phase := i.request.value, Move;
          }
        case Move =>
          if i.readDone {
            buf, phase := i.fetched, Lookup;
          }
        case Lookup =>
          pte, phase := Answer(buf, request.tag), Reply;
        case Reply =>
          var offer := Offer(Registers());
          if Accepted(offer, i) {
            sent, phase := Some(offer), Idle;
          }
      }
    }
  }

  /** Answer the table owes a request. */
  function Owed(table: Table, r: WalkRequest): Message {
    var pte := Walk(table, r.tag);
    if pte.Some? then TlbReply(r.source, r.tag, r.thid, pte.value) else PageFault(r.tag, r.perm, r.thid)
  }

  /** A request with the table its set was fetched from. */
  datatype Fetched = Fetched(request: WalkRequest, table: Table)

  /** The fetch of a clock in which the table is as given. */
  function FetchedNow(w: Walker, table: Table, i: WalkInput): seq<Fetched> {
    if w.phase.Move? && i.readDone then [Fetched(w.request, table)] else []
  }

  /** Requests taken and messages sent in a clock. */
  function Taken(w: Walker, i: WalkInput): seq<WalkRequest> {
    if w.phase.Idle? && i.request.Some? then [i.request.value] else []
  }

  function SentNow(w: Walker, i: WalkInput): seq<Message> {
    if Sent(w, i).Some? then [Sent(w, i).value] else []
  }

  /** What is read is the set as it is in that clock; otherwise the table may change in any way. */
  ghost predicate ReadsTable(w: Walker, table: Table, i: WalkInput) {
    w.phase.Move? && i.readDone ==> i.fetched == SetOf(table, w.request.tag)
  }

  ghost predicate IsWalkRun(run: seq<Walker>, tables: seq<Table>, ins: seq<WalkInput>) {
    && |run| == |ins| + 1 && |tables| == |ins|
    && forall k :: 0 <= k < |ins| ==> ReadsTable(run[k], tables[k], ins[k]) && run[k + 1] == WalkNext(run[k], ins[k])
  }

  function TakenIn(run: seq<Walker>, ins: seq<WalkInput>, n: nat): seq<WalkRequest>
    requires n <= |ins| < |run|
  {
    if n == 0 then [] else TakenIn(run, ins, n - 1) + Taken(run[n - 1], ins[n - 1])
  }

  function FetchedIn(run: seq<Walker>, tables: seq<Table>, ins: seq<WalkInput>, n: nat): seq<Fetched>
    requires n <= |ins| == |tables| < |run|
  {
    if n == 0 then [] else FetchedIn(run, tables, ins, n - 1) + FetchedNow(run[n - 1], tables[n - 1], ins[n - 1])
  }

  function SentIn(run: seq<Walker>, ins: seq<WalkInput>, n: nat): seq<Message>
    requires n <= |ins| < |run|
  {
    if n == 0 then [] else SentIn(run, ins, n - 1) + SentNow(run[n - 1], ins[n - 1])
  }

  function OwedFor(fs: seq<Fetched>): (ms: seq<Message>)
    ensures |ms| == |fs|
  {
    seq(|fs|, i requires 0 <= i < |fs| => Owed(fs[i].table, fs[i].request))
  }

  function RequestsOf(fs: seq<Fetched>): (rs: seq<WalkRequest>)
    ensures |rs| == |fs|
  {
    seq(|fs|, i requires 0 <= i < |fs| => fs[i].request)
  }

  /** The request not yet fetched for, and the answer not yet sent. */
  function Unfetched(w: Walker): seq<WalkRequest> {
    if w.phase.Move? then [w.request] else []
  }

  predicate Answering(w: Walker) {
    w.phase.Lookup? || w.phase.Reply?
  }

  /** While an answer is being made, the last fetch is what it is made from. */
  predicate AnswersLast(w: Walker, fs: seq<Fetched>) {
    Answering(w) ==>
      && fs != [] && fs[|fs| - 1].request == w.request
      && (w.phase.Lookup? ==> w.buf == SetOf(fs[|fs| - 1].table, w.request.tag))
      && (w.phase.Reply? ==> w.pte == Walk(fs[|fs| - 1].table, w.request.tag))
  }

  function Unsent(w: Walker, fs: seq<Fetched>): seq<Message> {
    if Answering(w) && fs != [] then [Owed(fs[|fs| - 1].table, fs[|fs| - 1].request)] else []
  }

  lemma ClockFetches(w: Walker, table: Table, i: WalkInput, fs: seq<Fetched>)
    requires AnswersLast(w, fs) && ReadsTable(w, table, i)
    ensures var fs', w' := fs + FetchedNow(w, table, i), WalkNext(w, i);
      && AnswersLast(w', fs')
      && Unsent(w, fs) + OwedFor(FetchedNow(w, table, i)) == SentNow(w, i) + Unsent(w', fs')
    ensures Unfetched(w) + Taken(w, i) == RequestsOf(FetchedNow(w, table, i)) + Unfetched(WalkNext(w, i))
  {
  }

  lemma OwedAppend(a: seq<Fetched>, b: seq<Fetched>)
    ensures OwedFor(a + b) == OwedFor(a) + OwedFor(b) && RequestsOf(a + b) == RequestsOf(a) + RequestsOf(b)
  {
  }

  lemma Chained<T>(sent: seq<T>, busy: seq<T>, owed: seq<T>, now: seq<T>, taken: seq<T>, busy': seq<T>)
    requires sent + busy == owed && busy + taken == now + busy'
    ensures (sent + now) + busy' == owed + taken
  {
    assert (sent + now) + busy' == sent + (now + busy');
    assert sent + (busy + taken) == (sent + busy) + taken;
  }

  /** Main result: however the table changes, the walker fetches once for every request, in order, and
      answers every fetch once, in order, with the entry the table had at the fetch, to the TLB that asked,
      or with a page fault exactly when there was none. */
  lemma {:induction false} WalksAnswered(run: seq<Walker>, tables: seq<Table>, ins: seq<WalkInput>, n: nat)
    requires IsWalkRun(run, tables, ins) && run[0].phase.Idle? && n <= |ins|
    ensures var fs := FetchedIn(run, tables, ins, n);
      && AnswersLast(run[n], fs)
      && RequestsOf(fs) + Unfetched(run[n]) == TakenIn(run, ins, n)
      && SentIn(run, ins, n) + Unsent(run[n], fs) == OwedFor(fs)
  {
    if n == 0 {
    } else {
      WalksAnswered(run, tables, ins, n - 1);
      var w, i, fs := run[n - 1], ins[n - 1], FetchedIn(run, tables, ins, n - 1);
      var now := FetchedNow(w, tables[n - 1], i);
      ClockFetches(w, tables[n - 1], i, fs);
      OwedAppend(fs, now);
      Chained(SentIn(run, ins, n - 1), Unsent(w, fs), OwedFor(fs), SentNow(w, i), OwedFor(now),
              Unsent(run[n], fs + now));
      Chained(RequestsOf(fs), Unfetched(w), TakenIn(run, ins, n - 1), RequestsOf(now), Taken(w, i),
              Unfetched(run[n]));
    }
  }

  // --- Writeback of a modified entry --------------------------------------------------------------

  datatype WritebackPhase = WIdle | WMoveIn | WPick | WUpdate | WMoveOut

  datatype Writeback = Writeback(phase: WritebackPhase, request: Item, buf: PtSet, index: nat)

  datatype WritebackInput = WritebackInput(request: Option<Item>, readDone: bool, fetched: PtSet, writeDone: bool)

  function WritebackNext(w: Writeback, i: WritebackInput): Writeback
    requires w.index < ENTRIES
  {
    match w.phase
    case WIdle => if i.request.Some? then w.(phase := WMoveIn, request := i.request.value) else w
    case WMoveIn => if i.readDone then w.(phase := WPick, buf := i.fetched) else w
    case WPick => w.(phase := WUpdate, index := HitIndex(w.buf, w.request.tag))
    case WUpdate => w.(phase := WMoveOut, buf := WriteEntry(w.buf, w.index, w.request, false))
    case WMoveOut => if i.writeDone then w.(phase := WIdle) else w
  }

  class TlbWritebackHandler {
    var phase: WritebackPhase
    var request: Item
    var buf: PtSet
    var victimIndex: nat

    function Registers(): Writeback
      reads this
    {
      Writeback(phase, request, buf, victimIndex)
    }

    constructor (request: Item)
      ensures phase == WIdle && victimIndex < ENTRIES
    {
      phase, this.request, buf, victimIndex := WIdle, request, EmptySet(), 0;
    }

    method Clock(i: WritebackInput)
      requires victimIndex < ENTRIES
      modifies this
      ensures Registers() == WritebackNext(old(Registers()), i) && victimIndex < ENTRIES
    {
      match phase {
        case WIdle =>
          if i.request.Some? {
            request, phase := i.request.value, WMoveIn;
          }
        case WMoveIn =>
          if i.readDone {
            buf, phase := i.fetched, WPick;
          }
        case WPick =>
          victimIndex, phase := HitIndex(buf, request.tag), WUpdate;
        case WUpdate =>
          buf, phase := WriteEntry(buf, victimIndex, request, false), WMoveOut;
        case WMoveOut =>
          if i.writeDone {
            phase := WIdle;
          }
      }
    }
  }

  /** The handler with the table: a completed move out puts the buffer in place of the set. */
  datatype System = System(handler: Writeback, table: Table)

  predicate Fetches(s: System, i: WritebackInput) {
    s.handler.phase.WMoveIn? && i.readDone ==> i.fetched == SetOf(s.table, s.handler.request.tag)
  }

  function SystemNext(s: System, i: WritebackInput): System
    requires s.handler.index < ENTRIES
  {
    System(WritebackNext(s.handler, i),
      if s.handler.phase.WMoveOut? && i.writeDone then s.table[SetNumber(s.handler.request.tag) := s.handler.buf]
      else s.table)
  }

  function WriteOne(table: Table, item: Item): Table {
    WritebackEntry(table, item.tag, item.entry)
  }

  ghost predicate WritebackInv(s: System) {
    var w := s.handler;
    && w.index < ENTRIES
    && match w.phase
       case WPick => w.buf == SetOf(s.table, w.request.tag)
       case WUpdate => w.buf == SetOf(s.table, w.request.tag) && w.index == HitIndex(w.buf, w.request.tag)
       case WMoveOut => s.table[SetNumber(w.request.tag) := w.buf] == WriteOne(s.table, w.request)
       case _ => true
  }

  ghost predicate IsWritebackRun(run: seq<System>, ins: seq<WritebackInput>) {
    && |run| == |ins| + 1
    && forall k :: 0 <= k < |ins| ==>
      run[k].handler.index < ENTRIES && Fetches(run[k], ins[k]) && run[k + 1] == SystemNext(run[k], ins[k])
  }

  /** The request finished in a clock. */
  function Finished(s: System, i: WritebackInput): seq<Item> {
    if s.handler.phase.WMoveOut? && i.writeDone then [s.handler.request] else []
  }

  /** The entry offered in a clock in which the handler is idle. */
  function Offered(w: Writeback, i: WritebackInput): seq<Item> {
    if w.phase.WIdle? && i.request.Some? then [i.request.value] else []
  }

  function OfferedIn(run: seq<System>, ins: seq<WritebackInput>, n: nat): seq<Item>
    requires n <= |ins| < |run|
  {
    if n == 0 then [] else OfferedIn(run, ins, n - 1) + Offered(run[n - 1].handler, ins[n - 1])
  }

  function FinishedIn(run: seq<System>, ins: seq<WritebackInput>, n: nat): seq<Item>
    requires n <= |ins| < |run|
  {
    if n == 0 then [] else FinishedIn(run, ins, n - 1) + Finished(run[n - 1], ins[n - 1])
  }

  /** The request in work. */
  function InWork(w: Writeback): seq<Item> {
    if w.phase.WIdle? then [] else [w.request]
  }

  function AllWritten(table: Table, items: seq<Item>): Table {
    if items == [] then table else WriteOne(AllWritten(table, items[..|items| - 1]), items[|items| - 1])
  }

  lemma AllWrittenOneMore(table: Table, items: seq<Item>, more: seq<Item>)
    requires |more| <= 1
    ensures AllWritten(table, items + more) ==
      if more == [] then AllWritten(table, items) else WriteOne(AllWritten(table, items), more[0])
  {
    if more == [] {
      assert items + more == items;
    } else {
      assert (items + more)[..|items|] == items;
    }
  }

  lemma ClockWrites(s: System, i: WritebackInput)
    requires WritebackInv(s) && Fetches(s, i)
    ensures WritebackInv(SystemNext(s, i))
    ensures var done := Finished(s, i);
      SystemNext(s, i).table == if done == [] then s.table else WriteOne(s.table, done[0])
    ensures InWork(s.handler) + Offered(s.handler, i) == Finished(s, i) + InWork(SystemNext(s, i).handler)
  {
  }

  /** What a run has come to: the entries offered are those finished and the one in work, and the table is
      that of the finished ones. */
  ghost predicate HasApplied(table: Table, s: System, done: seq<Item>, offered: seq<Item>) {
    && WritebackInv(s)
    && done + InWork(s.handler) == offered
    && s.table == AllWritten(table, done)
  }

  lemma ClockApplied(table: Table, s: System, i: WritebackInput, done: seq<Item>, offered: seq<Item>)
    requires HasApplied(table, s, done, offered) && Fetches(s, i)
    ensures HasApplied(table, SystemNext(s, i), done + Finished(s, i), offered + Offered(s.handler, i))
  {
    ClockWrites(s, i);
    AllWrittenOneMore(table, done, Finished(s, i));
    Chained(done, InWork(s.handler), offered, Finished(s, i), Offered(s.handler, i), InWork(SystemNext(s, i).handler));
  }

  /** Main result: running alone, the handler finishes the entries it was offered while idle, each once and
      in order, and changes the table by exactly one writeback for each of them, in one step at the end of
      its move out. */
  lemma {:induction false} WritebacksApplied(run: seq<System>, ins: seq<WritebackInput>, n: nat)
    requires IsWritebackRun(run, ins) && run[0].handler.phase.WIdle? && n <= |ins|
    requires run[0].handler.index < ENTRIES
    ensures HasApplied(run[0].table, run[n], FinishedIn(run, ins, n), OfferedIn(run, ins, n))
  {
    if n == 0 {
    } else {
      WritebacksApplied(run, ins, n - 1);
      ClockApplied(run[0].table, run[n - 1], ins[n - 1], FinishedIn(run, ins, n - 1), OfferedIn(run, ins, n - 1));
    }
  }

  /** In terms of the inputs: the table is that of the entries offered, but for the one still in work. */
  lemma TableOfOffered(run: seq<System>, ins: seq<WritebackInput>, n: nat)
    requires IsWritebackRun(run, ins) && run[0].handler.phase.WIdle? && n <= |ins|
    requires run[0].handler.index < ENTRIES
    ensures var offered, left := OfferedIn(run, ins, n), if run[n].handler.phase.WIdle? then 0 else 1;
      left <= |offered| && run[n].table == AllWritten(run[0].table, offered[..|offered| - left])
  {
    WritebacksApplied(run, ins, n);
    var offered := OfferedIn(run, ins, n);
    assert offered[..|FinishedIn(run, ins, n)|] == FinishedIn(run, ins, n);
  }

  /** A message leaves only when its receiver is ready: the TLB it names, or the host for a page fault. */
  lemma SentWhenReady(w: Walker, i: WalkInput)
    ensures match Sent(w, i)
      case None => true
      case Some(TlbReply(source, _, _, _)) => source < |i.tlbReady| && i.tlbReady[source]
      case Some(PageFault(_, _, _)) => i.hostReady
    ensures w.phase.Reply? ==>
      (Sent(w, i).None? <==>
        if w.pte.Some? then w.request.source >= |i.tlbReady| || !i.tlbReady[w.request.source] else !i.hostReady)
    ensures w.phase.Reply? && Sent(w, i).None? ==> WalkNext(w, i) == w
  {
  }

  // --- Both come to their end ---------------------------------------------------------------------------

  function WalkLeft(w: Walker): nat {
    match w.phase
    case Idle => 0
    case Reply => 1
    case Lookup => 2
    case Move => 3
  }

  /** A busy walker waits for its set and for its message's receiver, and gets on in every other clock. */
  lemma WalkGetsOn(w: Walker, i: WalkInput)
    requires !w.phase.Idle?
    ensures (w.phase.Move? && !i.readDone) || (w.phase.Reply? && Sent(w, i).None?) <==> WalkNext(w, i) == w
    ensures WalkNext(w, i) != w ==> WalkLeft(WalkNext(w, i)) < WalkLeft(w)
  {
  }

  function WritebackLeft(w: Writeback): nat {
    match w.phase
    case WIdle => 0
    case WMoveOut => 1
    case WUpdate => 2
    case WPick => 3
    case WMoveIn => 4
  }

  /** ... and the writeback handler for its set's way in and out. */
  lemma WritebackGetsOn(w: Writeback, i: WritebackInput)
    requires w.index < ENTRIES && !w.phase.WIdle?
    ensures (w.phase.WMoveIn? && !i.readDone) || (w.phase.WMoveOut? && !i.writeDone) <==> WritebackNext(w, i) == w
    ensures WritebackNext(w, i) != w ==> WritebackLeft(WritebackNext(w, i)) < WritebackLeft(w)
  {
  }
}

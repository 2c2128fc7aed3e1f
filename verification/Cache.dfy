/** The non-blocking write-back cache with its backend, one databank request per step:
    bank, miss and writeback queues of the databank, refill queue, backend request queue,
    and the DRAM that serves the head of that queue. */
module Cache {
  import opened Wrappers
  import opened CacheEntry
  import opened Databank

  datatype Miss = Miss(addr: nat, wData: Block, wMask: Block)

  datatype BackendRequest = Read(addr: nat) | Write(addr: nat, data: Block)

  type Memory = map<nat, Block>

  function Get(mem: Memory, addr: nat): Block {
    if addr in mem then mem[addr] else ZeroBlock()
  }

  datatype State = State(
    bank: seq<seq<Entry>>,
    missQ: seq<Miss>,            // misses decided, not yet sent to the backend
    writebackQ: seq<WriteBack>,  // writebacks decided, not yet sent to the backend
    refillQ: seq<Miss>,          // misses whose read is on its way or answered
    backendQ: seq<BackendRequest>,
    replies: seq<Block>,         // answers of the DRAM not yet consumed
    dram: Memory)

  datatype Step =
    | Pipeline(addr: nat, wData: Block, wMask: Block, victim: nat)
    | Flush(addr: nat, victim: nat)
    | Refill(victim: nat)
    | MergeRead
    | MergeWrite
    | Dram

  /** A request that got its answer; `refill` tells a miss that became a hit. */
  datatype Completion = Completion(addr: nat, wData: Block, wMask: Block, data: Block, refill: bool)

  // --- The machine ----------------------------------------------------------------------

  ghost predicate Shape(g: Geometry, st: State) {
    && g.sets > 0 && g.sets != 2
    && |st.bank| == g.sets
    && forall s :: 0 <= s < g.sets ==> |st.bank[s]| == g.ways
  }

  function RowOf(g: Geometry, st: State, addr: nat): seq<Entry>
    requires g.sets > 0
  {
    if SetIndex(g, addr) < |st.bank| then st.bank[SetIndex(g, addr)] else []
  }

  function PipelineRequest(addr: nat, wData: Block, wMask: Block): Request {
    Request(addr, wData, wMask, false, false, ZeroBlock())
  }

  // The write mask of a flush is a don't-care in the source; zero here.
  function FlushRequest(addr: nat): Request {
    Request(addr, ZeroBlock(), ZeroBlock(), true, false, ZeroBlock())
  }

  function RefillRequest(m: Miss, reply: Block): Request {
    Request(m.addr, m.wData, m.wMask, false, true, reply)
  }

  predicate CanAccess(g: Geometry, st: State, addr: nat, victim: nat) {
    g.sets > 0 && victim < |RowOf(g, st, addr)|
  }

  /** One databank request: bank write, and what enters the miss and writeback queues. */
  function Serve(g: Geometry, st: State, req: Request, victim: nat): State
    requires CanAccess(g, st, req.addr, victim)
  {
    var s := SetIndex(g, req.addr);
    var o := Access(g, st.bank[s], req, victim);
    st.(bank := st.bank[s := Landed(st.bank[s], o.write)],
        missQ := if o.miss then st.missQ + [Miss(req.addr, req.wData, req.wMask)] else st.missQ,
        writebackQ := if o.writeback.Some? then st.writebackQ + [o.writeback.value] else st.writebackQ)
  }

  predicate Enabled(g: Geometry, st: State, step: Step) {
    match step
    case Pipeline(addr, _, _, victim) => CanAccess(g, st, addr, victim)
    case Flush(addr, victim) => CanAccess(g, st, addr, victim)
    case Refill(victim) => st.refillQ != [] && st.replies != [] && CanAccess(g, st, st.refillQ[0].addr, victim)
    case MergeRead => st.missQ != []
    case MergeWrite => st.writebackQ != []
    case Dram => st.backendQ != []
  }

  function Next(g: Geometry, st: State, step: Step): State
    requires Enabled(g, st, step)
  {
    match step
    case Pipeline(addr, wData, wMask, victim) => Serve(g, st, PipelineRequest(addr, wData, wMask), victim)
    case Flush(addr, victim) => Serve(g, st, FlushRequest(addr), victim)
    case Refill(victim) =>
      Serve(g, st.(refillQ := st.refillQ[1..], replies := st.replies[1..]),
               RefillRequest(st.refillQ[0], st.replies[0]), victim)
    case MergeRead =>
      st.(missQ := st.missQ[1..], refillQ := st.refillQ + [st.missQ[0]],
          backendQ := st.backendQ + [Read(st.missQ[0].addr)])
    case MergeWrite =>
      st.(writebackQ := st.writebackQ[1..],
          backendQ := st.backendQ + [Write(st.writebackQ[0].addr, st.writebackQ[0].data)])
    case Dram =>
      match st.backendQ[0] {
        case Read(a) => st.(backendQ := st.backendQ[1..], replies := st.replies + [Get(st.dram, a)])
        case Write(a, d) => st.(backendQ := st.backendQ[1..], dram := st.dram[a := d])
      }
  }

  /** The answer the pipeline port gives in this step, if it completes a request. */
  function Completed(g: Geometry, st: State, step: Step): Option<Completion>
    requires Enabled(g, st, step)
  {
    match step
    case Pipeline(addr, wData, wMask, victim) =>
      var o := Access(g, RowOf(g, st, addr), PipelineRequest(addr, wData, wMask), victim);
      if o.reply.hit then Some(Completion(addr, wData, wMask, o.reply.rData, false)) else None
    case Refill(victim) =>
      var m := st.refillQ[0];
      var o := Access(g, RowOf(g, st, m.addr), RefillRequest(m, st.replies[0]), victim);
      Some(Completion(m.addr, m.wData, m.wMask, o.reply.wData, true))
    case _ => None
  }

  // --- What the machine stands for -------------------------------------------------------

  predicate Cached(g: Geometry, st: State, addr: nat)
    requires g.sets > 0
  {
    Answer(RowOf(g, st, addr), TagOf(g, addr)).Some?
  }

  function AsWrites(q: seq<WriteBack>): seq<BackendRequest> {
    seq(|q|, i requires 0 <= i < |q| => Write(q[i].addr, q[i].data))
  }

  /** Value of a block once the given backend requests have been served. */
  function Settle(q: seq<BackendRequest>, addr: nat, data: Block): Block {
    if q == [] then data
    else Settle(q[1..], addr, if q[0].Write? && q[0].addr == addr then q[0].data else data)
  }

  /** The newest pending writeback of a block, else its DRAM contents. */
  function Backing(st: State, addr: nat): Block {
    Settle(st.backendQ + AsWrites(st.writebackQ), addr, Get(st.dram, addr))
  }

  function View(g: Geometry, st: State, addr: nat): Block
    requires g.sets > 0
  {
    var answer := Answer(RowOf(g, st, addr), TagOf(g, addr));
    if answer.Some? then answer.value else Backing(st, addr)
  }

  /** The answers the DRAM is still going to give, in order. */
  function PendingReplies(q: seq<BackendRequest>, mem: Memory): seq<Block> {
    if q == [] then []
    else match q[0]
      case Read(a) => [Get(mem, a)] + PendingReplies(q[1..], mem)
      case Write(a, d) => PendingReplies(q[1..], mem[a := d])
  }

  /** For each miss in the refill queue, the answer it has got or is going to get. */
  function Served(st: State): seq<Block> {
    st.replies + PendingReplies(st.backendQ, st.dram)
  }

  ghost predicate Waiting(q: seq<Miss>, addr: nat) {
    exists i :: 0 <= i < |q| && q[i].addr == addr
  }

  ghost predicate WritebackWaiting(st: State, addr: nat) {
    exists i :: 0 <= i < |st.writebackQ| && st.writebackQ[i].addr == addr
  }

  // --- Invariant ------------------------------------------------------------------------

  ghost predicate RowsOk(st: State) {
    forall s :: 0 <= s < |st.bank| ==> RowOk(st.bank[s])
  }

  /** A clean entry agrees with what lies behind the cache. */
  ghost predicate CleanAgrees(g: Geometry, st: State) {
    forall s, w :: 0 <= s < |st.bank| && 0 <= w < |st.bank[s]| && st.bank[s][w].v && !st.bank[s][w].d ==>
      st.bank[s][w].data == Backing(st, Rebuild(g, st.bank[s][w].tag, s))
  }

  /** Every answer on its way to a block outside the cache is the block's current value. */
  ghost predicate RepliesFresh(g: Geometry, st: State)
    requires g.sets > 0
  {
    && |Served(st)| == |st.refillQ|
    && forall i :: 0 <= i < |st.refillQ| && !Cached(g, st, st.refillQ[i].addr) ==>
      Served(st)[i] == Backing(st, st.refillQ[i].addr)
  }

  ghost predicate Inv(g: Geometry, st: State) {
    && Shape(g, st)
    && RowsOk(st)
    && CleanAgrees(g, st)
    && RepliesFresh(g, st)
  }

  // --- Guards the surroundings must keep ---------------------------------------------------

  /** (a) A block whose miss is with the backend does not leave the cache. */
  ghost predicate MayLeave(st: State, addr: nat) {
    !Waiting(st.refillQ, addr)
  }

  ghost predicate VictimMayLeave(g: Geometry, st: State, addr: nat, victim: nat)
    requires CanAccess(g, st, addr, victim)
  {
    var e := RowOf(g, st, addr)[victim];
    e.v ==> MayLeave(st, Rebuild(g, e.tag, SetIndex(g, addr)))
  }

  /** (a), (b) a read does not overtake a writeback of its block, (c) pipeline masks are not all ones. */
  ghost predicate Guard(g: Geometry, st: State, step: Step)
    requires Enabled(g, st, step)
  {
    match step
    case Pipeline(_, _, wMask, _) => !AndR(wMask)
    case Flush(addr, _) => Cached(g, st, addr) ==> MayLeave(st, addr)
    case Refill(victim) =>
      || Cached(g, st, st.refillQ[0].addr)
      || VictimMayLeave(g, st.(refillQ := st.refillQ[1..]), st.refillQ[0].addr, victim)
    case MergeRead => !WritebackWaiting(st, st.missQ[0].addr)
    case MergeWrite => true
    case Dram => true
  }
}

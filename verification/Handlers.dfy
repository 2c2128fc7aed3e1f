/** The two host-driven page-table handlers, clock by clock. Each fetches the set of its tag into a
    buffer, may have a page deleted, and writes the changed set back. */
module Handlers {
  import opened Wrappers
  import opened PageTypes
  import opened PageTable

  // --- Miss reply handler -----------------------------------------------------------------------

  datatype MissPhase =
    | Idle | LoadSet | CheckHit | GetEvict | DeletePageReq | DeletePage | Replace | Moveback | ReplyTlb

  /** `thid` is the thread to wake, if the message names one. */
  datatype MissRequest = MissRequest(tag: Tag, perm: nat, ppn: nat, thid: Option<nat>)

  /** `loaded` remembers the set as it was fetched. */
  datatype Miss = Miss(phase: MissPhase, request: MissRequest, buf: PtSet, hit: bool,
                       victim: Item, target: nat, loaded: PtSet)

  /** `fetched` is the set in DRAM when the read is done. */
  datatype MissInput = MissInput(
    request: Option<MissRequest>, readDone: bool, fetched: PtSet,
    deleteReady: bool, deleteDone: bool, writeDone: bool, tlbReady: bool)

  function Reply(r: MissRequest): MissPhase {
    if r.thid.Some? then ReplyTlb else Idle
  }

  function NewItem(r: MissRequest): Item {
    Item(r.tag, Pte(r.ppn, r.perm, false))
  }

  function MissNext(m: Miss, i: MissInput): Miss
    requires m.target < ENTRIES
  {
    match m.phase
    case Idle => if i.request.Some? then m.(phase := LoadSet, request := i.request.value) else m
    case LoadSet =>
      if i.readDone
      then m.(phase := CheckHit, buf := i.fetched, loaded := i.fetched, hit := HitV(i.fetched, m.request.tag))
      else m
    case CheckHit => m.(phase := if m.hit then Reply(m.request) else GetEvict)
    case GetEvict =>
      m.(victim := LruItem(m.buf), target := TargetIndex(m.buf),
         phase := if Full(m.buf) then DeletePageReq else Replace)
    case DeletePageReq => if i.deleteReady then m.(phase := DeletePage) else m
    case DeletePage => if i.deleteDone then m.(phase := Replace) else m
    case Replace => m.(buf := WriteEntry(m.buf, m.target, NewItem(m.request), false), phase := Moveback)
    case Moveback => if i.writeDone then m.(phase := Reply(m.request)) else m
    case ReplyTlb => if i.tlbReady then m.(phase := Idle) else m
  }

  /** What the registers hold in each state. */
  ghost predicate MissInv(m: Miss) {
    && m.target < ENTRIES
    && match m.phase
       case CheckHit => m.buf == m.loaded && m.hit == HitV(m.loaded, m.request.tag)
       case GetEvict => m.buf == m.loaded && !HitV(m.loaded, m.request.tag)
       case Replace => m.buf == m.loaded && !HitV(m.loaded, m.request.tag) && m.target == TargetIndex(m.loaded)
       case Moveback =>
         && !HitV(m.loaded, m.request.tag)
         && m.buf == WriteEntry(m.loaded, TargetIndex(m.loaded), NewItem(m.request), false)
       case DeletePageReq => MissDeletes(m)
       case DeletePage => MissDeletes(m)
       case _ => true
  }

  ghost predicate MissDeletes(m: Miss) {
    && m.buf == m.loaded && !HitV(m.loaded, m.request.tag) && m.target == TargetIndex(m.loaded)
    && Full(m.loaded) && m.victim == LruItem(m.loaded)
  }

  lemma MissKeepsInv(m: Miss, i: MissInput)
    requires MissInv(m)
    ensures MissInv(MissNext(m, i))
  {
  }

  class QemuMissReplyHandler {
    var phase: MissPhase
    var request: MissRequest
    var buf: PtSet
    var hit: bool
    var victim: Item
    var target: nat
    ghost var loaded: PtSet

    ghost function Registers(): Miss
      reads this
    {
      Miss(phase, request, buf, hit, victim, target, loaded)
    }

    constructor (request: MissRequest, victim: Item)
      ensures phase.Idle? && MissInv(Registers())
    {
      phase, this.request, buf, hit := Idle, request, EmptySet(), false;
      this.victim, target, loaded := victim, 0, EmptySet();
    }

    method Clock(i: MissInput)
      requires MissInv(Registers())
      modifies this
      ensures Registers() == MissNext(old(Registers()), i) && MissInv(Registers())
    {
      MissKeepsInv(Registers(), i);
      match phase {
        case Idle =>
          if i.request.Some? { request := i.request.value; phase := LoadSet; }
        case LoadSet =>
          if i.readDone {
            buf, loaded, hit := i.fetched, i.fetched, HitV(i.fetched, request.tag);
            phase := CheckHit;
          }
        case CheckHit => phase := if hit then Reply(request) else GetEvict;
        case GetEvict =>
          victim, target := LruItem(buf), TargetIndex(buf);
          phase := if Full(buf) then DeletePageReq else Replace;
        case DeletePageReq => if i.deleteReady { phase := DeletePage; }
        case DeletePage => if i.deleteDone { phase := Replace; }
        case Replace => buf := WriteEntry(buf, target, NewItem(request), false); phase := Moveback;
        case Moveback => if i.writeDone { phase := Reply(request); }
        case ReplyTlb => if i.tlbReady { phase := Idle; }
      }
    }
  }

  // --- A whole miss reply -------------------------------------------------------------------------

  /** What a handler does to its surroundings. */
  datatype Event = Fetch(set_: PtSet) | Delete(page: Item) | StoreSet(set_: PtSet) | TellTlb(item: Item)

  function MissEmits(m: Miss, i: MissInput): seq<Event> {
    match m.phase
    case LoadSet => if i.readDone then [Fetch(i.fetched)] else []
    case DeletePageReq => if i.deleteReady then [Delete(m.victim)] else []
    case Moveback => if i.writeDone then [StoreSet(m.buf)] else []
    case ReplyTlb => if i.tlbReady then [TellTlb(NewItem(m.request))] else []
    case _ => []
  }

  /** A full set has its replacement victim deleted. */
  function Cleared(s: PtSet): seq<Event> {
    if Full(s) then [Fetch(s), Delete(LruItem(s))] else [Fetch(s)]
  }

  /** The displaced page goes first, then the set with the new entry; a present entry is left alone. */
  function Insertion(s: PtSet, r: MissRequest): seq<Event> {
    if HitV(s, r.tag) then [Fetch(s)]
    else Cleared(s) + [StoreSet(WriteEntry(s, TargetIndex(s), NewItem(r), false))]
  }

  /** The TLB is told only if the message names a thread. */
  function MissReplyDone(s: PtSet, r: MissRequest): seq<Event> {
    if r.thid.Some? then Insertion(s, r) + [TellTlb(NewItem(r))] else Insertion(s, r)
  }

  function MissBehind(m: Miss): seq<Event> {
    match m.phase
    case Idle => MissReplyDone(m.loaded, m.request)
    case LoadSet => []
    case CheckHit => [Fetch(m.loaded)]
    case GetEvict => [Fetch(m.loaded)]
    case DeletePageReq => [Fetch(m.loaded)]
    case DeletePage => [Fetch(m.loaded), Delete(m.victim)]
    case Replace => Cleared(m.loaded)
    case Moveback => Cleared(m.loaded)
    case ReplyTlb => Insertion(m.loaded, m.request)
  }

  ghost predicate MissFacts(m: Miss) {
    && MissInv(m)
    && (m.phase.DeletePage? ==> Full(m.loaded) && m.victim == LruItem(m.loaded))
    && (m.phase.ReplyTlb? ==> m.request.thid.Some?)
  }

  lemma MissKeepsFacts(m: Miss, i: MissInput)
    requires MissFacts(m) && !m.phase.Idle?
    ensures MissFacts(MissNext(m, i)) && MissNext(m, i).request == m.request
  {
    MissKeepsInv(m, i);
  }

  /** In the waiting states a clock without a handshake changes nothing. */
  lemma MissIdleClock(m: Miss, i: MissInput)
    requires MissFacts(m) && MissEmits(m, i) == []
    requires m.phase.LoadSet? || m.phase.DeletePageReq? || m.phase.Moveback? || m.phase.ReplyTlb?
    ensures MissNext(m, i) == m
  {
  }

  lemma MissDecides(m: Miss, i: MissInput)
    requires MissFacts(m) && (m.phase.CheckHit? || m.phase.GetEvict?)
    ensures MissBehind(MissNext(m, i)) == MissBehind(m)
  {
  }

  lemma MissReplaces(m: Miss, i: MissInput)
    requires MissFacts(m) && (m.phase.DeletePage? || m.phase.Replace?)
    ensures MissBehind(MissNext(m, i)) == MissBehind(m)
  {
  }

  lemma MissClockAdvances(m: Miss, i: MissInput)
    requires MissFacts(m) && !m.phase.Idle?
    ensures MissFacts(MissNext(m, i)) && MissNext(m, i).request == m.request
    ensures MissBehind(MissNext(m, i)) == MissBehind(m) + MissEmits(m, i)
  {
    MissKeepsFacts(m, i);
    if MissEmits(m, i) == [] {
      if m.phase.CheckHit? || m.phase.GetEvict? {
        MissDecides(m, i);
      } else if m.phase.DeletePage? || m.phase.Replace? {
        MissReplaces(m, i);
      } else {
        MissIdleClock(m, i);
      }
      assert MissBehind(m) + [] == MissBehind(m);
    }
  }

  ghost predicate IsMissReply(r: MissRequest, run: seq<Miss>, ins: seq<MissInput>) {
    && |run| == |ins| + 1 && ins != []
    && run[0].phase.Idle? && MissInv(run[0]) && ins[0].request == Some(r)
    && (forall k :: 0 < k < |ins| ==> !run[k].phase.Idle?)
    && forall k :: 0 <= k < |ins| ==> run[k].target < ENTRIES && run[k + 1] == MissNext(run[k], ins[k])
  }

  function MissEvents(run: seq<Miss>, ins: seq<MissInput>, n: nat): seq<Event>
    requires n <= |ins| < |run|
  {
    if n == 0 then [] else MissEvents(run, ins, n - 1) + MissEmits(run[n - 1], ins[n - 1])
  }

  lemma {:induction false} MissSoFar(r: MissRequest, run: seq<Miss>, ins: seq<MissInput>, n: nat)
    requires IsMissReply(r, run, ins) && 0 < n <= |ins|
    ensures MissFacts(run[n]) && run[n].request == r && MissEvents(run, ins, n) == MissBehind(run[n])
  {
    if n > 1 {
      MissSoFar(r, run, ins, n - 1);
      MissClockAdvances(run[n - 1], ins[n - 1]);
    } else {
      assert MissEvents(run, ins, 0) == [];
    }
  }

  /** Main result: a miss reply that has come to its end has fetched one set and then done with it
      exactly what the map's step asks for: nothing for a present tag; else the deletion of the
      replacement victim of a full set, before the store of the set with the new entry; at last the
      word to the TLB. */
  lemma MissReplyTransaction(r: MissRequest, run: seq<Miss>, ins: seq<MissInput>)
    requires IsMissReply(r, run, ins) && run[|ins|].phase.Idle?
    ensures MissEvents(run, ins, |ins|) == MissReplyDone(run[|ins|].loaded, r)
  {
    MissSoFar(r, run, ins, |ins|);
  }

  // --- It comes to its end --------------------------------------------------------------------------

  /** What the handler waits for in a clock, if it has not come. */
  predicate MissWaits(m: Miss, i: MissInput) {
    || (m.phase.LoadSet? && !i.readDone) || (m.phase.DeletePageReq? && !i.deleteReady)
    || (m.phase.DeletePage? && !i.deleteDone) || (m.phase.Moveback? && !i.writeDone)
    || (m.phase.ReplyTlb? && !i.tlbReady)
  }

  /** Clocks without waiting until the handler is idle, at most. */
  function MissLeft(m: Miss): nat {
    match m.phase
    case Idle => 0
    case ReplyTlb => 1
    case Moveback => 2
    case Replace => 3
    case DeletePage => 4
    case DeletePageReq => 5
    case GetEvict => 6
    case CheckHit => 7
    case LoadSet => 8
  }

  /** A busy handler gets on in every clock in which it has not to wait, and stays as it is in the others. */
  lemma MissGetsOn(m: Miss, i: MissInput)
    requires m.target < ENTRIES && !m.phase.Idle?
    ensures if MissWaits(m, i) then MissNext(m, i) == m else MissLeft(MissNext(m, i)) < MissLeft(m)
  {
  }

  // --- Page evict handler ----------------------------------------------------------------------

  datatype EvictPhase =
    | EIdle | ELoadSet | EGetEntry | EDeletePageReq | EDeletePage | EFlushEntry | EUpdatePt

  datatype Evict = Evict(phase: EvictPhase, tag: Tag, buf: PtSet, victim: Item, index: nat, loaded: PtSet)

  datatype EvictInput = EvictInput(
    request: Option<Tag>, readDone: bool, fetched: PtSet, deleteReady: bool, deleteDone: bool, writeDone: bool)

  /** The looked-up item: the requested tag with the entry the index points to. */
  function Found(s: PtSet, tag: Tag): Item {
    Item(tag, s.ptes[HitIndex(s, tag)])
  }

  function EvictNext(e: Evict, i: EvictInput): Evict
    requires e.index < ENTRIES
  {
    match e.phase
    case EIdle => if i.request.Some? then e.(phase := ELoadSet, tag := i.request.value) else e
    case ELoadSet => if i.readDone then e.(phase := EGetEntry, buf := i.fetched, loaded := i.fetched) else e
    case EGetEntry => e.(phase := EDeletePageReq, victim := Found(e.buf, e.tag), index := HitIndex(e.buf, e.tag))
    case EDeletePageReq => if i.deleteReady then e.(phase := EDeletePage) else e
    case EDeletePage => if i.deleteDone then e.(phase := EFlushEntry) else e
    case EFlushEntry => e.(buf := WriteEntry(e.buf, e.index, e.victim, true), phase := EUpdatePt)
    case EUpdatePt => if i.writeDone then e.(phase := EIdle) else e
  }

  ghost predicate EvictInv(e: Evict) {
    && e.index < ENTRIES
    && match e.phase
       case EGetEntry => e.buf == e.loaded
       case EDeletePageReq => EvictDeletes(e)
       case EDeletePage => EvictDeletes(e)
       case EFlushEntry => EvictDeletes(e)
       case EUpdatePt => e.buf == WriteEntry(e.loaded, HitIndex(e.loaded, e.tag), Found(e.loaded, e.tag), true)
       case _ => true
  }

  ghost predicate EvictDeletes(e: Evict) {
    e.buf == e.loaded && e.index == HitIndex(e.loaded, e.tag) && e.victim == Found(e.loaded, e.tag)
  }

  lemma EvictKeepsInv(e: Evict, i: EvictInput)
    requires EvictInv(e)
    ensures EvictInv(EvictNext(e, i))
  {
  }

  class QemuPageEvictHandler {
    var phase: EvictPhase
    var tag: Tag
    var buf: PtSet
    var victim: Item
    var index: nat
    ghost var loaded: PtSet

    ghost function Registers(): Evict
      reads this
    {
      Evict(phase, tag, buf, victim, index, loaded)
    }

    constructor (tag: Tag, victim: Item)
      ensures phase.EIdle? && EvictInv(Registers())
    {
      phase, this.tag, buf, this.victim, index, loaded := EIdle, tag, EmptySet(), victim, 0, EmptySet();
    }

    method Clock(i: EvictInput)
      requires EvictInv(Registers())
      modifies this
      ensures Registers() == EvictNext(old(Registers()), i) && EvictInv(Registers())
    {
      EvictKeepsInv(Registers(), i);
      match phase {
        case EIdle => if i.request.Some? { tag := i.request.value; phase := ELoadSet; }
        case ELoadSet => if i.readDone { buf, loaded := i.fetched, i.fetched; phase := EGetEntry; }
        case EGetEntry =>
          victim, index := Found(buf, tag), HitIndex(buf, tag);
          phase := EDeletePageReq;
        case EDeletePageReq => if i.deleteReady { phase := EDeletePage; }
        case EDeletePage => if i.deleteDone { phase := EFlushEntry; }
        case EFlushEntry => buf := WriteEntry(buf, index, victim, true); phase := EUpdatePt;
        case EUpdatePt => if i.writeDone { phase := EIdle; }
      }
    }
  }

  // --- A whole eviction -----------------------------------------------------------------------------

  function EvictEmits(e: Evict, i: EvictInput): seq<Event> {
    match e.phase
    case ELoadSet => if i.readDone then [Fetch(i.fetched)] else []
    case EDeletePageReq => if i.deleteReady then [Delete(e.victim)] else []
    case EUpdatePt => if i.writeDone then [StoreSet(e.buf)] else []
    case _ => []
  }

  /** The set without the entry the lookup names. */
  function Emptied(s: PtSet, tag: Tag): PtSet {
    WriteEntry(s, HitIndex(s, tag), Found(s, tag), true)
  }

  function EvictBehind(e: Evict): seq<Event> {
    match e.phase
    case EIdle => [Fetch(e.loaded), Delete(Found(e.loaded, e.tag)), StoreSet(Emptied(e.loaded, e.tag))]
    case ELoadSet => []
    case EGetEntry => [Fetch(e.loaded)]
    case EDeletePageReq => [Fetch(e.loaded)]
    case _ => [Fetch(e.loaded), Delete(Found(e.loaded, e.tag))]
  }

  lemma EvictClockAdvances(e: Evict, i: EvictInput)
    requires EvictInv(e) && !e.phase.EIdle?
    ensures EvictInv(EvictNext(e, i)) && EvictNext(e, i).tag == e.tag
    ensures EvictBehind(EvictNext(e, i)) == EvictBehind(e) + EvictEmits(e, i)
  {
    EvictKeepsInv(e, i);
  }

  ghost predicate IsEviction(tag: Tag, run: seq<Evict>, ins: seq<EvictInput>) {
    && |run| == |ins| + 1 && ins != []
    && run[0].phase.EIdle? && EvictInv(run[0]) && ins[0].request == Some(tag)
    && (forall k :: 0 < k < |ins| ==> !run[k].phase.EIdle?)
    && forall k :: 0 <= k < |ins| ==> run[k].index < ENTRIES && run[k + 1] == EvictNext(run[k], ins[k])
  }

  function EvictEvents(run: seq<Evict>, ins: seq<EvictInput>, n: nat): seq<Event>
    requires n <= |ins| < |run|
  {
    if n == 0 then [] else EvictEvents(run, ins, n - 1) + EvictEmits(run[n - 1], ins[n - 1])
  }

  lemma {:induction false} EvictSoFar(tag: Tag, run: seq<Evict>, ins: seq<EvictInput>, n: nat)
    requires IsEviction(tag, run, ins) && 0 < n <= |ins|
    ensures EvictInv(run[n]) && run[n].tag == tag && EvictEvents(run, ins, n) == EvictBehind(run[n])
  {
    if n > 1 {
      EvictSoFar(tag, run, ins, n - 1);
      EvictClockAdvances(run[n - 1], ins[n - 1]);
    } else {
      assert EvictEvents(run, ins, 0) == [];
    }
  }

  /** Main result: an eviction that has come to its end has fetched one set, had the page its tag's slot
      names deleted, and then stored the set without that slot. */
  lemma EvictionTransaction(tag: Tag, run: seq<Evict>, ins: seq<EvictInput>)
    requires IsEviction(tag, run, ins) && run[|ins|].phase.EIdle?
    ensures var s := run[|ins|].loaded;
      EvictEvents(run, ins, |ins|) == [Fetch(s), Delete(Found(s, tag)), StoreSet(Emptied(s, tag))]
  {
    EvictSoFar(tag, run, ins, |ins|);
  }

  // --- It comes to its end, too ------------------------------------------------------------------------

  predicate EvictWaits(e: Evict, i: EvictInput) {
    || (e.phase.ELoadSet? && !i.readDone) || (e.phase.EDeletePageReq? && !i.deleteReady)
    || (e.phase.EDeletePage? && !i.deleteDone) || (e.phase.EUpdatePt? && !i.writeDone)
  }

  function EvictLeft(e: Evict): nat {
    match e.phase
    case EIdle => 0
    case EUpdatePt => 1
    case EFlushEntry => 2
    case EDeletePage => 3
    case EDeletePageReq => 4
    case EGetEntry => 5
    case ELoadSet => 6
  }

  lemma EvictGetsOn(e: Evict, i: EvictInput)
    requires e.index < ENTRIES && !e.phase.EIdle?
    ensures if EvictWaits(e, i) then EvictNext(e, i) == e else EvictLeft(EvictNext(e, i)) < EvictLeft(e)
  {
  }
}

/** The pipeline's side of the cache: metadata of a request waits in one queue for the hit-or-miss
    answer and in a second one for the refill, and is put next to the answer when it comes. */
module CacheInterface {
  import opened Arithmetic
  import opened Wrappers
  import opened CacheEntry
  import opened Databank
  import opened Cache
  import CacheRefinement

  // --- The two queues ---------------------------------------------------------------------------

  /** A hit, a miss, or a miss that became a hit. */
  datatype Control = Done | Long | LongDone

  datatype Queues<M> = Queues(base: seq<M>, long: seq<M>)

  predicate Ready<M>(q: Queues<M>, cap: nat) {
    |q.base| < cap
  }

  function Enqueued<M>(q: Queues<M>, m: M): Queues<M> {
    q.(base := q.base + [m])
  }

  function Tail<M>(s: seq<M>): seq<M> {
    if s == [] then [] else s[1..]
  }

  /** A miss moves the head of the first queue to the second, if there is room. */
  function Controlled<M>(q: Queues<M>, cap: nat, c: Control): Queues<M> {
    match c
    case Done => q.(base := Tail(q.base))
    case Long =>
      Queues(Tail(q.base), if q.base != [] && |q.long| < cap then q.long + [q.base[0]] else q.long)
    case LongDone => q.(long := Tail(q.long))
  }

  /** Metadata put next to an answer; unknown when the queue it is read from is empty. */
  function Response<M>(q: Queues<M>, c: Control): Option<M> {
    match c
    case Done => if q.base == [] then None else Some(q.base[0])
    case Long => None
    case LongDone => if q.long == [] then None else Some(q.long[0])
  }

  function Held<M>(q: Queues<M>): nat {
    |q.base| + |q.long|
  }

  /** The count of held entries is cut to the bits that number `cap` things. */
  function PendingOutput<M>(q: Queues<M>, cap: nat): nat {
    Held(q) % Pow2(Log2Ceil(cap))
  }

  class DoubleLatencyQueue<M> {
    const maxElements: nat
    var baseQ: seq<M>
    var longQ: seq<M>

    function Contents(): Queues<M>
      reads this
    {
      Queues(baseQ, longQ)
    }

    constructor (maxElements: nat)
      ensures this.maxElements == maxElements && Contents() == Queues([], [])
    {
      this.maxElements, baseQ, longQ := maxElements, [], [];
    }

    method Request(m: M) returns (ready: bool)
      modifies this
      ensures ready <==> |old(Contents()).base| < maxElements
      ensures Contents() == if ready then Enqueued(old(Contents()), m) else old(Contents())
    {
      ready := |baseQ| < maxElements;
      if ready {
        baseQ := baseQ + [m];
      }
    }

    method Answer(c: Control) returns (m: Option<M>)
      modifies this
      ensures m == Response(old(Contents()), c)
      ensures Contents() == Controlled(old(Contents()), maxElements, c)
    {
      m := None;
      if c.LongDone? {
        if longQ != [] {
          m := Some(longQ[0]);
          longQ := longQ[1..];
        }
      } else if baseQ != [] {
        if c.Done? {
          m := Some(baseQ[0]);
        } else if |longQ| < maxElements {
          longQ := longQ + [baseQ[0]];
        }
        baseQ := baseQ[1..];
      }
    }
  }

  // --- Composed with the cache ------------------------------------------------------------------

  /** A pipeline request with the metadata that travels beside it. */
  datatype Issued<M> = Issued(meta: M, addr: nat, wData: Block, wMask: Block)

  /** The cache with the interface. `flight` and `missed` are not registers: they say which requests, in
      which order, are on their way through the databank's first stage and wait for their refill. */
  datatype System<M> = System(st: State, flight: seq<Issued<M>>, missed: seq<Issued<M>>, queues: Queues<Issued<M>>)

  datatype Event<M> =
    | Issue(request: Issued<M>)
    | Bank(victim: nat)   // the databank answers the oldest request on its way
    | Other(step: Step)   // any step of the cache that is not a pipeline request

  /** An answer together with the metadata the interface puts next to it. */
  datatype Delivery<M> = Delivery(completion: Completion, meta: Option<Issued<M>>)

  function BankStep<M>(r: Issued<M>, victim: nat): Step {
    Pipeline(r.addr, r.wData, r.wMask, victim)
  }

  predicate Possible<M>(g: Geometry, cap: nat, s: System<M>, e: Event<M>) {
    match e
    case Issue(_) => Ready(s.queues, cap)
    case Bank(victim) => s.flight != [] && Enabled(g, s.st, BankStep(s.flight[0], victim))
    case Other(step) => !step.Pipeline? && Enabled(g, s.st, step)
  }

  /** What the cache tells the interface in this event. */
  function Signal<M>(g: Geometry, cap: nat, s: System<M>, e: Event<M>): Option<Control>
    requires Possible(g, cap, s, e)
  {
    match e
    case Issue(_) => None
    case Bank(victim) => Some(if Completed(g, s.st, BankStep(s.flight[0], victim)).Some? then Done else Long)
    case Other(step) => if step.Refill? then Some(LongDone) else None
  }

  function CacheStep<M>(s: System<M>, e: Event<M>): Option<Step> {
    match e
    case Issue(_) => None
    case Bank(victim) => if s.flight == [] then None else Some(BankStep(s.flight[0], victim))
    case Other(step) => Some(step)
  }

  function NextSystem<M>(g: Geometry, cap: nat, s: System<M>, e: Event<M>): System<M>
    requires Possible(g, cap, s, e)
  {
    var signal := Signal(g, cap, s, e);
    var step := CacheStep(s, e);
    System(
      if step.Some? then Next(g, s.st, step.value) else s.st,
      match e {
        case Issue(r) => s.flight + [r]
        case Bank(_) => s.flight[1..]
        case Other(_) => s.flight
      },
      match signal {
        case Some(Long) => s.missed + [s.flight[0]]
        case Some(LongDone) => Tail(s.missed)
        case _ => s.missed
      },
      if e.Issue? then Enqueued(s.queues, e.request)
      else if signal.Some? then Controlled(s.queues, cap, signal.value)
      else s.queues)
  }

  function Delivered<M>(g: Geometry, cap: nat, s: System<M>, e: Event<M>): Option<Delivery<M>>
    requires Possible(g, cap, s, e)
  {
    var signal, step := Signal(g, cap, s, e), CacheStep(s, e);
    if signal.Some? && !signal.value.Long? && step.Some? && Completed(g, s.st, step.value).Some? then
      Some(Delivery(Completed(g, s.st, step.value).value, Response(s.queues, signal.value)))
    else None
  }

  function AsMisses<M>(rs: seq<Issued<M>>): (ms: seq<Miss>)
    ensures |ms| == |rs|
  {
    seq(|rs|, i requires 0 <= i < |rs| => Miss(rs[i].addr, rs[i].wData, rs[i].wMask))
  }

  /** The request an event answers: the oldest on its way, or the oldest that has missed. */
  function Owner<M>(g: Geometry, cap: nat, s: System<M>, e: Event<M>): Option<Issued<M>>
    requires Possible(g, cap, s, e)
  {
    match e
    case Issue(_) => None
    case Bank(_) => Some(s.flight[0])
    case Other(step) => if step.Refill? && s.missed != [] then Some(s.missed[0]) else None
  }

  /** The requests that wait are the cache's outstanding misses, one for one and in its order. */
  ghost predicate Owned<M>(s: System<M>) {
    AsMisses(s.missed) == CacheRefinement.Pending(s.st)
  }

  /** The queues hold the requests themselves: on their way in the first, missed in the second. */
  ghost predicate Matched<M>(s: System<M>) {
    s.queues == Queues(s.flight, s.missed)
  }

  predicate Answers<M>(c: Completion, r: Issued<M>) {
    c.addr == r.addr && c.wData == r.wData && c.wMask == r.wMask
  }

  /** Flushes and refills never miss. */
  lemma ServeWithoutMiss(g: Geometry, st: State, req: Request, victim: nat)
    requires CanAccess(g, st, req.addr, victim) && (req.flush || req.refill)
    ensures CacheRefinement.Pending(Serve(g, st, req, victim)) == CacheRefinement.Pending(st)
  {
  }

  lemma RefillPops(g: Geometry, st: State, step: Step)
    requires Enabled(g, st, step) && !step.Pipeline?
    ensures step.Refill? ==> CacheRefinement.Pending(st) != []
    ensures CacheRefinement.Pending(Next(g, st, step)) ==
      if step.Refill? then CacheRefinement.Pending(st)[1..] else CacheRefinement.Pending(st)
  {
    match step {
      case Flush(addr, victim) => ServeWithoutMiss(g, st, FlushRequest(addr), victim);
      case Refill(victim) =>
        var popped := st.(refillQ := st.refillQ[1..], replies := st.replies[1..]);
        assert CacheRefinement.Pending(popped) == CacheRefinement.Pending(st)[1..];
        ServeWithoutMiss(g, popped, RefillRequest(st.refillQ[0], st.replies[0]), victim);
      case MergeRead =>
        assert st.missQ == [st.missQ[0]] + st.missQ[1..];
        CacheRefinement.Regroup(st.refillQ, [st.missQ[0]], st.missQ[1..]);
      case MergeWrite =>
      case Dram =>
    }
  }

  lemma BankPushes<M>(g: Geometry, st: State, r: Issued<M>, victim: nat)
    requires Enabled(g, st, BankStep(r, victim))
    ensures CacheRefinement.Pending(Next(g, st, BankStep(r, victim))) == CacheRefinement.Pending(st)
      + if Completed(g, st, BankStep(r, victim)).None? then [Miss(r.addr, r.wData, r.wMask)] else []
  {
    if Completed(g, st, BankStep(r, victim)).None? {
      CacheRefinement.Regroup(st.refillQ, st.missQ, [Miss(r.addr, r.wData, r.wMask)]);
    }
  }

  lemma MissesPush<M>(rs: seq<Issued<M>>, r: Issued<M>)
    ensures AsMisses(rs + [r]) == AsMisses(rs) + [Miss(r.addr, r.wData, r.wMask)]
  {
  }

  lemma MissesPop<M>(rs: seq<Issued<M>>, pending: seq<Miss>)
    requires AsMisses(rs) == pending && pending != []
    ensures rs != [] && AsMisses(Tail(rs)) == pending[1..]
  {
    assert |AsMisses(rs)| > 0;
  }

  lemma BankKeepsOwned<M>(g: Geometry, cap: nat, s: System<M>, victim: nat)
    requires Owned(s) && Possible(g, cap, s, Bank(victim))
    ensures Owned(NextSystem(g, cap, s, Bank(victim)))
  {
    BankPushes(g, s.st, s.flight[0], victim);
    MissesPush(s.missed, s.flight[0]);
  }

  lemma OtherKeepsOwned<M>(g: Geometry, cap: nat, s: System<M>, step: Step)
    requires Owned(s) && Possible(g, cap, s, Other(step))
    ensures Owned(NextSystem(g, cap, s, Other(step)))
  {
    RefillPops(g, s.st, step);
    if step.Refill? {
      MissesPop(s.missed, CacheRefinement.Pending(s.st));
    }
  }

  /** Whatever the queues do, the waiting requests stay the cache's misses, in order. */
  lemma EventKeepsOwned<M>(g: Geometry, cap: nat, s: System<M>, e: Event<M>)
    requires Owned(s) && Possible(g, cap, s, e)
    ensures Owned(NextSystem(g, cap, s, e))
  {
    match e {
      case Issue(_) =>
      case Bank(victim) => BankKeepsOwned(g, cap, s, victim);
      case Other(step) => OtherKeepsOwned(g, cap, s, step);
    }
  }

  /** An answer of the cache is to the request that owns the event. */
  lemma OwnerAnswered<M>(g: Geometry, cap: nat, s: System<M>, e: Event<M>)
    requires Owned(s) && Possible(g, cap, s, e) && Delivered(g, cap, s, e).Some?
    ensures Owner(g, cap, s, e).Some?
    ensures Answers(Delivered(g, cap, s, e).value.completion, Owner(g, cap, s, e).value)
  {
    if e.Other? {
      assert AsMisses(s.missed)[0] == s.st.refillQ[0] by {
        assert CacheRefinement.Pending(s.st)[0] == s.st.refillQ[0];
      }
    }
  }

  /** One miss too many breaks the matching, and nothing else does. */
  lemma MatchedBreaksIff<M>(g: Geometry, cap: nat, s: System<M>, e: Event<M>)
    requires Matched(s) && Possible(g, cap, s, e)
    ensures Matched(NextSystem(g, cap, s, e)) <==> !(|s.queues.long| >= cap && Signal(g, cap, s, e) == Some(Long))
  {
    var s' := NextSystem(g, cap, s, e);
    if |s.queues.long| >= cap && Signal(g, cap, s, e) == Some(Long) {
      assert |s'.missed| == |s'.queues.long| + 1;
    }
  }

  // --- Runs -------------------------------------------------------------------------------------

  ghost predicate IsRun<M>(g: Geometry, cap: nat, run: seq<System<M>>, events: seq<Event<M>>) {
    && |run| == |events| + 1
    && forall i :: 0 <= i < |events| ==>
      Possible(g, cap, run[i], events[i]) && run[i + 1] == NextSystem(g, cap, run[i], events[i])
  }

  /** No more misses are outstanding at any time than the second queue has room for. */
  ghost predicate MissesBounded<M>(cap: nat, run: seq<System<M>>) {
    forall i :: 0 <= i < |run| ==> |CacheRefinement.Pending(run[i].st)| <= cap
  }

  /** Reset: nothing on its way, nothing held. */
  predicate Idle<M>(s: System<M>) {
    && s.st.missQ == [] && s.st.refillQ == []
    && s.flight == [] && s.missed == [] && s.queues == Queues([], [])
  }

  lemma IdleMatched<M>(s: System<M>)
    requires Idle(s)
    ensures Owned(s) && Matched(s)
  {
    assert CacheRefinement.Pending(s.st) == [];
  }

  lemma {:induction false} RunOwned<M>(g: Geometry, cap: nat, run: seq<System<M>>, events: seq<Event<M>>, i: nat)
    requires IsRun(g, cap, run, events) && Owned(run[0]) && i < |run|
    ensures Owned(run[i])
  {
    if i == 0 {
    } else {
      RunOwned(g, cap, run, events, i - 1);
      EventKeepsOwned(g, cap, run[i - 1], events[i - 1]);
    }
  }

  lemma {:induction false} RunMatched<M>(g: Geometry, cap: nat, run: seq<System<M>>, events: seq<Event<M>>, i: nat)
    requires IsRun(g, cap, run, events) && Owned(run[0]) && Matched(run[0]) && MissesBounded(cap, run) && i < |run|
    ensures Owned(run[i]) && Matched(run[i])
  {
    RunOwned(g, cap, run, events, i);
    if i == 0 {
    } else {
      RunMatched(g, cap, run, events, i - 1);
      var s, e := run[i - 1], events[i - 1];
      MatchedBreaksIff(g, cap, s, e);
      assert |AsMisses(run[i].missed)| <= cap;
    }
  }

  /** Main result: whatever the order of hits, misses and refills, and also among requests that differ in
      nothing but their metadata, every answer is delivered with the metadata of the very request it
      answers, as long as the misses fit the second queue. */
  lemma AnswersPaired<M>(g: Geometry, cap: nat, run: seq<System<M>>, events: seq<Event<M>>, i: nat)
    requires IsRun(g, cap, run, events) && Owned(run[0]) && Matched(run[0]) && MissesBounded(cap, run) && i < |events|
    requires Delivered(g, cap, run[i], events[i]).Some?
    ensures var d := Delivered(g, cap, run[i], events[i]).value;
      var owner := Owner(g, cap, run[i], events[i]);
      owner.Some? && d.meta == owner && Answers(d.completion, owner.value)
  {
    RunMatched(g, cap, run, events, i);
    OwnerAnswered(g, cap, run[i], events[i]);
  }

  /** No queue ever holds more than its capacity; the first refuses requests exactly when it is full. */
  lemma {:induction false} QueuesBounded<M>(g: Geometry, cap: nat, run: seq<System<M>>, events: seq<Event<M>>, i: nat)
    requires IsRun(g, cap, run, events) && Idle(run[0]) && i < |run|
    ensures |run[i].queues.base| <= cap && |run[i].queues.long| <= cap
    ensures forall r: Issued<M> :: Possible(g, cap, run[i], Issue(r)) <==> |run[i].queues.base| != cap
  {
    if i == 0 {
    } else {
      QueuesBounded(g, cap, run, events, i - 1);
      assert events[i - 1].Issue? ==> |run[i - 1].queues.base| != cap;
    }
  }

  lemma LongQueueBounded<M>(g: Geometry, cap: nat, s: System<M>, e: Event<M>)
    requires Possible(g, cap, s, e) && |s.queues.long| <= cap
    ensures |NextSystem(g, cap, s, e).queues.long| <= cap
  {
  }

  lemma {:induction false} RunBounded<M>(g: Geometry, cap: nat, run: seq<System<M>>, events: seq<Event<M>>, i: nat)
    requires IsRun(g, cap, run, events) && |run[0].queues.long| <= cap && i < |run|
    ensures |run[i].queues.long| <= cap
  {
    if i == 0 {
    } else {
      RunBounded(g, cap, run, events, i - 1);
      LongQueueBounded(g, cap, run[i - 1], events[i - 1]);
    }
  }

  /** The answer of an event comes without metadata. */
  ghost predicate Bare<M>(g: Geometry, cap: nat, s: System<M>, e: Event<M>) {
    Possible(g, cap, s, e) && Delivered(g, cap, s, e).Some? && Delivered(g, cap, s, e).value.meta.None?
  }

  lemma ShortStaysShort<M>(g: Geometry, cap: nat, s: System<M>, e: Event<M>)
    requires Owned(s) && Possible(g, cap, s, e) && |s.queues.long| < |s.missed| && !Bare(g, cap, s, e)
    ensures var s' := NextSystem(g, cap, s, e);
      |s'.queues.long| < |s'.missed|
  {
  }

  /** A second queue that holds less than has missed delivers an answer without metadata before the
      misses are all answered. */
  lemma {:induction false} ShortQueueShows<M>(g: Geometry, cap: nat, run: seq<System<M>>, events: seq<Event<M>>, i: nat)
    requires IsRun(g, cap, run, events) && Owned(run[0]) && i < |run|
    requires |run[i].queues.long| < |run[i].missed| && run[|events|].missed == []
    ensures exists j :: i <= j < |events| && Bare(g, cap, run[j], events[j])
    decreases |run| - i
  {
    assert i < |events|;
    if !Bare(g, cap, run[i], events[i]) {
      RunOwned(g, cap, run, events, i);
      ShortStaysShort(g, cap, run[i], events[i]);
      ShortQueueShows(g, cap, run, events, i + 1);
    }
  }

  ghost predicate AllPaired<M>(g: Geometry, cap: nat, run: seq<System<M>>, events: seq<Event<M>>)
    requires IsRun(g, cap, run, events)
  {
    forall i :: 0 <= i < |events| && Delivered(g, cap, run[i], events[i]).Some? ==>
      Delivered(g, cap, run[i], events[i]).value.meta == Owner(g, cap, run[i], events[i])
  }

  /** Main result, exactly: in a run from reset to a point where every miss is answered, all answers have
      their own metadata if and only if the misses outstanding never outgrew the second queue. */
  lemma AllPairedIff<M>(g: Geometry, cap: nat, run: seq<System<M>>, events: seq<Event<M>>)
    requires IsRun(g, cap, run, events) && Idle(run[0]) && run[|events|].missed == []
    ensures AllPaired(g, cap, run, events) <==> MissesBounded(cap, run)
  {
    IdleMatched(run[0]);
    if MissesBounded(cap, run) {
      forall i | 0 <= i < |events| && Delivered(g, cap, run[i], events[i]).Some?
        ensures Delivered(g, cap, run[i], events[i]).value.meta == Owner(g, cap, run[i], events[i])
      {
        AnswersPaired(g, cap, run, events, i);
      }
    } else {
      var n :| 0 <= n < |run| && |CacheRefinement.Pending(run[n].st)| > cap;
      RunOwned(g, cap, run, events, n);
      RunBounded(g, cap, run, events, n);
      assert |AsMisses(run[n].missed)| > cap;
      ShortQueueShows(g, cap, run, events, n);
      var j :| n <= j < |events| && Bare(g, cap, run[j], events[j]);
      RunOwned(g, cap, run, events, j);
      OwnerAnswered(g, cap, run[j], events[j]);
    }
  }

  // --- Metadata leaves in the order of the misses -----------------------------------------------------

  /** The request that misses in an event; the metadata a refill delivers in an event. */
  function MissedBy<M>(g: Geometry, cap: nat, s: System<M>, e: Event<M>): seq<Issued<M>>
    requires Possible(g, cap, s, e)
  {
    if Signal(g, cap, s, e) == Some(Long) then [s.flight[0]] else []
  }

  function RefilledBy<M>(g: Geometry, cap: nat, s: System<M>, e: Event<M>): seq<Issued<M>>
    requires Possible(g, cap, s, e)
  {
    var d := Delivered(g, cap, s, e);
    if e.Other? && d.Some? && d.value.meta.Some? then [d.value.meta.value] else []
  }

  ghost function MissedIn<M>(g: Geometry, cap: nat, run: seq<System<M>>, events: seq<Event<M>>, n: nat): seq<Issued<M>>
    requires IsRun(g, cap, run, events) && n <= |events|
  {
    if n == 0 then [] else MissedIn(g, cap, run, events, n - 1) + MissedBy(g, cap, run[n - 1], events[n - 1])
  }

  ghost function RefilledIn<M>(g: Geometry, cap: nat, run: seq<System<M>>, events: seq<Event<M>>,
                               n: nat): seq<Issued<M>>
    requires IsRun(g, cap, run, events) && n <= |events|
  {
    if n == 0 then [] else RefilledIn(g, cap, run, events, n - 1) + RefilledBy(g, cap, run[n - 1], events[n - 1])
  }

  lemma RefillKeepsMissOrder<M>(g: Geometry, cap: nat, s: System<M>, victim: nat)
    requires Owned(s) && Matched(s) && Possible(g, cap, s, Other(Step.Refill(victim)))
    ensures var e: Event<M> := Other(Step.Refill(victim));
      s.queues.long != [] && RefilledBy(g, cap, s, e) == [s.queues.long[0]]
  {
    RefillPops(g, s.st, Step.Refill(victim));
    MissesPop(s.missed, CacheRefinement.Pending(s.st));
  }

  lemma EventKeepsMissOrder<M>(g: Geometry, cap: nat, s: System<M>, e: Event<M>)
    requires Owned(s) && Matched(s) && Possible(g, cap, s, e) && Matched(NextSystem(g, cap, s, e))
    ensures RefilledBy(g, cap, s, e) + NextSystem(g, cap, s, e).queues.long == s.queues.long + MissedBy(g, cap, s, e)
  {
    MatchedBreaksIff(g, cap, s, e);
    if e.Other? && e.step.Refill? {
      RefillKeepsMissOrder(g, cap, s, e.step.victim);
      assert s.queues.long == [s.queues.long[0]] + s.queues.long[1..];
    }
  }

  /** Main result: along every run the metadata delivered by refills, followed by what the second queue
      still holds, is what it held at the start followed by the requests that missed, in order. */
  lemma {:induction false} RefillsInMissOrder<M>(g: Geometry, cap: nat, run: seq<System<M>>, events: seq<Event<M>>,
                                                 n: nat)
    requires IsRun(g, cap, run, events) && Owned(run[0]) && Matched(run[0]) && MissesBounded(cap, run) && n <= |events|
    ensures RefilledIn(g, cap, run, events, n) + run[n].queues.long
      == run[0].queues.long + MissedIn(g, cap, run, events, n)
  {
    if n == 0 {
    } else {
      var s, e := run[n - 1], events[n - 1];
      RefillsInMissOrder(g, cap, run, events, n - 1);
      RunMatched(g, cap, run, events, n - 1);
      RunMatched(g, cap, run, events, n);
      EventKeepsMissOrder(g, cap, s, e);
      CacheRefinement.RegroupRun(RefilledIn(g, cap, run, events, n - 1), RefilledBy(g, cap, s, e), run[n].queues.long,
        s.queues.long, run[0].queues.long, MissedIn(g, cap, run, events, n - 1), MissedBy(g, cap, s, e));
    }
  }

  /** Requests issued, and requests answered with their metadata, in an event and along a run. */
  ghost function EnteredBy<M>(e: Event<M>): multiset<Issued<M>> {
    if e.Issue? then multiset{e.request} else multiset{}
  }

  ghost function LeftWith<M>(d: Option<Delivery<M>>): multiset<Issued<M>> {
    if d.Some? && d.value.meta.Some? then multiset{d.value.meta.value} else multiset{}
  }

  ghost function IssuedIn<M>(events: seq<Event<M>>, n: nat): multiset<Issued<M>>
    requires n <= |events|
  {
    if n == 0 then multiset{} else IssuedIn(events, n - 1) + EnteredBy(events[n - 1])
  }

  ghost function AnsweredIn<M>(g: Geometry, cap: nat, run: seq<System<M>>, events: seq<Event<M>>,
                               n: nat): multiset<Issued<M>>
    requires IsRun(g, cap, run, events) && n <= |events|
  {
    if n == 0 then multiset{}
    else AnsweredIn(g, cap, run, events, n - 1) + LeftWith(Delivered(g, cap, run[n - 1], events[n - 1]))
  }

  ghost function HeldIn<M>(q: Queues<M>): multiset<M> {
    multiset(q.base) + multiset(q.long)
  }

  lemma HeadOut<M>(s: seq<M>)
    requires s != []
    ensures multiset(s) == multiset{s[0]} + multiset(s[1..])
  {
    assert s == [s[0]] + s[1..];
  }

  ghost function LeftBy<M>(q: Queues<M>, c: Control): multiset<M> {
    if Response(q, c).Some? then multiset{Response(q, c).value} else multiset{}
  }

  lemma ControlConserves<M>(q: Queues<M>, cap: nat, c: Control)
    requires if c.LongDone? then q.long != [] else q.base != []
    requires c.Long? ==> |q.long| < cap
    ensures HeldIn(q) == HeldIn(Controlled(q, cap, c)) + LeftBy(q, c)
  {
    if c.LongDone? {
      HeadOut(q.long);
    } else {
      HeadOut(q.base);
    }
  }

  lemma LeftWithSignal<M>(g: Geometry, cap: nat, s: System<M>, e: Event<M>)
    requires Owned(s) && Matched(s) && Possible(g, cap, s, e) && Signal(g, cap, s, e).Some?
    ensures var c := Signal(g, cap, s, e).value;
      && (if c.LongDone? then s.queues.long != [] else s.queues.base != [])
      && LeftWith(Delivered(g, cap, s, e)) == LeftBy(s.queues, c)
  {
    if e.Other? {
      RefillPops(g, s.st, e.step);
      assert |AsMisses(s.missed)| > 0;
    }
  }

  lemma EventConserves<M>(g: Geometry, cap: nat, s: System<M>, e: Event<M>)
    requires Owned(s) && Matched(s) && Possible(g, cap, s, e) && Matched(NextSystem(g, cap, s, e))
    ensures HeldIn(s.queues) + EnteredBy(e)
      == HeldIn(NextSystem(g, cap, s, e).queues) + LeftWith(Delivered(g, cap, s, e))
  {
    var signal := Signal(g, cap, s, e);
    if signal.Some? {
      MatchedBreaksIff(g, cap, s, e);
      LeftWithSignal(g, cap, s, e);
      ControlConserves(s.queues, cap, signal.value);
    } else {
      assert Delivered(g, cap, s, e).None?;
    }
  }

  lemma ConservedOnce<T>(start: multiset<T>, entered: multiset<T>, left: multiset<T>, held: multiset<T>,
                         entered1: multiset<T>, left1: multiset<T>, held1: multiset<T>)
    requires start + entered == left + held && held + entered1 == held1 + left1
    ensures start + (entered + entered1) == (left + left1) + held1
  {
    calc {
      start + (entered + entered1);
      (start + entered) + entered1;
      left + (held + entered1);
      (left + left1) + held1;
    }
  }

  /** Main result: at any point of a run the requests issued are those answered plus those held in
      the two queues. */
  lemma {:induction false} IssuedAreAnsweredOrHeld<M>(g: Geometry, cap: nat, run: seq<System<M>>,
                                                      events: seq<Event<M>>, n: nat)
    requires IsRun(g, cap, run, events) && Owned(run[0]) && Matched(run[0]) && MissesBounded(cap, run) && n <= |events|
    ensures HeldIn(run[0].queues) + IssuedIn(events, n)
      == AnsweredIn(g, cap, run, events, n) + HeldIn(run[n].queues)
  {
    if n == 0 {
    } else {
      var s, e := run[n - 1], events[n - 1];
      IssuedAreAnsweredOrHeld(g, cap, run, events, n - 1);
      RunMatched(g, cap, run, events, n - 1);
      RunMatched(g, cap, run, events, n);
      EventConserves(g, cap, s, e);
      ConservedOnce(HeldIn(run[0].queues), IssuedIn(events, n - 1), AnsweredIn(g, cap, run, events, n - 1),
                    HeldIn(s.queues), EnteredBy(e), LeftWith(Delivered(g, cap, s, e)), HeldIn(run[n].queues));
    }
  }

  /** ... so from empty queues the difference of their numbers is the number of entries held. */
  lemma IssuedMinusAnswered<M>(g: Geometry, cap: nat, run: seq<System<M>>, events: seq<Event<M>>, n: nat)
    requires IsRun(g, cap, run, events) && Owned(run[0]) && Matched(run[0]) && MissesBounded(cap, run) && n <= |events|
    requires Held(run[0].queues) == 0
    ensures |IssuedIn(events, n)| - |AnsweredIn(g, cap, run, events, n)| == Held(run[n].queues)
  {
    IssuedAreAnsweredOrHeld(g, cap, run, events, n);
    assert HeldIn(run[0].queues) == multiset{};
    var q := run[n].queues;
    assert |HeldIn(q)| == |multiset(q.base)| + |multiset(q.long)|;
    assert |IssuedIn(events, n)| == |AnsweredIn(g, cap, run, events, n) + HeldIn(q)|;
  }
}

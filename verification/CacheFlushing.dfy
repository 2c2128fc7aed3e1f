/** The controller that lets the MMU flush a page only when the pipeline has no request in the cache. */
module CacheFlushing {
  import opened Arithmetic
  import opened Wrappers
  import opened CacheInterface

  datatype FlushState = Idle | CompletePending | WaitComplete

  /** The MMU asks for permission, and reports that its flush is complete. */
  datatype Inputs = Inputs(asked: bool, completed: bool)

  /** The controller, the translated requests not yet sent to the cache, and the interface's queues. */
  datatype Front<M> = Front(state: FlushState, waiting: seq<M>, queues: Queues<M>)

  predicate StopsTransactions(state: FlushState) {
    !state.Idle?
  }

  predicate HasPendingWork<M>(cap: nat, s: Front<M>) {
    s.waiting != [] || PendingOutput(s.queues, cap) != 0
  }

  function NextState(state: FlushState, pending: bool, i: Inputs): FlushState {
    match state
    case Idle => if i.asked then CompletePending else Idle
    case CompletePending => if !pending && i.asked then WaitComplete else CompletePending
    case WaitComplete => if i.completed then Idle else WaitComplete
  }

  class CacheFlushingController {
    var flushState: FlushState

    constructor ()
      ensures flushState == Idle
    {
      flushState := Idle;
    }

    /** One clock: permission is granted in the cycle the wait begins. */
    method Clock(i: Inputs, hasPendingWork: bool) returns (granted: bool, stop: bool)
      modifies this
      ensures flushState == NextState(old(flushState), hasPendingWork, i)
      ensures granted <==> old(flushState) == CompletePending && !hasPendingWork && i.asked
      ensures granted ==> flushState == WaitComplete
      ensures stop <==> old(flushState) != Idle
    {
      granted, stop := false, flushState != Idle;
      match flushState {
        case Idle =>
          if i.asked {
            flushState := CompletePending;
          }
        case CompletePending =>
          if !hasPendingWork {
            granted := i.asked;
            if granted {
              flushState := WaitComplete;
            }
          }
        case WaitComplete =>
          if i.completed {
            flushState := Idle;
          }
      }
    }
  }

  datatype Event<M> =
    | Translate(m: M)     // a translated request joins those waiting, unless transactions are stopped
    | Send                // the oldest waiting request goes to the cache
    | Answer(c: Control, again: Option<M>)   // a pair's first access sends the second one to wait
    | Tick(i: Inputs)

  predicate Possible<M>(cap: nat, s: Front<M>, e: Event<M>) {
    match e
    case Translate(_) => !StopsTransactions(s.state)
    case Send => s.waiting != [] && Ready(s.queues, cap)
    case Answer(c, again) =>
      && (if c.LongDone? then s.queues.long != [] else s.queues.base != [])
      && (c.Long? ==> again.None?)
    case Tick(_) => true
  }

  function Next<M>(cap: nat, s: Front<M>, e: Event<M>): Front<M>
    requires Possible(cap, s, e)
  {
    match e
    case Translate(m) => s.(waiting := s.waiting + [m])
    case Send => s.(waiting := s.waiting[1..], queues := Enqueued(s.queues, s.waiting[0]))
    case Answer(c, again) =>
      s.(queues := Controlled(s.queues, cap, c),
         waiting := if again.Some? then s.waiting + [again.value] else s.waiting)
    case Tick(i) => s.(state := NextState(s.state, HasPendingWork(cap, s), i))
  }

  /** While the MMU has the permission, no request of the pipeline is in or before the cache. */
  predicate Quiet<M>(s: Front<M>) {
    s.state.WaitComplete? ==> s.waiting == [] && Held(s.queues) == 0
  }

  predicate GrantsNow<M>(cap: nat, s: Front<M>, e: Event<M>) {
    e.Tick? && s.state.CompletePending? && NextState(s.state, HasPendingWork(cap, s), e.i).WaitComplete?
  }

  /** The count reads zero although requests are held: their number is a multiple of its range. */
  predicate CountMisleads<M>(cap: nat, q: Queues<M>) {
    Held(q) > 0 && PendingOutput(q, cap) == 0
  }

  lemma QuietKeptIff<M>(cap: nat, s: Front<M>, e: Event<M>)
    requires Quiet(s) && Possible(cap, s, e)
    ensures Quiet(Next(cap, s, e)) <==> !(GrantsNow(cap, s, e) && CountMisleads(cap, s.queues))
  {
    if Held(s.queues) == 0 {
      Wrap(0, Pow2(Log2Ceil(cap)));
    }
  }

  lemma MisleadsOnlyFull<M>(cap: nat, q: Queues<M>)
    requires CountMisleads(cap, q)
    ensures Held(q) >= Pow2(Log2Ceil(cap)) >= cap
  {
    if Held(q) < Pow2(Log2Ceil(cap)) {
      Wrap(Held(q), Pow2(Log2Ceil(cap)));
    }
  }

  ghost predicate IsRun<M>(cap: nat, run: seq<Front<M>>, events: seq<Event<M>>) {
    && |run| == |events| + 1
    && forall i :: 0 <= i < |events| ==> Possible(cap, run[i], events[i]) && run[i + 1] == Next(cap, run[i], events[i])
  }

  /** With fewer requests in the cache than the count can tell apart, the MMU never has the permission
      while a request is under way. */
  lemma {:induction false} FlushesAlone<M>(cap: nat, run: seq<Front<M>>, events: seq<Event<M>>, n: nat)
    requires IsRun(cap, run, events) && Quiet(run[0]) && n < |run|
    requires forall i :: 0 <= i < |run| ==> Held(run[i].queues) < Pow2(Log2Ceil(cap))
    ensures Quiet(run[n])
  {
    if n == 0 {
    } else {
      FlushesAlone(cap, run, events, n - 1);
      QuietKeptIff(cap, run[n - 1], events[n - 1]);
      if CountMisleads(cap, run[n - 1].queues) {
        MisleadsOnlyFull(cap, run[n - 1].queues);
      }
    }
  }

  // --- The permission lasts --------------------------------------------------------------------------

  /** The MMU asks while the controller is ready to let it flush. */
  predicate Granted<M>(cap: nat, s: Front<M>, e: Event<M>) {
    e.Tick? && e.i.asked && s.state.CompletePending? && s.waiting == [] && PendingOutput(s.queues, cap) == 0
  }

  predicate Completes<M>(e: Event<M>) {
    e.Tick? && e.i.completed
  }

  /** Events i, ..., j - 1 bring no word of completion. */
  predicate NoneCompletes<M>(events: seq<Event<M>>, i: nat, j: nat)
    requires j <= |events|
  {
    forall k :: i <= k < j ==> !Completes(events[k])
  }

  /** Once the MMU has asked, transactions stay stopped until it says that it is done. */
  lemma {:induction false} AskedStops<M>(cap: nat, run: seq<Front<M>>, events: seq<Event<M>>, i: nat, j: nat)
    requires IsRun(cap, run, events) && i < j <= |events|
    requires events[i].Tick? && events[i].i.asked && run[i].state.Idle? && NoneCompletes(events, i + 1, j)
    ensures StopsTransactions(run[j].state)
  {
    if j == i + 1 {
    } else {
      AskedStops(cap, run, events, i, j - 1);
      assert !Completes(events[j - 1]);
    }
  }

  lemma {:induction false} PermissionHeld<M>(cap: nat, run: seq<Front<M>>, events: seq<Event<M>>, i: nat, j: nat)
    requires IsRun(cap, run, events) && i < j <= |events| && Granted(cap, run[i], events[i])
    requires Held(run[i].queues) < Pow2(Log2Ceil(cap)) && NoneCompletes(events, i + 1, j)
    ensures run[j].state.WaitComplete? && run[j].waiting == [] && Held(run[j].queues) == 0
  {
    if j == i + 1 {
      Wrap(Held(run[i].queues), Pow2(Log2Ceil(cap)));
    } else {
      PermissionHeld(cap, run, events, i, j - 1);
      assert !Completes(events[j - 1]);
    }
  }

  /** Main result: from a grant until the MMU says that it is done, transactions are stopped and no request
      of the pipeline is in or before the cache, provided the count told the requests held at the grant. */
  lemma PermissionLasts<M>(cap: nat, run: seq<Front<M>>, events: seq<Event<M>>, i: nat, j: nat)
    requires IsRun(cap, run, events) && i < j <= |events| && Granted(cap, run[i], events[i])
    requires Held(run[i].queues) < Pow2(Log2Ceil(cap)) && NoneCompletes(events, i + 1, j)
    ensures StopsTransactions(run[j].state) && run[j].waiting == [] && Held(run[j].queues) == 0
    ensures forall m: M :: !Possible(cap, run[j], Translate(m))
    ensures !Possible(cap, run[j], Send) && forall c, again :: !Possible(cap, run[j], Answer(c, again))
  {
    PermissionHeld(cap, run, events, i, j);
  }

  /** ... and the stop ends exactly with the MMU's word. */
  lemma StopEndsIff<M>(cap: nat, run: seq<Front<M>>, events: seq<Event<M>>, i: nat, j: nat)
    requires IsRun(cap, run, events) && i < j < |events| && Granted(cap, run[i], events[i])
    requires Held(run[i].queues) < Pow2(Log2Ceil(cap)) && NoneCompletes(events, i + 1, j)
    ensures StopsTransactions(run[j + 1].state) <==> !Completes(events[j])
    ensures forall m: M :: Possible(cap, run[j + 1], Translate(m)) <==> Completes(events[j])
  {
    PermissionHeld(cap, run, events, i, j);
  }

  /** Asked in event i, and stopped from then on until j. */
  predicate StoppedSince<M>(run: seq<Front<M>>, events: seq<Event<M>>, i: nat, j: nat)
    requires j < |run| && j <= |events|
  {
    && i < j && events[i].Tick? && events[i].i.asked && !StopsTransactions(run[i].state)
    && forall k :: i < k <= j ==> StopsTransactions(run[k].state)
  }

  /** A stop goes back to a clock in which the MMU asked; there is no other reason for one. */
  lemma {:induction false} StoppedWhenAsked<M>(cap: nat, run: seq<Front<M>>, events: seq<Event<M>>, j: nat)
    requires IsRun(cap, run, events) && j <= |events| && run[0].state.Idle? && StopsTransactions(run[j].state)
    ensures exists i: nat :: StoppedSince(run, events, i, j)
  {
    if StopsTransactions(run[j - 1].state) {
      StoppedWhenAsked(cap, run, events, j - 1);
      var i: nat :| StoppedSince(run, events, i, j - 1);
      assert StoppedSince(run, events, i, j);
    } else {
      assert StoppedSince(run, events, j - 1, j);
    }
  }

  lemma {:induction false} WaitsWhenGranted<M>(cap: nat, run: seq<Front<M>>, events: seq<Event<M>>, j: nat)
    requires IsRun(cap, run, events) && j <= |events| && run[0].state.Idle? && run[j].state.WaitComplete?
    ensures exists i: nat :: i < j && Granted(cap, run[i], events[i]) && NoneCompletes(events, i + 1, j)
  {
    if run[j - 1].state.WaitComplete? {
      WaitsWhenGranted(cap, run, events, j - 1);
      var i: nat :| i < j - 1 && Granted(cap, run[i], events[i]) && NoneCompletes(events, i + 1, j - 1);
      assert NoneCompletes(events, i + 1, j);
    } else {
      assert Granted(cap, run[j - 1], events[j - 1]);
    }
  }

  /** A stop ends at no other time than with the MMU's word after a grant. */
  lemma StopEndsAfterGrant<M>(cap: nat, run: seq<Front<M>>, events: seq<Event<M>>, j: nat)
    requires IsRun(cap, run, events) && j < |events| && run[0].state.Idle?
    requires StopsTransactions(run[j].state) && !StopsTransactions(run[j + 1].state)
    ensures Completes(events[j])
    ensures exists i: nat :: i < j && Granted(cap, run[i], events[i]) && NoneCompletes(events, i + 1, j)
  {
    WaitsWhenGranted(cap, run, events, j);
  }

  // --- The bound is sharp ---------------------------------------------------------------------------

  function Reset<M>(): Front<M> {
    Front(Idle, [], Queues([], []))
  }

  /** Requests held after n were sent, each of the first `cap` of them having missed. */
  function Filled<M>(cap: nat, m: M, n: nat): (s: Front<M>)
    ensures Held(s.queues) == n
  {
    var long := if n <= cap then n else cap;
    Front(Idle, [], Queues(seq(n - long, _ => m), seq(long, _ => m)))
  }

  /** One more request arrives, is sent, and misses while there is room for it. */
  function FillOne<M>(cap: nat, m: M, n: nat): seq<Event<M>> {
    if n < cap then [Translate(m), Send, Answer(Long, None)] else [Translate(m), Send]
  }

  function Fill<M>(cap: nat, m: M, n: nat): seq<Event<M>> {
    if n == 0 then [] else Fill(cap, m, n - 1) + FillOne(cap, m, n - 1)
  }

  ghost predicate Leads<M>(cap: nat, s: Front<M>, events: seq<Event<M>>, s': Front<M>, limit: nat)
    decreases |events|
  {
    && Held(s.queues) < limit
    && if events == [] then s == s'
       else Possible(cap, s, events[0]) && Leads(cap, Next(cap, s, events[0]), events[1..], s', limit)
  }

  lemma {:induction false} LeadsOn<M>(cap: nat, a: Front<M>, es: seq<Event<M>>, b: Front<M>, fs: seq<Event<M>>,
                                      c: Front<M>, limit: nat)
    requires Leads(cap, a, es, b, limit) && Leads(cap, b, fs, c, limit)
    ensures Leads(cap, a, es + fs, c, limit)
    decreases |es|
  {
    if es == [] {
      assert es + fs == fs;
    } else {
      assert (es + fs)[1..] == es[1..] + fs;
      LeadsOn(cap, Next(cap, a, es[0]), es[1..], b, fs, c, limit);
    }
  }

  lemma OneMoreFilled<M>(cap: nat, m: M, n: nat, limit: nat)
    requires n < 2 * cap && n + 1 < limit
    ensures Leads(cap, Filled(cap, m, n), FillOne(cap, m, n), Filled(cap, m, n + 1), limit)
  {
    var es := FillOne(cap, m, n);
    var s := Filled(cap, m, n);
    var s1 := Next(cap, s, Translate(m));
    var s2 := Next(cap, s1, Send);
    assert s1.waiting == [m] && s2.waiting == [];
    if n < cap {
      assert s2.queues.base == [m];
      var s3 := Next(cap, s2, Answer(Long, None));
      assert s3 == Filled(cap, m, n + 1);
      assert Leads(cap, s3, es[3..], s3, limit);
      assert es[2..][1..] == es[3..] && es[2..][0] == Answer(Long, None);
      assert Leads(cap, s2, es[2..], s3, limit);
    } else {
      assert s2 == Filled(cap, m, n + 1);
      assert Leads(cap, s2, es[2..], s2, limit);
    }
    assert es[1..][1..] == es[2..] && es[1..][0] == Send;
    assert Leads(cap, s1, es[1..], Filled(cap, m, n + 1), limit);
  }

  lemma {:induction false} FillLeads<M>(cap: nat, m: M, n: nat, limit: nat)
    requires n <= 2 * cap && n < limit
    ensures Leads(cap, Reset(), Fill(cap, m, n), Filled(cap, m, n), limit)
  {
    if n == 0 {
      assert Filled(cap, m, 0) == Reset();
    } else {
      FillLeads(cap, m, n - 1, limit);
      OneMoreFilled(cap, m, n - 1, limit);
      LeadsOn(cap, Reset(), Fill(cap, m, n - 1), Filled(cap, m, n - 1), FillOne(cap, m, n - 1), Filled(cap, m, n),
              limit);
    }
  }

  /** The MMU asks for two clocks with exactly as many requests held as the count can tell apart: it gets
      the permission. */
  lemma FullCountGranted<M>(cap: nat, m: M, limit: nat)
    requires cap >= 1 && Pow2(Log2Ceil(cap)) < limit
    ensures var n := Pow2(Log2Ceil(cap));
      var granted := Filled(cap, m, n).(state := WaitComplete);
      && Leads(cap, Reset(), Fill(cap, m, n) + [Tick(Inputs(true, false)), Tick(Inputs(true, false))], granted, limit)
      && !Quiet(granted)
  {
    var n := Pow2(Log2Ceil(cap));
    assert n <= 2 * cap by {
      if cap == 1 {
        assert Log2Ceil(1) == 0;
      } else {
        assert n == 2 * Pow2(Log2Ceil(cap) - 1);
      }
    }
    FillLeads(cap, m, n, limit);
    var ask: Event<M> := Tick(Inputs(true, false));
    var s := Filled(cap, m, n);
    assert n % n == 0 by {
      Wrap(n, n);
    }
    var s1 := Next(cap, s, ask);
    assert s1 == s.(state := CompletePending) && Next(cap, s1, ask) == s.(state := WaitComplete);
    assert [ask, ask][1..] == [ask] && [ask][1..] == [];
    LeadsOn(cap, Reset(), Fill(cap, m, n), s, [ask, ask], s.(state := WaitComplete), limit);
  }

  /** The states along a sequence of events. */
  lemma {:induction false} LeadsIsRun<M>(cap: nat, s: Front<M>, events: seq<Event<M>>, s': Front<M>, limit: nat)
    returns (run: seq<Front<M>>)
    requires Leads(cap, s, events, s', limit)
    ensures IsRun(cap, run, events) && run[0] == s && run[|events|] == s'
    ensures forall i :: 0 <= i < |run| ==> Held(run[i].queues) < limit
    decreases |events|
  {
    if events == [] {
      run := [s];
    } else {
      var rest := LeadsIsRun(cap, Next(cap, s, events[0]), events[1..], s', limit);
      run := [s] + rest;
      forall i | 0 <= i < |events|
        ensures Possible(cap, run[i], events[i]) && run[i + 1] == Next(cap, run[i], events[i])
      {
        if i > 0 {
          assert events[i] == events[1..][i - 1] && run[i] == rest[i - 1];
        }
      }
    }
  }

  /** Every run from reset that holds fewer than `limit` requests keeps requests and flushes apart. */
  ghost predicate AloneBelow<M(!new)>(cap: nat, limit: nat) {
    forall run: seq<Front<M>>, events: seq<Event<M>>, n: nat ::
      (IsRun(cap, run, events) && run[0] == Reset() && n < |run|
       && forall i :: 0 <= i < |run| ==> Held(run[i].queues) < limit) ==> Quiet(run[n])
  }

  /** Main result, exactly: runs that hold fewer than `limit` requests are safe if and only if `limit` is
      within the range of the pending count. */
  lemma AloneBelowIff<M(!new)>(cap: nat, limit: nat, m: M)
    requires cap >= 1
    ensures AloneBelow<M>(cap, limit) <==> limit <= Pow2(Log2Ceil(cap))
  {
    if limit <= Pow2(Log2Ceil(cap)) {
      forall run: seq<Front<M>>, events: seq<Event<M>>, n: nat
        | (IsRun(cap, run, events) && run[0] == Reset() && n < |run|
           && forall i :: 0 <= i < |run| ==> Held(run[i].queues) < limit)
        ensures Quiet(run[n])
      {
        FlushesAlone(cap, run, events, n);
      }
    } else {
      FullCountGranted(cap, m, limit);
      var n := Pow2(Log2Ceil(cap));
      var events := Fill(cap, m, n) + [Tick(Inputs(true, false)), Tick(Inputs(true, false))];
      var run := LeadsIsRun(cap, Reset(), events, Filled(cap, m, n).(state := WaitComplete), limit);
      assert !Quiet(run[|events|]);
    }
  }
}

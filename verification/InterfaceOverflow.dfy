/** A run of the interface in which two misses outgrow a second queue of one entry: from reset until both
    are answered, the second without its metadata. */
module InterfaceOverflow {
  import opened Wrappers
  import opened CacheEntry
  import opened Databank
  import opened Cache
  import opened CacheRuns
  import opened CacheInterface
  import CacheRefinement
  import S = CacheGuardStates

  /** A load of block 0. */
  function Request<M>(meta: M): Issued<M> {
    Issued(meta, 0, ZeroBlock(), ZeroBlock())
  }

  predicate NotInCache(st: State) {
    st.bank == [[FlushedEntry()]]
  }

  /** An empty cache with misses of block 0 in its miss queue, all others empty. */
  function Misses(n: nat): State {
    S.EmptyTiny().(missQ := Loads(n))
  }

  function Loads(n: nat): (ms: seq<Miss>)
    ensures |ms| == n && forall i :: 0 <= i < n ==> ms[i] == S.Load(0)
  {
    seq(n, _ => S.Load(0))
  }

  ghost predicate Leads<M>(s: System<M>, e: Event<M>, s': System<M>) {
    Possible(S.TINY, 1, s, e) && NextSystem(S.TINY, 1, s, e) == s'
  }

  lemma Issues<M>(st: State, missed: seq<Issued<M>>, long: seq<Issued<M>>, r: Issued<M>)
    ensures Leads(System(st, [], missed, Queues([], long)), Issue(r), System(st, [r], missed, Queues([r], long)))
  {
    assert [] + [r] == [r];
  }

  lemma RequestMisses<M>(n: nat, missed: seq<Issued<M>>, long: seq<Issued<M>>, meta: M)
    requires |long| <= 1
    ensures var r := Request(meta);
      Leads(System(Misses(n), [r], missed, Queues([r], long)), Bank(0),
            System(Misses(n + 1), [], missed + [r], Queues([], if long == [] then [r] else long)))
  {
    var r := Request(meta);
    S.NothingCached(Misses(n), 0);
    assert !AndR(ZeroBlock()) by {
      assert !ZeroBlock()[0];
    }
    assert Loads(n) + [S.Load(0)] == Loads(n + 1);
    assert Misses(n).bank[0 := Misses(n).bank[0]] == Misses(n).bank;
    assert [r][1..] == [] && [] + [r] == [r];
  }

  lemma Backend<M>(s: System<M>, step: Step)
    requires (step.MergeRead? && s.st.missQ != []) || (step.Dram? && s.st.backendQ != [])
    ensures Leads(s, Other(step), s.(st := Next(S.TINY, s.st, step)))
  {
  }

  lemma Refills<M>(s: System<M>)
    requires s.st.refillQ != [] && s.st.replies != [] && CanAccess(S.TINY, s.st, s.st.refillQ[0].addr, 0)
    requires s.missed != []
    ensures Leads(s, Other(Refill(0)), System(Next(S.TINY, s.st, Refill(0)), s.flight, s.missed[1..],
                                              s.queues.(long := Tail(s.queues.long))))
  {
  }

  // --- The run ---------------------------------------------------------------------------------------

  /** The cache from the two misses to the two answers of the DRAM. */
  function Sent(): State {
    S.SentOne(S.SentOne(Misses(2)))
  }

  function Answered(): State {
    S.AnsweredOne(S.AnsweredOne(Sent()))
  }

  lemma BackendServes()
    ensures Next(S.TINY, Misses(2), MergeRead) == S.SentOne(Misses(2))
    ensures Next(S.TINY, S.SentOne(Misses(2)), MergeRead) == Sent()
    ensures Next(S.TINY, Sent(), Step.Dram) == S.AnsweredOne(Sent())
    ensures Next(S.TINY, S.AnsweredOne(Sent()), Step.Dram) == Answered()
  {
  }

  function Refilled1(): State {
    Next(S.TINY, Answered(), Refill(0))
  }

  lemma RefillsPossible()
    ensures Answered().refillQ == Loads(2) && |Answered().replies| == 2 && CanAccess(S.TINY, Answered(), 0, 0)
    ensures Refilled1().refillQ == Loads(1) && |Refilled1().replies| == 1 && CanAccess(S.TINY, Refilled1(), 0, 0)
  {
    assert Answered().bank[0] == [FlushedEntry()];
  }

  function Waiting<M>(st: State, a: M, b: M): System<M> {
    System(st, [], [Request(a), Request(b)], Queues([], [Request(a)]))
  }

  function EventAt<M>(a: M, b: M, i: nat): Event<M> {
    if i == 0 then Issue(Request(a))
    else if i == 2 then Issue(Request(b))
    else if i < 4 then Bank(0)
    else if i < 6 then Other(MergeRead)
    else if i < 8 then Other(Step.Dram)
    else Other(Refill(0))
  }

  function StateAt<M>(a: M, b: M, i: nat): System<M> {
    var ra, rb := Request(a), Request(b);
    if i == 0 then System(Misses(0), [], [], Queues([], []))
    else if i == 1 then System(Misses(0), [ra], [], Queues([ra], []))
    else if i == 2 then System(Misses(1), [], [ra], Queues([], [ra]))
    else if i == 3 then System(Misses(1), [rb], [ra], Queues([rb], [ra]))
    else if i == 4 then Waiting(Misses(2), a, b)
    else if i == 5 then Waiting(S.SentOne(Misses(2)), a, b)
    else if i == 6 then Waiting(Sent(), a, b)
    else if i == 7 then Waiting(S.AnsweredOne(Sent()), a, b)
    else if i == 8 then Waiting(Answered(), a, b)
    else if i == 9 then System(Refilled1(), [], [rb], Queues([], []))
    else System(Next(S.TINY, Refilled1(), Refill(0)), [], [], Queues([], []))
  }

  lemma BothIssued<M>(a: M, b: M)
    ensures Leads(StateAt(a, b, 0), EventAt(a, b, 0), StateAt(a, b, 1))
    ensures Leads(StateAt(a, b, 2), EventAt(a, b, 2), StateAt(a, b, 3))
  {
    Issues(Misses(0), [], [], Request(a));
    Issues(Misses(1), [Request(a)], [Request(a)], Request(b));
  }

  lemma FirstMisses<M>(a: M, b: M)
    ensures Leads(StateAt(a, b, 1), EventAt(a, b, 1), StateAt(a, b, 2))
  {
    RequestMisses(0, [], [], a);
    assert [] + [Request(a)] == [Request(a)];
  }

  lemma SecondMisses<M>(a: M, b: M)
    ensures Leads(StateAt(a, b, 3), EventAt(a, b, 3), StateAt(a, b, 4))
  {
    RequestMisses(1, [Request(a)], [Request(a)], b);
    assert [Request(a)] + [Request(b)] == [Request(a), Request(b)];
  }

  lemma BothSent<M>(a: M, b: M)
    ensures Leads(StateAt(a, b, 4), EventAt(a, b, 4), StateAt(a, b, 5))
    ensures Leads(StateAt(a, b, 5), EventAt(a, b, 5), StateAt(a, b, 6))
  {
    BackendServes();
    Backend(StateAt(a, b, 4), MergeRead);
    Backend(StateAt(a, b, 5), MergeRead);
  }

  lemma BothAnswered<M>(a: M, b: M)
    ensures Leads(StateAt(a, b, 6), EventAt(a, b, 6), StateAt(a, b, 7))
    ensures Leads(StateAt(a, b, 7), EventAt(a, b, 7), StateAt(a, b, 8))
  {
    BackendServes();
    Backend(StateAt(a, b, 6), Step.Dram);
    Backend(StateAt(a, b, 7), Step.Dram);
  }

  lemma FirstRefilled<M>(a: M, b: M)
    ensures Leads(StateAt(a, b, 8), EventAt(a, b, 8), StateAt(a, b, 9))
  {
    RefillsPossible();
    Refills(StateAt(a, b, 8));
    assert [Request(a), Request(b)][1..] == [Request(b)] && [Request(a)][1..] == [];
  }

  lemma SecondRefilled<M>(a: M, b: M)
    ensures Leads(StateAt(a, b, 9), EventAt(a, b, 9), StateAt(a, b, 10))
  {
    RefillsPossible();
    Refills(StateAt(a, b, 9));
    assert [Request(b)][1..] == [];
  }

  lemma Advances<M>(a: M, b: M, i: nat)
    requires i < 10
    ensures Leads(StateAt(a, b, i), EventAt(a, b, i), StateAt(a, b, i + 1))
  {
    match i {
      case 0 => BothIssued(a, b);
      case 1 => FirstMisses(a, b);
      case 2 => BothIssued(a, b);
      case 3 => SecondMisses(a, b);
      case 4 => BothSent(a, b);
      case 5 => BothSent(a, b);
      case 6 => BothAnswered(a, b);
      case 7 => BothAnswered(a, b);
      case 8 => FirstRefilled(a, b);
      case _ => SecondRefilled(a, b);
    }
  }

  lemma RunOf<M>(a: M, b: M) returns (run: seq<System<M>>, events: seq<Event<M>>)
    ensures IsRun(S.TINY, 1, run, events) && |events| == 10
    ensures forall i: nat :: i <= 10 ==> run[i] == StateAt(a, b, i)
    ensures forall i: nat :: i < 10 ==> events[i] == EventAt(a, b, i)
  {
    run := seq(11, i requires 0 <= i < 11 => StateAt(a, b, i));
    events := seq(10, i requires 0 <= i < 10 => EventAt(a, b, i));
    forall i | 0 <= i < 10
      ensures Possible(S.TINY, 1, run[i], events[i]) && run[i + 1] == NextSystem(S.TINY, 1, run[i], events[i])
    {
      Advances(a, b, i);
    }
  }

  /** Main result: for any two metadata there is a run from reset, with a second queue of one entry, in which
      both requests miss, both are refilled, and an answer comes without its metadata. */
  lemma MissesOutgrow<M>(a: M, b: M) returns (run: seq<System<M>>, events: seq<Event<M>>)
    ensures IsRun(S.TINY, 1, run, events) && Idle(run[0]) && run[|events|].missed == []
    ensures Issue(Request(a)) in events && Issue(Request(b)) in events
    ensures !MissesBounded(1, run) && !AllPaired(S.TINY, 1, run, events)
  {
    run, events := RunOf(a, b);
    assert run[0] == StateAt(a, b, 0) && run[4] == StateAt(a, b, 4) && run[10] == StateAt(a, b, 10);
    assert events[0] == EventAt(a, b, 0) && events[2] == EventAt(a, b, 2);
    assert |CacheRefinement.Pending(run[4].st)| == 2;
    AllPairedIff(S.TINY, 1, run, events);
  }
}

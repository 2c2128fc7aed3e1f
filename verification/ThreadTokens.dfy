/** Threads in the pipeline: a thread is enabled in fetch, has one instruction somewhere in the stages,
    waits for a translation, or is parked outside; fetch, wake-ups and commit hand it around. */
module ThreadTokens {
  import opened Arithmetic
  import opened Wrappers
  import RoundRobin

  // --- The fetch registers ------------------------------------------------------------------------

  datatype Registers = Registers(pc: seq<nat>, en: seq<bool>)

  predicate Threads(n: nat, r: Registers) {
    |r.pc| == n && |r.en| == n
  }

  function Disabled(r: Registers, t: nat): Registers
    requires t < |r.en|
  {
    r.(en := r.en[t := false])
  }

  function Woken(r: Registers, t: nat): Registers
    requires t < |r.en|
  {
    r.(en := r.en[t := true])
  }

  function Resumed(r: Registers, t: nat, pc: nat): Registers
    requires t < |r.en| == |r.pc|
  {
    Registers(r.pc[t := pc], r.en[t := true])
  }

  datatype Target = Target(tag: nat, pc: nat)

  predicate InRange(n: nat, tag: Option<nat>) {
    tag.Some? ==> tag.value < n
  }

  function ResumedBy(r: Registers, who: Option<Target>): (r': Registers)
    requires |r.en| == |r.pc| && (who.Some? ==> who.value.tag < |r.en|)
    ensures Threads(|r.en|, r')
  {
    if who.Some? then Resumed(r, who.value.tag, who.value.pc) else r
  }

  function WokenBy(r: Registers, who: Option<nat>): (r': Registers)
    requires |r.en| == |r.pc| && InRange(|r.en|, who)
    ensures Threads(|r.en|, r')
  {
    if who.Some? then Woken(r, who.value) else r
  }

  /** The registers after one clock: the fetched thread is disabled, then a started thread, a committed
      thread and two woken threads are enabled, in this order. */
  function Clocked(r: Registers, fetched: Option<nat>, start: Option<Target>, commit: Option<Target>,
                   wake0: Option<nat>, wake1: Option<nat>): (r': Registers)
    requires |r.en| == |r.pc| && InRange(|r.en|, fetched) && InRange(|r.en|, wake0) && InRange(|r.en|, wake1)
    requires (start.Some? ==> start.value.tag < |r.en|) && (commit.Some? ==> commit.value.tag < |r.en|)
    ensures Threads(|r.en|, r')
  {
    var r1 := if fetched.Some? then Disabled(r, fetched.value) else r;
    WokenBy(WokenBy(ResumedBy(ResumedBy(r1, start), commit), wake0), wake1)
  }

  predicate Names(who: Option<Target>, t: nat) {
    who.Some? && who.value.tag == t
  }

  /** The registers of every thread after a clock. A commit's PC goes before a start's; whoever is started,
      committed or woken is enabled, even if fetched; the fetched thread is disabled otherwise. */
  lemma ClockedExact(r: Registers, fetched: Option<nat>, start: Option<Target>, commit: Option<Target>,
                     wake0: Option<nat>, wake1: Option<nat>, t: nat)
    requires |r.en| == |r.pc| && InRange(|r.en|, fetched) && InRange(|r.en|, wake0) && InRange(|r.en|, wake1)
    requires (start.Some? ==> start.value.tag < |r.en|) && (commit.Some? ==> commit.value.tag < |r.en|)
    requires t < |r.en|
    ensures var r' := Clocked(r, fetched, start, commit, wake0, wake1);
      && r'.pc[t] == (if Names(commit, t) then commit.value.pc else if Names(start, t) then start.value.pc else r.pc[t])
      && (r'.en[t] <==>
          || Names(commit, t) || Names(start, t) || wake0 == Some(t) || wake1 == Some(t)
          || (r.en[t] && fetched != Some(t)))
  {
  }

  class FetchUnitPC {
    const thidN: nat
    var pc: seq<nat>
    var en: seq<bool>
    const rra: RoundRobin.RoundRobinArbiter

    function Regs(): Registers
      reads this
    {
      Registers(pc, en)
    }

    ghost predicate Valid()
      reads this, rra
    {
      thidN >= 1 && Threads(thidN, Regs()) && rra.Valid() && rra.arbN == thidN
        && Span() == thidN && rra.curr < thidN
    }

    function Span(): nat {
      RoundRobin.Span(thidN)
    }

    constructor (n: nat)
      requires n >= 1 && RoundRobin.Span(n) == n
      ensures Valid() && fresh(rra) && thidN == n
      ensures forall t :: 0 <= t < n ==> !en[t]
    {
      thidN := n;
      pc, en := seq(n, _ => 0), seq(n, _ => false);
      rra := new RoundRobin.RoundRobinArbiter(n);
    }

    /** One clock: the first enabled thread from the pointer is offered; if it is taken it is disabled;
        then a started thread, a committed thread and two woken threads are enabled, in this order. */
    method Clock(taken: bool, start: Option<Target>, commit: Option<Target>, wake0: Option<nat>, wake1: Option<nat>)
      returns (request: Option<Target>)
      requires Valid()
      requires start.Some? ==> start.value.tag < thidN
      requires commit.Some? ==> commit.value.tag < thidN
      requires InRange(thidN, wake0) && InRange(thidN, wake1)
      modifies this, rra
      ensures Valid()
      ensures request.Some? <==> RoundRobin.AnyReady(old(en))
      ensures request.Some? ==> RoundRobin.IsFirstReady(old(en), old(rra.curr), request.value.tag)
      ensures request.Some? ==> request.value.pc == old(pc)[request.value.tag]
      ensures var fetched := if taken && request.Some? then Some(request.value.tag) else None;
        Regs() == Clocked(old(Regs()), fetched, start, commit, wake0, wake1)
    {
      var valid, next := rra.Clock(en, taken);
      if valid {
        request := Some(Target(next, pc[next]));
        if taken {
          en := en[next := false];
        }
      } else {
        request := None;
      }
      if start.Some? {
        pc, en := pc[start.value.tag := start.value.pc], en[start.value.tag := true];
      }
      if commit.Some? {
        pc, en := pc[commit.value.tag := commit.value.pc], en[commit.value.tag := true];
      }
      if wake0.Some? {
        en := en[wake0.value := true];
      }
      if wake1.Some? {
        en := en[wake1.value := true];
      }
    }
  }

  // --- The stages ---------------------------------------------------------------------------------

  datatype Stage =
    | FetchTlb | FetchReqQ | FetchCache | InstQ | DecReg | Issuer
    | MemTlbQ | MemTlb | MemReqQ | MemCache | MisalignedQ | DoneQ | CommitQ
    | WaitFetch | WaitMem   // dropped on a translation miss
    | Ditched               // dropped on a permission violation
    | Parked                // transplanted, or not started

  /** Where an instruction may go next. */
  predicate Edge(a: Stage, b: Stage) {
    match a
    case FetchTlb => b.FetchReqQ? || b.WaitFetch?
    case FetchReqQ => b.FetchCache?
    case FetchCache => b.InstQ?
    case InstQ => b.DecReg?
    case DecReg => b.Issuer?
    case Issuer => b.CommitQ? || b.MemTlbQ?
    case MemTlbQ => b.MemTlb?
    case MemTlb => b.MemReqQ? || b.MemTlbQ? || b.WaitMem? || b.Ditched?
    case MemReqQ => b.MemCache?
    case MemCache => b.DoneQ? || b.MisalignedQ?
    case MisalignedQ => b.MemCache?
    case DoneQ => b.CommitQ?
    case _ => false
  }

  /** Stages an instruction goes through one after the other. */
  ghost predicate IsPath(path: seq<Stage>) {
    forall k :: 0 <= k < |path| - 1 ==> Edge(path[k], path[k + 1])
  }

  /** Main result about the stages: an instruction that commits has been translated, fetched from the cache
      and decoded; and it comes straight from the issuer, or it has had an address translated without a
      miss or a violation and the cache has answered it last. */
  lemma CommittedPath(path: seq<Stage>)
    requires IsPath(path) && |path| >= 2 && path[0].FetchTlb? && path[|path| - 1].CommitQ?
    ensures |path| >= 7 && path[..6] == [FetchTlb, FetchReqQ, FetchCache, InstQ, DecReg, Issuer]
    ensures |path| == 7 || (path[6].MemTlbQ? && path[|path| - 3..] == [MemCache, DoneQ, CommitQ])
    ensures |path| > 7 ==> exists k :: 6 < k < |path| - 2 && path[k].MemTlb? && path[k + 1].MemReqQ?
  {
    FetchesFirst(path, 0);
    if |path| > 7 {
      assert Edge(path[|path| - 2], path[|path| - 1]) && Edge(path[|path| - 3], path[|path| - 2]);
      AfterIssuer(path, |path| - 2);
      var k := TranslatedBefore(path, |path| - 3);
    }
  }

  /** The way to the issuer is fixed for whoever is to go on beyond it. */
  lemma FetchesFirst(path: seq<Stage>, k: nat)
    requires IsPath(path) && k <= 6 && k < |path| && path[|path| - 1].CommitQ?
    requires path[0].FetchTlb? && forall i :: 0 <= i <= k && i < 6 ==> path[i] == Front()[i]
    requires k == 6 ==> path[6].CommitQ? || path[6].MemTlbQ?
    ensures |path| >= 7 && path[..6] == Front() && (path[6].CommitQ? || path[6].MemTlbQ?)
    ensures path[6].CommitQ? ==> |path| == 7
    decreases 6 - k
  {
    if k < 6 {
      assert path[k] == Front()[k];
      assert Edge(path[k], path[k + 1]);
      if k + 1 < |path| - 1 {
        assert Edge(path[k + 1], path[k + 2]);
      }
      FetchesFirst(path, k + 1);
    } else if |path| > 7 {
      assert Edge(path[6], path[7]);
    }
  }

  function Front(): seq<Stage> {
    [FetchTlb, FetchReqQ, FetchCache, InstQ, DecReg, Issuer]
  }

  predicate MemoryStage(s: Stage) {
    s.MemTlbQ? || s.MemTlb? || s.MemReqQ? || s.MemCache? || s.MisalignedQ? || s.DoneQ?
  }

  /** Beyond the issuer there are the memory stages only. */
  lemma {:induction false} AfterIssuer(path: seq<Stage>, k: nat)
    requires IsPath(path) && 6 <= k < |path| - 1 && path[6].MemTlbQ? && path[|path| - 1].CommitQ?
    ensures MemoryStage(path[k])
  {
    assert Edge(path[k], path[k + 1]);
    if k > 6 {
      AfterIssuer(path, k - 1);
      assert Edge(path[k - 1], path[k]);
    }
  }

  /** Whoever is at the cache has come from a translation. */
  lemma TranslatedBefore(path: seq<Stage>, k: nat) returns (j: nat)
    requires IsPath(path) && 6 < k < |path| && path[6].MemTlbQ?
    requires path[k].MemCache? || path[k].MisalignedQ? || path[k].MemReqQ?
    ensures 6 < j < k && path[j].MemTlb? && path[j + 1].MemReqQ?
  {
    assert Edge(path[k - 1], path[k]);
    if path[k].MemReqQ? {
      j := k - 1;
    } else {
      j := TranslatedBefore(path, k - 1);
    }
  }

  /** A way from the fetch to each stage of the pipeline. */
  function WayTo(s: Stage): seq<Stage> {
    var memory := Front() + [MemTlbQ, MemTlb];
    match s
    case WaitFetch => [FetchTlb, WaitFetch]
    case CommitQ => Front() + [CommitQ]
    case MemTlbQ => memory + [MemTlbQ]
    case MemTlb => memory
    case WaitMem => memory + [WaitMem]
    case Ditched => memory + [Ditched]
    case MemReqQ => memory + [MemReqQ]
    case MemCache => memory + [MemReqQ, MemCache]
    case MisalignedQ => memory + [MemReqQ, MemCache, MisalignedQ]
    case DoneQ => memory + [MemReqQ, MemCache, DoneQ]
    case FetchTlb => [FetchTlb]
    case FetchReqQ => Front()[..2]
    case FetchCache => Front()[..3]
    case InstQ => Front()[..4]
    case DecReg => Front()[..5]
    case Issuer => Front()
    case Parked => []
  }

  /** Every stage but the one outside of the pipeline is on such a way. */
  lemma StagesOnTheWay(s: Stage)
    requires !s.Parked?
    ensures IsPath(WayTo(s)) && WayTo(s) != [] && WayTo(s)[0].FetchTlb? && WayTo(s)[|WayTo(s)| - 1] == s
  {
  }

  datatype Token = Token(thid: nat, pc: nat, stage: Stage)

  datatype State = State(fetch: Registers, tokens: seq<Token>)

  datatype Event =
    | Fetch(t: nat)
    | Move(i: nat, stage: Stage)
    | Wake(i: nat)              // the missing translation has arrived
    | Commit(i: nat, next: nat)
    | Transplant(i: nat)
    | Start(i: nat, pc: nat)

  function Without(s: seq<Token>, i: nat): seq<Token>
    requires i < |s|
  {
    s[..i] + s[i + 1..]
  }

  /** One wake for each miss and one start for each parked thread: what the surroundings keep. */
  predicate Possible(st: State, e: Event) {
    match e
    case Fetch(t) => t < |st.fetch.en| == |st.fetch.pc| && st.fetch.en[t]
    case Move(i, stage) => i < |st.tokens| && Edge(st.tokens[i].stage, stage)
    case Wake(i) => i < |st.tokens| && (st.tokens[i].stage.WaitFetch? || st.tokens[i].stage.WaitMem?)
    case Commit(i, _) => i < |st.tokens| && st.tokens[i].stage.CommitQ?
    case Transplant(i) => i < |st.tokens| && st.tokens[i].stage.CommitQ?
    case Start(i, _) => i < |st.tokens| && st.tokens[i].stage.Parked?
  }

  predicate WellFormed(n: nat, st: State) {
    && Threads(n, st.fetch)
    && forall i :: 0 <= i < |st.tokens| ==> st.tokens[i].thid < n
  }

  function Next(st: State, e: Event): State
    requires WellFormed(|st.fetch.en|, st) && Possible(st, e)
  {
    match e
    case Fetch(t) => State(Disabled(st.fetch, t), st.tokens + [Token(t, st.fetch.pc[t], FetchTlb)])
    case Move(i, stage) => st.(tokens := st.tokens[i := st.tokens[i].(stage := stage)])
    case Wake(i) => State(Woken(st.fetch, st.tokens[i].thid), Without(st.tokens, i))
    case Commit(i, next) => State(Resumed(st.fetch, st.tokens[i].thid, next), Without(st.tokens, i))
    case Transplant(i) => st.(tokens := st.tokens[i := st.tokens[i].(stage := Parked)])
    case Start(i, pc) => State(Resumed(st.fetch, st.tokens[i].thid, pc), Without(st.tokens, i))
  }

  // --- No thread is forgotten but for the ditched ------------------------------------------------------

  /** The event takes the i-th token on. */
  predicate TakesOn(e: Event, i: nat) {
    !e.Fetch? && e.i == i
  }

  /** A token can be taken on, by the pipeline, the arrival of a translation, or the host, exactly if its
      instruction was not dropped on a permission violation: such a thread never runs again. */
  lemma StuckIff(st: State, i: nat)
    requires i < |st.tokens|
    ensures (exists e: Event :: Possible(st, e) && TakesOn(e, i)) <==> !st.tokens[i].stage.Ditched?
  {
    var stage := st.tokens[i].stage;
    if !stage.Ditched? {
      var e :=
        match stage {
          case FetchTlb => Move(i, FetchReqQ)
          case FetchReqQ => Move(i, FetchCache)
          case FetchCache => Move(i, InstQ)
          case InstQ => Move(i, DecReg)
          case DecReg => Move(i, Issuer)
          case Issuer => Move(i, CommitQ)
          case MemTlbQ => Move(i, MemTlb)
          case MemTlb => Move(i, MemReqQ)
          case MemReqQ => Move(i, MemCache)
          case MemCache => Move(i, DoneQ)
          case MisalignedQ => Move(i, MemCache)
          case DoneQ => Move(i, CommitQ)
          case CommitQ => Commit(i, 0)
          case Parked => Start(i, 0)
          case _ => Wake(i)
        };
      assert Possible(st, e) && TakesOn(e, i);
    }
  }

  // --- One token for each thread --------------------------------------------------------------------

  function CountOf(s: seq<Token>, t: nat): nat {
    if s == [] then 0 else (if s[0].thid == t then 1 else 0) + CountOf(s[1..], t)
  }

  /** Enabled in fetch, or anywhere else. */
  function Tokens(st: State, t: nat): nat
    requires t < |st.fetch.en|
  {
    (if st.fetch.en[t] then 1 else 0) + CountOf(st.tokens, t)
  }

  lemma {:induction false} CountAppend(a: seq<Token>, b: seq<Token>, t: nat)
    ensures CountOf(a + b, t) == CountOf(a, t) + CountOf(b, t)
  {
    if a == [] {
      assert a + b == b;
    } else {
      assert (a + b)[1..] == a[1..] + b;
      CountAppend(a[1..], b, t);
    }
  }

  lemma CountSplit(s: seq<Token>, i: nat, t: nat)
    requires i < |s|
    ensures CountOf(s, t) == CountOf(Without(s, i), t) + (if s[i].thid == t then 1 else 0)
  {
    assert s == s[..i] + ([s[i]] + s[i + 1..]);
    CountAppend(s[..i], [s[i]] + s[i + 1..], t);
    assert ([s[i]] + s[i + 1..])[1..] == s[i + 1..];
    CountAppend(s[..i], s[i + 1..], t);
  }

  lemma CountStage(s: seq<Token>, i: nat, stage: Stage, t: nat)
    requires i < |s|
    ensures CountOf(s[i := s[i].(stage := stage)], t) == CountOf(s, t)
  {
    var s' := s[i := s[i].(stage := stage)];
    CountSplit(s, i, t);
    CountSplit(s', i, t);
    assert Without(s', i) == Without(s, i);
  }

  /** Every thread has exactly one token, and a thread's instruction carries the thread's fetch PC. */
  ghost predicate Discipline(n: nat, st: State) {
    && WellFormed(n, st)
    && (forall t :: 0 <= t < n ==> Tokens(st, t) == 1)
    && (forall i :: 0 <= i < |st.tokens| && !st.tokens[i].stage.Parked? ==>
          st.tokens[i].pc == st.fetch.pc[st.tokens[i].thid])
  }

  lemma {:induction false} CountPositive(s: seq<Token>, i: nat)
    requires i < |s|
    ensures CountOf(s, s[i].thid) >= 1
  {
    CountSplit(s, i, s[i].thid);
  }

  /** The other tokens belong to other threads. */
  lemma OthersElsewhere(n: nat, st: State, i: nat, j: nat)
    requires Discipline(n, st) && i < |st.tokens| && j < |st.tokens| - 1
    ensures Without(st.tokens, i)[j].thid != st.tokens[i].thid && !st.fetch.en[st.tokens[i].thid]
  {
    var t := st.tokens[i].thid;
    assert Tokens(st, t) == 1;
    CountSplit(st.tokens, i, t);
    if Without(st.tokens, i)[j].thid == t {
      CountPositive(Without(st.tokens, i), j);
    }
  }

  lemma FetchKeepsCount(st: State, u: nat, t: nat)
    requires Threads(|st.fetch.en|, st.fetch) && u < |st.fetch.en| && t < |st.fetch.en| && st.fetch.en[u]
    ensures Tokens(State(Disabled(st.fetch, u), st.tokens + [Token(u, st.fetch.pc[u], FetchTlb)]), t) == Tokens(st, t)
  {
    CountAppend(st.tokens, [Token(u, st.fetch.pc[u], FetchTlb)], t);
  }

  /** A token outside of fetch becomes an enable bit. */
  lemma ReturnKeepsCount(st: State, fetch: Registers, i: nat, t: nat)
    requires i < |st.tokens| && t < |st.fetch.en| == |fetch.en| && st.tokens[i].thid < |fetch.en|
    requires fetch.en == st.fetch.en[st.tokens[i].thid := true] && !st.fetch.en[st.tokens[i].thid]
    ensures Tokens(State(fetch, Without(st.tokens, i)), t) == Tokens(st, t)
  {
    CountSplit(st.tokens, i, t);
  }

  lemma EventKeepsCounts(n: nat, st: State, e: Event, t: nat)
    requires Discipline(n, st) && Possible(st, e) && t < n
    ensures Tokens(Next(st, e), t) == 1
  {
    assert Tokens(st, t) == 1;
    match e {
      case Fetch(u) => FetchKeepsCount(st, u, t);
      case Move(i, stage) => CountStage(st.tokens, i, stage, t);
      case Transplant(i) => CountStage(st.tokens, i, Parked, t);
      case _ =>
        NotEnabled(n, st, e.i);
        ReturnKeepsCount(st, Next(st, e).fetch, e.i, t);
    }
  }

  /** A thread with a token outside of fetch is not enabled. */
  lemma NotEnabled(n: nat, st: State, i: nat)
    requires Discipline(n, st) && i < |st.tokens|
    ensures !st.fetch.en[st.tokens[i].thid]
  {
    assert Tokens(st, st.tokens[i].thid) == 1;
    CountPositive(st.tokens, i);
  }

  lemma EventKeepsPcs(n: nat, st: State, e: Event, j: nat)
    requires Discipline(n, st) && Possible(st, e)
    requires j < |Next(st, e).tokens| && !Next(st, e).tokens[j].stage.Parked?
    ensures WellFormed(n, Next(st, e))
    ensures Next(st, e).tokens[j].pc == Next(st, e).fetch.pc[Next(st, e).tokens[j].thid]
  {
    if e.Wake? || e.Commit? || e.Start? {
      OthersElsewhere(n, st, e.i, j);
      assert Without(st.tokens, e.i)[j] == st.tokens[if j < e.i then j else j + 1];
    }
  }

  lemma EventKeepsShape(n: nat, st: State, e: Event)
    requires WellFormed(n, st) && Possible(st, e)
    ensures WellFormed(n, Next(st, e))
  {
    var st' := Next(st, e);
    forall j | 0 <= j < |st'.tokens| ensures st'.tokens[j].thid < n {
      if e.Wake? || e.Commit? || e.Start? {
        assert st'.tokens[j] == st.tokens[if j < e.i then j else j + 1];
      }
    }
  }

  /** Every event keeps the discipline. */
  lemma EventKeepsDiscipline(n: nat, st: State, e: Event)
    requires Discipline(n, st) && Possible(st, e)
    ensures Discipline(n, Next(st, e))
  {
    var st' := Next(st, e);
    EventKeepsShape(n, st, e);
    forall t | 0 <= t < n ensures Tokens(st', t) == 1 {
      EventKeepsCounts(n, st, e, t);
    }
    forall j | 0 <= j < |st'.tokens| && !st'.tokens[j].stage.Parked?
      ensures st'.tokens[j].pc == st'.fetch.pc[st'.tokens[j].thid]
    {
      EventKeepsPcs(n, st, e, j);
    }
  }

  // --- One clock of the fetch unit --------------------------------------------------------------------

  /** One event, or none. */
  predicate StepIs(n: nat, st: State, e: Option<Event>, st': State) {
    WellFormed(n, st) && if e.Some? then Possible(st, e.value) && st' == Next(st, e.value) else st' == st
  }

  /** The events of one clock: at most a fetch, a start, a commit and two wakes, each of them possible
      after those before it. */
  ghost predicate IsClock(n: nat, sts: seq<State>, es: seq<Option<Event>>) {
    && |sts| == 6 && |es| == 5
    && (es[0].Some? ==> es[0].value.Fetch?) && (es[1].Some? ==> es[1].value.Start?)
    && (es[2].Some? ==> es[2].value.Commit?)
    && (es[3].Some? ==> es[3].value.Wake?) && (es[4].Some? ==> es[4].value.Wake?)
    && forall k :: 0 <= k < 5 ==> StepIs(n, sts[k], es[k], sts[k + 1])
  }

  /** What an event says to the fetch unit. */
  function FetchedBy(e: Option<Event>): Option<nat> {
    if e.Some? && e.value.Fetch? then Some(e.value.t) else None
  }

  function TargetOf(st: State, e: Option<Event>): Option<Target>
    requires e.Some? ==> Possible(st, e.value)
  {
    if e.Some? && e.value.Start? then Some(Target(st.tokens[e.value.i].thid, e.value.pc))
    else if e.Some? && e.value.Commit? then Some(Target(st.tokens[e.value.i].thid, e.value.next))
    else None
  }

  function WokenThread(st: State, e: Option<Event>): Option<nat>
    requires e.Some? ==> Possible(st, e.value)
  {
    if e.Some? && e.value.Wake? then Some(st.tokens[e.value.i].thid) else None
  }

  lemma EventOnRegisters(n: nat, st: State, e: Option<Event>, st': State)
    requires StepIs(n, st, e, st')
    ensures WellFormed(n, st')
    ensures e.None? || e.value.Fetch? ==>
      st'.fetch == if e.Some? then Disabled(st.fetch, e.value.t) else st.fetch
    ensures e.None? || e.value.Start? || e.value.Commit? ==> st'.fetch == ResumedBy(st.fetch, TargetOf(st, e))
    ensures e.None? || e.value.Wake? ==> st'.fetch == WokenBy(st.fetch, WokenThread(st, e))
  {
    if e.Some? {
      EventKeepsShape(n, st, e.value);
    }
  }

  lemma EventInRange(n: nat, st: State, e: Option<Event>)
    requires WellFormed(n, st) && (e.Some? ==> Possible(st, e.value))
    ensures InRange(n, FetchedBy(e)) && InRange(n, WokenThread(st, e))
    ensures TargetOf(st, e).Some? ==> TargetOf(st, e).value.tag < n
  {
  }

  lemma ClockSteps(n: nat, sts: seq<State>, es: seq<Option<Event>>)
    requires IsClock(n, sts, es) && Discipline(n, sts[0])
    ensures forall k :: 0 <= k < 6 ==> Discipline(n, sts[k])
  {
    forall k | 0 <= k < 5 ensures Discipline(n, sts[k]) ==> Discipline(n, sts[k + 1]) {
      assert StepIs(n, sts[k], es[k], sts[k + 1]);
      if Discipline(n, sts[k]) && es[k].Some? {
        EventKeepsDiscipline(n, sts[k], es[k].value);
      }
    }
    assert Discipline(n, sts[1]);
    assert Discipline(n, sts[2]);
    assert Discipline(n, sts[3]);
    assert Discipline(n, sts[4]);
  }

  /** What the fetch unit is told in a clock leads to the registers r'. */
  predicate TellsClock(n: nat, r: Registers, sts: seq<State>, es: seq<Option<Event>>, r': Registers)
    requires |sts| == 6 && |es| == 5
    requires forall k :: 0 <= k < 5 && es[k].Some? ==> Possible(sts[k], es[k].value)
  {
    var start, commit := TargetOf(sts[1], es[1]), TargetOf(sts[2], es[2]);
    var wake0, wake1 := WokenThread(sts[3], es[3]), WokenThread(sts[4], es[4]);
    && Threads(n, r) && InRange(n, FetchedBy(es[0])) && InRange(n, wake0) && InRange(n, wake1)
    && (start.Some? ==> start.value.tag < n) && (commit.Some? ==> commit.value.tag < n)
    && r' == Clocked(r, FetchedBy(es[0]), start, commit, wake0, wake1)
  }

  /** Main result: a clock in which a fetch, a start, a commit and two wakes come together leaves the
      registers that those events leave one after the other, and one token for each thread. */
  lemma ClockIsEvents(n: nat, sts: seq<State>, es: seq<Option<Event>>)
    requires IsClock(n, sts, es) && Discipline(n, sts[0])
    ensures Discipline(n, sts[5])
    ensures forall k :: 0 <= k < 5 && es[k].Some? ==> Possible(sts[k], es[k].value)
    ensures TellsClock(n, sts[0].fetch, sts, es, sts[5].fetch)
  {
    ClockSteps(n, sts, es);
    assert forall k :: 0 <= k < 5 ==> StepIs(n, sts[k], es[k], sts[k + 1]);
    forall k | 0 <= k < 5
      ensures InRange(n, FetchedBy(es[k])) && InRange(n, WokenThread(sts[k], es[k]))
      ensures TargetOf(sts[k], es[k]).Some? ==> TargetOf(sts[k], es[k]).value.tag < n
    {
      assert StepIs(n, sts[k], es[k], sts[k + 1]);
      EventInRange(n, sts[k], es[k]);
    }
    FiveEvents(n, sts[0], es[0], sts[1], es[1], sts[2], es[2], sts[3], es[3], sts[4], es[4], sts[5]);
  }

  lemma FiveEvents(n: nat, s0: State, e0: Option<Event>, s1: State, e1: Option<Event>, s2: State, e2: Option<Event>,
                   s3: State, e3: Option<Event>, s4: State, e4: Option<Event>, s5: State)
    requires StepIs(n, s0, e0, s1) && StepIs(n, s1, e1, s2) && StepIs(n, s2, e2, s3)
    requires StepIs(n, s3, e3, s4) && StepIs(n, s4, e4, s5)
    requires (e0.Some? ==> e0.value.Fetch?) && (e1.Some? ==> e1.value.Start?) && (e2.Some? ==> e2.value.Commit?)
    requires (e3.Some? ==> e3.value.Wake?) && (e4.Some? ==> e4.value.Wake?)
    requires InRange(n, FetchedBy(e0)) && InRange(n, WokenThread(s3, e3)) && InRange(n, WokenThread(s4, e4))
    requires TargetOf(s1, e1).Some? ==> TargetOf(s1, e1).value.tag < n
    requires TargetOf(s2, e2).Some? ==> TargetOf(s2, e2).value.tag < n
    ensures s5.fetch == Clocked(s0.fetch, FetchedBy(e0), TargetOf(s1, e1), TargetOf(s2, e2),
                                WokenThread(s3, e3), WokenThread(s4, e4))
  {
    EventOnRegisters(n, s0, e0, s1);
    EventOnRegisters(n, s1, e1, s2);
    EventOnRegisters(n, s2, e2, s3);
    EventOnRegisters(n, s3, e3, s4);
    EventOnRegisters(n, s4, e4, s5);
  }


  // --- Runs ---------------------------------------------------------------------------------------

  function AllParked(n: nat): (s: seq<Token>)
    ensures |s| == n && forall t :: 0 <= t < n ==> s[t] == Token(t, 0, Parked)
  {
    seq(n, t requires 0 <= t < n => Token(t, 0, Parked))
  }

  /** After reset no thread is enabled and all are outside. */
  function Reset(n: nat): State {
    State(Registers(seq(n, _ => 0), seq(n, _ => false)), AllParked(n))
  }

  lemma {:induction false} AllParkedOnce(n: nat, t: nat)
    ensures CountOf(AllParked(n), t) == if t < n then 1 else 0
  {
    if n == 0 {
    } else {
      assert AllParked(n) == AllParked(n - 1) + [Token(n - 1, 0, Parked)];
      CountAppend(AllParked(n - 1), [Token(n - 1, 0, Parked)], t);
      AllParkedOnce(n - 1, t);
    }
  }

  ghost predicate IsRun(n: nat, run: seq<State>, events: seq<Event>) {
    && |run| == |events| + 1
    && forall i :: 0 <= i < |events| ==>
      WellFormed(n, run[i]) && Possible(run[i], events[i]) && run[i + 1] == Next(run[i], events[i])
  }

  lemma {:induction false} RunKeepsDiscipline(n: nat, run: seq<State>, events: seq<Event>, k: nat)
    requires IsRun(n, run, events) && Discipline(n, run[0]) && k < |run|
    ensures Discipline(n, run[k])
  {
    if k == 0 {
    } else {
      RunKeepsDiscipline(n, run, events, k - 1);
      EventKeepsDiscipline(n, run[k - 1], events[k - 1]);
    }
  }

  /** Main result: in every state reached from reset each thread has exactly one token, so never two
      instructions in the pipeline, and every instruction under way is the one at its thread's PC. */
  lemma OneTokenPerThread(n: nat, run: seq<State>, events: seq<Event>, k: nat)
    requires IsRun(n, run, events) && run[0] == Reset(n) && k < |run|
    ensures Discipline(n, run[k])
  {
    forall t | 0 <= t < n ensures Tokens(run[0], t) == 1 {
      AllParkedOnce(n, t);
    }
    RunKeepsDiscipline(n, run, events, k);
  }

  /** An enabled thread keeps its enable bit and its PC until it is fetched. */
  lemma EnabledWaits(n: nat, st: State, e: Event, t: nat)
    requires Discipline(n, st) && Possible(st, e) && t < n && st.fetch.en[t] && e != Fetch(t)
    ensures Next(st, e).fetch.en[t] && Next(st, e).fetch.pc[t] == st.fetch.pc[t]
  {
    assert Tokens(st, t) == 1;
    if e.Wake? || e.Commit? || e.Start? {
      CountSplit(st.tokens, e.i, t);
    }
  }

  lemma {:induction false} WaitsUntilFetched(n: nat, run: seq<State>, events: seq<Event>, t: nat, i: nat, j: nat)
    requires IsRun(n, run, events) && Discipline(n, run[0]) && t < n && i <= j < |run|
    requires Threads(n, run[i].fetch) && run[i].fetch.en[t]
    requires forall m :: i <= m < j ==> events[m] != Fetch(t)
    ensures Threads(n, run[j].fetch) && run[j].fetch.en[t] && run[j].fetch.pc[t] == run[i].fetch.pc[t]
    decreases j - i
  {
    RunKeepsDiscipline(n, run, events, j);
    RunKeepsDiscipline(n, run, events, i);
    if i < j {
      WaitsUntilFetched(n, run, events, t, i, j - 1);
      RunKeepsDiscipline(n, run, events, j - 1);
      EnabledWaits(n, run[j - 1], events[j - 1], t);
    }
  }

  /** Main result: after a translation miss the thread's next fetch is of the instruction dropped. */
  lemma WakeRefetchesSamePc(n: nat, run: seq<State>, events: seq<Event>, k: nat, i: nat, j: nat)
    requires IsRun(n, run, events) && run[0] == Reset(n) && i < j < |events|
    requires events[i] == Wake(k) && events[j] == Fetch(run[i].tokens[k].thid)
    requires forall m :: i < m < j ==> events[m] != Fetch(run[i].tokens[k].thid)
    ensures run[j + 1].tokens == run[j].tokens + [Token(run[i].tokens[k].thid, run[i].tokens[k].pc, FetchTlb)]
  {
    NextFetchAtReturnPc(n, run, events, i, j);
  }

  /** What sends a thread back to fetch, and the PC it is sent back with. */
  predicate Returns(e: Event) {
    e.Wake? || e.Commit? || e.Start?
  }

  function ReturnPc(st: State, e: Event): nat
    requires Returns(e) && e.i < |st.tokens|
  {
    match e
    case Commit(_, next) => next
    case Start(_, pc) => pc
    case _ => st.tokens[e.i].pc
  }

  lemma ReturnSetsPc(n: nat, st: State, e: Event)
    requires Discipline(n, st) && Possible(st, e) && Returns(e)
    ensures var t := st.tokens[e.i].thid;
      t < n && Threads(n, Next(st, e).fetch) && Next(st, e).fetch.en[t] && Next(st, e).fetch.pc[t] == ReturnPc(st, e)
  {
    EventKeepsShape(n, st, e);
  }

  /** Main result: after a commit, a start or a wake the thread's next fetch is of the instruction at the PC
      committed, started with, or dropped. */
  lemma NextFetchAtReturnPc(n: nat, run: seq<State>, events: seq<Event>, i: nat, j: nat)
    requires IsRun(n, run, events) && run[0] == Reset(n) && i < j < |events| && Returns(events[i])
    requires events[j] == Fetch(run[i].tokens[events[i].i].thid)
    requires forall m :: i < m < j ==> events[m] != Fetch(run[i].tokens[events[i].i].thid)
    ensures run[j + 1].tokens ==
      run[j].tokens + [Token(run[i].tokens[events[i].i].thid, ReturnPc(run[i], events[i]), FetchTlb)]
  {
    var t := run[i].tokens[events[i].i].thid;
    OneTokenPerThread(n, run, events, 0);
    OneTokenPerThread(n, run, events, i);
    OneTokenPerThread(n, run, events, i + 1);
    ReturnSetsPc(n, run[i], events[i]);
    WaitsUntilFetched(n, run, events, t, i + 1, j);
  }

  /** A wake without a miss gives a thread a second token exactly when it is not enabled anyway. */
  lemma SpuriousWakeIff(n: nat, st: State, t: nat)
    requires Discipline(n, st) && t < n
    ensures Discipline(n, st.(fetch := Woken(st.fetch, t))) <==> st.fetch.en[t]
  {
    assert Tokens(st, t) == 1;
    var st' := st.(fetch := Woken(st.fetch, t));
    if st.fetch.en[t] {
      assert st' == st;
    } else {
      assert Tokens(st', t) == 2;
    }
  }
}

/** The page deletor between two caches, one for instructions and one for data: every handshake goes to the
    side that the page's permission names, and only that side's empty flag is read. */
module EvictionSides {
  import opened Wrappers
  import opened Cache
  import opened CacheRefinement
  import opened PageTypes
  import PD = PageDeletor
  import E = Eviction

  /** A cache with its request register; `atGrant` remembers it as it was at the last grant. */
  datatype Side = Side(cache: Cache.State, s1: Option<nat>, atGrant: Cache.State)

  datatype State = State(pd: PD.State, inst: Side, data: Side)

  datatype SideInput = SideInput(permReady: bool, completedReady: bool, dmaDone: bool, victim: nat, activity: seq<Step>)

  datatype Input = Input(
    request: Option<Item>, tlbReady: bool, tlbReply: Option<PD.TlbReply>, startReady: bool, doneReady: bool,
    inst: SideInput, data: SideInput)

  datatype Params = Params(inst: E.Params, data: E.Params)

  /** The side is the one the page belongs to. */
  predicate Named(d: PD.State, inst: bool) {
    if inst then d.item.entry.perm == 2 else d.item.entry.perm != 2
  }

  // --- Ports: what the deletor offers to a side, and what it reads from which side ---------------------

  predicate AsksPermission(d: PD.State, inst: bool) {
    d.phase.ReqLsu? && Named(d, inst)
  }

  predicate FlushValid(d: PD.State, inst: bool) {
    d.phase.FlushPage? && Named(d, inst)
  }

  function SideOf(st: State, inst: bool): Side {
    if inst then st.inst else st.data
  }

  function InputOf(i: Input, inst: bool): SideInput {
    if inst then i.inst else i.data
  }

  function ParamsOf(p: Params, inst: bool): E.Params {
    if inst then p.inst else p.data
  }

  /** The deletor with one of its sides, as if that were the only one. */
  function Seen(st: State, inst: bool): E.System {
    var x := SideOf(st, inst);
    E.System(st.pd, x.cache, x.s1, x.atGrant)
  }

  function SeenInput(i: Input, inst: bool): E.Input {
    var x := InputOf(i, inst);
    E.Input(i.request, x.permReady, i.tlbReady, i.tlbReply, i.startReady, i.doneReady, x.completedReady,
            x.dmaDone, x.victim, x.activity)
  }

  function DeletorInput(p: Params, st: State, i: Input): PD.Input {
    var inst := st.pd.item.entry.perm == 2;
    var x, xi := SideOf(st, inst), InputOf(i, inst);
    PD.Input(i.request, xi.permReady, i.tlbReady, i.tlbReply, i.startReady,
             E.FlushReady(ParamsOf(p, inst), Seen(st, inst)), x.cache.backendQ == [], i.doneReady, xi.completedReady)
  }

  // --- One clock --------------------------------------------------------------------------------------

  /** The pipeline may use a side unless it has let the deletor have it. */
  predicate SideOpen(d: PD.State, inst: bool) {
    E.Open(d) || !Named(d, inst)
  }

  ghost predicate SidePossible(p: E.Params, sys: E.System, xi: SideInput, inst: bool) {
    && Admissible(p.g, sys.cache, xi.activity)
    && (!SideOpen(sys.pd, inst) ==> xi.activity == [])
    && (AsksPermission(sys.pd, inst) && xi.permReady ==> xi.activity == [] && E.Quiet(p, sys.cache))
    && xi.victim < p.g.ways
    && (sys.s1.Some? ==> CanAccess(p.g, sys.cache, sys.s1.value, xi.victim))
  }

  ghost function SideNext(p: E.Params, sys: E.System, i: E.Input, inst: bool): Side
    requires Admissible(p.g, sys.cache, i.activity)
    requires sys.s1.Some? ==> CanAccess(p.g, sys.cache, sys.s1.value, i.victim)
  {
    Side(
      if SideOpen(sys.pd, inst) then Final(p.g, sys.cache, i.activity) else E.AfterRegister(p, sys, i),
      if FlushValid(sys.pd, inst) && E.FlushReady(p, sys) then Some(PD.FlushAddr(sys.pd))
      else if E.RegisterMoves(p, sys) then None
      else sys.s1,
      if AsksPermission(sys.pd, inst) && i.permReady then sys.cache else sys.atGrant)
  }

  ghost predicate Possible(p: Params, st: State, i: Input) {
    && SidePossible(p.inst, Seen(st, true), i.inst, true)
    && SidePossible(p.data, Seen(st, false), i.data, false)
  }

  ghost function Clock(p: Params, st: State, i: Input): State
    requires Possible(p, st, i)
  {
    State.State(
      PD.Next(st.pd, DeletorInput(p, st, i)),
      SideNext(p.inst, Seen(st, true), SeenInput(i, true), true),
      SideNext(p.data, Seen(st, false), SeenInput(i, false), false))
  }

  // --- The other side is left alone ----------------------------------------------------------------------

  /** What the deletor does does not depend on the side that is not named. */
  lemma OtherFlagIgnored(p: Params, st: State, st': State, i: Input, i': Input)
    requires st.pd == st'.pd
    requires var inst := st.pd.item.entry.perm == 2;
      SideOf(st, inst) == SideOf(st', inst) && SeenInput(i, inst) == SeenInput(i', inst)
    ensures PD.Next(st.pd, DeletorInput(p, st, i)) == PD.Next(st'.pd, DeletorInput(p, st', i'))
  {
  }

  /** The named side's clock is that of the deletor with a single cache. */
  lemma NamedSideClock(p: Params, st: State, i: Input, inst: bool)
    requires Possible(p, st, i) && Named(st.pd, inst)
    ensures E.Possible(ParamsOf(p, inst), Seen(st, inst), SeenInput(i, inst))
    ensures Seen(Clock(p, st, i), inst) == E.Clock(ParamsOf(p, inst), Seen(st, inst), SeenInput(i, inst))
    ensures DeletorInput(p, st, i) == E.DeletorInput(ParamsOf(p, inst), Seen(st, inst), SeenInput(i, inst))
  {
  }

  // --- Invariant ----------------------------------------------------------------------------------------

  ghost predicate SideInv(p: E.Params, sys: E.System, inst: bool) {
    && Inv(p.g, sys.cache)
    && (if Named(sys.pd, inst) then E.SysInv(p, sys) else sys.s1.None?)
  }

  ghost predicate BothInv(p: Params, st: State) {
    SideInv(p.inst, Seen(st, true), true) && SideInv(p.data, Seen(st, false), false)
  }

  /** A page keeps its permission, so its side, until the deletor is idle again. */
  lemma SideStays(d: PD.State, i: PD.Input, inst: bool)
    requires !PD.RequestFires(d, i)
    ensures Named(PD.Next(d, i), inst) == Named(d, inst)
  {
  }

  /** A new page may belong to the other side; both are without a flush under way then. */
  lemma AcceptKeeps(p: Params, st: State, i: Input, inst: bool)
    requires BothInv(p, st) && Possible(p, st, i) && PD.RequestFires(st.pd, DeletorInput(p, st, i))
    ensures SideInv(ParamsOf(p, inst), Seen(Clock(p, st, i), inst), inst)
  {
    var q := ParamsOf(p, inst);
    E.RunKeepsInv(q.g, SideOf(st, inst).cache, InputOf(i, inst).activity);
  }

  lemma OtherSideKeeps(p: Params, st: State, i: Input, inst: bool)
    requires BothInv(p, st) && Possible(p, st, i) && !Named(st.pd, inst)
    requires !PD.RequestFires(st.pd, DeletorInput(p, st, i))
    ensures SideInv(ParamsOf(p, inst), Seen(Clock(p, st, i), inst), inst)
    ensures SideOf(Clock(p, st, i), inst).s1.None?
  {
    var q := ParamsOf(p, inst);
    E.RunKeepsInv(q.g, SideOf(st, inst).cache, InputOf(i, inst).activity);
    SideStays(st.pd, DeletorInput(p, st, i), inst);
  }

  lemma NamedSideKeeps(p: Params, st: State, i: Input, inst: bool)
    requires BothInv(p, st) && Possible(p, st, i) && Named(st.pd, inst) && ParamsOf(p, inst).depth >= 2
    requires !PD.RequestFires(st.pd, DeletorInput(p, st, i))
    ensures SideInv(ParamsOf(p, inst), Seen(Clock(p, st, i), inst), inst)
  {
    NamedSideClock(p, st, i, inst);
    E.ClockKeepsInv(ParamsOf(p, inst), Seen(st, inst), SeenInput(i, inst));
    SideStays(st.pd, DeletorInput(p, st, i), inst);
  }

  lemma ClockKeepsBoth(p: Params, st: State, i: Input)
    requires BothInv(p, st) && Possible(p, st, i) && p.inst.depth >= 2 && p.data.depth >= 2
    ensures BothInv(p, Clock(p, st, i))
  {
    if PD.RequestFires(st.pd, DeletorInput(p, st, i)) {
      AcceptKeeps(p, st, i, true);
      AcceptKeeps(p, st, i, false);
    } else {
      var inst := st.pd.item.entry.perm == 2;
      NamedSideKeeps(p, st, i, inst);
      OtherSideKeeps(p, st, i, !inst);
    }
  }

  // --- Runs -----------------------------------------------------------------------------------------------

  ghost predicate IsRun(p: Params, run: seq<State>, inputs: seq<Input>)
    requires |run| == |inputs| + 1
  {
    && E.Started(p.inst, Seen(run[0], true)) && E.Started(p.data, Seen(run[0], false))
    && forall n :: 0 <= n < |inputs| ==> Possible(p, run[n], inputs[n]) && run[n + 1] == Clock(p, run[n], inputs[n])
  }

  lemma {:induction false} RunInv(p: Params, run: seq<State>, inputs: seq<Input>, n: nat)
    requires |run| == |inputs| + 1 && IsRun(p, run, inputs) && n <= |inputs|
    requires p.inst.depth >= 2 && p.data.depth >= 2
    ensures BothInv(p, run[n])
  {
    if n == 0 {
    } else {
      RunInv(p, run, inputs, n - 1);
      ClockKeepsBoth(p, run[n - 1], inputs[n - 1]);
    }
  }

  /** Main result: whenever the end of an eviction is reported, the page is out of the instruction cache
      and in the DRAM behind it if it is a page of instructions, and of the data cache otherwise. */
  lemma EvictDoneOnItsSide(p: Params, run: seq<State>, inputs: seq<Input>, n: nat)
    requires |run| == |inputs| + 1 && IsRun(p, run, inputs) && n < |inputs|
    requires p.inst.depth >= 2 && p.data.depth >= 2
    requires run[n].pd.phase.Send? || PD.Done(run[n].pd, DeletorInput(p, run[n], inputs[n]))
    ensures run[n].pd.item.entry.perm == 2 ==> p.inst.g.sets > 0 && E.PageInDram(p.inst, Seen(run[n], true))
    ensures run[n].pd.item.entry.perm != 2 ==> p.data.g.sets > 0 && E.PageInDram(p.data, Seen(run[n], false))
  {
    RunInv(p, run, inputs, n);
    var inst := run[n].pd.item.entry.perm == 2;
    NamedSideClock(p, run[n], inputs[n], inst);
    if run[n].pd.phase.Wait? {
      E.EmptyFlagSound(ParamsOf(p, inst), Seen(run[n], inst));
    }
  }

  /** ... and the other side has no flush in its register at any time, and goes on with what its pipeline
      does. */
  lemma OtherSideUntouched(p: Params, run: seq<State>, inputs: seq<Input>, n: nat, inst: bool)
    requires |run| == |inputs| + 1 && IsRun(p, run, inputs) && n < |inputs|
    requires p.inst.depth >= 2 && p.data.depth >= 2
    requires inst != (run[n].pd.item.entry.perm == 2)
    ensures SideOf(run[n], inst).s1.None? && SideOf(run[n + 1], inst).s1.None?
    ensures SideOf(run[n + 1], inst).cache ==
      Final(ParamsOf(p, inst).g, SideOf(run[n], inst).cache, InputOf(inputs[n], inst).activity)
  {
    RunInv(p, run, inputs, n);
  }
}

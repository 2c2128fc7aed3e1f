/** The commit unit: up to three registers are written through one port, one a cycle, before an
    instruction commits. */
module CommitUnit {
  import opened Arithmetic
  import opened Wrappers

  const LOW: nat := 0x1_0000_0000
  const PC_LIMIT: nat := 0x1_0000_0000_0000_0000

  /** A finished instruction: up to three results, flags, branch target, and whether to transplant. */
  datatype Inst = Inst(tag: nat, rd: seq<Option<nat>>, res: seq<nat>, nzcv: Option<nat>, taken: Option<nat>,
                       exception: bool, undef: bool, is32bit: bool)

  predicate Three(i: Inst) {
    |i.rd| == |i.res| == 3
  }

  datatype ThreadState = ThreadState(regs: map<nat, nat>, pc: nat, nzcv: nat)

  type Arch = map<nat, ThreadState>

  function Of(arch: Arch, tag: nat): ThreadState {
    if tag in arch then arch[tag] else ThreadState(map[], 0, 0)
  }

  datatype State = State(queue: seq<Inst>, wb: nat, arch: Arch)

  // --- One clock ----------------------------------------------------------------------------------

  function WriteData(i: Inst, k: nat): nat
    requires Three(i) && k < 3
  {
    if i.is32bit then i.res[k] % LOW else i.res[k]
  }

  /** The k-th result goes to its register, if it has one. */
  function WriteBack(arch: Arch, i: Inst, k: nat): Arch
    requires Three(i) && k < 3
  {
    if i.rd[k].None? then arch
    else
      var t := Of(arch, i.tag);
      arch[i.tag := t.(regs := t.regs[i.rd[k].value := WriteData(i, k)])]
  }

  function NextWb(i: Inst, wb: nat): nat
    requires Three(i) && wb < 3
  {
    match wb
    case 0 => if i.rd[1].Some? then 1 else if i.rd[2].Some? then 2 else 0
    case 1 => if i.rd[2].Some? then 2 else 0
    case _ => 0
  }

  predicate Transplants(i: Inst) {
    i.undef || i.exception
  }

  /** PC and flags after the instruction; a transplanted one leaves them to the host. */
  function Retire(arch: Arch, i: Inst): Arch {
    if Transplants(i) then arch
    else
      var t := Of(arch, i.tag);
      arch[i.tag := t.(pc := if i.taken.Some? then i.taken.value else (t.pc + 4) % PC_LIMIT,
                       nzcv := if i.nzcv.Some? then i.nzcv.value else t.nzcv)]
  }

  predicate Ok(st: State) {
    && st.wb < 3
    && (forall k :: 0 <= k < |st.queue| ==> Three(st.queue[k]))
    && (st.wb > 0 ==> st.queue != [] && st.queue[0].rd[st.wb].Some?)
  }

  predicate Commits(st: State, ready: bool)
    requires Ok(st)
  {
    ready && st.queue != [] && NextWb(st.queue[0], st.wb) == 0
  }

  function Entered(arrival: Option<Inst>): seq<Inst> {
    if arrival.Some? then [arrival.value] else []
  }

  /** The instruction that commits in a clock, if any. */
  function Finished(st: State, ready: bool): seq<Inst>
    requires Ok(st)
  {
    if Commits(st, ready) then [st.queue[0]] else []
  }

  function Next(st: State, ready: bool, arrival: Option<Inst>): (st': State)
    requires Ok(st) && (arrival.Some? ==> Three(arrival.value))
    ensures Ok(st')
  {
    var entered := Entered(arrival);
    if !ready || st.queue == [] then st.(queue := st.queue + entered)
    else
      var head := st.queue[0];
      var written := WriteBack(st.arch, head, st.wb);
      if NextWb(head, st.wb) == 0 then State(st.queue[1..] + entered, 0, Retire(written, head))
      else State(st.queue + entered, NextWb(head, st.wb), written)
  }

  class CommitUnit {
    var commitQueue: seq<Inst>
    var wbState: nat
    var arch: Arch

    function Contents(): State
      reads this
    {
      State(commitQueue, wbState, arch)
    }

    constructor (arch: Arch)
      ensures Ok(Contents()) && Contents() == State([], 0, arch)
    {
      this.commitQueue, this.wbState, this.arch := [], 0, arch;
    }

    /** One clock with the register file ready or not, and what the pipeline is told. */
    method Clock(ready: bool, arrival: Option<Inst>) returns (commited: Option<Inst>, transplant: bool)
      requires Ok(Contents()) && (arrival.Some? ==> Three(arrival.value))
      modifies this
      ensures Ok(Contents()) && Contents() == Next(old(Contents()), ready, arrival)
      ensures commited == (if Commits(old(Contents()), ready) then Some(old(commitQueue)[0]) else None)
      ensures transplant <==> commited.Some? && Transplants(commited.value)
    {
      commited, transplant := None, false;
      if ready && commitQueue != [] {
        var head := commitQueue[0];
        arch := WriteBack(arch, head, wbState);
        if wbState == 0 && head.rd[1].Some? {
          wbState := 1;
        } else if wbState < 2 && head.rd[2].Some? {
          wbState := 2;
        } else {
          wbState := 0;
          commitQueue := commitQueue[1..];
          commited, transplant := Some(head), Transplants(head);
          arch := Retire(arch, head);
        }
      }
      if arrival.Some? {
        commitQueue := commitQueue + [arrival.value];
      }
    }
  }

  // --- As if in one step --------------------------------------------------------------------------

  /** All three results, then PC and flags. */
  function Committed(arch: Arch, i: Inst): Arch
    requires Three(i)
  {
    Retire(WriteBack(WriteBack(WriteBack(arch, i, 0), i, 1), i, 2), i)
  }

  /** What has been written of the head when the unit is in a write state. */
  function Partly(arch: Arch, i: Inst, wb: nat): Arch
    requires Three(i) && wb < 3
  {
    match wb
    case 0 => arch
    case 1 => WriteBack(arch, i, 0)
    case _ => WriteBack(WriteBack(arch, i, 0), i, 1)
  }

  datatype Input = Input(ready: bool, arrival: Option<Inst>)

  predicate Inputs(ins: seq<Input>) {
    forall k :: 0 <= k < |ins| && ins[k].arrival.Some? ==> Three(ins[k].arrival.value)
  }

  function Run(st: State, ins: seq<Input>): (st': State)
    requires Ok(st) && Inputs(ins)
    ensures Ok(st')
    decreases |ins|
  {
    if ins == [] then st
    else
      var last := ins[|ins| - 1];
      Next(Run(st, ins[..|ins| - 1]), last.ready, last.arrival)
  }

  /** Instructions committed and arrived along a run. */
  function CommittedIn(st: State, ins: seq<Input>): (insts: seq<Inst>)
    requires Ok(st) && Inputs(ins)
    ensures forall k :: 0 <= k < |insts| ==> Three(insts[k])
    decreases |ins|
  {
    if ins == [] then []
    else
      CommittedIn(st, ins[..|ins| - 1]) + Finished(Run(st, ins[..|ins| - 1]), ins[|ins| - 1].ready)
  }

  function ArrivedIn(ins: seq<Input>): seq<Inst> {
    if ins == [] then [] else ArrivedIn(ins[..|ins| - 1]) + Entered(ins[|ins| - 1].arrival)
  }

  function AllCommitted(arch: Arch, insts: seq<Inst>): Arch
    requires forall k :: 0 <= k < |insts| ==> Three(insts[k])
  {
    if insts == [] then arch else Committed(AllCommitted(arch, insts[..|insts| - 1]), insts[|insts| - 1])
  }

  /** The state stands for: these instructions fully done, the head done as far as the write state says. */
  ghost predicate StandsAt(st: State, base: Arch) {
    && Ok(st)
    && st.arch == if st.queue == [] then base else Partly(base, st.queue[0], st.wb)
  }

  lemma ClockStandsAt(st: State, base: Arch, i: Input)
    requires StandsAt(st, base) && (i.arrival.Some? ==> Three(i.arrival.value))
    ensures StandsAt(Next(st, i.ready, i.arrival), if Commits(st, i.ready) then Committed(base, st.queue[0]) else base)
  {
  }

  lemma ClockKeepsOrder(st: State, i: Input)
    requires Ok(st) && (i.arrival.Some? ==> Three(i.arrival.value))
    ensures Finished(st, i.ready) + Next(st, i.ready, i.arrival).queue == st.queue + Entered(i.arrival)
  {
    if Commits(st, i.ready) {
      assert st.queue == [st.queue[0]] + st.queue[1..];
    }
  }

  lemma OrderChained<T>(done: seq<T>, now: seq<T>, left: seq<T>, left0: seq<T>, start: seq<T>, came: seq<T>,
                        entered: seq<T>)
    requires done + left0 == start + came && now + left == left0 + entered
    ensures (done + now) + left == start + (came + entered)
  {
    assert (done + now) + left == done + (now + left);
    assert done + (left0 + entered) == (done + left0) + entered;
  }

  lemma AllCommittedOneMore(arch: Arch, done: seq<Inst>, st: State, ready: bool)
    requires Ok(st) && forall k :: 0 <= k < |done| ==> Three(done[k])
    ensures AllCommitted(arch, done + Finished(st, ready)) ==
      if Commits(st, ready) then Committed(AllCommitted(arch, done), st.queue[0]) else AllCommitted(arch, done)
  {
    if Commits(st, ready) {
      assert (done + [st.queue[0]])[..|done|] == done;
    } else {
      assert done + [] == done;
    }
  }

  /** Main result: whatever the register file's stalls, after any number of cycles the registers are
      those of committing the finished instructions one after the other, each in one step, plus the
      part of the oldest unfinished one already written; and nothing is lost or reordered. */
  lemma {:induction false} CommitsInOrder(st: State, ins: seq<Input>)
    requires Ok(st) && st.wb == 0 && Inputs(ins)
    ensures StandsAt(Run(st, ins), AllCommitted(st.arch, CommittedIn(st, ins)))
    ensures CommittedIn(st, ins) + Run(st, ins).queue == st.queue + ArrivedIn(ins)
    decreases |ins|
  {
    if ins == [] {
    } else {
      var n := |ins| - 1;
      var before, last, done := Run(st, ins[..n]), ins[n], CommittedIn(st, ins[..n]);
      CommitsInOrder(st, ins[..n]);
      ClockStandsAt(before, AllCommitted(st.arch, done), last);
      AllCommittedOneMore(st.arch, done, before, last.ready);
      ClockKeepsOrder(before, last);
      OrderChained(done, Finished(before, last.ready), Run(st, ins).queue, before.queue, st.queue,
                   ArrivedIn(ins[..n]), Entered(last.arrival));
    }
  }

  // --- What a commit leaves ---------------------------------------------------------------------------

  /** The last of the three results that goes to register r. */
  predicate WritesLast(i: Inst, r: nat, k: nat)
    requires Three(i)
  {
    k < 3 && i.rd[k] == Some(r) && forall j :: k < j < 3 ==> i.rd[j] != Some(r)
  }

  /** What a commit in one step leaves of PC and flags, for every thread. */
  lemma CommitSetsPc(arch: Arch, i: Inst, t: nat)
    requires Three(i)
    ensures var before, after := Of(arch, t), Of(Committed(arch, i), t);
      if i.tag == t && !i.undef && !i.exception then
        && after.pc == (if i.taken.Some? then i.taken.value else (before.pc + 4) % PC_LIMIT)
        && after.nzcv == (if i.nzcv.Some? then i.nzcv.value else before.nzcv)
      else after.pc == before.pc && after.nzcv == before.nzcv
  {
  }

  lemma WriteBackRegister(arch: Arch, i: Inst, k: nat, t: nat, r: nat)
    requires Three(i) && k < 3
    ensures var before, after := Of(arch, t).regs, Of(WriteBack(arch, i, k), t).regs;
      if t == i.tag && i.rd[k] == Some(r) then
        r in after && after[r] == if i.is32bit then i.res[k] % 0x1_0000_0000 else i.res[k]
      else (r in after <==> r in before) && (r in after ==> after[r] == before[r])
  {
  }

  lemma RetireKeepsRegisters(arch: Arch, i: Inst, t: nat)
    ensures Of(Retire(arch, i), t).regs == Of(arch, t).regs
  {
  }

  /** ... and of the registers: the last result for a register is in it, cut to 32 bits for a 32-bit
      instruction; all other registers, and all other threads', are left alone. */
  lemma CommitSetsRegister(arch: Arch, i: Inst, t: nat, r: nat)
    requires Three(i)
    ensures var before, after := Of(arch, t).regs, Of(Committed(arch, i), t).regs;
      && (forall k: nat :: t == i.tag && WritesLast(i, r, k) ==>
            r in after && after[r] == if i.is32bit then i.res[k] % 0x1_0000_0000 else i.res[k])
      && (t != i.tag || (forall k :: 0 <= k < 3 ==> i.rd[k] != Some(r)) ==>
            (r in after <==> r in before) && (r in after ==> after[r] == before[r]))
  {
    var one := WriteBack(arch, i, 0);
    var two := WriteBack(one, i, 1);
    WriteBackRegister(arch, i, 0, t, r);
    WriteBackRegister(one, i, 1, t, r);
    WriteBackRegister(two, i, 2, t, r);
    RetireKeepsRegisters(WriteBack(two, i, 2), i, t);
  }

  /** PC and flags change in the clock of the commit only, and for its thread only. */
  lemma ClockLeaves(st: State, ready: bool, arrival: Option<Inst>, t: nat)
    requires Ok(st) && (arrival.Some? ==> Three(arrival.value))
    ensures var before, after := Of(st.arch, t), Of(Next(st, ready, arrival).arch, t);
      if Commits(st, ready) && st.queue[0].tag == t && !st.queue[0].undef && !st.queue[0].exception then
        var i := st.queue[0];
        && after.pc == (if i.taken.Some? then i.taken.value else (before.pc + 4) % PC_LIMIT)
        && after.nzcv == (if i.nzcv.Some? then i.nzcv.value else before.nzcv)
      else after.pc == before.pc && after.nzcv == before.nzcv
    ensures (st.queue == [] || st.queue[0].tag != t) ==> Of(Next(st, ready, arrival).arch, t) == Of(st.arch, t)
  {
  }

  /** The instruction belongs to the thread and was not handed to the host. */
  predicate Retired(i: Inst, t: nat) {
    i.tag == t && !i.undef && !i.exception
  }

  function RetiredCount(insts: seq<Inst>, t: nat): nat {
    if insts == [] then 0
    else RetiredCount(insts[..|insts| - 1], t) + (if Retired(insts[|insts| - 1], t) then 1 else 0)
  }

  predicate NoBranch(insts: seq<Inst>, t: nat) {
    forall k :: 0 <= k < |insts| && Retired(insts[k], t) ==> insts[k].taken.None?
  }

  predicate LastBranch(insts: seq<Inst>, t: nat, k: nat) {
    && k < |insts| && Retired(insts[k], t) && insts[k].taken.Some?
    && forall j :: k < j < |insts| && Retired(insts[j], t) ==> insts[j].taken.None?
  }

  predicate LastFlags(insts: seq<Inst>, t: nat, k: nat) {
    && k < |insts| && Retired(insts[k], t) && insts[k].nzcv.Some?
    && forall j :: k < j < |insts| && Retired(insts[j], t) ==> insts[j].nzcv.None?
  }

  lemma FourMore(x: nat, l: nat)
    requires l > 4
    ensures (x % l + 4) % l == (x + 4) % l
  {
    Wrap(x % l + 4, l);
    var r := (x % l + 4) % l;
    var q := if x % l + 4 < l then x / l else x / l + 1;
    DivModOfSum(l, q, r);
    assert q * l + r == x + 4;
  }

  /** The PC after k further instructions without a branch. */
  function Ahead(pc: nat, k: nat): nat {
    (pc + 4 * k) % PC_LIMIT
  }

  /** The PC of the following instruction. */
  function Following(pc: nat): nat {
    (pc + 4) % PC_LIMIT
  }

  lemma OneAhead(pc: nat, k: nat)
    ensures Following(Ahead(pc, k)) == Ahead(pc, k + 1)
  {
    FourMore(pc + 4 * k, PC_LIMIT);
  }

  /** The last committed instruction's effect on PC and flags of a thread. */
  lemma LastCommitSetsPc(arch: Arch, insts: seq<Inst>, t: nat)
    requires insts != [] && forall k :: 0 <= k < |insts| ==> Three(insts[k])
    ensures var i := insts[|insts| - 1];
      var before, after := Of(AllCommitted(arch, insts[..|insts| - 1]), t), Of(AllCommitted(arch, insts), t);
      if Retired(i, t) then
        && after.pc == (if i.taken.Some? then i.taken.value else Following(before.pc))
        && after.nzcv == (if i.nzcv.Some? then i.nzcv.value else before.nzcv)
      else after.pc == before.pc && after.nzcv == before.nzcv
  {
    CommitSetsPc(AllCommitted(arch, insts[..|insts| - 1]), insts[|insts| - 1], t);
  }

  lemma {:induction false} StraightOn(arch: Arch, insts: seq<Inst>, t: nat)
    requires forall k :: 0 <= k < |insts| ==> Three(insts[k])
    requires NoBranch(insts, t) && Of(arch, t).pc < PC_LIMIT
    ensures Of(AllCommitted(arch, insts), t).pc == Ahead(Of(arch, t).pc, RetiredCount(insts, t))
  {
    if insts == [] {
    } else {
      var before := insts[..|insts| - 1];
      StraightOn(arch, before, t);
      LastCommitSetsPc(arch, insts, t);
      OneAhead(Of(arch, t).pc, RetiredCount(before, t));
    }
  }

  lemma CountOneMore(insts: seq<Inst>, k: nat, t: nat)
    requires k < |insts|
    ensures RetiredCount(insts[k..], t) ==
      RetiredCount(insts[..|insts| - 1][k..], t) + (if Retired(insts[|insts| - 1], t) then 1 else 0)
  {
    assert insts[k..][..|insts| - k - 1] == insts[..|insts| - 1][k..];
  }

  lemma {:induction false} FromLastBranch(arch: Arch, insts: seq<Inst>, t: nat, k: nat)
    requires forall j :: 0 <= j < |insts| ==> Three(insts[j])
    requires LastBranch(insts, t, k) && insts[k].taken.value < PC_LIMIT
    ensures Of(AllCommitted(arch, insts), t).pc == Ahead(insts[k].taken.value, RetiredCount(insts[k + 1..], t))
  {
    var before := insts[..|insts| - 1];
    LastCommitSetsPc(arch, insts, t);
    if k < |before| {
      FromLastBranch(arch, before, t, k);
      CountOneMore(insts, k + 1, t);
      OneAhead(insts[k].taken.value, RetiredCount(before[k + 1..], t));
    } else {
      assert insts[k + 1..] == [];
    }
  }

  lemma {:induction false} FlagsOfLast(arch: Arch, insts: seq<Inst>, t: nat, k: nat)
    requires forall j :: 0 <= j < |insts| ==> Three(insts[j])
    requires LastFlags(insts, t, k)
    ensures Of(AllCommitted(arch, insts), t).nzcv == insts[k].nzcv.value
  {
    var before := insts[..|insts| - 1];
    LastCommitSetsPc(arch, insts, t);
    if k < |before| {
      FlagsOfLast(arch, before, t, k);
    }
  }

  lemma PartlyKeeps(arch: Arch, i: Inst, wb: nat, t: nat)
    requires Three(i) && wb < 3
    ensures Of(Partly(arch, i, wb), t).pc == Of(arch, t).pc && Of(Partly(arch, i, wb), t).nzcv == Of(arch, t).nzcv
  {
  }

  lemma RunStandsFor(st: State, ins: seq<Input>, t: nat)
    requires Ok(st) && st.wb == 0 && Inputs(ins)
    ensures var now, done := Of(Run(st, ins).arch, t), Of(AllCommitted(st.arch, CommittedIn(st, ins)), t);
      now.pc == done.pc && now.nzcv == done.nzcv
  {
    var last := Run(st, ins);
    CommitsInOrder(st, ins);
    if last.queue != [] {
      PartlyKeeps(AllCommitted(st.arch, CommittedIn(st, ins)), last.queue[0], last.wb, t);
    }
  }

  /** Main result: after any number of cycles, with any stalls, the PC of a thread without a taken branch is
      the one it started with plus four for each instruction it has retired ... */
  lemma PcRunsStraight(st: State, ins: seq<Input>, t: nat)
    requires Ok(st) && st.wb == 0 && Inputs(ins)
    requires NoBranch(CommittedIn(st, ins), t) && Of(st.arch, t).pc < PC_LIMIT
    ensures Of(Run(st, ins).arch, t).pc == Ahead(Of(st.arch, t).pc, RetiredCount(CommittedIn(st, ins), t))
  {
    RunStandsFor(st, ins, t);
    StraightOn(st.arch, CommittedIn(st, ins), t);
  }

  /** ... else it is the target of the last taken branch plus four for each one retired since ... */
  lemma PcFollowsBranch(st: State, ins: seq<Input>, t: nat, k: nat)
    requires Ok(st) && st.wb == 0 && Inputs(ins)
    requires LastBranch(CommittedIn(st, ins), t, k) && CommittedIn(st, ins)[k].taken.value < PC_LIMIT
    ensures var done := CommittedIn(st, ins);
      Of(Run(st, ins).arch, t).pc == Ahead(done[k].taken.value, RetiredCount(done[k + 1..], t))
  {
    RunStandsFor(st, ins, t);
    FromLastBranch(st.arch, CommittedIn(st, ins), t, k);
  }

  /** ... and its flags are those of the last retired instruction that sets any. */
  lemma FlagsFollowCommits(st: State, ins: seq<Input>, t: nat, k: nat)
    requires Ok(st) && st.wb == 0 && Inputs(ins) && LastFlags(CommittedIn(st, ins), t, k)
    ensures Of(Run(st, ins).arch, t).nzcv == CommittedIn(st, ins)[k].nzcv.value
  {
    RunStandsFor(st, ins, t);
    FlagsOfLast(st.arch, CommittedIn(st, ins), t, k);
  }

  // --- Base-register writeback ----------------------------------------------------------------------

  /** A load or store that writes its address back carries the access width, as its results do. */
  function AddressWriteback(tag: nat, base: nat, address: nat, size: nat): Inst {
    Inst(tag, [Some(base), None, None], [address, 0, 0], None, None, false, false, size != 3)
  }

  /** The base register receives the address exactly when the access is 8 bytes wide or the address
      fits in 32 bits. */
  lemma AddressKeptIff(arch: Arch, tag: nat, base: nat, address: nat, size: nat)
    requires size <= 3 && address < LOW * LOW
    ensures Of(Committed(arch, AddressWriteback(tag, base, address, size)), tag).regs[base] == address
      <==> size == 3 || address < LOW
  {
  }
}

/** The replacement bits of all sets in one memory: a set's bits are read one cycle before they are
    used, and written back, changed by the replacement core, at the end of the cycle they are used in. */
module SetLru {
  import opened Wrappers

  /** Memory, the set read in the last cycle, and what was read. */
  datatype State<E> = State(mem: seq<E>, addr: nat, read: E)

  /** The set looked up in this cycle, and the way used in the set looked up in the last one. */
  datatype Input = Input(addr: nat, used: Option<nat>)

  predicate Ok<E>(st: State<E>) {
    st.addr < |st.mem|
  }

  /** A read in the cycle of a write returns the bits before it. */
  function Next<E>(update: (E, nat) -> E, st: State<E>, i: Input): (st': State<E>)
    requires Ok(st) && i.addr < |st.mem|
    ensures Ok(st') && |st'.mem| == |st.mem|
  {
    State(if i.used.Some? then st.mem[st.addr := update(st.read, i.used.value)] else st.mem, i.addr, st.mem[i.addr])
  }

  class SetLru<E> {
    const update: (E, nat) -> E
    var bram: seq<E>
    var addrS1: nat
    var portA: E

    function Contents(): State<E>
      reads this
    {
      State(bram, addrS1, portA)
    }

    constructor (update: (E, nat) -> E, initial: seq<E>)
      requires initial != []
      ensures this.update == update && Contents() == State(initial, 0, initial[0])
    {
      this.update, bram, addrS1, portA := update, initial, 0, initial[0];
    }

    /** One clock; `encoding` is what the replacement core chooses the victim by. */
    method Clock(i: Input) returns (encoding: E)
      requires Ok(Contents()) && i.addr < |bram|
      modifies this
      ensures encoding == old(portA) && Contents() == Next(update, old(Contents()), i) && Ok(Contents())
    {
      encoding := portA;
      var out := bram[i.addr];
      if i.used.Some? {
        bram := bram[addrS1 := update(encoding, i.used.value)];
      }
      addrS1, portA := i.addr, out;
    }
  }

  /** The bits presented are those of the set. */
  predicate Fresh<E(==)>(st: State<E>)
    requires Ok(st)
  {
    st.read == st.mem[st.addr]
  }

  /** The next use sees the set's bits unless it is of the same set and this use changed them. */
  lemma FreshIff<E>(update: (E, nat) -> E, st: State<E>, i: Input)
    requires Ok(st) && i.addr < |st.mem|
    ensures Fresh(Next(update, st, i)) <==>
      !(i.used.Some? && i.addr == st.addr && update(st.read, i.used.value) != st.mem[st.addr])
  {
  }

  function Run<E>(update: (E, nat) -> E, st: State<E>, ins: seq<Input>): (st': State<E>)
    requires Ok(st) && forall k :: 0 <= k < |ins| ==> ins[k].addr < |st.mem|
    ensures Ok(st') && |st'.mem| == |st.mem|
  {
    if ins == [] then st else Next(update, Run(update, st, ins[..|ins| - 1]), ins[|ins| - 1])
  }

  /** The set used in the n-th cycle: the one looked up in the cycle before. */
  function UsedSet(first: nat, ins: seq<Input>, n: nat): nat
    requires n < |ins|
  {
    if n == 0 then first else ins[n - 1].addr
  }

  /** The ways used in one set, in order. */
  function Uses(first: nat, ins: seq<Input>, s: nat): seq<nat> {
    if ins == [] then []
    else
      var n := |ins| - 1;
      Uses(first, ins[..n], s)
        + if ins[n].used.Some? && UsedSet(first, ins, n) == s then [ins[n].used.value] else []
  }

  function Folded<E>(update: (E, nat) -> E, e: E, uses: seq<nat>): E {
    if uses == [] then e else update(Folded(update, e, uses[..|uses| - 1]), uses[|uses| - 1])
  }

  /** No set is looked up again in the cycle one of its ways is used. */
  ghost predicate Spaced(first: nat, ins: seq<Input>) {
    forall n :: 0 <= n < |ins| && ins[n].used.Some? ==> ins[n].addr != UsedSet(first, ins, n)
  }

  lemma UsedSetOfPrefix(first: nat, ins: seq<Input>, n: nat)
    requires n < |ins| - 1
    ensures UsedSet(first, ins[..|ins| - 1], n) == UsedSet(first, ins, n)
  {
  }

  /** Main result: in such a run the bits presented are always the set's, and every set's bits are those
      of its own uses, all of them in order, as if the set had a replacement core of its own. */
  lemma {:induction false} SetsIndependent<E>(update: (E, nat) -> E, st: State<E>, ins: seq<Input>, s: nat)
    requires Ok(st) && Fresh(st) && s < |st.mem|
    requires forall k :: 0 <= k < |ins| ==> ins[k].addr < |st.mem|
    requires Spaced(st.addr, ins)
    ensures var st' := Run(update, st, ins);
      && Fresh(st')
      && st'.addr == (if ins == [] then st.addr else ins[|ins| - 1].addr)
      && st'.mem[s] == Folded(update, st.mem[s], Uses(st.addr, ins, s))
  {
    if ins == [] {
    } else {
      var n := |ins| - 1;
      var before, last := ins[..n], ins[n];
      forall k | 0 <= k < n && before[k].used.Some? ensures before[k].addr != UsedSet(st.addr, before, k) {
        UsedSetOfPrefix(st.addr, ins, k);
      }
      SetsIndependent(update, st, before, s);
      FreshIff(update, Run(update, st, before), last);
      var uses := Uses(st.addr, before, s);
      if last.used.Some? && UsedSet(st.addr, ins, n) == s {
        assert Uses(st.addr, ins, s) == uses + [last.used.value];
        assert (uses + [last.used.value])[..|uses|] == uses;
      } else {
        assert Uses(st.addr, ins, s) == uses + [] == uses;
      }
    }
  }

  /** Two uses of one set in consecutive cycles: the second is based on the bits before the first, which
      is forgotten. */
  lemma FirstUseForgotten<E>(update: (E, nat) -> E, st: State<E>, way0: nat, way1: nat, next: nat)
    requires Ok(st) && Fresh(st) && next < |st.mem|
    ensures var e := st.mem[st.addr];
      Run(update, st, [Input(st.addr, Some(way0)), Input(next, Some(way1))]).mem[st.addr] == update(e, way1)
  {
    var ins := [Input(st.addr, Some(way0)), Input(next, Some(way1))];
    var first := ins[..1];
    assert first == [ins[0]] && first[..0] == [];
    assert Run(update, st, first[..0]) == st;
    assert Run(update, st, first) == Next(update, st, ins[0]);
    assert Run(update, st, ins) == Next(update, Run(update, st, first), ins[1]);
  }
}

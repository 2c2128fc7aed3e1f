/** What happens when a guard of the refinement is not kept: for each branch of each guard the exact
    condition under which the step is harmless anyway. */
module CacheGuards {
  import opened Wrappers
  import opened CacheEntry
  import opened Databank
  import opened Cache
  import opened CacheInvariant
  import opened CacheRefinement

  /** (a) Flushing a cached block while misses on it are with the backend keeps every answer
      right exactly when each of those answers already equals what the cache held. */
  lemma FlushWhileWaitingIff(g: Geometry, st: State, addr: nat, victim: nat)
    requires Inv(g, st) && CanAccess(g, st, addr, victim) && Cached(g, st, addr)
    ensures RepliesFresh(g, Next(g, st, Flush(addr, victim))) <==>
      forall i :: 0 <= i < |st.refillQ| && st.refillQ[i].addr == addr ==> Served(st)[i] == View(g, st, addr)
  {
    var req := FlushRequest(addr);
    assert !req.wMask[0];
    var st' := Next(g, st, Flush(addr, victim));
    assert Served(st') == Served(st);
    forall i | 0 <= i < |st.refillQ|
      ensures var b := st.refillQ[i].addr;
        && Cached(g, st', b) == (b != addr && Cached(g, st, b))
        && (!Cached(g, st', b) ==> Backing(st', b) == View(g, st, b))
    {
      var b := st.refillQ[i].addr;
      CachedAfter(g, st, req, victim, b);
      ViewAfter(g, st, req, victim, b);
    }
  }

  /** (a) A refill that displaces a block with misses of its own behind it in the queue keeps every answer
      right exactly when each of those answers already equals what the cache held of that block. */
  lemma RefillPushesWaitingIff(g: Geometry, st: State, victim: nat)
    requires Inv(g, st) && Enabled(g, st, Refill(victim)) && !Cached(g, st, st.refillQ[0].addr)
    requires RowOf(g, st, st.refillQ[0].addr)[victim].v
    ensures var a := st.refillQ[0].addr;
      var b := Rebuild(g, RowOf(g, st, a)[victim].tag, SetIndex(g, a));
      RepliesFresh(g, Next(g, st, Refill(victim))) <==>
      forall i :: 0 < i < |st.refillQ| && st.refillQ[i].addr == b ==> Served(st)[i] == View(g, st, b)
  {
    var a := st.refillQ[0].addr;
    var b := Rebuild(g, RowOf(g, st, a)[victim].tag, SetIndex(g, a));
    var popped := st.(refillQ := st.refillQ[1..], replies := st.replies[1..]);
    PopKeepsInv(g, st);
    assert Served(popped) == Served(st)[1..];
    RefillServedIff(g, popped, RefillRequest(st.refillQ[0], st.replies[0]), victim, b);
    LaterAnswers(st.refillQ, Served(st), b, View(g, st, b));
  }

  ghost predicate AnswersAre(q: seq<Miss>, served: seq<Block>, b: nat, v: Block)
    requires |q| <= |served|
  {
    forall i :: 0 <= i < |q| && q[i].addr == b ==> served[i] == v
  }

  lemma LaterAnswers(q: seq<Miss>, served: seq<Block>, b: nat, v: Block)
    requires q != [] && |q| <= |served|
    ensures AnswersAre(q[1..], served[1..], b, v) <==>
      forall i :: 0 < i < |q| && q[i].addr == b ==> served[i] == v
  {
    if AnswersAre(q[1..], served[1..], b, v) {
      forall i | 0 < i < |q| && q[i].addr == b ensures served[i] == v {
        assert q[1..][i - 1] == q[i] && served[1..][i - 1] == served[i];
      }
    }
  }

  lemma RefillServedIff(g: Geometry, st: State, req: Request, victim: nat, b: nat)
    requires Inv(g, st) && CanAccess(g, st, req.addr, victim) && req.refill && !req.flush
    requires !Cached(g, st, req.addr) && RowOf(g, st, req.addr)[victim].v
    requires b == Rebuild(g, RowOf(g, st, req.addr)[victim].tag, SetIndex(g, req.addr))
    ensures RepliesFresh(g, Serve(g, st, req, victim)) <==> AnswersAre(st.refillQ, Served(st), b, View(g, st, b))
  {
    var st' := Serve(g, st, req, victim);
    VictimCached(g, st, req.addr, victim, b);
    forall i | 0 <= i < |st.refillQ| ensures Displaced(g, st, st', req.addr, b, st.refillQ[i].addr) {
      DisplacedOnly(g, st, req, victim, b, st.refillQ[i].addr);
    }
    FreshIff(g, st, st', req.addr, b);
  }

  lemma VictimCached(g: Geometry, st: State, addr: nat, victim: nat, b: nat)
    requires Inv(g, st) && CanAccess(g, st, addr, victim) && RowOf(g, st, addr)[victim].v
    requires b == Rebuild(g, RowOf(g, st, addr)[victim].tag, SetIndex(g, addr))
    ensures Cached(g, st, b)
  {
    var row := RowOf(g, st, addr);
    Split(g, addr);
    SplitBack(g, row[victim].tag, SetIndex(g, addr));
    assert HoldsAt(row, row[victim].tag, victim);
    HitMeansHeld(row, row[victim].tag);
  }

  /** After the refill a block is cached if it is the refilled one or was cached and not displaced; what
      lies behind an uncached block is what was seen of it before. */
  ghost predicate Displaced(g: Geometry, st: State, st': State, a: nat, b: nat, c: nat)
    requires g.sets > 0
  {
    && Cached(g, st', c) == (c == a || (c != b && Cached(g, st, c)))
    && (!Cached(g, st', c) ==> Backing(st', c) == View(g, st, c))
  }

  lemma FreshIff(g: Geometry, st: State, st': State, a: nat, b: nat)
    requires g.sets > 0 && RepliesFresh(g, st) && a != b
    requires st'.refillQ == st.refillQ && Served(st') == Served(st)
    requires forall i :: 0 <= i < |st.refillQ| ==> Displaced(g, st, st', a, b, st.refillQ[i].addr)
    ensures RepliesFresh(g, st') <==>
      AnswersAre(st.refillQ, Served(st), b, View(g, st, b))
  {
  }

  lemma DisplacedOnly(g: Geometry, st: State, req: Request, victim: nat, b: nat, c: nat)
    requires Inv(g, st) && CanAccess(g, st, req.addr, victim) && req.refill && !req.flush
    requires !Cached(g, st, req.addr) && RowOf(g, st, req.addr)[victim].v
    requires b == Rebuild(g, RowOf(g, st, req.addr)[victim].tag, SetIndex(g, req.addr))
    ensures Displaced(g, st, Serve(g, st, req, victim), req.addr, b, c)
  {
    var row := RowOf(g, st, req.addr);
    Split(g, c);
    Split(g, req.addr);
    SplitBack(g, row[victim].tag, SetIndex(g, req.addr));
    assert HoldsAt(row, row[victim].tag, victim);
    HitMeansHeld(row, row[victim].tag);
    CachedAfter(g, st, req, victim, c);
    ViewAfter(g, st, req, victim, c);
  }

  // --- In reached states: what the dirty bit tells -----------------------------------------------------

  /** The victim's entry is clean or what lies behind the cache is the same. */
  predicate SafeVictim(g: Geometry, st: State, addr: nat, victim: nat)
    requires CanAccess(g, st, addr, victim)
  {
    var e := RowOf(g, st, addr)[victim];
    !e.d || e.data == Backing(st, Rebuild(g, e.tag, SetIndex(g, addr)))
  }

  lemma FlushSeen(g: Geometry, st: State, addr: nat, victim: nat)
    requires Inv(g, st) && CanAccess(g, st, addr, victim)
    ensures StepIsFlat(g, st, Flush(addr, victim)) <==> RepliesFresh(g, Next(g, st, Flush(addr, victim)))
  {
    assert !FlushRequest(addr).wMask[0];
    ServeKeepsClean(g, st, FlushRequest(addr), victim);
    forall a: nat ensures View(g, Next(g, st, Flush(addr, victim)), a) == View(g, st, a) {
      ViewAfter(g, st, FlushRequest(addr), victim, a);
    }
  }

  /** (a) With all answers current, as they are in every reached state, a flush is a step of the flat memory
      exactly when the block is not cached, not waited for, clean, or equal to memory. */
  lemma FlushHarmlessIff(g: Geometry, st: State, addr: nat, victim: nat)
    requires Inv(g, st) && RepliesCurrent(st) && CanAccess(g, st, addr, victim)
    ensures StepIsFlat(g, st, Flush(addr, victim)) <==>
      || !Cached(g, st, addr) || !Waiting(st.refillQ, addr)
      || SafeVictim(g, st, addr, HitWay(RowOf(g, st, addr), TagOf(g, addr)))
  {
    var w := HitWay(RowOf(g, st, addr), TagOf(g, addr));
    if !Cached(g, st, addr) {
      FlushStep(g, st, addr, victim);
    } else {
      HitMeansHeld(RowOf(g, st, addr), TagOf(g, addr));
      VictimSeen(g, st, addr, w);
      Split(g, addr);
      FlushSeen(g, st, addr, victim);
      FlushWhileWaitingIff(g, st, addr, victim);
    }
  }

  lemma RefillSeen(g: Geometry, st: State, victim: nat)
    requires Inv(g, st) && Enabled(g, st, Refill(victim))
    ensures StepIsFlat(g, st, Refill(victim)) <==> RepliesFresh(g, Next(g, st, Refill(victim)))
  {
    var popped := st.(refillQ := st.refillQ[1..], replies := st.replies[1..]);
    var req := RefillRequest(st.refillQ[0], st.replies[0]);
    PopKeepsInv(g, st);
    RefillReply(g, st, victim);
    assert !Cached(g, st, req.addr) ==> Served(st)[0] == Backing(st, req.addr);
    ServeKeepsClean(g, popped, req, victim);
    forall a: nat
      ensures View(g, Next(g, st, Refill(victim)), a) == WrittenView(g, st, Completed(g, st, Refill(victim)), a)
    {
      ViewAfter(g, popped, req, victim, a);
    }
  }

  /** (a) ... and a refill, exactly when it hits, or the block it displaces is not waited for, clean, or equal
      to memory. */
  lemma RefillHarmlessIff(g: Geometry, st: State, victim: nat)
    requires Inv(g, st) && RepliesCurrent(st) && Enabled(g, st, Refill(victim))
    ensures var a := st.refillQ[0].addr;
      var v := Rebuild(g, RowOf(g, st, a)[victim].tag, SetIndex(g, a));
      StepIsFlat(g, st, Refill(victim)) <==>
        Cached(g, st, a) || !Waiting(st.refillQ[1..], v) || SafeVictim(g, st, a, victim)
  {
    var a := st.refillQ[0].addr;
    VictimSeen(g, st, a, victim);
    if Cached(g, st, a) || !RowOf(g, st, a)[victim].v {
      RefillStep(g, st, victim);
    } else {
      RefillSeen(g, st, victim);
      RefillPushesWaitingIff(g, st, victim);
      WaitingLater(st.refillQ, Rebuild(g, RowOf(g, st, a)[victim].tag, SetIndex(g, a)));
    }
  }

  lemma WaitingLater(q: seq<Miss>, v: nat)
    requires q != []
    ensures Waiting(q[1..], v) <==> exists i :: 0 < i < |q| && q[i].addr == v
  {
    if i :| 0 < i < |q| && q[i].addr == v {
      assert q[1..][i - 1].addr == v;
    }
  }

  /** A valid victim's block is not the one that misses, and is seen as its entry says. */
  lemma VictimSeen(g: Geometry, st: State, addr: nat, victim: nat)
    requires Inv(g, st) && CanAccess(g, st, addr, victim)
    ensures var e := RowOf(g, st, addr)[victim];
      var v := Rebuild(g, e.tag, SetIndex(g, addr));
      && (e.d ==> e.v)
      && (e.v ==> Cached(g, st, v) && View(g, st, v) == e.data)
      && (e.v && !e.d ==> e.data == Backing(st, v))
      && (e.v && !Cached(g, st, addr) ==> v != addr)
  {
    var row := RowOf(g, st, addr);
    var e := row[victim];
    Split(g, addr);
    SplitBack(g, e.tag, SetIndex(g, addr));
    if e.v {
      assert HoldsAt(row, e.tag, victim);
      HitMeansHeld(row, e.tag);
    }
  }

  /** (b) Sending a read past the waiting writebacks keeps every answer right exactly when the block is
      cached, or the requests already with the backend leave it at its current value. */
  lemma ReadAheadIff(g: Geometry, st: State)
    requires Inv(g, st) && st.missQ != []
    ensures StepIsFlat(g, st, MergeRead) <==> RepliesFresh(g, Next(g, st, MergeRead))
    ensures var a := st.missQ[0].addr;
      RepliesFresh(g, Next(g, st, MergeRead)) <==>
      Cached(g, st, a) || Settle(st.backendQ, a, Get(st.dram, a)) == View(g, st, a)
  {
    var a := st.missQ[0].addr;
    var st' := Next(g, st, MergeRead);
    RepliesAppend(st.backendQ, Read(a), st.dram);
    assert Served(st') == Served(st) + [Settle(st.backendQ, a, Get(st.dram, a))];
    forall b: nat ensures Backing(st', b) == Backing(st, b) {
      MergeReadFresh(g, st, b);
    }
    var n := |st.refillQ|;
    assert st'.refillQ[n].addr == a && Served(st')[n] == Settle(st.backendQ, a, Get(st.dram, a));
    forall i | 0 <= i < n ensures st'.refillQ[i] == st.refillQ[i] && Served(st')[i] == Served(st)[i] {
    }
  }

  /** (c) An all-ones write leaves the bank and the miss queue as a refill with the same write does, but
      queues no writeback. */
  lemma FullWriteAsRefill(g: Geometry, st: State, addr: nat, wData: Block, wMask: Block, victim: nat)
    requires CanAccess(g, st, addr, victim) && AndR(wMask)
    ensures Next(g, st, Pipeline(addr, wData, wMask, victim)) ==
      Serve(g, st, RefillRequest(Miss(addr, wData, wMask), ZeroBlock()), victim).(writebackQ := st.writebackQ)
  {
    var row, tag := RowOf(g, st, addr), TagOf(g, addr);
    var e := if Hit(row, tag) then row[HitWay(row, tag)].data else ZeroBlock();
    MergeAll(row[HitWay(row, tag)].data, wData, wMask);
    MergeAll(e, wData, wMask);
  }

  lemma MergeAll(prev: Block, data: Block, mask: Block)
    requires AndR(mask)
    ensures Merge(prev, data, mask) == data && OrR(mask)
  {
    assert mask[0];
  }

  lemma FullWriteKeepsInv(g: Geometry, st: State, addr: nat, wData: Block, wMask: Block, victim: nat)
    requires Inv(g, st) && RepliesCurrent(st) && CanAccess(g, st, addr, victim) && AndR(wMask)
    ensures Inv(g, Next(g, st, Pipeline(addr, wData, wMask, victim)))
  {
    var req := RefillRequest(Miss(addr, wData, wMask), ZeroBlock());
    var st' := Next(g, st, Pipeline(addr, wData, wMask, victim));
    FullWriteAsRefill(g, st, addr, wData, wMask, victim);
    ServeShape(g, st, req, victim);
    MergeAll(ZeroBlock(), wData, wMask);
    forall s, w | 0 <= s < |st'.bank| && 0 <= w < |st'.bank[s]| && st'.bank[s][w].v && !st'.bank[s][w].d
      ensures st'.bank[s][w] == st.bank[s][w]
    {
      HitMeansHeld(RowOf(g, st, addr), TagOf(g, addr));
    }
    assert Served(st') == Served(st);
  }

  /** What is seen of a block after an all-ones write: what lay behind the cache, if it was pushed out. */
  lemma FullWriteView(g: Geometry, st: State, addr: nat, wData: Block, wMask: Block, victim: nat, b: nat)
    requires Inv(g, st) && CanAccess(g, st, addr, victim) && AndR(wMask)
    ensures var req := RefillRequest(Miss(addr, wData, wMask), ZeroBlock());
      View(g, Next(g, st, Pipeline(addr, wData, wMask, victim)), b) ==
      if b == addr then wData
      else if PushesOut(g, st, req, victim, b) then Backing(st, b)
      else View(g, st, b)
  {
    var req := RefillRequest(Miss(addr, wData, wMask), ZeroBlock());
    FullWriteAsRefill(g, st, addr, wData, wMask, victim);
    CachedAfter(g, st, req, victim, b);
    MergeAll(ZeroBlock(), wData, wMask);
    if Cached(g, st, addr) {
      MergeAll(View(g, st, addr), wData, wMask);
    }
  }

  /** (c) An all-ones write keeps the invariant in every reached state. All blocks are seen as the write leaves them
      exactly when it hits, or the entry it displaces is clean or equal to memory. */
  lemma FullWriteHarmlessIff(g: Geometry, st: State, addr: nat, wData: Block, wMask: Block, victim: nat)
    requires Inv(g, st) && CanAccess(g, st, addr, victim) && AndR(wMask)
    ensures var st' := Next(g, st, Pipeline(addr, wData, wMask, victim));
      && (RepliesCurrent(st) ==> Inv(g, st'))
      && ((forall b: nat ::
             View(g, st', b) == if b == addr then Merge(View(g, st, b), wData, wMask) else View(g, st, b))
          <==> Cached(g, st, addr) || SafeVictim(g, st, addr, victim))
  {
    var st' := Next(g, st, Pipeline(addr, wData, wMask, victim));
    if RepliesCurrent(st) {
      FullWriteKeepsInv(g, st, addr, wData, wMask, victim);
    }
    MergeAll(View(g, st, addr), wData, wMask);
    VictimSeen(g, st, addr, victim);
    var e := RowOf(g, st, addr)[victim];
    var v := Rebuild(g, e.tag, SetIndex(g, addr));
    var req := RefillRequest(Miss(addr, wData, wMask), ZeroBlock());
    forall b: nat
      ensures View(g, st', b) ==
        if b == addr then wData else if PushesOut(g, st, req, victim, b) then Backing(st, b) else View(g, st, b)
      ensures PushesOut(g, st, req, victim, b) <==> !Cached(g, st, addr) && e.v && b == v
    {
      FullWriteView(g, st, addr, wData, wMask, victim, b);
      PushesOutVictim(g, st, req, victim, b);
    }
  }

  /** A refill pushes out the block of its victim, and no other. */
  lemma PushesOutVictim(g: Geometry, st: State, req: Request, victim: nat, b: nat)
    requires Inv(g, st) && CanAccess(g, st, req.addr, victim) && req.refill
    ensures var e := RowOf(g, st, req.addr)[victim];
      PushesOut(g, st, req, victim, b) <==>
      !Cached(g, st, req.addr) && e.v && b == Rebuild(g, e.tag, SetIndex(g, req.addr))
  {
    var row := RowOf(g, st, req.addr);
    Split(g, b);
    Split(g, req.addr);
    SplitBack(g, row[victim].tag, SetIndex(g, req.addr));
  }
}

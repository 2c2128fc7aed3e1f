/** Every guarded step keeps the cache invariant, and what each step does to the view. */
module CacheInvariant {
  import opened Wrappers
  import opened CacheEntry
  import opened Databank
  import opened Cache

  // --- Backend queue arithmetic -----------------------------------------------------------

  lemma {:induction false} SettleAppend(q: seq<BackendRequest>, r: BackendRequest, addr: nat, data: Block)
    ensures Settle(q + [r], addr, data) ==
      if r.Write? && r.addr == addr then r.data else Settle(q, addr, data)
  {
    if q == [] {
      assert q + [r] == [r];
      assert Settle([r], addr, data) == Settle([], addr, if r.Write? && r.addr == addr then r.data else data);
    } else {
      assert (q + [r])[1..] == q[1..] + [r];
      SettleAppend(q[1..], r, addr, if q[0].Write? && q[0].addr == addr then q[0].data else data);
    }
  }

  /** Without a write to the block, the queue leaves it alone. */
  lemma {:induction false} SettleUntouched(q: seq<BackendRequest>, w: seq<BackendRequest>, addr: nat, data: Block)
    requires forall i :: 0 <= i < |w| ==> !(w[i].Write? && w[i].addr == addr)
    ensures Settle(q + w, addr, data) == Settle(q, addr, data)
  {
    if w == [] {
      assert q + w == q;
    } else {
      var n := |w| - 1;
      assert q + w == (q + w[..n]) + [w[n]];
      SettleAppend(q + w[..n], w[n], addr, data);
      SettleUntouched(q, w[..n], addr, data);
    }
  }

  lemma {:induction false} RepliesAppend(q: seq<BackendRequest>, r: BackendRequest, mem: Memory)
    ensures PendingReplies(q + [r], mem) ==
      PendingReplies(q, mem) + (if r.Read? then [Settle(q, r.addr, Get(mem, r.addr))] else [])
  {
    if q == [] {
      assert q + [r] == [r];
      assert [r][1..] == [];
    } else {
      assert (q + [r])[1..] == q[1..] + [r];
      var mem' := if q[0].Write? then mem[q[0].addr := q[0].data] else mem;
      RepliesAppend(q[1..], r, mem');
      assert Settle(q, r.addr, Get(mem, r.addr)) == Settle(q[1..], r.addr, Get(mem', r.addr));
    }
  }

  /** A new writeback changes what lies behind the cache for its own block only. */
  lemma BackingAfterWriteback(st: State, wb: WriteBack, addr: nat)
    ensures Backing(st.(writebackQ := st.writebackQ + [wb]), addr) ==
      if wb.addr == addr then wb.data else Backing(st, addr)
  {
    var r := BackendRequest.Write(wb.addr, wb.data);
    assert st.backendQ + AsWrites(st.writebackQ + [wb]) == (st.backendQ + AsWrites(st.writebackQ)) + [r];
    SettleAppend(st.backendQ + AsWrites(st.writebackQ), r, addr, Get(st.dram, addr));
  }

  // --- Steps of the backend ---------------------------------------------------------------

  lemma MergeWriteSame(g: Geometry, st: State, addr: nat)
    requires st.writebackQ != []
    ensures Backing(Next(g, st, MergeWrite), addr) == Backing(st, addr)
    ensures Served(Next(g, st, MergeWrite)) == Served(st)
  {
    var st' := Next(g, st, MergeWrite);
    var r := BackendRequest.Write(st.writebackQ[0].addr, st.writebackQ[0].data);
    assert st'.backendQ + AsWrites(st'.writebackQ) == st.backendQ + AsWrites(st.writebackQ);
    RepliesAppend(st.backendQ, r, st.dram);
  }

  lemma DramSame(g: Geometry, st: State, addr: nat)
    requires st.backendQ != []
    ensures Backing(Next(g, st, Step.Dram), addr) == Backing(st, addr)
    ensures Served(Next(g, st, Step.Dram)) == Served(st)
  {
    var st' := Next(g, st, Step.Dram);
    var all := st.backendQ + AsWrites(st.writebackQ);
    assert all[1..] == st'.backendQ + AsWrites(st'.writebackQ);
    assert Settle(all, addr, Get(st.dram, addr)) == Settle(all[1..], addr, Get(st'.dram, addr));
  }

  /** A read joins the backend behind every write of its block, so its answer is current. */
  lemma MergeReadFresh(g: Geometry, st: State, addr: nat)
    requires st.missQ != []
    ensures Backing(Next(g, st, MergeRead), addr) == Backing(st, addr)
    ensures !WritebackWaiting(st, st.missQ[0].addr) ==>
      Served(Next(g, st, MergeRead)) == Served(st) + [Backing(st, st.missQ[0].addr)]
  {
    var st' := Next(g, st, MergeRead);
    var a := st.missQ[0].addr;
    var w := AsWrites(st.writebackQ);
    RepliesAppend(st.backendQ, Read(a), st.dram);
    if !WritebackWaiting(st, a) {
      SettleUntouched(st.backendQ, w, a, Get(st.dram, a));
    }
    ReadIsNoWrite(st.backendQ, Read(a), w, addr, Get(st.dram, addr));
  }

  lemma {:induction false} ReadIsNoWrite(q: seq<BackendRequest>, r: BackendRequest, w: seq<BackendRequest>, addr: nat,
                                         data: Block)
    requires r.Read?
    ensures Settle((q + [r]) + w, addr, data) == Settle(q + w, addr, data)
  {
    if w == [] {
      assert (q + [r]) + w == q + [r] && q + w == q;
      SettleAppend(q, r, addr, data);
    } else {
      var n := |w| - 1;
      assert (q + [r]) + w == ((q + [r]) + w[..n]) + [w[n]];
      assert q + w == (q + w[..n]) + [w[n]];
      SettleAppend((q + [r]) + w[..n], w[n], addr, data);
      SettleAppend(q + w[..n], w[n], addr, data);
      ReadIsNoWrite(q, r, w[..n], addr, data);
    }
  }

  // --- Databank requests --------------------------------------------------------------------

  ghost predicate Served1(g: Geometry, st: State, req: Request, victim: nat) {
    && Shape(g, st) && RowsOk(st)
    && CanAccess(g, st, req.addr, victim)
    && (FullWriting(req) ==> req.refill && !req.flush)
  }

  /** The block the request pushes out of its row, if any. */
  ghost predicate PushesOut(g: Geometry, st: State, req: Request, victim: nat, addr: nat)
    requires CanAccess(g, st, req.addr, victim)
  {
    && SetIndex(g, addr) == SetIndex(g, req.addr)
    && Displaces(RowOf(g, st, req.addr), TagOf(g, req.addr), req, victim, TagOf(g, addr))
  }

  lemma CachedAfter(g: Geometry, st: State, req: Request, victim: nat, addr: nat)
    requires Served1(g, st, req, victim)
    ensures var row' := RowOf(g, Serve(g, st, req, victim), addr);
      Answer(row', TagOf(g, addr)) ==
      if addr != req.addr then
        (if PushesOut(g, st, req, victim, addr) then None else Answer(RowOf(g, st, addr), TagOf(g, addr)))
      else if req.flush then None
      else if Cached(g, st, addr) then
        Some(Merge(Answer(RowOf(g, st, addr), TagOf(g, addr)).value, req.wData, req.wMask))
      else if req.refill then Some(Merge(req.refillData, req.wData, req.wMask))
      else None
  {
    Split(g, addr);
    Split(g, req.addr);
    if SetIndex(g, addr) == SetIndex(g, req.addr) {
      AnswerAfter(g, RowOf(g, st, addr), req, victim, TagOf(g, addr));
    }
  }

  /** The writeback of a request: exactly when a dirty block leaves, under its own address,
      with the data the cache held for it. */
  lemma WritebackOf(g: Geometry, st: State, req: Request, victim: nat)
    requires Served1(g, st, req, victim)
    ensures var row := RowOf(g, st, req.addr);
      var wb := Access(g, row, req, victim).writeback;
      var hit := Hit(row, TagOf(g, req.addr));
      && (wb.Some? && req.flush ==> wb.value.addr == req.addr)
      && (wb.Some? && !req.flush ==> PushesOut(g, st, req, victim, wb.value.addr) && wb.value.addr != req.addr)
      && (wb.Some? ==> Answer(RowOf(g, st, wb.value.addr), TagOf(g, wb.value.addr)) == Some(wb.value.data))
      && (wb.Some? <==> if req.flush then hit && row[HitWay(row, TagOf(g, req.addr))].d
                        else req.refill && !hit && row[victim].d)
  {
    var row := RowOf(g, st, req.addr);
    var tag := TagOf(g, req.addr);
    var wb := Access(g, row, req, victim).writeback;
    Split(g, req.addr);
    HitMeansHeld(row, tag);
    if wb.Some? && !req.flush {
      SplitBack(g, row[victim].tag, SetIndex(g, req.addr));
      HitMeansHeld(row, row[victim].tag);
      assert HoldsAt(row, row[victim].tag, victim);
    }
  }

  lemma BackingAfter(g: Geometry, st: State, req: Request, victim: nat, addr: nat)
    requires CanAccess(g, st, req.addr, victim)
    ensures var wb := Access(g, RowOf(g, st, req.addr), req, victim).writeback;
      Backing(Serve(g, st, req, victim), addr) ==
      if wb.Some? && wb.value.addr == addr then wb.value.data else Backing(st, addr)
  {
    var wb := Access(g, RowOf(g, st, req.addr), req, victim).writeback;
    if wb.Some? {
      BackingAfterWriteback(st, wb.value, addr);
    }
  }

  /** A clean cached block can be dropped: what lies behind it is the same. */
  lemma CleanBacked(g: Geometry, st: State, addr: nat, w: nat)
    requires Shape(g, st) && RowsOk(st) && CleanAgrees(g, st)
    requires HoldsAt(RowOf(g, st, addr), TagOf(g, addr), w) && !RowOf(g, st, addr)[w].d
    ensures Answer(RowOf(g, st, addr), TagOf(g, addr)) == Some(Backing(st, addr))
  {
    Split(g, addr);
    HitMeansHeld(RowOf(g, st, addr), TagOf(g, addr));
    assert st.bank[SetIndex(g, addr)][w].v;
  }

  /** Only a hit or a refill of the block itself changes its view. */
  lemma ViewAfter(g: Geometry, st: State, req: Request, victim: nat, addr: nat)
    requires Served1(g, st, req, victim) && CleanAgrees(g, st)
    ensures View(g, Serve(g, st, req, victim), addr) ==
      if addr == req.addr && !req.flush && Cached(g, st, addr) then
        Merge(View(g, st, addr), req.wData, req.wMask)
      else if addr == req.addr && !req.flush && req.refill then
        Merge(req.refillData, req.wData, req.wMask)
      else View(g, st, addr)
  {
    var row := RowOf(g, st, req.addr);
    var tag := TagOf(g, req.addr);
    CachedAfter(g, st, req, victim, addr);
    WritebackOf(g, st, req, victim);
    BackingAfter(g, st, req, victim, addr);
    HitMeansHeld(row, tag);
    if addr != req.addr && PushesOut(g, st, req, victim, addr) {
      HitMeansHeld(row, row[victim].tag);
      assert HoldsAt(row, row[victim].tag, victim);
      if row[victim].d {
        Split(g, addr);
      } else {
        CleanBacked(g, st, addr, victim);
      }
    } else if addr == req.addr && req.flush && Hit(row, tag) && !row[HitWay(row, tag)].d {
      CleanBacked(g, st, addr, HitWay(row, tag));
    }
  }

  lemma ServeShape(g: Geometry, st: State, req: Request, victim: nat)
    requires Served1(g, st, req, victim)
    ensures Shape(g, Serve(g, st, req, victim)) && RowsOk(Serve(g, st, req, victim))
  {
    Split(g, req.addr);
    AccessKeepsRow(g, RowOf(g, st, req.addr), req, victim);
  }

  /** What a refill brings for a block that is not cached is the block's current value. */
  ghost predicate BringsCurrent(g: Geometry, st: State, req: Request)
    requires g.sets > 0
  {
    req.refill && !Cached(g, st, req.addr) ==> req.refillData == Backing(st, req.addr)
  }

  lemma CleanAfter(g: Geometry, st: State, req: Request, victim: nat, s: nat, w: nat)
    requires Served1(g, st, req, victim) && CleanAgrees(g, st) && BringsCurrent(g, st, req)
    requires var st' := Serve(g, st, req, victim);
      s < |st'.bank| && w < |st'.bank[s]| && st'.bank[s][w].v && !st'.bank[s][w].d
    ensures var st' := Serve(g, st, req, victim);
      st'.bank[s][w].data == Backing(st', Rebuild(g, st'.bank[s][w].tag, s))
  {
    var st' := Serve(g, st, req, victim);
    var e := st'.bank[s][w];
    var a := Rebuild(g, e.tag, s);
    ServeShape(g, st, req, victim);
    Split(g, req.addr);
    SplitBack(g, e.tag, s);
    HitMeansHeld(st'.bank[s], e.tag);
    assert HoldsAt(st'.bank[s], e.tag, w);
    assert Answer(RowOf(g, st', a), TagOf(g, a)) == Some(e.data);
    CachedAfter(g, st, req, victim, a);
    WritebackOf(g, st, req, victim);
    BackingAfter(g, st, req, victim, a);
    var row := RowOf(g, st, req.addr);
    HitMeansHeld(row, TagOf(g, req.addr));
    if e == st.bank[s][w] {
      assert st.bank[s][w].v;
      if a == req.addr {
        CleanBacked(g, st, a, w);
      }
    } else {
      NewEntry(g, st, req, victim, w);
    }
  }

  /** A clean entry that was not there before comes from a refill that wrote nothing on top. */
  lemma NewEntry(g: Geometry, st: State, req: Request, victim: nat, w: nat)
    requires Served1(g, st, req, victim) && BringsCurrent(g, st, req)
    requires var row := RowOf(g, st, req.addr);
      var row' := RowOf(g, Serve(g, st, req, victim), req.addr);
      w < |row| && row'[w] != row[w] && row'[w].v && !row'[w].d
    ensures !Cached(g, st, req.addr)
    ensures RowOf(g, Serve(g, st, req, victim), req.addr)[w] ==
      Entry(true, false, TagOf(g, req.addr), Backing(st, req.addr))
  {
    var row := RowOf(g, st, req.addr);
    HitMeansHeld(row, TagOf(g, req.addr));
    var base := if Hit(row, TagOf(g, req.addr)) then row[HitWay(row, TagOf(g, req.addr))].data else req.refillData;
    if !OrR(req.wMask) {
      MergeNothing(base, req.wData, req.wMask);
    }
  }

  /** A block waiting for a refill does not leave in this request. */
  ghost predicate LeavesQuietly(g: Geometry, st: State, req: Request, victim: nat)
    requires CanAccess(g, st, req.addr, victim) && g.sets > 0
  {
    forall i :: 0 <= i < |st.refillQ| && Cached(g, st, st.refillQ[i].addr) ==>
      Cached(g, Serve(g, st, req, victim), st.refillQ[i].addr)
  }

  lemma ServeKeepsClean(g: Geometry, st: State, req: Request, victim: nat)
    requires Served1(g, st, req, victim) && CleanAgrees(g, st) && BringsCurrent(g, st, req)
    ensures var st' := Serve(g, st, req, victim);
      Shape(g, st') && RowsOk(st') && CleanAgrees(g, st')
  {
    var st' := Serve(g, st, req, victim);
    ServeShape(g, st, req, victim);
    forall s, w | 0 <= s < |st'.bank| && 0 <= w < |st'.bank[s]| && st'.bank[s][w].v && !st'.bank[s][w].d
      ensures st'.bank[s][w].data == Backing(st', Rebuild(g, st'.bank[s][w].tag, s))
    {
      CleanAfter(g, st, req, victim, s, w);
    }
  }

  lemma ServeKeepsInv(g: Geometry, st: State, req: Request, victim: nat)
    requires Inv(g, st) && Served1(g, st, req, victim)
    requires BringsCurrent(g, st, req) && LeavesQuietly(g, st, req, victim)
    ensures Inv(g, Serve(g, st, req, victim))
  {
    var st' := Serve(g, st, req, victim);
    ServeKeepsClean(g, st, req, victim);
    assert Served(st') == Served(st);
    forall i | 0 <= i < |st'.refillQ| && !Cached(g, st', st'.refillQ[i].addr)
      ensures Served(st')[i] == Backing(st', st'.refillQ[i].addr)
    {
      WritebackOf(g, st, req, victim);
      BackingAfter(g, st, req, victim, st.refillQ[i].addr);
      assert !Cached(g, st, st.refillQ[i].addr);
    }
  }

  // --- Answers, also for cached blocks ----------------------------------------------------------

  /** Every answer on its way is what lies behind the cache, whether the block is cached or not. */
  ghost predicate RepliesCurrent(st: State) {
    && |Served(st)| == |st.refillQ|
    && forall i :: 0 <= i < |st.refillQ| ==> Served(st)[i] == Backing(st, st.refillQ[i].addr)
  }

  /** A block that is waited for stays, so it is not written back. */
  lemma ServeKeepsCurrent(g: Geometry, st: State, req: Request, victim: nat)
    requires Served1(g, st, req, victim) && LeavesQuietly(g, st, req, victim) && RepliesCurrent(st)
    ensures RepliesCurrent(Serve(g, st, req, victim))
  {
    var st' := Serve(g, st, req, victim);
    assert Served(st') == Served(st);
    forall i | 0 <= i < |st.refillQ| ensures Backing(st', st.refillQ[i].addr) == Backing(st, st.refillQ[i].addr) {
      var b := st.refillQ[i].addr;
      WritebackOf(g, st, req, victim);
      BackingAfter(g, st, req, victim, b);
      CachedAfter(g, st, req, victim, b);
    }
  }
}

/** The cache and its backend as the stateful object it is: bank rows, queues and DRAM are
    updated in place, one databank request or one queue move per call. */
module CachedMemory {
  import opened Wrappers
  import opened CacheEntry
  import opened Databank
  import opened Cache
  import opened CacheInvariant
  import opened CacheRefinement

  class CachedMemory {
    const g: Geometry
    var bank: array<seq<Entry>>
    var missQ: seq<Miss>
    var writebackQ: seq<WriteBack>
    var refillQ: seq<Miss>
    var backendQ: seq<BackendRequest>
    var replies: seq<Block>
    var dram: Memory

    ghost function Contents(): State
      reads this, bank
    {
      State(bank[..], missQ, writebackQ, refillQ, backendQ, replies, dram)
    }

    ghost predicate Valid()
      reads this, bank
    {
      Inv(g, Contents())
    }

    constructor (g: Geometry, dram: Memory)
      requires g.sets > 0 && g.sets != 2
      ensures this.g == g && fresh(bank) && Initial(g, Contents()) && Contents().dram == dram
      ensures Valid() && StandsFor(g, Contents(), dram)
    {
      this.g := g;
      var row := seq(g.ways, _ => FlushedEntry());
      this.bank := new seq<Entry>[g.sets](_ => row);
      missQ, writebackQ, refillQ, backendQ, replies := [], [], [], [], [];
      this.dram := dram;
      new;
      InitialStands(g, Contents());
    }

    /** The databank serves one request: bank write, miss and writeback queues. */
    method Serve(req: Request, victim: nat) returns (o: Outcome)
      requires bank.Length == |Contents().bank| && CanAccess(g, Contents(), req.addr, victim)
      modifies this, bank
      ensures bank == old(bank) && Contents() == Cache.Serve(g, old(Contents()), req, victim)
      ensures o == Access(g, old(RowOf(g, Contents(), req.addr)), req, victim)
    {
      var s := SetIndex(g, req.addr);
      var row := bank[s];
      o := Access(g, row, req, victim);
      if o.write.Some? {
        bank[s] := row[o.write.value.way := o.write.value.entry];
      }
      if o.miss {
        missQ := missQ + [Miss(req.addr, req.wData, req.wMask)];
      }
      if o.writeback.Some? {
        writebackQ := writebackQ + [o.writeback.value];
      }
      assert bank[..] == old(bank[..])[s := Landed(row, o.write)];
    }

    /** A load or store from the pipeline; a miss is answered later by `Refill`. */
    method PipelineAccess(addr: nat, wData: Block, wMask: Block, victim: nat) returns (done: Option<Completion>)
      requires Valid() && CanAccess(g, Contents(), addr, victim) && !AndR(wMask)
      modifies this, bank
      ensures Valid() && bank == old(bank)
      ensures Contents() == Next(g, old(Contents()), Pipeline(addr, wData, wMask, victim))
      ensures done == Completed(g, old(Contents()), Pipeline(addr, wData, wMask, victim))
      ensures done.Some? ==> done.value.data == old(View(g, Contents(), addr))
    {
      StepRefines(g, Contents(), Pipeline(addr, wData, wMask, victim));
      var o := Serve(PipelineRequest(addr, wData, wMask), victim);
      done := if o.reply.hit then Some(Completion(addr, wData, wMask, o.reply.rData, false)) else None;
    }

    /** A flush from the page deletor. */
    method FlushBlock(addr: nat, victim: nat)
      requires Valid() && CanAccess(g, Contents(), addr, victim)
      requires Cached(g, Contents(), addr) ==> MayLeave(Contents(), addr)
      modifies this, bank
      ensures Valid() && bank == old(bank) && Contents() == Next(g, old(Contents()), Flush(addr, victim))
      ensures !Cached(g, Contents(), addr) && View(g, Contents(), addr) == old(View(g, Contents(), addr))
    {
      FlushStep(g, Contents(), addr, victim);
      var _ := Serve(FlushRequest(addr), victim);
    }

    /** The first outstanding miss takes the oldest answer of the DRAM. */
    method Refill(victim: nat) returns (done: Completion)
      requires Valid() && Enabled(g, Contents(), Step.Refill(victim)) && Guard(g, Contents(), Step.Refill(victim))
      modifies this, bank
      ensures Valid() && bank == old(bank) && Contents() == Next(g, old(Contents()), Step.Refill(victim))
      ensures var m := old(refillQ)[0];
        done == Completion(m.addr, m.wData, m.wMask,
                           Merge(old(View(g, Contents(), refillQ[0].addr)), m.wData, m.wMask), true)
    {
      RefillReply(g, Contents(), victim);
      StepRefines(g, Contents(), Step.Refill(victim));
      var m, reply := refillQ[0], replies[0];
      refillQ, replies := refillQ[1..], replies[1..];
      var o := Serve(RefillRequest(m, reply), victim);
      done := Completion(m.addr, m.wData, m.wMask, o.reply.wData, true);
    }

    /** The merger takes the oldest miss: its read goes to the backend, its write waits for the answer. */
    method SendRead()
      requires missQ != []
      modifies this
      ensures bank == old(bank) && Contents() == Next(g, old(Contents()), MergeRead)
      ensures old(Valid() && Guard(g, Contents(), MergeRead)) ==> Valid()
    {
      ghost var st := Contents();
      if Inv(g, st) && Guard(g, st, MergeRead) {
        StepRefines(g, st, MergeRead);
      }
      var m := missQ[0];
      missQ, refillQ, backendQ := missQ[1..], refillQ + [m], backendQ + [Read(m.addr)];
    }

    /** The merger takes the oldest writeback. */
    method SendWrite()
      requires Valid() && writebackQ != []
      modifies this
      ensures Valid() && bank == old(bank) && Contents() == Next(g, old(Contents()), MergeWrite)
    {
      StepRefines(g, Contents(), MergeWrite);
      var w := writebackQ[0];
      writebackQ, backendQ := writebackQ[1..], backendQ + [BackendRequest.Write(w.addr, w.data)];
    }

    /** The DRAM serves the head of the backend queue. */
    method ServeDram()
      requires Valid() && backendQ != []
      modifies this
      ensures Valid() && bank == old(bank) && Contents() == Next(g, old(Contents()), Step.Dram)
    {
      StepRefines(g, Contents(), Step.Dram);
      match backendQ[0] {
        case Read(a) => replies := replies + [Get(dram, a)];
        case Write(a, d) => dram := dram[a := d];
      }
      backendQ := backendQ[1..];
    }
  }
}

/** What the MMU's permission to flush means for the cache: nothing of the pipeline is left in it. */
module FlushPermission {
  import opened Wrappers
  import opened CacheEntry
  import opened Cache
  import opened CacheInterface
  import CacheRefinement
  import F = CacheFlushing
  import E = Eviction

  lemma {:induction false} NoReplyNoRead(q: seq<BackendRequest>, mem: Memory)
    requires PendingReplies(q, mem) == []
    ensures forall k :: 0 <= k < |q| ==> q[k].Write?
  {
    if q == [] {
    } else {
      NoReplyNoRead(q[1..], mem[q[0].addr := q[0].data]);
      forall k | 0 <= k < |q| ensures q[k].Write? {
        assert k > 0 ==> q[k] == q[1..][k - 1];
      }
    }
  }

  /** Main result: while the controller lets the MMU flush, in a state that keeps requests and flushes apart
      and whose interface holds the requests the cache has, the cache is quiet as the page deletion needs
      it, as far as its queues are within their capacities. */
  lemma PermissionMeansQuiet<M>(p: E.Params, front: F.Front<Issued<M>>, s: System<M>)
    requires Inv(p.g, s.st) && Owned(s) && Matched(s) && front.queues == s.queues
    requires F.Quiet(front) && front.state.WaitComplete?
    ensures E.Quiet(p, s.st) <==> |s.st.writebackQ| <= E.WRITEBACK_ENTRIES && |s.st.backendQ| <= p.depth
    ensures front.waiting == [] && s.flight == [] && CacheRefinement.Pending(s.st) == []
  {
    assert s.missed == [];
    assert |AsMisses(s.missed)| == 0;
    assert |Served(s.st)| == 0;
    NoReplyNoRead(s.st.backendQ, s.st.dram);
  }
}

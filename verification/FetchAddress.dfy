/** The address an instruction is fetched from: the frame comes from the thread whose translation is
    answered, the offset in the page from the thread that the fetch unit presents one clock later. */
module FetchAddress {
  import opened Arithmetic
  import opened Wrappers
  import opened RoundRobin
  import opened ThreadTokens

  const PAGE_BYTES: nat := 4096
  const BLOCK_BYTES: nat := 64

  /** Address bits between block and page. */
  function BlockBits(pc: nat): nat {
    pc % PAGE_BYTES / BLOCK_BYTES
  }

  /** Frame number and page offset put together. */
  function Address(frame: nat, offsetOf: nat): nat {
    frame * PAGE_BYTES + offsetOf % PAGE_BYTES
  }

  /** The thread presented, also when none is ready. */
  function Presented(n: nat, r: Registers, curr: nat): (t: nat)
    requires n >= 1 && Span(n) == n && Threads(n, r) && curr < n
    ensures t < n
  {
    Grant(r.en, curr)
  }

  lemma SameBlockIff(frame: nat, a: nat, b: nat)
    ensures Address(frame, a) / BLOCK_BYTES == Address(frame, b) / BLOCK_BYTES <==> BlockBits(a) == BlockBits(b)
  {
    BlockOf(frame, a);
    BlockOf(frame, b);
  }

  lemma BlockOf(frame: nat, a: nat)
    ensures Address(frame, a) / BLOCK_BYTES == frame * 64 + BlockBits(a)
  {
    var offset := a % PAGE_BYTES;
    assert Address(frame, a) == (frame * 64 + offset / BLOCK_BYTES) * BLOCK_BYTES + offset % BLOCK_BYTES;
    DivModOfSum(BLOCK_BYTES, frame * 64 + offset / BLOCK_BYTES, offset % BLOCK_BYTES);
  }

  /** With no thread ready, the encoder's default leads back to the thread just taken. */
  lemma LonePresentsItself(n: nat, r: Registers, t: nat)
    requires n >= 1 && Span(n) == n && Threads(n, r) && t < n && !AnyReady(r.en)
    ensures (t + 1) % n < n && Presented(n, r, (t + 1) % n) == t
  {
    Wrap(t + 1, n);
    var curr := (t + 1) % n;
    var rotated := RotateRight(r.en, curr);
    forall d | 0 <= d < n ensures !rotated[d] {
      RotationExact(r.en, curr, d);
    }
    Wrap(curr + n - 1, n);
  }

  /** The first clock's events name other threads. */
  predicate NotNamed(t: nat, start: Option<Target>, commit: Option<Target>, wake0: Option<nat>, wake1: Option<nat>) {
    && (start.Some? ==> start.value.tag != t) && (commit.Some? ==> commit.value.tag != t)
    && wake0 != Some(t) && wake1 != Some(t)
  }

  lemma TakenKeepsPc(r: Registers, t: nat, start: Option<Target>, commit: Option<Target>,
                     wake0: Option<nat>, wake1: Option<nat>)
    requires |r.en| == |r.pc| && t < |r.en| && InRange(|r.en|, wake0) && InRange(|r.en|, wake1)
    requires (start.Some? ==> start.value.tag < |r.en|) && (commit.Some? ==> commit.value.tag < |r.en|)
    requires NotNamed(t, start, commit, wake0, wake1)
    ensures var r' := Clocked(r, Some(t), start, commit, wake0, wake1);
      r'.pc[t] == r.pc[t] && !r'.en[t]
  {
  }

  lemma NextPresented(n: nat, r: Registers, t: nat, frame: nat, pc: nat)
    requires n >= 1 && Span(n) == n && Threads(n, r) && t < n && !r.en[t] && r.pc[t] == pc
    ensures (t + 1) % n < n
    ensures var next := Presented(n, r, (t + 1) % n);
      && (AnyReady(r.en) ==> next != t && IsFirstReady(r.en, (t + 1) % n, next))
      && (Address(frame, r.pc[next]) / BLOCK_BYTES == Address(frame, pc) / BLOCK_BYTES
          <==> !AnyReady(r.en) || BlockBits(r.pc[next]) == BlockBits(pc))
  {
    Wrap(t + 1, n);
    var next := Presented(n, r, (t + 1) % n);
    if AnyReady(r.en) {
      GrantsFirstReady(r.en, (t + 1) % n);
    } else {
      LonePresentsItself(n, r, t);
    }
    SameBlockIff(frame, r.pc[next], pc);
  }

  /** Main result: the fetch of a thread goes to the block of its own PC if and only if no thread is ready
      in the next clock, or the first one ready then has a PC with the same block bits. */
  lemma FetchesOwnBlockIff(n: nat, r: Registers, curr: nat, frame: nat, start: Option<Target>, commit: Option<Target>,
                           wake0: Option<nat>, wake1: Option<nat>)
    requires n >= 1 && Span(n) == n && Threads(n, r) && curr < n && AnyReady(r.en)
    requires InRange(n, wake0) && InRange(n, wake1)
    requires (start.Some? ==> start.value.tag < n) && (commit.Some? ==> commit.value.tag < n)
    requires NotNamed(Presented(n, r, curr), start, commit, wake0, wake1)
    ensures var t := Presented(n, r, curr);
      var r', curr' := Clocked(r, Some(t), start, commit, wake0, wake1), NextPointer(r.en, curr, true);
      && curr' < n
      && var next := Presented(n, r', curr');
      && (AnyReady(r'.en) ==> next != t && IsFirstReady(r'.en, curr', next))
      && (Address(frame, r'.pc[next]) / BLOCK_BYTES == Address(frame, r.pc[t]) / BLOCK_BYTES
          <==> !AnyReady(r'.en) || BlockBits(r'.pc[next]) == BlockBits(r.pc[t]))
  {
    var t := Presented(n, r, curr);
    TakenKeepsPc(r, t, start, commit, wake0, wake1);
    NextPresented(n, Clocked(r, Some(t), start, commit, wake0, wake1), t, frame, r.pc[t]);
  }

  /** Two threads, both ready, a block apart: the first one's fetch goes to the second one's block. */
  lemma OtherBlockFetched(frame: nat)
    ensures Span(2) == 2
    ensures var r := Registers([0, BLOCK_BYTES], [true, true]);
      var r' := Clocked(r, Some(0), None, None, None, None);
      && Presented(2, r, 0) == 0 && Presented(2, r', 1) == 1
      && Address(frame, r'.pc[1]) / BLOCK_BYTES == Address(frame, r.pc[0]) / BLOCK_BYTES + 1
  {
    SpanOfSmall();
    var r := Registers([0, BLOCK_BYTES], [true, true]);
    var r' := Clocked(r, Some(0), None, None, None, None);
    assert r.en[0] && r'.en[1] && !r'.en[0];
    GrantsFirstReady(r.en, 0);
    GrantsFirstReady(r'.en, 1);
    BlockOf(frame, 0);
    BlockOf(frame, BLOCK_BYTES);
  }
}

/** The buffer a page-table set is worked on in: its 1536 bits, moved in and out in three beats. */
module PageTableSetBuffer {
  import opened Arithmetic
  import opened Wrappers
  import opened Words
  import opened PageTypes
  import opened PageTable

  // --- Layout of a set (PageTableSetPacket, PTTagPacket, PTEntryPacket) -----------------------------

  const VPN_BITS: nat := 52
  const ASID_BITS: nat := 15
  const PPN_BITS: nat := 24
  const PERM_BITS: nat := 2
  const TAG_BITS: nat := 67
  const PTE_BITS: nat := 27
  const SET_BITS: nat := 1536
  const BEAT_BITS: nat := 512

  type SetBits = w: Bits | |w| == SET_BITS witness seq(SET_BITS, _ => false)
  type Beat = w: Bits | |w| == BEAT_BITS witness seq(BEAT_BITS, _ => false)

  lemma TagWidths()
    ensures VPN_LIMIT == Pow2(VPN_BITS) && ASID_LIMIT == Pow2(ASID_BITS)
  {
    SmallPowers();
    PowAdd(6, 7);
    PowAdd(13, 13);
    PowAdd(26, 26);
    PowAdd(7, 8);
    PowAdd(1, 7);
  }

  predicate PteFits(pte: Pte) {
    pte.ppn < Pow2(PPN_BITS) && pte.perm < Pow2(PERM_BITS)
  }

  /** All fields of all sixteen entries fit their bits. */
  ghost predicate SetFits(s: PtSet) {
    forall i :: 0 <= i < ENTRIES ==> TagOk(s.tags[i]) && PteFits(s.ptes[i])
  }

  function PackTag(tag: Tag): (w: Bits)
    ensures |w| == TAG_BITS
  {
    FromNat(tag.asid, ASID_BITS) + FromNat(tag.vpn, VPN_BITS)
  }

  function UnpackTag(w: Bits): Tag
    requires |w| == TAG_BITS
  {
    Tag(Value(w[ASID_BITS..]), Value(w[..ASID_BITS]))
  }

  function PackPte(pte: Pte): (w: Bits)
    ensures |w| == PTE_BITS
  {
    [pte.modified] + FromNat(pte.perm, PERM_BITS) + FromNat(pte.ppn, PPN_BITS)
  }

  function UnpackPte(w: Bits): Pte
    requires |w| == PTE_BITS
  {
    Pte(Value(w[1 + PERM_BITS..]), Value(w[1..1 + PERM_BITS]), w[0])
  }

  lemma TagLayout(tag: Tag, w: Bits)
    requires |w| == TAG_BITS
    ensures TagOk(tag) ==> UnpackTag(PackTag(tag)) == tag
    ensures PackTag(UnpackTag(w)) == w
  {
    if TagOk(tag) {
      TagWidths();
      assert PackTag(tag)[..ASID_BITS] == FromNat(tag.asid, ASID_BITS);
      assert PackTag(tag)[ASID_BITS..] == FromNat(tag.vpn, VPN_BITS);
      ValueOfNat(tag.asid, ASID_BITS);
      ValueOfNat(tag.vpn, VPN_BITS);
    }
    NatOfValue(w[..ASID_BITS]);
    NatOfValue(w[ASID_BITS..]);
    assert w == w[..ASID_BITS] + w[ASID_BITS..];
  }

  lemma PteLayout(pte: Pte, w: Bits)
    requires |w| == PTE_BITS
    ensures PteFits(pte) ==> UnpackPte(PackPte(pte)) == pte
    ensures PackPte(UnpackPte(w)) == w
  {
    if PteFits(pte) {
      assert PackPte(pte)[1..1 + PERM_BITS] == FromNat(pte.perm, PERM_BITS);
      assert PackPte(pte)[1 + PERM_BITS..] == FromNat(pte.ppn, PPN_BITS);
      ValueOfNat(pte.perm, PERM_BITS);
      ValueOfNat(pte.ppn, PPN_BITS);
    }
    NatOfValue(w[1..1 + PERM_BITS]);
    NatOfValue(w[1 + PERM_BITS..]);
    assert w == [w[0]] + w[1..1 + PERM_BITS] + w[1 + PERM_BITS..];
  }

  /** The places of a tag's fields, as numbers: the page number above the address-space id. */
  lemma TagPlaces(tag: Tag)
    requires TagOk(tag)
    ensures Value(PackTag(tag)) == tag.vpn * 0x8000 + tag.asid
  {
    TagWidths();
    ValueOfNat(tag.asid, ASID_BITS);
    ValueOfNat(tag.vpn, VPN_BITS);
    ValueConcat(FromNat(tag.asid, ASID_BITS), FromNat(tag.vpn, VPN_BITS));
  }

  lemma PermWidth()
    ensures Pow2(PERM_BITS) == 4
  {
    assert Pow2(1) == 2 * Pow2(0) && Pow2(2) == 2 * Pow2(1);
  }

  /** ... and of an entry's: the physical page number above the permission above the modified bit. */
  lemma PtePlaces(pte: Pte)
    requires PteFits(pte)
    ensures Value(PackPte(pte)) == pte.ppn * 8 + pte.perm * 2 + (if pte.modified then 1 else 0)
  {
    var perm, ppn := FromNat(pte.perm, PERM_BITS), FromNat(pte.ppn, PPN_BITS);
    ValueOfNat(pte.perm, PERM_BITS);
    ValueOfNat(pte.ppn, PPN_BITS);
    PermWidth();
    ValueConcat(perm, ppn);
    assert PackPte(pte)[1..] == perm + ppn;
  }

  function PackTags(tags: seq<Tag>): (fields: seq<Bits>)
    ensures |fields| == |tags| && forall i :: 0 <= i < |fields| ==> |fields[i]| == TAG_BITS
  {
    seq(|tags|, i requires 0 <= i < |tags| => PackTag(tags[i]))
  }

  function PackPtes(ptes: seq<Pte>): (fields: seq<Bits>)
    ensures |fields| == |ptes| && forall i :: 0 <= i < |fields| ==> |fields[i]| == PTE_BITS
  {
    seq(|ptes|, i requires 0 <= i < |ptes| => PackPte(ptes[i]))
  }

  /** The first field of the packet is the highest. */
  function Pack(s: PtSet): SetBits {
    s.lruBits + s.valids + Concat(PackPtes(s.ptes), PTE_BITS) + Concat(PackTags(s.tags), TAG_BITS)
  }

  /** Where the parts of a set lie: replacement bits, valid bits, entries, tags, from the lowest bit up. */
  lemma PackPlaces(s: PtSet, i: nat)
    requires i < ENTRIES
    ensures Pack(s)[i] == s.lruBits[i] && Pack(s)[16 + i] == s.valids[i]
    ensures Pack(s)[32 + 27 * i..32 + 27 * (i + 1)] == PackPte(s.ptes[i])
    ensures Pack(s)[464 + 67 * i..464 + 67 * (i + 1)] == PackTag(s.tags[i])
  {
    var ptes, tags := Concat(PackPtes(s.ptes), PTE_BITS), Concat(PackTags(s.tags), TAG_BITS);
    var w := Pack(s);
    assert w[32..464] == ptes && w[464..] == tags;
    FieldOfConcat(PackPtes(s.ptes), PTE_BITS, i);
    FieldOfConcat(PackTags(s.tags), TAG_BITS, i);
    assert w[32..464][27 * i..27 * (i + 1)] == w[32 + 27 * i..32 + 27 * (i + 1)];
    assert w[464..][67 * i..67 * (i + 1)] == w[464 + 67 * i..464 + 67 * (i + 1)];
  }

  function UnpackTags(w: Bits): (tags: seq<Tag>)
    requires |w| == TAG_BITS * ENTRIES
    ensures |tags| == ENTRIES
  {
    var fields := Fields(w, TAG_BITS, ENTRIES);
    seq(ENTRIES, i requires 0 <= i < ENTRIES => UnpackTag(fields[i]))
  }

  function UnpackPtes(w: Bits): (ptes: seq<Pte>)
    requires |w| == PTE_BITS * ENTRIES
    ensures |ptes| == ENTRIES
  {
    var fields := Fields(w, PTE_BITS, ENTRIES);
    seq(ENTRIES, i requires 0 <= i < ENTRIES => UnpackPte(fields[i]))
  }

  function Unpack(w: SetBits): PtSet {
    Slots(UnpackTags(w[464..]), UnpackPtes(w[32..464]), w[16..32], w[..16])
  }

  lemma TagsRoundTrip(tags: seq<Tag>)
    requires |tags| == ENTRIES && forall i :: 0 <= i < ENTRIES ==> TagOk(tags[i])
    ensures UnpackTags(Concat(PackTags(tags), TAG_BITS)) == tags
  {
    FieldsOfConcat(PackTags(tags), TAG_BITS);
    forall i | 0 <= i < ENTRIES ensures UnpackTag(PackTag(tags[i])) == tags[i] {
      TagLayout(tags[i], PackTag(tags[i]));
    }
  }

  lemma PtesRoundTrip(ptes: seq<Pte>)
    requires |ptes| == ENTRIES && forall i :: 0 <= i < ENTRIES ==> PteFits(ptes[i])
    ensures UnpackPtes(Concat(PackPtes(ptes), PTE_BITS)) == ptes
  {
    FieldsOfConcat(PackPtes(ptes), PTE_BITS);
    forall i | 0 <= i < ENTRIES ensures UnpackPte(PackPte(ptes[i])) == ptes[i] {
      PteLayout(ptes[i], PackPte(ptes[i]));
    }
  }

  /** A set whose fields fit survives being stored as bits. */
  lemma UnpackPack(s: PtSet)
    requires SetFits(s)
    ensures Unpack(Pack(s)) == s
  {
    var w, ptes, tags := Pack(s), Concat(PackPtes(s.ptes), PTE_BITS), Concat(PackTags(s.tags), TAG_BITS);
    assert w[..16] == s.lruBits && w[16..32] == s.valids && w[32..464] == ptes && w[464..] == tags;
    TagsRoundTrip(s.tags);
    PtesRoundTrip(s.ptes);
  }

  lemma TagsOfBits(w: Bits)
    requires |w| == TAG_BITS * ENTRIES
    ensures Concat(PackTags(UnpackTags(w)), TAG_BITS) == w
  {
    var fields := Fields(w, TAG_BITS, ENTRIES);
    forall i | 0 <= i < ENTRIES ensures PackTags(UnpackTags(w))[i] == fields[i] {
      TagLayout(UnpackTag(fields[i]), fields[i]);
    }
    assert PackTags(UnpackTags(w)) == fields;
    ConcatOfFields(w, TAG_BITS, ENTRIES);
  }

  lemma PtesOfBits(w: Bits)
    requires |w| == PTE_BITS * ENTRIES
    ensures Concat(PackPtes(UnpackPtes(w)), PTE_BITS) == w
  {
    var fields := Fields(w, PTE_BITS, ENTRIES);
    forall i | 0 <= i < ENTRIES ensures PackPtes(UnpackPtes(w))[i] == fields[i] {
      PteLayout(UnpackPte(fields[i]), fields[i]);
    }
    assert PackPtes(UnpackPtes(w)) == fields;
    ConcatOfFields(w, PTE_BITS, ENTRIES);
  }

  /** Every pattern of bits is a set, and no bit is lost. */
  lemma PackUnpack(w: SetBits)
    ensures Pack(Unpack(w)) == w
  {
    TagsOfBits(w[464..]);
    PtesOfBits(w[32..464]);
    assert w == w[..16] + w[16..32] + w[32..464] + w[464..];
  }

  // --- Beats --------------------------------------------------------------------------------------

  function Beats(w: SetBits): (b: seq<Beat>)
    ensures |b| == BEATS_PER_SET
  {
    [w[..512], w[512..1024], w[1024..]]
  }

  function Joined(b: seq<Beat>): SetBits
    requires |b| == BEATS_PER_SET
  {
    var first: Bits := b[0];
    first + b[1] + b[2]
  }

  lemma BeatsJoin(w: SetBits, b: seq<Beat>)
    requires |b| == BEATS_PER_SET
    ensures Joined(Beats(w)) == w && Beats(Joined(b)) == b
  {
    assert w == w[..512] + w[512..1024] + w[1024..];
    assert Joined(b)[..512] == b[0] && Joined(b)[512..1024] == b[1] && Joined(b)[1024..] == b[2];
  }

  /** Beats come in the order of the set's bits, lowest first. */
  lemma BeatPlaces(w: SetBits, k: nat, i: nat)
    requires k < BEATS_PER_SET && i < BEAT_BITS
    ensures Beats(w)[k][i] == w[512 * k + i]
  {
  }

  datatype BufferState = Idle | MoveIn | MoveOut

  datatype Buffer = Buffer(state: BufferState, cnt: nat, beats: seq<Beat>)

  datatype WriteRequest = WriteRequest(item: Item, index: nat, flush: bool)

  predicate Ok(b: Buffer) {
    |b.beats| == BEATS_PER_SET && b.cnt < BEATS_PER_SET
  }

  predicate TakesWrite(b: Buffer) {
    b.state.Idle?
  }

  predicate TakesBeat(b: Buffer, write: Option<WriteRequest>) {
    b.state.MoveIn? || (b.state.Idle? && write.None?)
  }

  predicate GivesBeat(b: Buffer) {
    b.state.MoveOut? || b.state.Idle?
  }

  function Advanced(cnt: nat): nat {
    if cnt == BEATS_PER_SET - 1 then 0 else cnt + 1
  }

  function Rewritten(beats: seq<Beat>, r: WriteRequest): (b: seq<Beat>)
    requires |beats| == BEATS_PER_SET && r.index < ENTRIES
    ensures |b| == BEATS_PER_SET
  {
    Beats(Pack(WriteEntry(Unpack(Joined(beats)), r.index, r.item, r.flush)))
  }

  /** One clock: a beat offered by the memory, the memory taking a beat, a write of one entry. */
  function Next(b: Buffer, beat: Option<Beat>, taken: bool, write: Option<WriteRequest>): (b': Buffer)
    requires Ok(b) && (write.Some? ==> write.value.index < ENTRIES)
    ensures Ok(b')
  {
    var moved := beat.Some? && TakesBeat(b, write);
    var given := taken && GivesBeat(b);
    var last := b.cnt == BEATS_PER_SET - 1;
    Buffer(
      match b.state {
        case Idle => if moved then MoveIn else if given then MoveOut else Idle
        case MoveIn => if moved && last then Idle else MoveIn
        case MoveOut => if given && last then Idle else MoveOut
      },
      if moved || given then Advanced(b.cnt) else b.cnt,
      if moved then b.beats[b.cnt := beat.value]
      else if write.Some? && TakesWrite(b) then Rewritten(b.beats, write.value)
      else b.beats)
  }

  class PageTableSetBuffer {
    var state: BufferState
    var dmaCnt: nat
    var buffer: seq<Beat>

    function Contents(): Buffer
      reads this
    {
      Buffer(state, dmaCnt, buffer)
    }

    constructor ()
      ensures Ok(Contents()) && state == Idle && dmaCnt == 0
    {
      state, dmaCnt, buffer := Idle, 0, Beats(Pack(EmptySet()));
    }

    method Clock(beat: Option<Beat>, taken: bool, write: Option<WriteRequest>)
      returns (beatTaken: bool, given: Option<Beat>, written: bool)
      requires Ok(Contents()) && (write.Some? ==> write.value.index < ENTRIES)
      modifies this
      ensures Ok(Contents()) && Contents() == Next(old(Contents()), beat, taken, write)
      ensures beatTaken == (beat.Some? && TakesBeat(old(Contents()), write))
      ensures given == (if taken && GivesBeat(old(Contents())) then Some(old(buffer)[old(dmaCnt)]) else None)
      ensures written == (write.Some? && TakesWrite(old(Contents())))
    {
      written := write.Some? && state == Idle;
      beatTaken := beat.Some? && (state == MoveIn || (state == Idle && write.None?));
      given := if taken && state != MoveIn then Some(buffer[dmaCnt]) else None;
      var last := dmaCnt == BEATS_PER_SET - 1;
      if beatTaken {
        buffer := buffer[dmaCnt := beat.value];
      } else if written {
        buffer := Rewritten(buffer, write.value);
      }
      match state {
        case Idle =>
          state := if beatTaken then MoveIn else if given.Some? then MoveOut else Idle;
        case MoveIn =>
          state := if beatTaken && last then Idle else MoveIn;
        case MoveOut =>
          state := if given.Some? && last then Idle else MoveOut;
      }
      if beatTaken || given.Some? {
        dmaCnt := Advanced(dmaCnt);
      }
    }
  }

  // --- Moving in, writing, moving out ---------------------------------------------------------------

  /** The beats among a stretch of clocks. */
  function Arrived(ins: seq<Option<Beat>>): seq<Beat> {
    if ins == [] then []
    else
      var last := ins[|ins| - 1];
      Arrived(ins[..|ins| - 1]) + if last.Some? then [last.value] else []
  }

  function MovedIn(b: Buffer, ins: seq<Option<Beat>>): (b': Buffer)
    requires Ok(b)
    ensures Ok(b')
  {
    if ins == [] then b else Next(MovedIn(b, ins[..|ins| - 1]), ins[|ins| - 1], false, None)
  }

  /** The move in, so far. */
  ghost predicate Filling(b: Buffer, beats: seq<Beat>) {
    && Ok(b) && |beats| < BEATS_PER_SET
    && b.cnt == |beats| && b.beats[..b.cnt] == beats
    && (if beats == [] then b.state.Idle? else b.state.MoveIn?)
  }

  lemma {:induction false} MoveInFills(b: Buffer, ins: seq<Option<Beat>>)
    requires Ok(b) && b.state.Idle? && b.cnt == 0
    requires |Arrived(ins)| < BEATS_PER_SET
    ensures Filling(MovedIn(b, ins), Arrived(ins))
  {
    if ins == [] {
    } else {
      var before := ins[..|ins| - 1];
      MoveInFills(b, before);
      var b1, last := MovedIn(b, before), ins[|ins| - 1];
      if last.Some? {
        var b2 := MovedIn(b, ins);
        assert b2.beats[..b2.cnt] == b1.beats[..b1.cnt] + [last.value];
      }
    }
  }

  /** The third beat completes the move in, whatever the gaps between the beats. */
  lemma MoveInExact(b: Buffer, ins: seq<Option<Beat>>)
    requires Ok(b) && b.state.Idle? && b.cnt == 0
    requires ins != [] && ins[|ins| - 1].Some? && |Arrived(ins)| == BEATS_PER_SET
    ensures MovedIn(b, ins) == Buffer(Idle, 0, Arrived(ins))
  {
    var before := ins[..|ins| - 1];
    MoveInFills(b, before);
    var b1, last := MovedIn(b, before), ins[|ins| - 1].value;
    assert b1.beats[2 := last] == b1.beats[..2] + [last];
  }

  function MovedOut(b: Buffer, takes: seq<bool>): (b': Buffer)
    requires Ok(b)
    ensures Ok(b')
  {
    if takes == [] then b else Next(MovedOut(b, takes[..|takes| - 1]), None, takes[|takes| - 1], None)
  }

  function Given(b: Buffer, takes: seq<bool>): seq<Beat>
    requires Ok(b)
  {
    if takes == [] then []
    else
      var before := MovedOut(b, takes[..|takes| - 1]);
      Given(b, takes[..|takes| - 1])
        + if takes[|takes| - 1] && GivesBeat(before) then [before.beats[before.cnt]] else []
  }

  ghost predicate Emptying(b: Buffer, beats: seq<Beat>, given: seq<Beat>) {
    && Ok(b) && |given| < BEATS_PER_SET
    && b.cnt == |given| && b.beats == beats && given == beats[..b.cnt]
    && (if given == [] then b.state.Idle? else b.state.MoveOut?)
  }

  lemma {:induction false} MoveOutEmpties(b: Buffer, takes: seq<bool>)
    requires Ok(b) && b.state.Idle? && b.cnt == 0
    requires |Given(b, takes)| < BEATS_PER_SET
    ensures Emptying(MovedOut(b, takes), b.beats, Given(b, takes))
  {
    if takes == [] {
    } else {
      MoveOutEmpties(b, takes[..|takes| - 1]);
    }
  }

  lemma {:induction false} MoveOutGives(b: Buffer, takes: seq<bool>)
    requires Ok(b) && GivesBeat(b)
    ensures GivesBeat(MovedOut(b, takes))
  {
    if takes == [] {
    } else {
      MoveOutGives(b, takes[..|takes| - 1]);
    }
  }

  function Takes(takes: seq<bool>): (n: nat)
    ensures n <= |takes|
  {
    if takes == [] then 0 else Takes(takes[..|takes| - 1]) + if takes[|takes| - 1] then 1 else 0
  }

  /** A beat is given whenever it is taken. */
  lemma {:induction false} EveryTakeGiven(b: Buffer, takes: seq<bool>)
    requires Ok(b) && b.state.Idle?
    ensures |Given(b, takes)| == Takes(takes)
  {
    if takes == [] {
    } else {
      EveryTakeGiven(b, takes[..|takes| - 1]);
      MoveOutGives(b, takes[..|takes| - 1]);
    }
  }

  /** The third beat taken completes the move out: the beats given are the buffer's, which stays. */
  lemma MoveOutExact(b: Buffer, takes: seq<bool>)
    requires Ok(b) && b.state.Idle? && b.cnt == 0
    requires takes != [] && takes[|takes| - 1] && Takes(takes) == BEATS_PER_SET
    ensures Given(b, takes) == b.beats && MovedOut(b, takes) == b
  {
    var before := takes[..|takes| - 1];
    EveryTakeGiven(b, takes);
    MoveOutGives(b, before);
    MoveOutEmpties(b, before);
    assert b.beats == b.beats[..2] + [b.beats[2]];
  }

  /** Main result: a set moved in, changed at one entry and moved out again, with any gaps on the way,
      leaves as the bits of the set with that entry written; moved out without a write, as it came. */
  lemma SetThroughBuffer(b: Buffer, s: PtSet, ins: seq<Option<Beat>>, write: Option<WriteRequest>, takes: seq<bool>)
    requires Ok(b) && b.state.Idle? && b.cnt == 0 && SetFits(s)
    requires ins != [] && ins[|ins| - 1].Some? && Arrived(ins) == Beats(Pack(s))
    requires write.Some? ==> write.value.index < ENTRIES
    requires takes != [] && takes[|takes| - 1] && Takes(takes) == BEATS_PER_SET
    ensures var changed :=
        if write.Some? then WriteEntry(s, write.value.index, write.value.item, write.value.flush) else s;
      Given(Next(MovedIn(b, ins), None, false, write), takes) == Beats(Pack(changed))
  {
    MoveInExact(b, ins);
    BeatsJoin(Pack(s), Beats(Pack(s)));
    UnpackPack(s);
    MoveOutExact(Next(MovedIn(b, ins), None, false, write), takes);
  }
}

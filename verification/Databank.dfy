/** What the data bank decides about one request, given the row it read. The decision is
    written once, over a hit signal and a hit entry, because the sequential bank and the
    pipelined bank (which forwards from its write stage) only differ in those two. */
module Databank {
  import opened Wrappers
  import opened CacheEntry
  import opened Encoders

  datatype Request = Request(addr: nat, wData: Block, wMask: Block,
                             flush: bool, refill: bool, refillData: Block)

  datatype WriteBack = WriteBack(addr: nat, data: Block)

  datatype BankWrite = BankWrite(way: nat, entry: Entry)

  datatype Reply = Reply(rData: Block, wData: Block, hit: bool)

  datatype Outcome = Outcome(reply: Reply, write: Option<BankWrite>, miss: bool,
                             writeback: Option<WriteBack>, touched: Option<nat>)

  // --- Hit detection --------------------------------------------------------------------

  function Matches(row: seq<Entry>, tag: nat): seq<bool> {
    seq(|row|, i requires 0 <= i < |row| => row[i].v && row[i].tag == tag)
  }

  /** What a row must satisfy for the bank's "at most one hit" assertion to hold. */
  ghost predicate RowOk(row: seq<Entry>) {
    && (forall w :: 0 <= w < |row| && row[w].d ==> row[w].v)
    && (forall w, w' ::
      0 <= w < |row| && 0 <= w' < |row| && row[w].v && row[w'].v && row[w].tag == row[w'].tag ==> w == w')
  }

  function Hit(row: seq<Entry>, tag: nat): bool {
    PopCount(Matches(row, tag)) == 1
  }

  function HitWay(row: seq<Entry>, tag: nat): (w: nat)
    ensures row != [] ==> w < |row|
  {
    OHToUInt(Matches(row, tag))
  }

  ghost predicate HoldsAt(row: seq<Entry>, tag: nat, w: nat) {
    w < |row| && row[w].v && row[w].tag == tag
  }

  /** In a well-formed row the population-count hit means exactly: some way holds the tag,
      and the encoder names it. */
  lemma HitMeansHeld(row: seq<Entry>, tag: nat)
    requires RowOk(row)
    ensures Hit(row, tag) ==> HoldsAt(row, tag, HitWay(row, tag))
    ensures forall w :: HoldsAt(row, tag, w) ==> Hit(row, tag) && HitWay(row, tag) == w
  {
    var bits := Matches(row, tag);
    if w :| HoldsAt(row, tag, w) {
      OneHot(bits, w);
    } else {
      forall i | 0 <= i < |bits| ensures !bits[i] {
        assert !HoldsAt(row, tag, i);
      }
      PopCountZero(bits);
    }
  }

  lemma MissMeansAbsent(row: seq<Entry>, tag: nat)
    requires RowOk(row) && !Hit(row, tag)
    ensures forall w :: 0 <= w < |row| ==> !(row[w].v && row[w].tag == tag)
  {
    HitMeansHeld(row, tag);
    forall w | 0 <= w < |row| ensures !(row[w].v && row[w].tag == tag) {
      assert !HoldsAt(row, tag, w);
    }
  }

  // --- The decision ---------------------------------------------------------------------

  // Tag and data of a flushed entry are don't-care in the source; zero here.
  function FlushedEntry(): Entry {
    Entry(false, false, 0, ZeroBlock())
  }

  predicate FullWriting(req: Request) {
    AndR(req.wMask) || req.refill
  }

  function Updated(req: Request, hitEntry: Entry): Entry {
    if req.flush then FlushedEntry() else CacheEntry.Write(hitEntry, req.wData, req.wMask)
  }

  function Refilled(g: Geometry, req: Request, hit: bool, hitEntry: Entry): Entry
    requires g.sets > 0
  {
    CacheEntry.Write(if hit then hitEntry else RefillEntry(g, req.addr, req.refillData), req.wData, req.wMask)
  }

  function Decide(g: Geometry, row: seq<Entry>, hit: bool, hitWay: nat, hitEntry: Entry,
                  req: Request, victim: nat): Outcome
    requires g.sets > 0 && victim < |row|
  {
    var full := FullWriting(req);
    var updated := Updated(req, hitEntry);
    var refilled := Refilled(g, req, hit, hitEntry);
    var replaced := row[victim];
    Outcome(
      Reply(hitEntry.data, if full then refilled.data else updated.data, hit || full),
      if full then Some(BankWrite(if hit then hitWay else victim, refilled))
      else if hit && updated != hitEntry then Some(BankWrite(hitWay, updated))
      else None,
      !hit && !full && !req.flush,
      if replaced.d && !hit && req.refill
      then Some(WriteBack(Rebuild(g, replaced.tag, SetIndex(g, req.addr)), replaced.data))
      else if hitEntry.d && hit && req.flush then Some(WriteBack(req.addr, hitEntry.data))
      else None,
      if (hit || full) && !req.flush then Some(if hit then hitWay else victim) else None)
  }

  /** One request against the row as it stands in the bank. */
  function Access(g: Geometry, row: seq<Entry>, req: Request, victim: nat): (o: Outcome)
    requires g.sets > 0 && victim < |row|
    ensures o.write.Some? ==> o.write.value.way < |row|
  {
    var tag := TagOf(g, req.addr);
    Decide(g, row, Hit(row, tag), HitWay(row, tag), row[HitWay(row, tag)], req, victim)
  }

  function Landed(row: seq<Entry>, write: Option<BankWrite>): seq<Entry>
    requires write.Some? ==> write.value.way < |row|
  {
    if write.None? then row else row[write.value.way := write.value.entry]
  }

  /** Replacing one way by an entry whose tag no other way holds keeps the row well formed. */
  lemma RowOkAfter(row: seq<Entry>, w: nat, e: Entry)
    requires RowOk(row) && w < |row|
    requires e.d ==> e.v
    requires e.v ==> forall w' :: 0 <= w' < |row| && w' != w && row[w'].v ==> row[w'].tag != e.tag
    ensures RowOk(row[w := e])
  {
  }

  /** Replacing way w changes the answer only for the tag that was there and the tag put there. */
  lemma HitAfter(row: seq<Entry>, w: nat, e: Entry, tag: nat)
    requires w < |row| && RowOk(row) && RowOk(row[w := e])
    ensures e.v && e.tag == tag ==> Hit(row[w := e], tag) && HitWay(row[w := e], tag) == w
    ensures !(e.v && e.tag == tag) && row[w].v && row[w].tag == tag ==> !Hit(row[w := e], tag)
    ensures !(e.v && e.tag == tag) && !(row[w].v && row[w].tag == tag) ==>
      && Hit(row[w := e], tag) == Hit(row, tag)
      && (Hit(row, tag) ==> HitWay(row[w := e], tag) == HitWay(row, tag) != w)
  {
    var row' := row[w := e];
    HitMeansHeld(row, tag);
    HitMeansHeld(row', tag);
    if e.v && e.tag == tag {
      assert HoldsAt(row', tag, w);
    } else if row[w].v && row[w].tag == tag {
      assert HoldsAt(row, tag, w);
    } else {
      forall x ensures HoldsAt(row, tag, x) == HoldsAt(row', tag, x) {
      }
      if Hit(row, tag) {
        assert HoldsAt(row', tag, HitWay(row, tag));
      }
      if Hit(row', tag) {
        assert HoldsAt(row, tag, HitWay(row', tag));
      }
    }
  }

  lemma AccessKeepsRow(g: Geometry, row: seq<Entry>, req: Request, victim: nat)
    requires g.sets > 0 && victim < |row| && RowOk(row)
    requires !(req.flush && req.refill)
    ensures RowOk(Landed(row, Access(g, row, req, victim).write))
  {
    var tag := TagOf(g, req.addr);
    var o := Access(g, row, req, victim);
    HitMeansHeld(row, tag);
    if !Hit(row, tag) {
      MissMeansAbsent(row, tag);
    }
    if o.write.Some? {
      RowOkAfter(row, o.write.value.way, o.write.value.entry);
    }
  }

  /** What a row answers for a tag. */
  function Answer(row: seq<Entry>, tag: nat): Option<Block> {
    if row != [] && Hit(row, tag) then Some(row[HitWay(row, tag)].data) else None
  }

  /** The tag a request drops from its row to make room. */
  ghost predicate Displaces(row: seq<Entry>, tag: nat, req: Request, victim: nat, other: nat)
    requires victim < |row|
  {
    !Hit(row, tag) && FullWriting(req) && row[victim].v && row[victim].tag == other
  }

  /** The row's answer, for every tag, after a request has landed. */
  lemma AnswerAfter(g: Geometry, row: seq<Entry>, req: Request, victim: nat, t: nat)
    requires g.sets > 0 && victim < |row| && RowOk(row)
    requires !(req.flush && FullWriting(req))
    ensures var tag := TagOf(g, req.addr);
      Answer(Landed(row, Access(g, row, req, victim).write), t) ==
      if t != tag then (if Displaces(row, tag, req, victim, t) then None else Answer(row, t))
      else if req.flush then None
      else if Hit(row, tag) then Some(Merge(Answer(row, tag).value, req.wData, req.wMask))
      else if FullWriting(req) then Some(Merge(req.refillData, req.wData, req.wMask))
      else None
  {
    var tag := TagOf(g, req.addr);
    var o := Access(g, row, req, victim);
    AccessKeepsRow(g, row, req, victim);
    HitMeansHeld(row, tag);
    HitMeansHeld(row, t);
    if o.write.Some? {
      HitAfter(row, o.write.value.way, o.write.value.entry, t);
    } else if Hit(row, tag) {
      assert Updated(req, row[HitWay(row, tag)]) == row[HitWay(row, tag)];
    }
  }

  /** The replacement is told of a use exactly when the request is served and not a flush, and the way it
      is told of is the one that holds the block afterwards. */
  lemma TouchedHolds(g: Geometry, row: seq<Entry>, req: Request, victim: nat)
    requires g.sets > 0 && victim < |row| && RowOk(row)
    requires !(req.flush && req.refill)
    ensures var o := Access(g, row, req, victim);
      && (o.touched.Some? <==> o.reply.hit && !req.flush)
      && (o.touched.Some? ==> HoldsAt(Landed(row, o.write), TagOf(g, req.addr), o.touched.value))
  {
    HitMeansHeld(row, TagOf(g, req.addr));
  }
}

/**
 * The receiving side of the multi-chunk transport (internal/matrix/messenger/messages.go), on values:
 * the table of partially received messages and what one incoming event or one sweep does to it.
 */
module Reassembly {
  import opened Types
  import opened MatrixEvents

  /** Five minutes, in nanoseconds. Sweeps are a minute apart. */
  const PARTIAL_MESSAGE_TTL := 300_000_000_000

  /** A partially received message. `chunksCount` is 0 until chunk 0 has arrived. */
  datatype Partial = Partial(
    chunksCount: UInt32,
    account: Address,
    signature: Bytes,
    chunks: map<UInt32, Bytes>,
    firstSeen: int
  )

  type Table = map<string, Partial>

  /** What the messenger hands to the message processor. */
  datatype Delivery = Delivery(chunks: seq<Bytes>, signature: Bytes, account: Address, bot: Address)

  datatype Arrival = First(first: SignedMessageEvent) | Next(next: MessageChunkEvent)
  {
    function Chunk(): ChunkData {
      if First? then first.chunk else next.chunk
    }

    function Index(): UInt32 {
      if First? then 0 else next.chunkIndex
    }

    predicate Verified() {
      match this
      case First(e) => VerifySigned(e).None?
      case Next(e) => VerifyChunk(e).None?
    }
  }

  datatype Event =
    | Arrive(arrival: Arrival, sender: Address, now: int)
    | Sweep(now: int)

  predicate IndexSetComplete(p: Partial) {
    p.chunksCount != 0 && forall i: UInt32 | i < p.chunksCount :: i in p.chunks
  }

  function NewPartial(now: int): Partial {
    Partial(0, 0, [], map[], now)
  }

  /** Stores one chunk under its index, or drops it when the count is known and the index is out of range. */
  function StoreChunk(p: Partial, index: UInt32, data: Bytes): Partial {
    if p.chunksCount != 0 && index >= p.chunksCount then p
    else p.(chunks := p.chunks[index := data])
  }

  /** Adds a chunk to entry `p` of message `id`; the entry leaves the table once its index set is complete. */
  function AddChunk(t: Table, id: string, p: Partial, index: UInt32, data: Bytes): (Table, Option<Partial>) {
    var stored := StoreChunk(p, index, data);
    if (p.chunksCount == 0 || index < p.chunksCount) && IndexSetComplete(stored)
    then (t - {id}, Some(stored))
    else (t[id := stored], None)
  }

  function Entry(t: Table, id: string, now: int): Partial {
    if id in t then t[id] else NewPartial(now)
  }

  function AddFirstChunk(t: Table, e: SignedMessageEvent, now: int): (Table, Option<Partial>) {
    var p := Entry(t, e.chunk.messageID, now)
      .(signature := e.signature, chunksCount := e.chunksCount, account := e.account);
    AddChunk(t, e.chunk.messageID, p, 0, e.chunk.data)
  }

  function AddNextChunk(t: Table, e: MessageChunkEvent, now: int): (Table, Option<Partial>) {
    AddChunk(t, e.chunk.messageID, Entry(t, e.chunk.messageID, now), e.chunkIndex, e.chunk.data)
  }

  /** The chunks in index order; None is the branch that drops a message with a hole. */
  function Assemble(p: Partial): Option<seq<Bytes>> {
    if !IndexSetComplete(p) then None
    else Some(seq(p.chunksCount, i requires 0 <= i < p.chunksCount => p.chunks[i]))
  }

  function Deliver(p: Partial, bot: Address): Option<Delivery> {
    match Assemble(p)
    case None => None
    case Some(chunks) => Some(Delivery(chunks, p.signature, p.account, bot))
  }

  function DeliverIfComplete(r: (Table, Option<Partial>), bot: Address): (Table, Option<Delivery>) {
    (r.0, if r.1.None? then None else Deliver(r.1.value, bot))
  }

  /** An incoming event is dropped when it is the bot's own or fails its checks. */
  predicate Accepted(own: Address, ev: Event) {
    ev.Arrive? && ev.sender != own && ev.arrival.Verified()
  }

  predicate Stale(p: Partial, now: int) {
    now - p.firstSeen > PARTIAL_MESSAGE_TTL
  }

  function Evict(t: Table, now: int): Table {
    map id | id in t && !Stale(t[id], now) :: t[id]
  }

  /** One event: the new table and the message delivered by it, if any. */
  function Receive(own: Address, t: Table, ev: Event): (r: (Table, Option<Delivery>))
    ensures ev.Arrive? && (ev.sender == own || !ev.arrival.Verified()) ==> r == (t, None)
    ensures ev.Sweep? ==> r.1.None?
  {
    match ev
    case Sweep(now) => (Evict(t, now), None)
    case Arrive(a, sender, now) =>
      if !Accepted(own, ev) then (t, None)
      else match a
        case First(e) =>
          if e.chunksCount == 1 then (t, Some(Delivery([e.chunk.data], e.signature, e.account, sender)))
          else DeliverIfComplete(AddFirstChunk(t, e, now), sender)
        case Next(e) => DeliverIfComplete(AddNextChunk(t, e, now), sender)
  }

  // ---------- One event from another bot ----------

  /** How many chunks the message has, as far as known with this event; 0 until chunk 0 has arrived. */
  function CountWith(t: Table, a: Arrival): UInt32 {
    if a.First? then a.first.chunksCount
    else if a.Chunk().messageID in t then t[a.Chunk().messageID].chunksCount
    else 0
  }

  /** The chunks held with this event: its own is stored, or overwritten, unless it is known to be out of range. */
  function ChunksWith(t: Table, a: Arrival): map<UInt32, Bytes> {
    var id, count := a.Chunk().messageID, CountWith(t, a);
    var held := if id in t then t[id].chunks else map[];
    if count != 0 && a.Index() >= count then held else held[a.Index() := a.Chunk().data]
  }

  /** Of an event, whatever its content: it is well formed, and of another bot. */
  predicate Proper(own: Address, a: Arrival, sender: Address) {
    && sender != own && a.Chunk().data != [] && a.Chunk().messageID != ""
    && match a
       case First(e) => e.chunksCount > 0
       case Next(e) => e.chunkIndex > 0
  }

  /**
   * Every proper event counts. One that carries a whole message delivers it. Any other is stored, takes over the header
   * if it is the first chunk, delivers what is held in index order once no index is missing, and leaves every other
   * message alone. This holds of inconsistent events too.
   */
  lemma ProperEventCounts(own: Address, t: Table, a: Arrival, sender: Address, now: int)
    requires Proper(own, a, sender)
    ensures var (t', out) := Receive(own, t, Arrive(a, sender, now));
            var id, count, chunks := a.Chunk().messageID, CountWith(t, a), ChunksWith(t, a);
            if a.First? && a.first.chunksCount == 1 then
              t' == t && out == Some(Delivery([a.Chunk().data], a.first.signature, a.first.account, sender))
            else
              var signature := if a.First? then a.first.signature else if id in t then t[id].signature else [];
              var account := if a.First? then a.first.account else if id in t then t[id].account else 0;
              var whole := count != 0 && a.Index() < count && forall j: UInt32 | j < count :: j in chunks;
              && (forall other | other != id :: other in t' <==> other in t)
              && (forall other | other != id && other in t :: t'[other] == t[other])
              && (out.Some? <==> whole)
              && (id in t' <==> !whole)
              && (!whole ==> t'[id] == Partial(count, account, signature, chunks,
                                               if id in t then t[id].firstSeen else now))
              && (whole ==>
                    && |out.value.chunks| == count
                    && (forall j: UInt32 | j < count :: out.value.chunks[j] == chunks[j])
                    && out.value.signature == signature && out.value.account == account && out.value.bot == sender)
  {
    assert Accepted(own, Arrive(a, sender, now));
    var id := a.Chunk().messageID;
    var p := Entry(t, id, now);
    if a.First? {
      p := p.(signature := a.first.signature, chunksCount := a.first.chunksCount, account := a.first.account);
    }
    AddedChunk(t, id, p, a.Index(), a.Chunk().data, sender);
    assert p.chunksCount == CountWith(t, a) && StoreChunk(p, a.Index(), a.Chunk().data).chunks == ChunksWith(t, a);
  }

  lemma AddedChunk(t: Table, id: string, p: Partial, index: UInt32, data: Bytes, bot: Address)
    ensures var (t', out) := DeliverIfComplete(AddChunk(t, id, p, index, data), bot);
            var chunks := StoreChunk(p, index, data).chunks;
            var whole := p.chunksCount != 0 && index < p.chunksCount
                         && forall j: UInt32 | j < p.chunksCount :: j in chunks;
            && t' == (if whole then t - {id} else t[id := p.(chunks := chunks)])
            && (out.Some? <==> whole)
            && (whole ==>
                  && |out.value.chunks| == p.chunksCount
                  && (forall j: UInt32 | j < p.chunksCount :: out.value.chunks[j] == chunks[j])
                  && out.value.signature == p.signature && out.value.account == p.account && out.value.bot == bot)
  {
  }

  // ---------- Runs ----------

  /** The table after a run of events from the empty table. */
  function TableAfter(own: Address, evs: seq<Event>): Table {
    if evs == [] then map[]
    else Receive(own, TableAfter(own, evs[..|evs| - 1]), evs[|evs| - 1]).0
  }

  /** What event `k` of the run delivers. */
  function OutputAt(own: Address, evs: seq<Event>, k: nat): Option<Delivery>
    requires k < |evs|
  {
    Receive(own, TableAfter(own, evs[..k]), evs[k]).1
  }

  lemma PrefixTable(own: Address, evs: seq<Event>, k: nat)
    requires k < |evs|
    ensures TableAfter(own, evs[..k + 1]) == Receive(own, TableAfter(own, evs[..k]), evs[k]).0
  {
    assert evs[..k + 1][..k] == evs[..k];
  }

  // ---------- Arbitrary, even inconsistent, events ----------

  /** What holds of every entry that stays in the table: it is never complete, and chunk 0 tells the count. */
  ghost predicate ResidentOk(p: Partial) {
    && !IndexSetComplete(p)
    && (0 in p.chunks <==> p.chunksCount != 0)
    && p.chunksCount != 1
  }

  ghost predicate TableOk(t: Table) {
    forall id | id in t :: ResidentOk(t[id])
  }

  /**
   * Every received event, however malformed or inconsistent, keeps the table free of complete entries, and a
   * completed message always assembles: the branch that drops a message with a hole is unreachable.
   */
  lemma ReceiveKeepsTableOk(own: Address, t: Table, ev: Event)
    requires TableOk(t)
    ensures TableOk(Receive(own, t, ev).0)
    ensures Accepted(own, ev) && ev.arrival.Next? ==>
              var r := AddNextChunk(t, ev.arrival.next, ev.now);
              r.1.Some? ==> Assemble(r.1.value).Some?
    ensures Accepted(own, ev) && ev.arrival.First? && ev.arrival.first.chunksCount != 1 ==>
              var r := AddFirstChunk(t, ev.arrival.first, ev.now);
              r.1.Some? ==> Assemble(r.1.value).Some?
  {
  }

  /** In every reachable table no entry is complete, and chunk 0 is present iff the count is known. */
  lemma {:induction false} ReachableTableOk(own: Address, evs: seq<Event>)
    ensures TableOk(TableAfter(own, evs))
  {
    if evs != [] {
      ReachableTableOk(own, evs[..|evs| - 1]);
      ReceiveKeepsTableOk(own, TableAfter(own, evs[..|evs| - 1]), evs[|evs| - 1]);
    }
  }

  // ---------- Memory and lifetime ----------

  predicate Monotone(evs: seq<Event>) {
    forall i, j | 0 <= i <= j < |evs| :: evs[i].now <= evs[j].now
  }

  /** When the table was last swept, or `start` if it never was. */
  function LastSweep(evs: seq<Event>, start: int): int {
    if evs == [] then start
    else if evs[|evs| - 1].Sweep? then evs[|evs| - 1].now
    else LastSweep(evs[..|evs| - 1], start)
  }

  lemma {:induction false} LastSweepBefore(evs: seq<Event>, start: int, now: int)
    requires start <= now && forall i | 0 <= i < |evs| :: evs[i].now <= now
    ensures LastSweep(evs, start) <= now
  {
    if evs != [] {
      LastSweepBefore(evs[..|evs| - 1], start, now);
    }
  }

  /** No entry survives a sweep that finds it older than the TTL, so none was older than that at the last sweep. */
  lemma {:induction false} EntriesYoungAtLastSweep(own: Address, evs: seq<Event>, start: int)
    requires Monotone(evs) && (evs != [] ==> start <= evs[0].now)
    ensures forall id | id in TableAfter(own, evs) ::
              TableAfter(own, evs)[id].firstSeen >= LastSweep(evs, start) - PARTIAL_MESSAGE_TTL
  {
    if evs != [] {
      var prev, ev := evs[..|evs| - 1], evs[|evs| - 1];
      EntriesYoungAtLastSweep(own, prev, start);
      LastSweepBefore(prev, start, ev.now);
    }
  }

  /**
   * If, at time `now`, the last sweep is no more than a minute ago, then no entry in the table is older than six
   * minutes.
   */
  lemma PartialMessageAgeBound(own: Address, evs: seq<Event>, start: int, now: int, id: string)
    requires Monotone(evs) && (evs != [] ==> start <= evs[0].now)
    requires now - LastSweep(evs, start) <= 60_000_000_000
    requires id in TableAfter(own, evs)
    ensures now - TableAfter(own, evs)[id].firstSeen <= 360_000_000_000
  {
    EntriesYoungAtLastSweep(own, evs, start);
  }

  /** An entry leaves the table only by being delivered, or by a sweep that finds it older than the TTL. */
  lemma EntryLeavesOnlyDeliveredOrStale(own: Address, t: Table, ev: Event, id: string)
    requires TableOk(t) && id in t && id !in Receive(own, t, ev).0
    ensures match ev
            case Sweep(now) => now - t[id].firstSeen > 300_000_000_000
            case Arrive(a, _, _) => a.Chunk().messageID == id && Receive(own, t, ev).1.Some?
  {
  }
}

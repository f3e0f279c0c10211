/**
 * What a run of the reassembler does with one multi-chunk message, told without its data structures: by the set of
 * chunk indices seen since the message's entry last left the table.
 */
module ReassemblySpec {
  import opened Types
  import opened MatrixEvents
  import opened Reassembly

  /** A message as its sender split, signed and labelled it. */
  datatype Sent = Sent(id: string, chunks: seq<Bytes>, signature: Bytes, account: Address)
  {
    ghost predicate MultiChunk() {
      2 <= |chunks| < UINT32_LIMIT
    }
  }

  predicate Concerns(own: Address, ev: Event, id: string) {
    Accepted(own, ev) && ev.arrival.Chunk().messageID == id
  }

  /** Event `ev` is an accepted arrival of chunk `i` of message `id`. */
  predicate ArrivalOf(own: Address, ev: Event, id: string, i: UInt32) {
    Concerns(own, ev, id) && ev.arrival.Index() == i
  }

  /** `ev` does not contradict the sender; an index beyond its chunks may still carry anything. */
  ghost predicate Consistent(own: Address, ev: Event, m: Sent) {
    Concerns(own, ev, m.id) ==>
      match ev.arrival
      case First(e) => && e.chunksCount == |m.chunks| && e.chunk.data == m.chunks[0]
                       && e.signature == m.signature && e.account == m.account
      case Next(e) => e.chunkIndex < |m.chunks| ==> e.chunk.data == m.chunks[e.chunkIndex]
  }

  ghost predicate ConsistentRun(own: Address, evs: seq<Event>, m: Sent) {
    m.MultiChunk() && forall k | 0 <= k < |evs| :: Consistent(own, evs[k], m)
  }

  predicate DeliveredAt(own: Address, evs: seq<Event>, id: string, k: nat)
    requires k < |evs|
  {
    Concerns(own, evs[k], id) && OutputAt(own, evs, k).Some?
  }

  /** The position just after the entry of `id` last left the table, by delivery or eviction; 0 if it never did. */
  function LastReset(own: Address, evs: seq<Event>, id: string): (r: nat)
    ensures r <= |evs|
  {
    if evs == [] then 0
    else
      var prev := evs[..|evs| - 1];
      if LeavesAt(own, evs, id, |evs| - 1) then |evs| else LastReset(own, prev, id)
  }

  predicate LeavesAt(own: Address, evs: seq<Event>, id: string, k: nat)
    requires k < |evs|
  {
    id in TableAfter(own, evs[..k]) && id !in Receive(own, TableAfter(own, evs[..k]), evs[k]).0
  }

  /** Chunk `i` arrived at or after position `from`. */
  ghost predicate SeenSince(own: Address, evs: seq<Event>, id: string, from: nat, i: UInt32) {
    exists j :: from <= j < |evs| && ArrivalOf(own, evs[j], id, i)
  }

  ghost predicate AnySeenSince(own: Address, evs: seq<Event>, id: string, from: nat) {
    exists j :: from <= j < |evs| && Concerns(own, evs[j], id)
  }

  /** The refinement: the concrete entry of a message against the arrivals seen since its last reset. */
  ghost predicate Refines(own: Address, evs: seq<Event>, m: Sent)
    requires m.MultiChunk()
  {
    var t, r, n := TableAfter(own, evs), LastReset(own, evs, m.id), |m.chunks|;
    && (m.id in t <==> AnySeenSince(own, evs, m.id, r))
    && (m.id in t ==>
          var p := t[m.id];
          && p.chunksCount == (if 0 in p.chunks then n else 0)
          && (0 in p.chunks ==> p.signature == m.signature && p.account == m.account)
          && (forall i: UInt32 | i < n :: i in p.chunks <==> SeenSince(own, evs, m.id, r, i))
          && (forall i: UInt32 | i < n && i in p.chunks :: p.chunks[i] == m.chunks[i])
          && exists i: UInt32 :: i < n && i !in p.chunks)
  }

  lemma SeenSinceExtend(own: Address, evs: seq<Event>, id: string, from: nat, i: UInt32)
    requires evs != [] && from < |evs|
    ensures SeenSince(own, evs, id, from, i) <==>
            SeenSince(own, evs[..|evs| - 1], id, from, i) || ArrivalOf(own, evs[|evs| - 1], id, i)
    ensures AnySeenSince(own, evs, id, from) <==>
            AnySeenSince(own, evs[..|evs| - 1], id, from) || Concerns(own, evs[|evs| - 1], id)
  {
  }

  /** Every chunk of `m` arrived at or after position `from`. */
  ghost predicate AllSeenSince(own: Address, evs: seq<Event>, m: Sent, from: nat) {
    forall i: UInt32 | i < |m.chunks| :: SeenSince(own, evs, m.id, from, i)
  }

  /** An event that does not concern a message leaves its entry alone, except that a sweep may evict it. */
  lemma UnconcernedStep(own: Address, t: Table, ev: Event, id: string)
    requires !Concerns(own, ev, id)
    ensures var t' := Receive(own, t, ev).0;
            && (id in t' ==> id in t && t'[id] == t[id])
            && (id in t && id !in t' ==> ev.Sweep? && Stale(t[id], ev.now))
  {
  }

  /** A concerning event of a consistent run puts its chunk into the entry, and delivers exactly when none is missing. */
  lemma ConcernedStep(own: Address, t: Table, ev: Event, m: Sent)
    requires m.MultiChunk() && Concerns(own, ev, m.id) && Consistent(own, ev, m)
    requires var p := Entry(t, m.id, ev.now); var n := |m.chunks|;
             && p.chunksCount == (if 0 in p.chunks then n else 0)
             && (0 in p.chunks ==> p.signature == m.signature && p.account == m.account)
             && (forall i: UInt32 | i < n && i in p.chunks :: p.chunks[i] == m.chunks[i])
             && exists i: UInt32 :: i < n && i !in p.chunks
    ensures var (t', out) := Receive(own, t, ev);
            var p, n, i := Entry(t, m.id, ev.now), |m.chunks|, ev.arrival.Index();
            && (out.Some? <==> forall j: UInt32 | j < n && j !in p.chunks :: j == i)
            && (out.Some? ==> m.id !in t' && out.value == Delivery(m.chunks, m.signature, m.account, ev.sender))
            && (out.None? ==>
                  && m.id in t'
                  && var p' := t'[m.id];
                  && p'.firstSeen == p.firstSeen
                  && p'.chunksCount == (if 0 in p'.chunks then n else 0)
                  && (0 in p'.chunks ==> p'.signature == m.signature && p'.account == m.account)
                  && (forall j: UInt32 | j < n :: j in p'.chunks <==> j in p.chunks || j == i)
                  && (forall j: UInt32 | j < n && j in p'.chunks :: p'.chunks[j] == m.chunks[j]))
  {
    var p, n, i := Entry(t, m.id, ev.now), |m.chunks|, ev.arrival.Index();
    var q := if ev.arrival.First? then p.(signature := m.signature, chunksCount := n, account := m.account) else p;
    var stored := StoreChunk(q, i, ev.arrival.Chunk().data);
    assert i >= n && q.chunksCount != 0 ==> stored == p;
    if IndexSetComplete(stored) {
      assert stored.chunksCount == n;
      var assembled := Assemble(stored).value;
      assert forall j: UInt32 | j < n :: stored.chunks[j] == m.chunks[j];
      assert forall j | 0 <= j < n :: assembled[j] == m.chunks[j];
      assert assembled == m.chunks;
      assert i < n;
      forall j: UInt32 | j < n && j !in p.chunks
        ensures j == i
      {
        assert j in stored.chunks;
      }
    } else if stored.chunksCount == n {
      var j: UInt32 :| j < n && j !in stored.chunks;
    }
  }

  /** The refinement holds after every run that does not contradict the sender. */
  lemma {:induction false} RunRefines(own: Address, evs: seq<Event>, m: Sent)
    requires ConsistentRun(own, evs, m)
    ensures Refines(own, evs, m)
  {
    if evs != [] {
      var prev, ev := evs[..|evs| - 1], evs[|evs| - 1];
      assert forall k | 0 <= k < |prev| :: Consistent(own, prev[k], m);
      RunRefines(own, prev, m);
      var r := LastReset(own, prev, m.id);
      forall i: UInt32 {
        SeenSinceExtend(own, evs, m.id, r, i);
      }
      if Concerns(own, ev, m.id) {
        assert Consistent(own, ev, m);
        EntryMatches(own, prev, m, ev.now);
        ConcernedStep(own, TableAfter(own, prev), ev, m);
        RefinesAfterArrival(own, evs, m);
      } else {
        UnconcernedStep(own, TableAfter(own, prev), ev, m.id);
      }
    }
  }

  /** A missing entry reads as a fresh one, of which nothing has been seen. */
  lemma EntryMatches(own: Address, evs: seq<Event>, m: Sent, now: int)
    requires m.MultiChunk() && Refines(own, evs, m)
    ensures var p := Entry(TableAfter(own, evs), m.id, now); var n := |m.chunks|;
            && p.chunksCount == (if 0 in p.chunks then n else 0)
            && (0 in p.chunks ==> p.signature == m.signature && p.account == m.account)
            && (forall i: UInt32 | i < n && i in p.chunks :: p.chunks[i] == m.chunks[i])
            && (forall i: UInt32 | i < n :: i in p.chunks <==> SeenSince(own, evs, m.id, LastReset(own, evs, m.id), i))
            && exists i: UInt32 :: i < n && i !in p.chunks
  {
  }

  lemma RefinesAfterArrival(own: Address, evs: seq<Event>, m: Sent)
    requires ConsistentRun(own, evs, m) && evs != [] && Concerns(own, evs[|evs| - 1], m.id)
    requires Refines(own, evs[..|evs| - 1], m)
    ensures Refines(own, evs, m)
  {
    var prev, ev := evs[..|evs| - 1], evs[|evs| - 1];
    var t, r := TableAfter(own, prev), LastReset(own, prev, m.id);
    assert Consistent(own, ev, m);
    EntryMatches(own, prev, m, ev.now);
    ConcernedStep(own, t, ev, m);
    if Receive(own, t, ev).1.Some? {
      SeveralSeen(own, prev, m, ev);
      assert LastReset(own, evs, m.id) == |evs|;
    } else {
      assert LastReset(own, evs, m.id) == r;
      HeldAfterArrival(own, evs, m, r, Entry(t, m.id, ev.now), TableAfter(own, evs)[m.id]);
    }
  }

  /** An entry that took in one more arrival holds exactly what has been seen since. */
  lemma HeldAfterArrival(own: Address, evs: seq<Event>, m: Sent, r: nat, p: Partial, p': Partial)
    requires evs != [] && r < |evs| && Concerns(own, evs[|evs| - 1], m.id) && |m.chunks| < UINT32_LIMIT
    requires forall i: UInt32 | i < |m.chunks| :: i in p.chunks <==> SeenSince(own, evs[..|evs| - 1], m.id, r, i)
    requires forall i: UInt32 | i < |m.chunks| ::
               i in p'.chunks <==> i in p.chunks || i == evs[|evs| - 1].arrival.Index()
    ensures forall i: UInt32 | i < |m.chunks| :: i in p'.chunks <==> SeenSince(own, evs, m.id, r, i)
    ensures AnySeenSince(own, evs, m.id, r)
  {
  }

  /** A message completed by one arrival had an entry before it: it has at least two chunks. */
  lemma SeveralSeen(own: Address, prev: seq<Event>, m: Sent, ev: Event)
    requires m.MultiChunk() && Refines(own, prev, m) && Concerns(own, ev, m.id) && Consistent(own, ev, m)
    requires Receive(own, TableAfter(own, prev), ev).1.Some?
    ensures m.id in TableAfter(own, prev)
  {
    EntryMatches(own, prev, m, ev.now);
    ConcernedStep(own, TableAfter(own, prev), ev, m);
    var other: UInt32 := if ev.arrival.Index() == 0 then 1 else 0;
    assert other < |m.chunks| && other in Entry(TableAfter(own, prev), m.id, ev.now).chunks;
  }

  /**
   * The reassembler refines the set-of-indices specification. In any run that does not contradict the sender, event
   * `k` delivers the message iff it is an arrival of the message and every chunk has been seen since the message was
   * last delivered or evicted; and what is delivered is the sender's chunks in order, with its signature and account.
   */
  lemma DeliveredExactlyWhenAllSeen(own: Address, evs: seq<Event>, m: Sent, k: nat)
    requires ConsistentRun(own, evs, m) && k < |evs|
    ensures DeliveredAt(own, evs, m.id, k) <==>
            Concerns(own, evs[k], m.id) && AllSeenSince(own, evs[..k + 1], m, LastReset(own, evs[..k], m.id))
    ensures DeliveredAt(own, evs, m.id, k) ==>
            OutputAt(own, evs, k) == Some(Delivery(m.chunks, m.signature, m.account, evs[k].sender))
  {
    if Concerns(own, evs[k], m.id) {
      var prev, upto := evs[..k], evs[..k + 1];
      assert upto[..|upto| - 1] == prev && upto[|upto| - 1] == evs[k];
      assert forall j | 0 <= j < |prev| :: Consistent(own, prev[j], m) by {
        assert forall j | 0 <= j < |prev| :: prev[j] == evs[j];
      }
      assert Consistent(own, evs[k], m);
      RunRefines(own, prev, m);
      EntryMatches(own, prev, m, evs[k].now);
      ConcernedStep(own, TableAfter(own, prev), evs[k], m);
      var r := LastReset(own, prev, m.id);
      var p := Entry(TableAfter(own, prev), m.id, evs[k].now);
      forall i: UInt32 | i < |m.chunks|
        ensures SeenSince(own, upto, m.id, r, i) <==> i in p.chunks || i == evs[k].arrival.Index()
      {
        SeenSinceExtend(own, upto, m.id, r, i);
      }
    }
  }

  // ---------- Conservation ----------

  /** How often chunk `i` of message `id` arrived. */
  function Arrivals(own: Address, evs: seq<Event>, id: string, i: UInt32): nat {
    if evs == [] then 0
    else Arrivals(own, evs[..|evs| - 1], id, i) + if ArrivalOf(own, evs[|evs| - 1], id, i) then 1 else 0
  }

  /** How often message `id` was delivered. */
  function Deliveries(own: Address, evs: seq<Event>, id: string): nat {
    if evs == [] then 0
    else Deliveries(own, evs[..|evs| - 1], id) + if DeliveredAt(own, evs, id, |evs| - 1) then 1 else 0
  }

  /** Whether the chunk is held by the current, not yet complete, entry. */
  ghost function Held(own: Address, evs: seq<Event>, id: string, i: UInt32): nat {
    if SeenSince(own, evs, id, LastReset(own, evs, id), i) then 1 else 0
  }

  /** What the last event of a run does to the arrivals held, in terms of the run before it. */
  lemma LastEvent(own: Address, evs: seq<Event>, m: Sent)
    requires ConsistentRun(own, evs, m) && evs != []
    ensures ConsistentRun(own, evs[..|evs| - 1], m)
    ensures var prev, ev := evs[..|evs| - 1], evs[|evs| - 1];
            if DeliveredAt(own, evs, m.id, |evs| - 1) then
              forall i: UInt32 | i < |m.chunks| ::
                && Held(own, evs, m.id, i) == 0
                && (Held(own, prev, m.id, i) == 1 || ArrivalOf(own, ev, m.id, i))
            else if LeavesAt(own, evs, m.id, |evs| - 1) then
              ev.Sweep? && forall i: UInt32 :: Held(own, evs, m.id, i) == 0
            else
              forall i: UInt32 :: Held(own, evs, m.id, i) ==
                (if ArrivalOf(own, ev, m.id, i) then 1 else Held(own, prev, m.id, i))
  {
    var prev, ev := evs[..|evs| - 1], evs[|evs| - 1];
    assert forall k | 0 <= k < |prev| :: Consistent(own, prev[k], m);
    assert evs[..|evs| - 1 + 1] == evs;
    DeliveredExactlyWhenAllSeen(own, evs, m, |prev|);
    RunRefines(own, prev, m);
    ReachableTableOk(own, prev);
    forall i: UInt32 {
      SeenSinceExtend(own, evs, m.id, LastReset(own, prev, m.id), i);
    }
    if DeliveredAt(own, evs, m.id, |prev|) {
      SeveralSeen(own, prev, m, ev);
      EntryMatches(own, prev, m, ev.now);
      ConcernedStep(own, TableAfter(own, prev), ev, m);
    } else if LeavesAt(own, evs, m.id, |prev|) {
      EntryLeavesOnlyDeliveredOrStale(own, TableAfter(own, prev), ev, m.id);
    }
  }

  /**
   * Deliveries are conserved: a message is delivered at most as often as each of its chunks arrived, and an arrival
   * still held by an incomplete entry has not been spent on any delivery.
   */
  lemma {:induction false} DeliveriesConserved(own: Address, evs: seq<Event>, m: Sent, i: UInt32)
    requires ConsistentRun(own, evs, m) && i < |m.chunks|
    ensures Deliveries(own, evs, m.id) + Held(own, evs, m.id, i) <= Arrivals(own, evs, m.id, i)
  {
    if evs != [] {
      LastEvent(own, evs, m);
      DeliveriesConserved(own, evs[..|evs| - 1], m, i);
    }
  }

  // ---------- Delivery ----------

  /** A sweep evicts the message only after it has been delivered. */
  ghost predicate NoEarlyEviction(own: Address, evs: seq<Event>, id: string) {
    forall k | 0 <= k < |evs| :: evs[k].Sweep? && LeavesAt(own, evs, id, k) ==> Deliveries(own, evs[..k], id) > 0
  }

  ghost predicate NoStrayIndex(own: Address, evs: seq<Event>, m: Sent) {
    forall k | 0 <= k < |evs| :: Concerns(own, evs[k], m.id) ==> evs[k].arrival.Index() < |m.chunks|
  }

  lemma PrefixNotEvicted(own: Address, evs: seq<Event>, id: string, n: nat)
    requires n <= |evs|
    requires forall k | 0 <= k < n :: evs[k].Sweep? && LeavesAt(own, evs, id, k) ==> Deliveries(own, evs[..k], id) > 0
    ensures NoEarlyEviction(own, evs[..n], id)
  {
    forall k | 0 <= k < n
      ensures evs[..n][..k] == evs[..k] && LeavesAt(own, evs[..n], id, k) == LeavesAt(own, evs, id, k)
    {
      assert evs[..n][..k] == evs[..k];
    }
  }

  /** An event that neither delivers nor evicts adds its chunk to what is held. */
  lemma HeldGrows(own: Address, evs: seq<Event>, m: Sent, i: UInt32)
    requires ConsistentRun(own, evs, m) && evs != [] && !DeliveredAt(own, evs, m.id, |evs| - 1)
    requires evs[|evs| - 1].Sweep? ==> !LeavesAt(own, evs, m.id, |evs| - 1)
    ensures var prev := evs[..|evs| - 1];
            && ConsistentRun(own, prev, m)
            && (SeenSince(own, evs, m.id, LastReset(own, evs, m.id), i) <==>
                  SeenSince(own, prev, m.id, LastReset(own, prev, m.id), i) || ArrivalOf(own, evs[|evs| - 1], m.id, i))
  {
    LastEvent(own, evs, m);
    assert Held(own, evs, m.id, i) == if ArrivalOf(own, evs[|evs| - 1], m.id, i) then 1
                                      else Held(own, evs[..|evs| - 1], m.id, i);
  }

  /** Until its first delivery, the entry of a message holds every chunk that ever arrived. */
  lemma {:induction false} HeldUntilDelivered(own: Address, evs: seq<Event>, m: Sent, i: UInt32)
    requires ConsistentRun(own, evs, m) && NoEarlyEviction(own, evs, m.id) && i < |m.chunks|
    requires Deliveries(own, evs, m.id) == 0
    ensures SeenSince(own, evs, m.id, LastReset(own, evs, m.id), i) <==> SeenSince(own, evs, m.id, 0, i)
  {
    if evs != [] {
      PrefixNotEvicted(own, evs, m.id, |evs| - 1);
      HeldGrows(own, evs, m, i);
      HeldUntilDelivered(own, evs[..|evs| - 1], m, i);
      SeenSinceExtend(own, evs, m.id, 0, i);
    }
  }

  /** At any time some chunk is not held. */
  lemma SomeChunkMissing(own: Address, evs: seq<Event>, m: Sent) returns (missing: UInt32)
    requires ConsistentRun(own, evs, m)
    ensures missing < |m.chunks| && !SeenSince(own, evs, m.id, LastReset(own, evs, m.id), missing)
  {
    RunRefines(own, evs, m);
    EntryMatches(own, evs, m, 0);
    missing :| missing < |m.chunks| && missing !in Entry(TableAfter(own, evs), m.id, 0).chunks;
  }

  /** Without a stray index, an entry in the table holds some chunk. */
  lemma EntryHoldsSome(own: Address, evs: seq<Event>, m: Sent) returns (held: UInt32)
    requires ConsistentRun(own, evs, m) && NoStrayIndex(own, evs, m) && m.id in TableAfter(own, evs)
    ensures held < |m.chunks| && Held(own, evs, m.id, held) == 1
  {
    RunRefines(own, evs, m);
    var j :| LastReset(own, evs, m.id) <= j < |evs| && Concerns(own, evs[j], m.id);
    held := evs[j].arrival.Index();
    assert ArrivalOf(own, evs[j], m.id, held);
  }

  /**
   * If every chunk arrives, in any order, any number of times and interleaved with anything else, and no sweep finds
   * the message stale before its first delivery, then it is delivered; exactly once if some chunk arrives only once.
   * If every chunk arrives only once, no entry is left behind, unless a stray index opened one.
   */
  lemma ExactlyOnceDelivery(own: Address, evs: seq<Event>, m: Sent)
    requires ConsistentRun(own, evs, m) && NoEarlyEviction(own, evs, m.id)
    requires AllSeenSince(own, evs, m, 0)
    ensures Deliveries(own, evs, m.id) >= 1
    ensures forall i: UInt32 | i < |m.chunks| && Arrivals(own, evs, m.id, i) == 1 :: Deliveries(own, evs, m.id) == 1
    ensures NoStrayIndex(own, evs, m) && (forall i: UInt32 | i < |m.chunks| :: Arrivals(own, evs, m.id, i) == 1) ==>
              m.id !in TableAfter(own, evs)
  {
    var missing := SomeChunkMissing(own, evs, m);
    if Deliveries(own, evs, m.id) == 0 {
      HeldUntilDelivered(own, evs, m, missing);
    }
    forall i: UInt32 | i < |m.chunks|
      ensures Deliveries(own, evs, m.id) + Held(own, evs, m.id, i) <= Arrivals(own, evs, m.id, i)
    {
      DeliveriesConserved(own, evs, m, i);
    }
    if NoStrayIndex(own, evs, m) && m.id in TableAfter(own, evs) {
      var held := EntryHoldsSome(own, evs, m);
    }
  }

  // ---------- Eviction ----------

  /** An entry that is there after an event was opened by it or is as old as it was before. */
  lemma EntryAgeStep(own: Address, evs: seq<Event>, m: Sent)
    requires ConsistentRun(own, evs, m) && m.id in TableAfter(own, evs)
    ensures evs != []
    ensures var prev, ev := evs[..|evs| - 1], evs[|evs| - 1];
            var t := TableAfter(own, prev);
            && LastReset(own, evs, m.id) == LastReset(own, prev, m.id)
            && (m.id !in t ==> Concerns(own, ev, m.id))
            && TableAfter(own, evs)[m.id].firstSeen == if m.id in t then t[m.id].firstSeen else ev.now
  {
    var prev, ev := evs[..|evs| - 1], evs[|evs| - 1];
    assert forall k | 0 <= k < |prev| :: Consistent(own, prev[k], m);
    RunRefines(own, prev, m);
    if Concerns(own, ev, m.id) {
      EntryMatches(own, prev, m, ev.now);
      assert Consistent(own, ev, m);
      ConcernedStep(own, TableAfter(own, prev), ev, m);
    } else {
      UnconcernedStep(own, TableAfter(own, prev), ev, m.id);
    }
  }

  /** The entry's age counts from the arrival that created it, which is at or after the last reset. */
  lemma {:induction false} FirstSeenIsAnArrival(own: Address, evs: seq<Event>, m: Sent)
    requires ConsistentRun(own, evs, m) && m.id in TableAfter(own, evs)
    ensures exists j :: && LastReset(own, evs, m.id) <= j < |evs| && Concerns(own, evs[j], m.id)
                        && evs[j].now == TableAfter(own, evs)[m.id].firstSeen
                        && forall k | LastReset(own, evs, m.id) <= k < j :: !Concerns(own, evs[k], m.id)
  {
    var prev, ev := evs[..|evs| - 1], evs[|evs| - 1];
    assert forall k | 0 <= k < |prev| :: Consistent(own, prev[k], m);
    RunRefines(own, prev, m);
    var t, r := TableAfter(own, prev), LastReset(own, prev, m.id);
    EntryAgeStep(own, evs, m);
    if m.id in t {
      FirstSeenIsAnArrival(own, prev, m);
      var j :| r <= j < |prev| && Concerns(own, prev[j], m.id) && prev[j].now == t[m.id].firstSeen
               && forall k | r <= k < j :: !Concerns(own, prev[k], m.id);
      assert evs[j] == prev[j] && forall k | r <= k < j :: evs[k] == prev[k];
    } else {
      assert !AnySeenSince(own, prev, m.id, r);
      forall k | r <= k < |prev| ensures !Concerns(own, evs[k], m.id) {
        assert prev[k] == evs[k];
      }
    }
  }

  /**
   * A message is evicted only when some chunk of it is late: no arrival of that chunk since the last reset, past or
   * future, is within the TTL of the arrival `j` that opened the entry. So a message whose chunks all arrive within
   * the TTL of its first arrival is delivered before any sweep can evict it.
   */
  lemma EvictedOnlyIfLate(own: Address, evs: seq<Event>, m: Sent, k: nat)
    requires ConsistentRun(own, evs, m) && Monotone(evs)
    requires k < |evs| && evs[k].Sweep? && LeavesAt(own, evs, m.id, k)
    ensures exists i: UInt32, j :: && i < |m.chunks| && LastReset(own, evs[..k], m.id) <= j < k
                                   && Concerns(own, evs[j], m.id)
                                   && NotWithinTTL(own, evs, m.id, i, LastReset(own, evs[..k], m.id), evs[j].now)
  {
    var prev := evs[..k];
    forall x | 0 <= x < |prev| ensures Consistent(own, prev[x], m) {
      assert prev[x] == evs[x];
    }
    RunRefines(own, prev, m);
    FirstSeenIsAnArrival(own, prev, m);
    var t, r := TableAfter(own, prev), LastReset(own, prev, m.id);
    var i: UInt32 :| i < |m.chunks| && i !in t[m.id].chunks;
    var j :| r <= j < |prev| && Concerns(own, prev[j], m.id) && prev[j].now == t[m.id].firstSeen;
    assert evs[j] == prev[j];
    forall x | r <= x < |evs| && ArrivalOf(own, evs[x], m.id, i)
      ensures evs[x].now - evs[j].now > PARTIAL_MESSAGE_TTL
    {
      if x < k {
        assert prev[x] == evs[x];
        assert SeenSince(own, prev, m.id, r, i);
      }
    }
    assert NotWithinTTL(own, evs, m.id, i, r, evs[j].now);
  }

  ghost predicate NotWithinTTL(own: Address, evs: seq<Event>, id: string, i: UInt32, from: nat, openedAt: int) {
    forall x | from <= x < |evs| && ArrivalOf(own, evs[x], id, i) :: evs[x].now - openedAt > PARTIAL_MESSAGE_TTL
  }

  // ---------- Timely messages ----------

  /** Event `x` is an arrival of chunk `i` within one TTL of the message's first arrival. */
  ghost predicate InTime(own: Address, evs: seq<Event>, id: string, i: UInt32, x: nat)
    requires x < |evs|
  {
    && ArrivalOf(own, evs[x], id, i)
    && forall j | 0 <= j < |evs| && Concerns(own, evs[j], id) :: evs[x].now - evs[j].now <= PARTIAL_MESSAGE_TTL
  }

  ghost predicate ArrivesInTime(own: Address, evs: seq<Event>, id: string, i: UInt32) {
    exists x :: 0 <= x < |evs| && InTime(own, evs, id, i, x)
  }

  ghost predicate AllArriveInTime(own: Address, evs: seq<Event>, m: Sent) {
    forall i: UInt32 | i < |m.chunks| :: ArrivesInTime(own, evs, m.id, i)
  }

  /** A message of which every chunk arrives in time is not evicted before it has been delivered. */
  lemma {:induction false} TimelyNotEvicted(own: Address, evs: seq<Event>, m: Sent, k: nat)
    requires ConsistentRun(own, evs, m) && Monotone(evs) && AllArriveInTime(own, evs, m)
    requires k < |evs| && evs[k].Sweep? && LeavesAt(own, evs, m.id, k)
    ensures Deliveries(own, evs[..k], m.id) > 0
  {
    forall j | 0 <= j < k && evs[j].Sweep? && LeavesAt(own, evs, m.id, j)
      ensures Deliveries(own, evs[..j], m.id) > 0
    {
      TimelyNotEvicted(own, evs, m, j);
    }
    PrefixNotEvicted(own, evs, m.id, k);
    if Deliveries(own, evs[..k], m.id) == 0 {
      EarlyEvictionIsLate(own, evs, m, k);
    }
  }

  lemma EarlyEvictionIsLate(own: Address, evs: seq<Event>, m: Sent, k: nat)
    requires k < |evs| && evs[k].Sweep? && LeavesAt(own, evs, m.id, k) && Monotone(evs)
    requires ConsistentRun(own, evs, m) && NoEarlyEviction(own, evs[..k], m.id)
    requires Deliveries(own, evs[..k], m.id) == 0
    ensures !AllArriveInTime(own, evs, m)
  {
    var prev := evs[..k];
    forall x | 0 <= x < k
      ensures Consistent(own, prev[x], m)
    {
      assert prev[x] == evs[x];
    }
    var missing := SomeChunkMissing(own, prev, m);
    HeldUntilDelivered(own, prev, m, missing);
    FirstSeenIsAnArrival(own, prev, m);
    var j :| 0 <= j < |prev| && Concerns(own, prev[j], m.id)
             && prev[j].now == TableAfter(own, prev)[m.id].firstSeen;
    assert evs[j] == prev[j];
    forall x | 0 <= x < |evs|
      ensures !InTime(own, evs, m.id, missing, x)
    {
      if x < k {
        assert prev[x] == evs[x];
      }
    }
    assert !ArrivesInTime(own, evs, m.id, missing);
  }

  /**
   * If every chunk arrives within one TTL of the message's first arrival, the message is delivered whatever the
   * sweeper does, whatever is repeated and whatever else arrives; and exactly once if some chunk arrives only once.
   */
  lemma TimelyDelivery(own: Address, evs: seq<Event>, m: Sent)
    requires ConsistentRun(own, evs, m) && Monotone(evs) && AllArriveInTime(own, evs, m)
    ensures Deliveries(own, evs, m.id) >= 1
    ensures forall i: UInt32 | i < |m.chunks| && Arrivals(own, evs, m.id, i) == 1 :: Deliveries(own, evs, m.id) == 1
    ensures NoStrayIndex(own, evs, m) && (forall i: UInt32 | i < |m.chunks| :: Arrivals(own, evs, m.id, i) == 1) ==>
              m.id !in TableAfter(own, evs)
  {
    forall k | 0 <= k < |evs| && evs[k].Sweep? && LeavesAt(own, evs, m.id, k)
      ensures Deliveries(own, evs[..k], m.id) > 0
    {
      TimelyNotEvicted(own, evs, m, k);
    }
    forall i: UInt32 | i < |m.chunks|
      ensures SeenSince(own, evs, m.id, 0, i)
    {
      assert ArrivesInTime(own, evs, m.id, i);
    }
    ExactlyOnceDelivery(own, evs, m);
  }
}

/**
 * The sending side of the multi-chunk transport: cutting an encoded frame into chunks
 * (internal/messaging/encoding/encoder_decoder.go) and building one room event per chunk
 * (internal/matrix/messenger/messages.go).
 */
module Chunking {
  import opened Types
  import opened MatrixEvents
  import opened Reassembly
  import opened ReassemblySpec

  /** bytes.Join with no separator. */
  function Join(chunks: seq<Bytes>): Bytes {
    if chunks == [] then [] else Join(chunks[..|chunks| - 1]) + chunks[|chunks| - 1]
  }

  /** `data` cut into pieces of `size` bytes, the last of which may be shorter. */
  function Chunks(data: Bytes, size: nat): seq<Bytes>
    requires size > 0
  {
    if |data| == 0 then []
    else if |data| <= size then [data]
    else [data[..size]] + Chunks(data[size..], size)
  }

  /** The conditions that fix a partition of `data`: its pieces join to it, and all but the last are full. */
  ghost predicate Partition(chunks: seq<Bytes>, data: Bytes, size: nat) {
    && Join(chunks) == data
    && (forall i | 0 <= i < |chunks| :: 0 < |chunks[i]| <= size)
    && (forall i | 0 <= i < |chunks| - 1 :: |chunks[i]| == size)
  }

  function CeilDiv(n: nat, d: nat): nat
    requires d > 0
  {
    (n + d - 1) / d
  }

  lemma {:induction false} JoinPrepend(first: Bytes, rest: seq<Bytes>)
    ensures Join([first] + rest) == first + Join(rest)
  {
    if rest != [] {
      var all := [first] + rest;
      assert all[..|all| - 1] == [first] + rest[..|rest| - 1];
      JoinPrepend(first, rest[..|rest| - 1]);
    } else {
      assert [first] + rest == [first];
      assert Join([first]) == Join([]) + first;
    }
  }

  lemma DivUnique(n: nat, d: nat, q: nat, r: nat)
    requires d > 0 && n == d * q + r && r < d
    ensures n / d == q
  {
    var k := n / d - q;
    assert d * k == r - n % d;
    assert k >= 1 ==> d * k >= d;
    assert k <= -1 ==> d * k <= d * -1;
  }

  lemma CeilDivStep(n: nat, d: nat)
    requires d > 0
    ensures n > d ==> CeilDiv(n, d) == 1 + CeilDiv(n - d, d)
    ensures 0 < n <= d ==> CeilDiv(n, d) == 1
    ensures n == 0 ==> CeilDiv(n, d) == 0
  {
    if n > d {
      var m := n - 1;
      var q, r := m / d, m % d;
      assert m == d * q + r;
      assert m + d == d * (q + 1) + r;
      DivUnique(m + d, d, q + 1, r);
    } else if n > 0 {
      DivUnique(n + d - 1, d, 1, n - 1);
    } else {
      DivUnique(d - 1, d, 0, d - 1);
    }
  }

  /** Chunking is a partition: the pieces join to the data, there are ceil(len/size), all but the last full. */
  lemma {:induction false} ChunksPartition(data: Bytes, size: nat)
    requires size > 0
    ensures Partition(Chunks(data, size), data, size)
    ensures |Chunks(data, size)| == CeilDiv(|data|, size)
    decreases |data|
  {
    CeilDivStep(|data|, size);
    if 0 < |data| <= size {
      assert Join([data]) == Join([]) + data;
    } else if |data| > size {
      ChunksPartition(data[size..], size);
      var rest := Chunks(data[size..], size);
      JoinPrepend(data[..size], rest);
      assert data == data[..size] + data[size..];
      assert Join(rest) == data[size..];
    }
  }

  /** Nothing else is such a partition. */
  lemma {:induction false} PartitionUnique(chunks: seq<Bytes>, data: Bytes, size: nat)
    requires size > 0 && Partition(chunks, data, size)
    ensures chunks == Chunks(data, size)
    decreases |chunks|
  {
    if chunks != [] {
      var first, rest := chunks[0], chunks[1..];
      assert chunks == [first] + rest;
      JoinPrepend(first, rest);
      assert forall i | 0 <= i < |rest| :: rest[i] == chunks[i + 1];
      assert data[|first|..] == Join(rest);
      PartitionUnique(rest, data[|first|..], size);
      if rest == [] {
        assert data == first;
      } else {
        JoinPrepend(rest[0], rest[1..]);
        assert rest == [rest[0]] + rest[1..];
        assert |data| > size && data[..size] == first;
      }
    }
  }

  /** The loop of the encoder's `chunk`: it fills a table of `numChunks` slices. */
  method Chunk(data: Bytes, maxChunkSize: nat) returns (chunks: seq<Bytes>)
    requires maxChunkSize > 0
    ensures chunks == Chunks(data, maxChunkSize)
  {
    ChunksPartition(data, maxChunkSize);
    ghost var expected := Chunks(data, maxChunkSize);
    var numChunks := (|data| + maxChunkSize - 1) / maxChunkSize;
    var result := new Bytes[numChunks](_ => []);
    var start := 0;
    for i := 0 to numChunks
      invariant result.Length == |expected| && start <= |data|
      invariant Chunks(data[start..], maxChunkSize) == expected[i..]
      invariant result[..i] == expected[..i]
    {
      var end := if start + maxChunkSize < |data| then start + maxChunkSize else |data|;
      assert expected[i..] != [];
      assert data[start..end] == expected[i];
      assert data[start..][end - start..] == data[end..];
      assert expected[i..][1..] == expected[i + 1..];
      result[i] := data[start..end];
      start := end;
    }
    assert result[..] == result[..numChunks];
    return result[..];
  }

  /** The event for each chunk: the first carries the count, the signature and the account. */
  function SendEvents(m: Sent): (events: seq<Arrival>)
    requires 0 < |m.chunks| < UINT32_LIMIT
    ensures |events| == |m.chunks|
    ensures forall i: UInt32 | i < |events| ::
              events[i].Index() == i && events[i].Chunk() == ChunkData(m.id, m.chunks[i]) && (events[i].First? <==> i == 0)
  {
    [First(SignedMessageEvent(ChunkData(m.id, m.chunks[0]), |m.chunks|, m.signature, m.account))]
    + seq(|m.chunks| - 1, i requires 0 <= i < |m.chunks| - 1 =>
          Next(MessageChunkEvent(ChunkData(m.id, m.chunks[i + 1]), i + 1)))
  }

  datatype SendResult = SentAll | SendFailed | SendPanicked

  /**
   * SendMessage: finds the room, then builds every event before sending any, then sends them in order until one fails.
   * `failAt` is the send that fails, if it is one of them. No chunks, or a count over 32 bits, panics before anything
   * is sent.
   */
  method SendMessage(m: Sent, roomOk: bool, failAt: nat) returns (sent: seq<Arrival>, r: SendResult)
    ensures !roomOk ==> sent == [] && r == SendFailed
    ensures roomOk && !(0 < |m.chunks| < UINT32_LIMIT) ==> sent == [] && r == SendPanicked
    ensures roomOk && 0 < |m.chunks| < UINT32_LIMIT ==>
              && sent == SendEvents(m)[..if failAt < |m.chunks| then failAt else |m.chunks|]
              && r == if failAt < |m.chunks| then SendFailed else SentAll
  {
    sent := [];
    if !roomOk {
      return sent, SendFailed;
    }
    if |m.chunks| == 0 || |m.chunks| >= UINT32_LIMIT {
      return sent, SendPanicked;
    }
    var first := First(SignedMessageEvent(ChunkData(m.id, m.chunks[0]), |m.chunks|, m.signature, m.account));
    var chunkEvents: seq<Arrival> := [];
    for i := 1 to |m.chunks|
      invariant chunkEvents == SendEvents(m)[1..i]
    {
      chunkEvents := chunkEvents + [Next(MessageChunkEvent(ChunkData(m.id, m.chunks[i]), i))];
    }
    if failAt == 0 {
      return sent, SendFailed;
    }
    sent := [first];
    for i := 0 to |chunkEvents|
      invariant sent == SendEvents(m)[..i + 1]
      invariant i < failAt
    {
      if i + 1 == failAt {
        return sent, SendFailed;
      }
      sent := sent + [chunkEvents[i]];
    }
    return sent, SentAll;
  }

  /** Every event that SendMessage builds from the encoder's chunks passes the receiver's checks. */
  lemma SentEventsVerify(m: Sent, data: Bytes, size: nat)
    requires size > 0 && m.id != "" && |data| > 0
    requires m.chunks == Chunks(data, size) && |m.chunks| < UINT32_LIMIT
    ensures 0 < |m.chunks|
    ensures forall a | a in SendEvents(m) :: a.Verified()
  {
    ChunksPartition(data, size);
    CeilDivStep(|data|, size);
    assert Join(m.chunks) == data;
  }

  /** An arrival that is one of the sent events never contradicts the sender. */
  lemma SentEventsConsistent(own: Address, ev: Event, m: Sent)
    requires m.MultiChunk() && ev.Arrive?
    requires ev.arrival in SendEvents(m)
    ensures Consistent(own, ev, m)
    ensures ev.arrival.Index() < |m.chunks|
  {
  }
}

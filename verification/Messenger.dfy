/**
 * The messenger's mutable state (internal/matrix/messenger/messages.go): a map from message IDs to records that are
 * updated in place. Every method is tied to the functions of module Reassembly on the values the records hold.
 */
module Messenger {
  import opened Types
  import opened MatrixEvents
  import opened Reassembly

  class ChunkedMessage {
    var chunksCount: UInt32
    var account: Address
    var signature: Bytes
    var chunks: map<UInt32, Bytes>
    var firstSeen: int

    constructor (now: int)
      ensures Value() == NewPartial(now)
    {
      chunksCount, account, signature, chunks, firstSeen := 0, 0, [], map[], now;
    }

    function Value(): Partial
      reads this
    {
      Partial(chunksCount, account, signature, chunks, firstSeen)
    }
  }

  /** Walks the indices 0..chunksCount-1, as messageIndexSetComplete does. */
  method MessageIndexSetComplete(message: ChunkedMessage) returns (complete: bool)
    ensures complete <==> IndexSetComplete(message.Value())
  {
    if message.chunksCount == 0 {
      return false;
    }
    var i: UInt32 := 0;
    while i < message.chunksCount
      invariant i <= message.chunksCount
      invariant forall j: UInt32 | j < i :: j in message.chunks
    {
      if i !in message.chunks {
        return false;
      }
      i := i + 1;
    }
    return true;
  }

  /** Appends the chunks in index order. */
  method AssembleEncodedMessage(message: ChunkedMessage, bot: Address) returns (r: Option<Delivery>)
    ensures r == Deliver(message.Value(), bot)
  {
    var complete := MessageIndexSetComplete(message);
    if !complete {
      return None;
    }
    var data: seq<Bytes> := [];
    for i := 0 to message.chunksCount
      invariant |data| == i
      invariant forall j | 0 <= j < i :: data[j] == message.chunks[j]
    {
      data := data + [message.chunks[i]];
    }
    assert data == Assemble(message.Value()).value;
    return Some(Delivery(data, message.signature, message.account, bot));
  }

  /** Adding a chunk to an entry does not depend on what the table held for it before. */
  lemma AddChunkForgets(t: Table, id: string, p: Partial, index: UInt32, data: Bytes)
    ensures AddChunk(t[id := p], id, p, index, data) == AddChunk(t, id, p, index, data)
  {
    assert t[id := p] - {id} == t - {id};
    var stored := StoreChunk(p, index, data);
    assert t[id := p][id := stored] == t[id := stored];
  }

  lemma AddFirstChunkIs(t: Table, e: SignedMessageEvent, now: int, p: Partial)
    requires p == Entry(t, e.chunk.messageID, now)
                  .(signature := e.signature, chunksCount := e.chunksCount, account := e.account)
    ensures AddFirstChunk(t, e, now)
            == AddChunk(t[e.chunk.messageID := p], e.chunk.messageID, p, 0, e.chunk.data)
  {
    AddChunkForgets(t, e.chunk.messageID, p, 0, e.chunk.data);
  }

  lemma EvictIs(t: Table, left: Table, now: int)
    requires forall id | id in left :: id in t && left[id] == t[id]
    requires forall id | id in t :: id in left <==> !Stale(t[id], now)
    ensures left == Evict(t, now)
  {
  }

  class Messenger {
    const own: Address
    var chunkedMessages: map<string, ChunkedMessage>

    constructor (own: Address)
      ensures this.own == own && Valid() && Contents() == map[]
    {
      this.own, chunkedMessages := own, map[];
    }

    /** No two message IDs share a record. */
    ghost predicate Valid()
      reads this
    {
      forall a, b | a in chunkedMessages && b in chunkedMessages && a != b :: chunkedMessages[a] != chunkedMessages[b]
    }

    ghost function Records(): set<ChunkedMessage>
      reads this
    {
      set id | id in chunkedMessages :: chunkedMessages[id]
    }

    ghost function Contents(): Table
      reads this, Records()
    {
      map id | id in chunkedMessages :: chunkedMessages[id].Value()
    }

    /** delete(chunkedMessages, id) */
    method Delete(id: string)
      requires Valid()
      modifies this`chunkedMessages
      ensures Valid() && Records() <= old(Records())
      ensures Contents() == old(Contents()) - {id}
    {
      chunkedMessages := chunkedMessages - {id};
    }

    method SetChunk(message: ChunkedMessage, id: string, index: UInt32, data: Bytes)
      requires Valid() && id in chunkedMessages && chunkedMessages[id] == message
      modifies message
      ensures message.Value() == old(message.Value()).(chunks := old(message.Value()).chunks[index := data])
      ensures Contents() == old(Contents())[id := message.Value()]
    {
      message.chunks := message.chunks[index := data];
    }

    /** Stores the chunk in place; once nothing is missing the record is taken out of the map and handed back. */
    method AddMessageChunk(message: ChunkedMessage, id: string, index: UInt32, data: Bytes)
      returns (completed: ChunkedMessage?)
      requires Valid() && id in chunkedMessages && chunkedMessages[id] == message
      modifies this`chunkedMessages, message
      ensures Valid() && Records() <= old(Records())
      ensures Contents() == AddChunk(old(Contents()), id, old(message.Value()), index, data).0
      ensures completed == null || completed == message
      ensures AddChunk(old(Contents()), id, old(message.Value()), index, data).1 ==
              if completed == null then None else Some(message.Value())
    {
      ghost var t, p := Contents(), message.Value();
      if message.chunksCount != 0 && index >= message.chunksCount {
        assert t == t[id := p];
        return null;
      }
      SetChunk(message, id, index, data);
      assert message.Value() == StoreChunk(p, index, data);
      var complete := MessageIndexSetComplete(message);
      if !complete {
        return null;
      }
      Delete(id);
      assert t[id := message.Value()] - {id} == t - {id};
      return message;
    }

    /** The record of a message, created on its first arrival. */
    method Record(id: string, now: int) returns (message: ChunkedMessage)
      requires Valid()
      modifies this`chunkedMessages
      ensures Valid() && id in chunkedMessages && chunkedMessages[id] == message
      ensures if id in old(chunkedMessages) then chunkedMessages == old(chunkedMessages)
              else fresh(message) && chunkedMessages == old(chunkedMessages)[id := message]
      ensures message.Value() == Entry(old(Contents()), id, now)
      ensures Contents() == old(Contents())[id := message.Value()]
    {
      if id in chunkedMessages {
        message := chunkedMessages[id];
      } else {
        message := new ChunkedMessage(now);
        chunkedMessages := chunkedMessages[id := message];
      }
    }

    /** Records what only the first chunk's event carries. */
    method SetHeader(message: ChunkedMessage, e: SignedMessageEvent)
      requires Valid() && e.chunk.messageID in chunkedMessages && chunkedMessages[e.chunk.messageID] == message
      modifies message
      ensures message.Value() ==
              old(message.Value()).(signature := e.signature, chunksCount := e.chunksCount, account := e.account)
      ensures Contents() == old(Contents())[e.chunk.messageID := message.Value()]
    {
      message.signature := e.signature;
      message.chunksCount := e.chunksCount;
      message.account := e.account;
    }

    /** The record of a message with the first chunk's header in it. */
    method FirstRecord(e: SignedMessageEvent, now: int) returns (message: ChunkedMessage)
      requires Valid()
      modifies this`chunkedMessages, Records()
      ensures Valid() && e.chunk.messageID in chunkedMessages && chunkedMessages[e.chunk.messageID] == message
      ensures message in old(Records()) || fresh(message)
      ensures Records() <= old(Records()) + {message}
      ensures message.Value() == Entry(old(Contents()), e.chunk.messageID, now)
                                 .(signature := e.signature, chunksCount := e.chunksCount, account := e.account)
      ensures Contents() == old(Contents())[e.chunk.messageID := message.Value()]
    {
      message := Record(e.chunk.messageID, now);
      SetHeader(message, e);
    }

    method AddMessageFirstChunk(e: SignedMessageEvent, now: int) returns (completed: ChunkedMessage?)
      requires Valid()
      modifies this`chunkedMessages, Records()
      ensures Valid() && fresh(Records() - old(Records()))
      ensures Contents() == AddFirstChunk(old(Contents()), e, now).0
      ensures AddFirstChunk(old(Contents()), e, now).1 ==
              if completed == null then None else Some(completed.Value())
    {
      var message := FirstRecord(e, now);
      AddFirstChunkIs(old(Contents()), e, now, message.Value());
      completed := AddMessageChunk(message, e.chunk.messageID, 0, e.chunk.data);
    }

    method AddMessageNextChunk(e: MessageChunkEvent, now: int) returns (completed: ChunkedMessage?)
      requires Valid()
      modifies this`chunkedMessages, Records()
      ensures Valid() && fresh(Records() - old(Records()))
      ensures Contents() == AddNextChunk(old(Contents()), e, now).0
      ensures AddNextChunk(old(Contents()), e, now).1 ==
              if completed == null then None else Some(completed.Value())
    {
      var id := e.chunk.messageID;
      var message := Record(id, now);
      AddChunkForgets(old(Contents()), id, message.Value(), e.chunkIndex, e.chunk.data);
      completed := AddMessageChunk(message, id, e.chunkIndex, e.chunk.data);
    }

    /** Both event handlers: drop own and invalid events, add the chunk, hand over a completed message. */
    method HandleEvent(a: Arrival, sender: Address, now: int) returns (out: Option<Delivery>)
      requires Valid()
      modifies this`chunkedMessages, Records()
      ensures Valid() && fresh(Records() - old(Records()))
      ensures (Contents(), out) == Receive(own, old(Contents()), Arrive(a, sender, now))
    {
      if sender == own {
        return None;
      }
      match a
      case First(e) =>
        if VerifySigned(e).Some? {
          return None;
        }
        if e.chunksCount == 1 {
          return Some(Delivery([e.chunk.data], e.signature, e.account, sender));
        }
        var completed := AddMessageFirstChunk(e, now);
        if completed == null {
          return None;
        }
        out := AssembleEncodedMessage(completed, sender);
      case Next(e) =>
        if VerifyChunk(e).Some? {
          return None;
        }
        var completed := AddMessageNextChunk(e, now);
        if completed == null {
          return None;
        }
        out := AssembleEncodedMessage(completed, sender);
    }

    /** Deletes stale entries while walking the map. */
    method EvictStalePartialMessages(now: int)
      requires Valid()
      modifies this`chunkedMessages
      ensures Valid() && Records() <= old(Records())
      ensures Contents() == Evict(old(Contents()), now)
    {
      ghost var before, t := chunkedMessages, Contents();
      var todo := chunkedMessages.Keys;
      while todo != {}
        invariant todo <= chunkedMessages.Keys <= before.Keys
        invariant forall id | id in chunkedMessages :: chunkedMessages[id] == before[id]
        invariant forall id | id in before && id !in todo :: id in chunkedMessages <==> !Stale(t[id], now)
        decreases |todo|
      {
        var id :| id in todo;
        assert chunkedMessages[id].firstSeen == t[id].firstSeen;
        if now - chunkedMessages[id].firstSeen > PARTIAL_MESSAGE_TTL {
          chunkedMessages := chunkedMessages - {id};
        }
        todo := todo - {id};
      }
      EvictIs(t, Contents(), now);
    }
  }
}

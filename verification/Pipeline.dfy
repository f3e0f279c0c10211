/**
 * The whole way of a message: encoded, cut, sent as room events, reassembled from whatever arrives, joined and
 * decoded.
 */
module Pipeline {
  import opened Types
  import opened MatrixEvents
  import opened Reassembly
  import opened ReassemblySpec
  import opened Chunking
  import opened Encoding
  import opened Framing

  /** One call of EncodeMessage and the message ID that SendMessage draws for it. */
  datatype Sending = Sending(
    msg: Message,
    recipientKey: PrivateKey,
    known: bool,
    sharedKey: Option<Key>,
    account: Address,
    draw: Draw,
    botKey: PrivateKey,
    maxChunkSize: nat,
    id: string
  )
  {
    function Recipient(c: Codec): Option<PublicKey> {
      if known then Some(c.publicOf(recipientKey)) else None
    }

    function Bot(c: Codec): Address {
      c.addressOf(c.publicOf(botKey))
    }

    function Result(c: Codec): Result<Encoded>
      requires maxChunkSize > 0
    {
      Encode(c, msg, Recipient(c), sharedKey, account, draw, botKey, maxChunkSize)
    }

    /** The message was encoded, and has few enough chunks to be counted in 32 bits. */
    ghost predicate Valid(c: Codec) {
      && Lawful(c) && maxChunkSize > 0 && id != ""
      && c.hasKind(msg.content, msg.kind)
      && (sharedKey.Some? ==> c.validKey(sharedKey.value))
      && ExpiresAt(draw.now) < 0x8000_0000_0000_0000
      && Result(c).Ok? && |Result(c).value.chunks| < UINT32_LIMIT
    }

    ghost function Message(c: Codec): Sent
      requires Valid(c)
    {
      Sent(id, Result(c).value.chunks, Result(c).value.signature, account)
    }

    /** What decoding the message at time `now` must yield. */
    ghost function Expected(c: Codec, now: int, storeOk: bool): Encoding.Result<Decoded>
      requires Valid(c)
    {
      var keyPart := EncryptedSharedKey(c, Recipient(c), sharedKey, draw).value;
      Stored(ExpectedResult(|PublicPart(c, msg, keyPart, account, draw)|, |PrivatePart(c, msg)|, ExpiresAt(draw.now),
                            now, Received(msg, Recipient(c), sharedKey, account)), storeOk)
    }
  }

  /**
   * Every accepted event that names the message is one of those its sender built, sent by the sender's bot. Events
   * may be lost, repeated, reordered and mixed with anything about other messages.
   */
  ghost predicate Genuine(own: Address, evs: seq<Event>, c: Codec, s: Sending)
    requires s.Valid(c)
  {
    forall k | 0 <= k < |evs| :: Concerns(own, evs[k], s.id) ==>
      |s.Message(c).chunks| > 0 && evs[k].arrival in SendEvents(s.Message(c)) && evs[k].sender == s.Bot(c)
  }

  /** An encoded frame is never empty, so it is cut into at least one chunk and its events pass the checks. */
  lemma EncodedHasChunks(c: Codec, s: Sending)
    requires s.Valid(c)
    ensures |s.Message(c).chunks| > 0
    ensures forall a | a in SendEvents(s.Message(c)) :: a.Verified()
  {
    var frame := EncodeFrame(c, s.msg, s.Recipient(c), s.sharedKey, s.account, s.draw).value;
    SentEventsVerify(s.Message(c), frame, s.maxChunkSize);
  }

  lemma GenuineIsConsistent(own: Address, evs: seq<Event>, c: Codec, s: Sending)
    requires s.Valid(c) && Genuine(own, evs, c, s) && s.Message(c).MultiChunk()
    ensures ConsistentRun(own, evs, s.Message(c))
    ensures NoStrayIndex(own, evs, s.Message(c))
  {
  }

  /** A message of one chunk is delivered by each of its events, from whatever table, which it leaves alone. */
  lemma SingleChunkDelivery(own: Address, evs: seq<Event>, c: Codec, s: Sending, k: nat)
    requires s.Valid(c) && |s.Message(c).chunks| == 1 && s.Bot(c) != own
    requires k < |evs| && evs[k].Arrive? && evs[k].sender == s.Bot(c)
    requires evs[k].arrival == SendEvents(s.Message(c))[0]
    ensures DeliveredAt(own, evs, s.id, k)
    ensures OutputAt(own, evs, k)
            == Some(Delivery(s.Message(c).chunks, s.Message(c).signature, s.account, s.Bot(c)))
    ensures TableAfter(own, evs[..k + 1]) == TableAfter(own, evs[..k])
  {
    PrefixTable(own, evs, k);
    EncodedHasChunks(c, s);
    ProperEventCounts(own, TableAfter(own, evs[..k]), evs[k].arrival, evs[k].sender, evs[k].now);
    assert s.Message(c).chunks == [s.Message(c).chunks[0]];
  }

  /**
   * Decoding undoes encoding through the whole pipeline. Whenever the receiver delivers the message, in any run of
   * genuine events, decoding what it delivered yields the sender's request ID, type, timestamps, content, account and
   * shared key, unless the message has expired, a metadata block is longer than 65533 bytes, or the sender's key cannot
   * be stored.
   */
  lemma PipelineRoundTrip(own: Address, evs: seq<Event>, c: Codec, s: Sending, k: nat, now: int, storeOk: bool)
    requires s.Valid(c) && Genuine(own, evs, c, s)
    requires k < |evs| && DeliveredAt(own, evs, s.id, k)
    ensures var out := OutputAt(own, evs, k).value;
            && out.account == s.account
            && DecodeAndVerify(c, s.recipientKey, Encoded(out.chunks, out.signature), out.bot, now, storeOk)
               == s.Expected(c, now, storeOk)
  {
    EncodedHasChunks(c, s);
    if |s.Message(c).chunks| == 1 {
      SingleChunkDelivery(own, evs, c, s, k);
    } else {
      GenuineIsConsistent(own, evs, c, s);
      DeliveredExactlyWhenAllSeen(own, evs, s.Message(c), k);
    }
    DecodeUndoesEncode(c, s.msg, s.recipientKey, s.known, s.sharedKey, s.account, s.draw, s.botKey, s.maxChunkSize, now,
                       storeOk);
  }

  /** What "the same message" comes to, field by field, and exactly when it is returned. */
  lemma PipelineFields(own: Address, evs: seq<Event>, c: Codec, s: Sending, k: nat, now: int, storeOk: bool)
    requires s.Valid(c) && Genuine(own, evs, c, s)
    requires k < |evs| && DeliveredAt(own, evs, s.id, k)
    ensures var out := OutputAt(own, evs, k).value;
            var r := DecodeAndVerify(c, s.recipientKey, Encoded(out.chunks, out.signature), out.bot, now, storeOk);
            var keyPart := EncryptedSharedKey(c, s.Recipient(c), s.sharedKey, s.draw).value;
            && (r.Ok? <==> && |PublicPart(c, s.msg, keyPart, s.account, s.draw)| <= 65533
                           && |PrivatePart(c, s.msg)| <= 65533
                           && now <= ExpiresAt(s.draw.now) * NANOS && storeOk)
            && (r.Ok? ==>
                  && r.value.msg.requestID == s.msg.requestID
                  && r.value.msg.kind == s.msg.kind
                  && r.value.msg.content == s.msg.content
                  && r.value.msg.timestamps == Some(if s.msg.timestamps.Some? then s.msg.timestamps.value else map[])
                  && r.value.senderAccount == s.account
                  && r.value.sharedKey == if s.known then s.sharedKey else None)
  {
    PipelineRoundTrip(own, evs, c, s, k, now, storeOk);
  }

  /** Event `x` brings `a` from the sender's bot, within one TTL of the first event accepted for the message. */
  ghost predicate Brings(own: Address, evs: seq<Event>, id: string, a: Arrival, bot: Address, x: nat) {
    && x < |evs| && evs[x].Arrive? && evs[x].arrival == a && evs[x].sender == bot
    && forall j | 0 <= j < |evs| && Concerns(own, evs[j], id) :: evs[x].now - evs[j].now <= PARTIAL_MESSAGE_TTL
  }

  ghost predicate Brought(own: Address, evs: seq<Event>, id: string, a: Arrival, bot: Address) {
    exists x: nat :: Brings(own, evs, id, a, bot, x)
  }

  lemma BroughtInTime(own: Address, evs: seq<Event>, c: Codec, s: Sending, i: UInt32)
    requires s.Valid(c) && s.Bot(c) != own && i < |s.Message(c).chunks|
    requires Brought(own, evs, s.id, SendEvents(s.Message(c))[i], s.Bot(c))
    ensures ArrivesInTime(own, evs, s.id, i)
  {
    EncodedHasChunks(c, s);
    var a := SendEvents(s.Message(c))[i];
    assert a in SendEvents(s.Message(c));
    var x: nat :| Brings(own, evs, s.id, a, s.Bot(c), x);
    assert InTime(own, evs, s.id, i, x);
  }

  /**
   * A lossless and timely network delivers: if each event that SendMessage built is brought to another bot, in any order
   * and any number of times, within one TTL of the first, then the message is delivered; and if each is accepted once,
   * exactly once and with no entry left behind.
   */
  lemma LosslessPipeline(own: Address, evs: seq<Event>, c: Codec, s: Sending)
    requires s.Valid(c) && Genuine(own, evs, c, s) && |s.Message(c).chunks| > 1 && s.Bot(c) != own
    requires Monotone(evs)
    requires forall a | a in SendEvents(s.Message(c)) :: Brought(own, evs, s.id, a, s.Bot(c))
    ensures Deliveries(own, evs, s.id) >= 1
    ensures forall i: UInt32 | i < |s.Message(c).chunks| && Arrivals(own, evs, s.id, i) == 1 ::
              Deliveries(own, evs, s.id) == 1
    ensures (forall i: UInt32 | i < |s.Message(c).chunks| :: Arrivals(own, evs, s.id, i) == 1) ==>
              s.id !in TableAfter(own, evs)
  {
    GenuineIsConsistent(own, evs, c, s);
    forall i: UInt32 | i < |s.Message(c).chunks|
      ensures ArrivesInTime(own, evs, s.id, i)
    {
      BroughtInTime(own, evs, c, s, i);
    }
    TimelyDelivery(own, evs, s.Message(c));
  }
}

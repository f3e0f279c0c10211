/**
 * EncodeMessage and DecodeAndVerifyMessage (internal/messaging/encoding/encoder_decoder.go). JSON, protobuf, zstd,
 * AES-GCM, ECIES and ECDSA appear as pairs of functions that undo each other.
 */
module Encoding {
  import opened Types
  import opened Framing
  import opened Chunking

  /** A message's protobuf content; nothing is known of it. */
  type Content(==, !new)

  type Key = Bytes
  type PrivateKey = int
  type PublicKey = int

  const DEFAULT_EXPIRATION_SECONDS := 300
  const NANOS := 1_000_000_000

  type Timestamps = map<string, int>

  /** `timestamps` is None for Go's nil map. */
  datatype Message = Message(kind: string, content: Content, requestID: string, timestamps: Option<Timestamps>)

  /** `encryptedSharedKey` is empty when there is none, as the JSON field is then omitted. */
  datatype PublicMetadata = PublicMetadata(
    requestID: string,
    encryptedSharedKey: Bytes,
    expiresAt: int,
    senderAccount: string
  )

  datatype PrivateMetadata = PrivateMetadata(kind: string, timestamps: Option<Timestamps>)

  datatype Encoded = Encoded(chunks: seq<Bytes>, signature: Bytes)

  datatype Decoded = Decoded(msg: Message, sharedKey: Option<Key>, senderAccount: Address)

  datatype Error =
    | Panic
    | KeyLookup | SharedKeyEncryption | ContentMarshal | DataEncryption | Signing
    | UnsupportedVersion | BadSignature | WrongSender
    | BadPublicMetadata | Expired | SharedKeyDecryption | BadKey | DataDecryption
    | Decompression | BadPrivateMetadata | BadContent | KeyStore

  datatype Result<+T> = Ok(value: T) | Err(error: Error)

  /** The libraries the encoder calls. `random` stands for the randomness that encryption draws. */
  datatype Codec = Codec(
    marshalPublic: PublicMetadata -> Bytes,
    unmarshalPublic: Bytes -> Option<PublicMetadata>,
    marshalPrivate: PrivateMetadata -> Bytes,
    unmarshalPrivate: Bytes -> Option<PrivateMetadata>,
    marshalContent: Content -> Option<Bytes>,
    unmarshalContent: (Bytes, string) -> Option<Content>,
    hasKind: (Content, string) -> bool,
    compress: Bytes -> Bytes,
    decompress: Bytes -> Option<Bytes>,
    seal: (Key, Bytes, Bytes) -> Option<Bytes>,
    open: (Key, Bytes) -> Option<Bytes>,
    validKey: Key -> bool,
    eciesEncrypt: (PublicKey, Bytes, Bytes) -> Option<Bytes>,
    eciesDecrypt: (PrivateKey, Bytes) -> Option<Bytes>,
    sign: (PrivateKey, Bytes) -> Option<Bytes>,
    recover: (Bytes, Bytes) -> Option<PublicKey>,
    publicOf: PrivateKey -> PublicKey,
    addressOf: PublicKey -> Address,
    hex: Address -> string,
    fromHex: string -> Address
  )

  /** Each pair of library functions undoes each other. */
  ghost predicate Lawful(c: Codec) {
    && (forall m :: c.unmarshalPublic(c.marshalPublic(m)) == Some(m))
    && (forall m :: c.unmarshalPrivate(c.marshalPrivate(m)) == Some(m))
    && (forall x, kind :: c.hasKind(x, kind) && c.marshalContent(x).Some? ==>
          c.unmarshalContent(c.marshalContent(x).value, kind) == Some(x))
    && (forall b :: c.decompress(c.compress(b)) == Some(b))
    && (forall k, random, b :: c.seal(k, random, b).Some? ==> c.open(k, c.seal(k, random, b).value) == Some(b))
    && (forall k, random, b :: c.eciesEncrypt(c.publicOf(k), random, b).Some? ==>
          var e := c.eciesEncrypt(c.publicOf(k), random, b).value;
          |e| > 0 && c.eciesDecrypt(k, e) == Some(b))
    && (forall k, b :: c.sign(k, b).Some? ==> c.recover(b, c.sign(k, b).value) == Some(c.publicOf(k)))
    && (forall a :: c.fromHex(c.hex(a)) == a)
  }

  /** What the encoder draws from its surroundings in one call; `lookupOk` is the lookup of the recipient's key. */
  datatype Draw = Draw(lookupOk: bool, now: int, keyRandom: Bytes, dataRandom: Bytes)

  /** The shared key is sent, and the data encrypted, only if there is one and the recipient's key is known. */
  predicate Encrypts(recipient: Option<PublicKey>, sharedKey: Option<Key>) {
    recipient.Some? && sharedKey.Some?
  }

  function EncryptedSharedKey(c: Codec, recipient: Option<PublicKey>, sharedKey: Option<Key>, d: Draw): Option<Bytes> {
    if Encrypts(recipient, sharedKey) then c.eciesEncrypt(recipient.value, d.keyRandom, sharedKey.value) else Some([])
  }

  /** Unix() of the expiration time: whole seconds, rounded down. */
  function ExpiresAt(now: int): int {
    (now + DEFAULT_EXPIRATION_SECONDS * NANOS) / NANOS
  }

  function PublicPart(c: Codec, msg: Message, encryptedSharedKey: Bytes, account: Address, d: Draw): Bytes {
    c.marshalPublic(PublicMetadata(msg.requestID, encryptedSharedKey, ExpiresAt(d.now), c.hex(account)))
  }

  function PrivatePart(c: Codec, msg: Message): Bytes {
    c.marshalPrivate(PrivateMetadata(msg.kind, msg.timestamps))
  }

  /** The encoded frame, before it is signed and cut. */
  function EncodeFrame(c: Codec, msg: Message, recipient: Option<PublicKey>, sharedKey: Option<Key>, account: Address,
                       d: Draw): Result<Bytes> {
    if !d.lookupOk then Err(KeyLookup) else
    var encryptedSharedKey := EncryptedSharedKey(c, recipient, sharedKey, d);
    if encryptedSharedKey.None? then Err(SharedKeyEncryption) else
    if ExpiresAt(d.now) < 0 then Err(Panic) else
    var publicPart := PublicPart(c, msg, encryptedSharedKey.value, account, d);
    var content := c.marshalContent(msg.content);
    if content.None? then Err(ContentMarshal) else
    if |PrivatePart(c, msg)| >= UINT16_LIMIT then Err(Panic) else
    var compressed := c.compress(Block(PrivatePart(c, msg), content.value));
    var encrypted := if Encrypts(recipient, sharedKey) then c.seal(sharedKey.value, d.dataRandom, compressed)
                     else Some(compressed);
    if encrypted.None? then Err(DataEncryption) else
    if |publicPart| >= UINT16_LIMIT then Err(Panic) else
    Ok(Uint32Bytes(MESSAGE_VERSION) + Block(publicPart, encrypted.value))
  }

  function Encode(c: Codec, msg: Message, recipient: Option<PublicKey>, sharedKey: Option<Key>, account: Address,
                  d: Draw, botKey: PrivateKey, maxChunkSize: nat): Result<Encoded>
    requires maxChunkSize > 0
  {
    match EncodeFrame(c, msg, recipient, sharedKey, account, d)
    case Err(e) => Err(e)
    case Ok(frame) =>
      match c.sign(botKey, frame)
      case None => Err(Signing)
      case Some(signature) => Ok(Encoded(Chunks(frame, maxChunkSize), signature))
  }

  /** EncodeMessage, filling its two buffers in place. */
  method EncodeMessage(c: Codec, msg: Message, recipient: Option<PublicKey>, sharedKey: Option<Key>, account: Address,
                       d: Draw, botKey: PrivateKey, maxChunkSize: nat) returns (r: Result<Encoded>)
    requires maxChunkSize > 0
    ensures r == Encode(c, msg, recipient, sharedKey, account, d, botKey, maxChunkSize)
  {
    if !d.lookupOk {
      return Err(KeyLookup);
    }
    var encryptedSharedKey: Bytes := [];
    if recipient.Some? && sharedKey.Some? {
      var encryption := c.eciesEncrypt(recipient.value, d.keyRandom, sharedKey.value);
      if encryption.None? {
        return Err(SharedKeyEncryption);
      }
      encryptedSharedKey := encryption.value;
    }
    var privateMetadata := c.marshalPrivate(PrivateMetadata(msg.kind, msg.timestamps));
    var expiresAt := ExpiresAt(d.now);
    if expiresAt < 0 {
      return Err(Panic);
    }
    var publicMetadata :=
      c.marshalPublic(PublicMetadata(msg.requestID, encryptedSharedKey, expiresAt, c.hex(account)));
    var content := c.marshalContent(msg.content);
    if content.None? {
      return Err(ContentMarshal);
    }
    var privateData := BuildPrivateData(privateMetadata, content.value);
    if privateData.None? {
      return Err(Panic);
    }
    var encryptedData := Some(c.compress(privateData.value));
    if recipient.Some? && sharedKey.Some? {
      encryptedData := c.seal(sharedKey.value, d.dataRandom, encryptedData.value);
      if encryptedData.None? {
        return Err(DataEncryption);
      }
    }
    var encodedData := BuildEncodedData(publicMetadata, encryptedData.value);
    if encodedData.None? {
      return Err(Panic);
    }
    var signature := c.sign(botKey, encodedData.value);
    if signature.None? {
      return Err(Signing);
    }
    var chunks := Chunk(encodedData.value, maxChunkSize);
    return Ok(Encoded(chunks, signature.value));
  }

  /** A message has expired once the clock has passed the whole second it names. */
  predicate HasExpired(expiresAt: int, now: int) {
    expiresAt * NANOS < now
  }

  function DecodePrivate(c: Codec, data: Bytes, requestID: string): Result<Message> {
    var block := ParseBlock(data);
    if block.None? then Err(Panic) else
    var meta := c.unmarshalPrivate(block.value.0);
    if meta.None? then Err(BadPrivateMetadata) else
    var content := c.unmarshalContent(block.value.1, meta.value.kind);
    if content.None? then Err(BadContent) else
    Ok(Message(meta.value.kind, content.value, requestID, meta.value.timestamps))
  }

  function DecodeV1(c: Codec, key: PrivateKey, data: Bytes, now: int): Result<Decoded> {
    var block := ParseBlock(data);
    if block.None? then Err(Panic) else
    var meta := c.unmarshalPublic(block.value.0);
    if meta.None? then Err(BadPublicMetadata) else
    if meta.value.expiresAt >= 0x8000_0000_0000_0000 then Err(Panic) else
    if HasExpired(meta.value.expiresAt, now) then Err(Expired) else
    var secured := |meta.value.encryptedSharedKey| > 0;
    var sharedKey := if secured then c.eciesDecrypt(key, meta.value.encryptedSharedKey) else None;
    if secured && sharedKey.None? then Err(SharedKeyDecryption) else
    if secured && !c.validKey(sharedKey.value) then Err(BadKey) else
    var compressed := if secured then c.open(sharedKey.value, block.value.1) else Some(block.value.1);
    if compressed.None? then Err(DataDecryption) else
    var privateData := c.decompress(compressed.value);
    if privateData.None? then Err(Decompression) else
    match DecodePrivate(c, privateData.value, meta.value.requestID)
    case Err(e) => Err(e)
    case Ok(msg) => Ok(Decoded(msg, sharedKey, c.fromHex(meta.value.senderAccount)))
  }

  /** A nil timestamps map becomes an empty one. */
  function NormalizeTimestamps(msg: Message): Message {
    msg.(timestamps := Some(if msg.timestamps.Some? then msg.timestamps.value else map[]))
  }

  /** `storeOk` is the storing of the sender's key, which happens once the message has been decoded. */
  function DecodeAndVerify(c: Codec, key: PrivateKey, e: Encoded, senderBot: Address, now: int, storeOk: bool)
    : Result<Decoded>
  {
    var data := Join(e.chunks);
    var version := Slice(data, 0, MESSAGE_VERSION_SIZE);
    if version.None? then Err(Panic) else
    if ReadUint32(version.value) != MESSAGE_VERSION then Err(UnsupportedVersion) else
    var senderKey := c.recover(data, e.signature);
    if senderKey.None? then Err(BadSignature) else
    if c.addressOf(senderKey.value) != senderBot then Err(WrongSender) else
    match DecodeV1(c, key, data[MESSAGE_VERSION_SIZE..], now)
    case Err(error) => Err(error)
    case Ok(d) => if storeOk then Ok(d.(msg := NormalizeTimestamps(d.msg))) else Err(KeyStore)
  }

  /**
   * What a recipient gets back: the message with its content, type, request ID and timestamps, the sender's account,
   * and the shared key if it was sent.
   */
  function Received(msg: Message, recipient: Option<PublicKey>, sharedKey: Option<Key>, account: Address): Decoded {
    Decoded(NormalizeTimestamps(msg), if Encrypts(recipient, sharedKey) then sharedKey else None, account)
  }

  /** How decoding a correctly encoded message ends, told from the two metadata lengths and the clock. */
  function ExpectedResult(publicLen: nat, privateLen: nat, expiresAt: int, now: int, whole: Decoded): Result<Decoded> {
    if publicLen > 65533 then Err(Panic)
    else if HasExpired(expiresAt, now) then Err(Expired)
    else if privateLen > 65533 then Err(Panic)
    else Ok(whole)
  }

  /** A message that decodes is returned only if the sender's key could be stored. */
  function Stored(r: Result<Decoded>, storeOk: bool): Result<Decoded> {
    if r.Ok? && !storeOk then Err(KeyStore) else r
  }

  lemma DecodePrivateUndoes(c: Codec, msg: Message, content: Bytes)
    requires Lawful(c) && c.hasKind(msg.content, msg.kind)
    requires c.marshalContent(msg.content) == Some(content) && |PrivatePart(c, msg)| < UINT16_LIMIT
    ensures DecodePrivate(c, Block(PrivatePart(c, msg), content), msg.requestID) ==
            if |PrivatePart(c, msg)| > 65533 then Err(Panic) else Ok(msg)
  {
    ParseUndoesBlock(PrivatePart(c, msg), content);
  }

  /** A message lives for its five minutes, less at most the fraction of a second that Unix time rounds off. */
  lemma ExpiryWindow(sentAt: int, now: int)
    ensures now <= sentAt + 299_000_000_000 ==> !HasExpired(ExpiresAt(sentAt), now)
    ensures now > sentAt + 300_000_000_000 ==> HasExpired(ExpiresAt(sentAt), now)
  {
  }

  /** The part of the decoder behind the version and signature checks. */
  lemma DecodeV1UndoesFrame(c: Codec, msg: Message, recipientKey: PrivateKey, known: bool, sharedKey: Option<Key>,
                            account: Address, d: Draw, now: int)
    requires Lawful(c) && c.hasKind(msg.content, msg.kind)
    requires sharedKey.Some? ==> c.validKey(sharedKey.value)
    requires ExpiresAt(d.now) < 0x8000_0000_0000_0000
    ensures var recipient := if known then Some(c.publicOf(recipientKey)) else None;
            var r := EncodeFrame(c, msg, recipient, sharedKey, account, d);
            r.Ok? ==>
              var keyPart := EncryptedSharedKey(c, recipient, sharedKey, d).value;
              var whole := Decoded(msg, if Encrypts(recipient, sharedKey) then sharedKey else None, account);
              && |r.value| >= MESSAGE_VERSION_SIZE
              && DecodeV1(c, recipientKey, r.value[MESSAGE_VERSION_SIZE..], now)
                 == ExpectedResult(|PublicPart(c, msg, keyPart, account, d)|, |PrivatePart(c, msg)|, ExpiresAt(d.now),
                                   now, whole)
  {
    var recipient := if known then Some(c.publicOf(recipientKey)) else None;
    var r := EncodeFrame(c, msg, recipient, sharedKey, account, d);
    if r.Ok? {
      var publicPart := PublicPart(c, msg, EncryptedSharedKey(c, recipient, sharedKey, d).value, account, d);
      var content := c.marshalContent(msg.content).value;
      var compressed := c.compress(Block(PrivatePart(c, msg), content));
      var encrypted := if Encrypts(recipient, sharedKey) then c.seal(sharedKey.value, d.dataRandom, compressed).value
                       else compressed;
      assert r.value[MESSAGE_VERSION_SIZE..] == Block(publicPart, encrypted);
      ParseUndoesBlock(publicPart, encrypted);
      DecodePrivateUndoes(c, msg, content);
    }
  }

  /** Joining the chunks gives the frame back, which begins with the version. */
  lemma FrameJoined(c: Codec, msg: Message, recipient: Option<PublicKey>, sharedKey: Option<Key>, account: Address,
                    d: Draw, maxChunkSize: nat)
    requires maxChunkSize > 0
    ensures var r := EncodeFrame(c, msg, recipient, sharedKey, account, d);
            r.Ok? ==>
              && Join(Chunks(r.value, maxChunkSize)) == r.value
              && |r.value| >= MESSAGE_VERSION_SIZE
              && ReadUint32(r.value[0..MESSAGE_VERSION_SIZE]) == MESSAGE_VERSION
  {
    var r := EncodeFrame(c, msg, recipient, sharedKey, account, d);
    if r.Ok? {
      ChunksPartition(r.value, maxChunkSize);
      assert r.value[0..MESSAGE_VERSION_SIZE] == Uint32Bytes(MESSAGE_VERSION);
      Uint32RoundTrip(MESSAGE_VERSION);
    }
  }

  /** With the version and the signature in order, what remains is the rest of the frame and the storing of the key. */
  lemma VerifiedFrame(c: Codec, key: PrivateKey, e: Encoded, bot: PublicKey, now: int, storeOk: bool)
    requires var data := Join(e.chunks);
             && |data| >= MESSAGE_VERSION_SIZE && ReadUint32(data[0..MESSAGE_VERSION_SIZE]) == MESSAGE_VERSION
             && c.recover(data, e.signature) == Some(bot)
    ensures DecodeAndVerify(c, key, e, c.addressOf(bot), now, storeOk) ==
            match DecodeV1(c, key, Join(e.chunks)[MESSAGE_VERSION_SIZE..], now)
            case Err(error) => Err(error)
            case Ok(d) => Stored(Ok(d.(msg := NormalizeTimestamps(d.msg))), storeOk)
  {
  }

  /**
   * Decoding undoes encoding. For every message whose content matches its type and every encoding that succeeds, the
   * recipient, before the message expires, gets back the same message, account and shared key iff both metadata
   * blocks are at most 65533 bytes long and it can store the sender's key; the two lengths above that which the encoder
   * still accepts make the decoder panic.
   */
  lemma DecodeUndoesEncode(c: Codec, msg: Message, recipientKey: PrivateKey, known: bool, sharedKey: Option<Key>,
                           account: Address, d: Draw, botKey: PrivateKey, maxChunkSize: nat, now: int, storeOk: bool)
    requires Lawful(c) && maxChunkSize > 0 && c.hasKind(msg.content, msg.kind)
    requires sharedKey.Some? ==> c.validKey(sharedKey.value)
    requires ExpiresAt(d.now) < 0x8000_0000_0000_0000
    ensures var recipient := if known then Some(c.publicOf(recipientKey)) else None;
            var r := Encode(c, msg, recipient, sharedKey, account, d, botKey, maxChunkSize);
            r.Ok? ==>
              var keyPart := EncryptedSharedKey(c, recipient, sharedKey, d).value;
              DecodeAndVerify(c, recipientKey, r.value, c.addressOf(c.publicOf(botKey)), now, storeOk)
              == Stored(ExpectedResult(|PublicPart(c, msg, keyPart, account, d)|, |PrivatePart(c, msg)|,
                                       ExpiresAt(d.now), now, Received(msg, recipient, sharedKey, account)), storeOk)
  {
    var recipient := if known then Some(c.publicOf(recipientKey)) else None;
    var r := Encode(c, msg, recipient, sharedKey, account, d, botKey, maxChunkSize);
    if r.Ok? {
      FrameJoined(c, msg, recipient, sharedKey, account, d, maxChunkSize);
      VerifiedFrame(c, recipientKey, r.value, c.publicOf(botKey), now, storeOk);
      DecodeV1UndoesFrame(c, msg, recipientKey, known, sharedKey, account, d, now);
    }
  }

  // ---------- What is on the wire ----------

  /** A block on the wire: two bytes of length, most significant first, the metadata, and the rest. */
  ghost predicate IsBlock(data: Bytes, meta: Bytes, rest: Bytes) {
    |meta| <= 65533 && data == [|meta| / 256, |meta| % 256] + meta + rest
  }

  lemma ParseBlockIff(data: Bytes, meta: Bytes, rest: Bytes)
    ensures ParseBlock(data) == Some((meta, rest)) <==> IsBlock(data, meta, rest)
  {
    if IsBlock(data, meta, rest) {
      assert data == Block(meta, rest);
      ParseUndoesBlock(meta, rest);
    } else if ParseBlock(data) == Some((meta, rest)) {
      ParsedIsBlock(data);
    }
  }

  lemma ParsedIsBlock(data: Bytes)
    requires ParseBlock(data).Some?
    ensures IsBlock(data, ParseBlock(data).value.0, ParseBlock(data).value.1)
  {
    var n := ReadUint16(data[0..LEN_SIZE]);
    var end := AddUint16(LEN_SIZE, n);
    var (meta, rest) := ParseBlock(data).value;
    assert end == LEN_SIZE + n && |meta| == n;
    var (high: int, low: int) := (data[0], data[1]);
    assert n == high * 256 + low && n / 256 == high && n % 256 == low;
    assert data == data[..2] + data[2..end] + data[end..];
    assert data[..2] == [data[0], data[1]];
  }

  /** The frame was signed by the bot, and is of the one known version. */
  ghost predicate Authentic(c: Codec, e: Encoded, senderBot: Address) {
    var data := Join(e.chunks);
    && |data| >= 4 && data[..4] == [0, 0, 0, 1]
    && c.recover(data, e.signature).Some? && c.addressOf(c.recover(data, e.signature).value) == senderBot
  }

  lemma VersionIff(b: Bytes)
    requires |b| == 4
    ensures ReadUint32(b) == MESSAGE_VERSION <==> b == [0, 0, 0, 1]
  {
    var (b0: int, b1: int, b2: int, b3: int) := (b[0], b[1], b[2], b[3]);
    assert ReadUint32(b) == (b0 * 256 + b1) * 65536 + (b2 * 256 + b3);
    assert b == [b0, b1, b2, b3];
  }

  /**
   * The decoder refuses what it must, and says why: a frame that is too short panics, and another version, a signature
   * from which no key is recovered, and a signer that is not the sending bot each give their own error.
   */
  lemma DecodeRefuses(c: Codec, key: PrivateKey, e: Encoded, senderBot: Address, now: int, storeOk: bool)
    ensures var data, r := Join(e.chunks), DecodeAndVerify(c, key, e, senderBot, now, storeOk);
            if |data| < 4 then r == Err(Panic)
            else if data[..4] != [0, 0, 0, 1] then r == Err(UnsupportedVersion)
            else
              var signer := c.recover(data, e.signature);
              if signer.None? then r == Err(BadSignature)
              else if c.addressOf(signer.value) != senderBot then r == Err(WrongSender)
              else r == match DecodeV1(c, key, data[4..], now)
                        case Err(error) => Err(error)
                        case Ok(d) => if storeOk then Ok(d.(msg := NormalizeTimestamps(d.msg))) else Err(KeyStore)
  {
    var data := Join(e.chunks);
    if |data| >= 4 {
      assert data[0..4] == data[..4];
      VersionIff(data[..4]);
    }
  }

  /** The compressed data holds type, timestamps and content of the message. */
  ghost predicate Contains(c: Codec, compressed: Bytes, msg: Message) {
    && c.decompress(compressed).Some?
    && exists privatePart: Bytes, content: Bytes ::
         && IsBlock(c.decompress(compressed).value, privatePart, content)
         && c.unmarshalPrivate(privatePart) == Some(PrivateMetadata(msg.kind, msg.timestamps))
         && c.unmarshalContent(content, msg.kind) == Some(msg.content)
  }

  lemma DecodePrivateIff(c: Codec, compressed: Bytes, msg: Message)
    requires c.decompress(compressed).Some?
    ensures DecodePrivate(c, c.decompress(compressed).value, msg.requestID) == Ok(msg) <==> Contains(c, compressed, msg)
  {
    var data := c.decompress(compressed).value;
    if Contains(c, compressed, msg) {
      var privatePart: Bytes, content: Bytes :|
        && IsBlock(data, privatePart, content)
        && c.unmarshalPrivate(privatePart) == Some(PrivateMetadata(msg.kind, msg.timestamps))
        && c.unmarshalContent(content, msg.kind) == Some(msg.content);
      ParseBlockIff(data, privatePart, content);
    } else if DecodePrivate(c, data, msg.requestID) == Ok(msg) {
      ParsedIsBlock(data);
    }
  }

  /** The payload as its public metadata says it is to be read. */
  ghost predicate Opens(c: Codec, key: PrivateKey, meta: PublicMetadata, payload: Bytes, now: int, d: Decoded) {
    && meta.expiresAt < 0x8000_0000_0000_0000 && now <= meta.expiresAt * NANOS
    && d.msg.requestID == meta.requestID && d.senderAccount == c.fromHex(meta.senderAccount)
    && (meta.encryptedSharedKey == [] ==> d.sharedKey == None && Contains(c, payload, d.msg))
    && (meta.encryptedSharedKey != [] ==>
          && d.sharedKey.Some? && c.eciesDecrypt(key, meta.encryptedSharedKey) == d.sharedKey
          && c.validKey(d.sharedKey.value)
          && c.open(d.sharedKey.value, payload).Some?
          && Contains(c, c.open(d.sharedKey.value, payload).value, d.msg))
  }

  lemma OpensIff(c: Codec, key: PrivateKey, data: Bytes, now: int, d: Decoded)
    requires ParseBlock(data).Some? && c.unmarshalPublic(ParseBlock(data).value.0).Some?
    ensures DecodeV1(c, key, data, now) == Ok(d) <==>
            Opens(c, key, c.unmarshalPublic(ParseBlock(data).value.0).value, ParseBlock(data).value.1, now, d)
  {
    var (publicPart, payload) := ParseBlock(data).value;
    var meta := c.unmarshalPublic(publicPart).value;
    var sharedKey := if |meta.encryptedSharedKey| > 0 then c.eciesDecrypt(key, meta.encryptedSharedKey) else None;
    var compressed := if |meta.encryptedSharedKey| > 0 && sharedKey.Some? then c.open(sharedKey.value, payload)
                      else Some(payload);
    if compressed.Some? && c.decompress(compressed.value).Some? {
      DecodePrivateIff(c, compressed.value, d.msg);
    }
  }

  /** What a frame behind its version says, byte by byte, to the holder of the key at time `now`. */
  ghost predicate Says(c: Codec, key: PrivateKey, data: Bytes, now: int, d: Decoded) {
    exists publicPart: Bytes, payload: Bytes ::
      && IsBlock(data, publicPart, payload)
      && c.unmarshalPublic(publicPart).Some?
      && Opens(c, key, c.unmarshalPublic(publicPart).value, payload, now, d)
  }

  lemma SaysIff(c: Codec, key: PrivateKey, data: Bytes, now: int, d: Decoded)
    ensures DecodeV1(c, key, data, now) == Ok(d) <==> Says(c, key, data, now, d)
  {
    if DecodeV1(c, key, data, now) == Ok(d) {
      ParsedIsBlock(data);
      OpensIff(c, key, data, now, d);
    }
    if Says(c, key, data, now, d) {
      var publicPart: Bytes, payload: Bytes :|
        && IsBlock(data, publicPart, payload)
        && c.unmarshalPublic(publicPart).Some?
        && Opens(c, key, c.unmarshalPublic(publicPart).value, payload, now, d);
      ParseBlockIff(data, publicPart, payload);
      OpensIff(c, key, data, now, d);
    }
  }

  /** The frame says `d`, whose timestamps, if the sender left them out, read as none at all. */
  ghost predicate Reads(c: Codec, key: PrivateKey, data: Bytes, now: int, d: Decoded, timestamps: Option<Timestamps>) {
    && Says(c, key, data, now, d.(msg := d.msg.(timestamps := timestamps)))
    && d.msg.timestamps == Some(if timestamps.Some? then timestamps.value else map[])
  }

  /**
   * Exactly which frames decode, and to what: whatever bytes arrive from whichever bot, the decoder returns `d` iff the
   * frame is of version 1 and signed by that very bot, has not expired, says `d`, and the signer's key could be stored.
   */
  lemma DecodesExactly(c: Codec, key: PrivateKey, e: Encoded, senderBot: Address, now: int, storeOk: bool, d: Decoded)
    ensures DecodeAndVerify(c, key, e, senderBot, now, storeOk) == Ok(d) <==>
            && Authentic(c, e, senderBot) && storeOk
            && exists timestamps :: Reads(c, key, Join(e.chunks)[4..], now, d, timestamps)
  {
    DecodeRefuses(c, key, e, senderBot, now, storeOk);
    if Authentic(c, e, senderBot) && storeOk {
      var data := Join(e.chunks)[4..];
      var v1 := DecodeV1(c, key, data, now);
      if v1.Ok? && d == v1.value.(msg := NormalizeTimestamps(v1.value.msg)) {
        var timestamps := v1.value.msg.timestamps;
        assert d.(msg := d.msg.(timestamps := timestamps)) == v1.value;
        SaysIff(c, key, data, now, v1.value);
        assert Reads(c, key, data, now, d, timestamps);
      }
      if timestamps :| Reads(c, key, data, now, d, timestamps) {
        SaysIff(c, key, data, now, d.(msg := d.msg.(timestamps := timestamps)));
      }
    }
  }

  /** The private part and the content, compressed. */
  function Compressed(c: Codec, privatePart: Bytes, content: Bytes): Bytes
    requires |privatePart| < 0x1_0000
  {
    c.compress([|privatePart| / 256, |privatePart| % 256] + privatePart + content)
  }

  /**
   * Exactly when encoding succeeds, and what then goes out, byte by byte: the recipient's key could be looked up, each
   * library call succeeds, both metadata blocks fit their two-byte length, and the expiration time is not negative. The
   * first of these to fail gives the error.
   */
  lemma EncodesExactly(c: Codec, msg: Message, recipient: Option<PublicKey>, sharedKey: Option<Key>, account: Address,
                       d: Draw, botKey: PrivateKey, maxChunkSize: nat)
    requires maxChunkSize > 0
    ensures var r := Encode(c, msg, recipient, sharedKey, account, d, botKey, maxChunkSize);
            var secured := recipient.Some? && sharedKey.Some?;
            var keyPart := if secured then c.eciesEncrypt(recipient.value, d.keyRandom, sharedKey.value) else Some([]);
            var expiresAt := d.now / 1_000_000_000 + 300;
            var privatePart := c.marshalPrivate(PrivateMetadata(msg.kind, msg.timestamps));
            var content := c.marshalContent(msg.content);
            if !d.lookupOk then r == Err(KeyLookup)
            else if keyPart.None? then r == Err(SharedKeyEncryption)
            else if expiresAt < 0 then r == Err(Panic)
            else if content.None? then r == Err(ContentMarshal)
            else if |privatePart| >= 0x1_0000 then r == Err(Panic)
            else
              var compressed := Compressed(c, privatePart, content.value);
              var payload := if secured then c.seal(sharedKey.value, d.dataRandom, compressed) else Some(compressed);
              var publicPart :=
                c.marshalPublic(PublicMetadata(msg.requestID, keyPart.value, expiresAt, c.hex(account)));
              if payload.None? then r == Err(DataEncryption)
              else if |publicPart| >= 0x1_0000 then r == Err(Panic)
              else
                var frame := [0, 0, 0, 1] + [|publicPart| / 256, |publicPart| % 256] + publicPart + payload.value;
                && (c.sign(botKey, frame).None? ==> r == Err(Signing))
                && (c.sign(botKey, frame).Some? ==> r.Ok?)
                && (r.Ok? ==> Join(r.value.chunks) == frame && Some(r.value.signature) == c.sign(botKey, frame)
                              && r.value.chunks == Chunks(frame, maxChunkSize))
  {
    var secured := recipient.Some? && sharedKey.Some?;
    var keyPart := if secured then c.eciesEncrypt(recipient.value, d.keyRandom, sharedKey.value) else Some([]);
    var privatePart, content := PrivatePart(c, msg), c.marshalContent(msg.content);
    assert ExpiresAt(d.now) == d.now / NANOS + 300;
    if d.lookupOk && keyPart.Some? && ExpiresAt(d.now) >= 0 && content.Some? && |privatePart| < UINT16_LIMIT {
      var compressed := Compressed(c, privatePart, content.value);
      assert Block(privatePart, content.value) == [|privatePart| / 256, |privatePart| % 256] + privatePart + content.value;
      var payload := if secured then c.seal(sharedKey.value, d.dataRandom, compressed) else Some(compressed);
      var publicPart := PublicPart(c, msg, keyPart.value, account, d);
      if payload.Some? && |publicPart| < UINT16_LIMIT {
        FrameBytes(publicPart, payload.value);
        ChunksPartition(Uint32Bytes(MESSAGE_VERSION) + Block(publicPart, payload.value), maxChunkSize);
      }
    }
  }

  lemma FrameBytes(publicPart: Bytes, payload: Bytes)
    requires |publicPart| < UINT16_LIMIT
    ensures Uint32Bytes(MESSAGE_VERSION) + Block(publicPart, payload)
            == [0, 0, 0, 1] + [|publicPart| / 256, |publicPart| % 256] + publicPart + payload
  {
    assert Uint32Bytes(MESSAGE_VERSION) == [0, 0, 0, 1];
  }

  /** A message encoded by one bot is refused when it comes from another. */
  lemma ForgedSenderRefused(c: Codec, msg: Message, recipient: Option<PublicKey>, sharedKey: Option<Key>,
                            account: Address, d: Draw, botKey: PrivateKey, maxChunkSize: nat, key: PrivateKey,
                            senderBot: Address, now: int, storeOk: bool)
    requires Lawful(c) && maxChunkSize > 0 && senderBot != c.addressOf(c.publicOf(botKey))
    ensures var r := Encode(c, msg, recipient, sharedKey, account, d, botKey, maxChunkSize);
            r.Ok? ==> DecodeAndVerify(c, key, r.value, senderBot, now, storeOk) == Err(WrongSender)
  {
    var r := Encode(c, msg, recipient, sharedKey, account, d, botKey, maxChunkSize);
    if r.Ok? {
      FrameJoined(c, msg, recipient, sharedKey, account, d, maxChunkSize);
      DecodeRefuses(c, key, r.value, senderBot, now, storeOk);
      var data := Join(r.value.chunks);
      assert data[0..4] == data[..4];
      VersionIff(data[..4]);
    }
  }
}

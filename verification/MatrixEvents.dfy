/** The two chunk events exchanged over a room, and the checks that gate them (pkg/matrix/events.go). */
module MatrixEvents {
  import opened Types

  datatype ChunkData = ChunkData(messageID: string, data: Bytes)

  datatype SignedMessageEvent = SignedMessageEvent(
    chunk: ChunkData,
    chunksCount: UInt32,
    signature: Bytes,
    account: Address
  )

  datatype MessageChunkEvent = MessageChunkEvent(chunk: ChunkData, chunkIndex: UInt32)

  datatype VerifyError = WrongChunkIndex | NoChunks | NoData | NoMessageID

  function VerifyChunkData(c: ChunkData): (r: Option<VerifyError>)
    ensures r.None? <==> c.data != [] && c.messageID != ""
  {
    if |c.data| == 0 then Some(NoData)
    else if c.messageID == "" then Some(NoMessageID)
    else None
  }

  function VerifyChunk(e: MessageChunkEvent): (r: Option<VerifyError>)
    ensures r.None? <==> e.chunkIndex > 0 && e.chunk.data != [] && e.chunk.messageID != ""
  {
    if e.chunkIndex == 0 then Some(WrongChunkIndex) else VerifyChunkData(e.chunk)
  }

  function VerifySigned(e: SignedMessageEvent): (r: Option<VerifyError>)
    ensures r.None? <==> e.chunksCount > 0 && e.chunk.data != [] && e.chunk.messageID != ""
  {
    if e.chunksCount == 0 then Some(NoChunks) else VerifyChunkData(e.chunk)
  }
}

/**
 * The byte layout of an encoded message (internal/messaging/encoding/encoder_decoder.go): big-endian length prefixes
 * in front of the two metadata blocks, written into fixed buffers and read back by slicing.
 */
module Framing {
  import opened Types

  const MESSAGE_VERSION: UInt32 := 1
  const MESSAGE_VERSION_SIZE := 4
  const LEN_SIZE := 2

  function Uint16Bytes(v: UInt16): Bytes {
    [v / 0x100, v % 0x100]
  }

  function Uint32Bytes(v: UInt32): Bytes {
    Uint16Bytes(v / 0x1_0000) + Uint16Bytes(v % 0x1_0000)
  }

  function ReadUint16(b: Bytes): UInt16
    requires |b| == 2
  {
    var (high: int, low: int) := (b[0], b[1]);
    high * 0x100 + low
  }

  function ReadUint32(b: Bytes): UInt32
    requires |b| == 4
  {
    ReadUint16(b[..2]) as int * 0x1_0000 + ReadUint16(b[2..]) as int
  }

  /** Addition of two values of Go's uint16 type. */
  function AddUint16(a: UInt16, b: UInt16): UInt16 {
    (a + b) % UINT16_LIMIT
  }

  /** `s[lo:hi]`; None is the bounds panic. */
  function Slice(s: Bytes, lo: int, hi: int): Option<Bytes> {
    if 0 <= lo <= hi <= |s| then Some(s[lo..hi]) else None
  }

  /** A length-prefixed block in front of the rest. */
  function Block(meta: Bytes, rest: Bytes): Bytes
    requires |meta| < UINT16_LIMIT
  {
    Uint16Bytes(|meta|) + meta + rest
  }

  /** Reads a length-prefixed block. The bounds are sums of uint16 values and wrap as those do. */
  function ParseBlock(data: Bytes): Option<(Bytes, Bytes)> {
    var prefix := Slice(data, 0, LEN_SIZE);
    if prefix.None? then None else
    var end := AddUint16(LEN_SIZE, ReadUint16(prefix.value));
    var meta := Slice(data, LEN_SIZE, end);
    var rest := Slice(data, end, |data|);
    if meta.None? || rest.None? then None else Some((meta.value, rest.value))
  }

  lemma Uint16RoundTrip(v: UInt16)
    ensures ReadUint16(Uint16Bytes(v)) == v
  {
  }

  lemma Uint32RoundTrip(v: UInt32)
    ensures ReadUint32(Uint32Bytes(v)) == v
  {
  }

  /**
   * Parsing undoes framing exactly for blocks of at most 65533 bytes. For the two longer lengths that still fit the
   * prefix the end offset wraps round to 0 or 1, and the slice panics.
   */
  lemma ParseUndoesBlock(meta: Bytes, rest: Bytes)
    requires |meta| < UINT16_LIMIT
    ensures ParseBlock(Block(meta, rest)) == if |meta| <= 65533 then Some((meta, rest)) else None
  {
    var data := Block(meta, rest);
    assert data[0..LEN_SIZE] == Uint16Bytes(|meta|);
    Uint16RoundTrip(|meta|);
    var end := AddUint16(LEN_SIZE, |meta|);
    if |meta| <= 65533 {
      assert end == LEN_SIZE + |meta|;
      assert data[LEN_SIZE..LEN_SIZE + |meta|] == meta;
      assert data[LEN_SIZE + |meta|..|data|] == rest;
    } else {
      assert end < LEN_SIZE;
    }
  }

  /** copy(buffer[at:], src) for a source that fits. */
  method CopyInto(buffer: array<Byte>, at: nat, src: Bytes)
    requires at + |src| <= buffer.Length
    modifies buffer
    ensures buffer[..at + |src|] == old(buffer[..at]) + src
    ensures buffer[at + |src|..] == old(buffer[at + |src|..])
  {
    for i := 0 to |src|
      invariant buffer[..at] == old(buffer[..at])
      invariant buffer[at..at + i] == src[..i]
      invariant buffer[at + i..] == old(buffer[at + i..])
    {
      buffer[at + i] := src[i];
    }
    assert buffer[..at + |src|] == buffer[..at] + buffer[at..at + |src|];
  }

  /** Metadata length, metadata and content in one buffer; None is the panic of a length over 16 bits. */
  method BuildPrivateData(meta: Bytes, content: Bytes) returns (r: Option<Bytes>)
    ensures r == if |meta| < UINT16_LIMIT then Some(Block(meta, content)) else None
  {
    var buffer := new Byte[LEN_SIZE + |meta| + |content|](_ => 0);
    if |meta| >= UINT16_LIMIT {
      return None;
    }
    CopyInto(buffer, 0, Uint16Bytes(|meta|));
    CopyInto(buffer, LEN_SIZE, meta);
    CopyInto(buffer, LEN_SIZE + |meta|, content);
    assert buffer[..] == buffer[..LEN_SIZE + |meta| + |content|];
    assert buffer[..] == Block(meta, content);
    return Some(buffer[..]);
  }

  /** Version, metadata length, metadata and encrypted data in one buffer. */
  method BuildEncodedData(meta: Bytes, encrypted: Bytes) returns (r: Option<Bytes>)
    ensures r == if |meta| < UINT16_LIMIT then Some(Uint32Bytes(MESSAGE_VERSION) + Block(meta, encrypted)) else None
  {
    var buffer := new Byte[MESSAGE_VERSION_SIZE + LEN_SIZE + |meta| + |encrypted|](_ => 0);
    CopyInto(buffer, 0, Uint32Bytes(MESSAGE_VERSION));
    if |meta| >= UINT16_LIMIT {
      return None;
    }
    CopyInto(buffer, MESSAGE_VERSION_SIZE, Uint16Bytes(|meta|));
    CopyInto(buffer, MESSAGE_VERSION_SIZE + LEN_SIZE, meta);
    CopyInto(buffer, MESSAGE_VERSION_SIZE + LEN_SIZE + |meta|, encrypted);
    assert buffer[..] == buffer[..MESSAGE_VERSION_SIZE + LEN_SIZE + |meta| + |encrypted|];
    assert buffer[..] == Uint32Bytes(MESSAGE_VERSION) + Block(meta, encrypted);
    return Some(buffer[..]);
  }
}

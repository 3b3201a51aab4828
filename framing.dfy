/** The gRPC Length-Prefixed-Message frame as `GrpcClient` writes and reads
    it: one compression-flag byte, a four-byte big-endian unsigned length,
    then the serialized message. `encodeMessage` always writes flag 0;
    `decodeGrpcResponse` looks at the flag and at the first two message
    bytes, and never at the declared length. */
module Framing {
  import opened Wrappers

  type byte = x: int | 0 <= x < 256
  type Bytes = seq<byte>

  const UINT32_LIMIT: int := 0x1_0000_0000

  /** The gzip magic number that opens every gzip member. */
  const GZIP_MAGIC_0: byte := 0x1f
  const GZIP_MAGIC_1: byte := 0x8b

  /** Why an encode or a decode throws in the source. */
  datatype FrameError =
    | ValueOutOfRange(value: int)        // writeUInt32BE of a value outside 0 .. 2^32 - 1
    | OffsetOutOfRange(offset: int)      // a Buffer read or write past its end
    | Inflate(reason: string)            // pako.ungzip rejected the data

  /** Decompression is done by a library this model does not contain; it is
      passed in as a total function that either inflates or fails. */
  type Inflater = Bytes -> Result<Bytes, string>

  /** The four bytes `writeUInt32BE` stores for `value`, most significant first. */
  function BigEndian32(value: int): (r: Bytes)
    requires 0 <= value < UINT32_LIMIT
    ensures |r| == 4
  {
    [value / 0x100_0000 % 256, value / 0x1_0000 % 256, value / 0x100 % 256, value % 256]
  }

  /** `readUInt32BE` of four bytes. */
  function ReadUInt32BE(b: Bytes): (r: int)
    requires |b| == 4
    ensures 0 <= r < UINT32_LIMIT
  {
    (b[0] as int) * 0x100_0000 + (b[1] as int) * 0x1_0000 + (b[2] as int) * 0x100 + b[3]
  }

  /** Reading back what `writeUInt32BE` wrote gives the value. */
  lemma ReadWriteUInt32(value: int)
    requires 0 <= value < UINT32_LIMIT
    ensures ReadUInt32BE(BigEndian32(value)) == value
  {
    var q1 := value / 0x100;
    var q2 := q1 / 0x100;
    var q3 := q2 / 0x100;
    assert value == q1 * 0x100 + value % 256;
    assert q1 == q2 * 0x100 + q1 % 256;
    assert q2 == q3 * 0x100 + q2 % 256;
    assert value / 0x1_0000 == q2;
    assert value / 0x100_0000 == q3;
    assert q3 < 256;
  }

  /** Four bytes are determined by the value they store. */
  lemma WriteReadUInt32(b: Bytes)
    requires |b| == 4
    ensures BigEndian32(ReadUInt32BE(b)) == b
  {
    var v := ReadUInt32BE(b);
    assert v / 0x100 == (b[0] as int) * 0x1_0000 + (b[1] as int) * 0x100 + b[2];
    assert v / 0x1_0000 == (b[0] as int) * 0x100 + b[1];
    assert v / 0x100_0000 == b[0];
  }

  /** The frame `encodeMessage` builds around a serialized payload, or the
      range error `writeUInt32BE` throws when the payload length does not
      fit in 32 bits. */
  function Frame(payload: Bytes): Result<Bytes, FrameError> {
    if |payload| < UINT32_LIMIT then Ok([0] + BigEndian32(|payload|) + payload)
    else Err(ValueOutOfRange(|payload|))
  }

  /** `buf.writeUInt32BE(value, offset)`: stores the four big-endian bytes
      of `value` at `offset` and returns `offset + 4`; the range checks run
      first, and a failing one throws before any byte is written. */
  method WriteUInt32BE(buf: array<byte>, value: int, offset: nat) returns (r: Result<nat, FrameError>)
    modifies buf
    ensures r.Ok? <==> 0 <= value < UINT32_LIMIT && offset + 4 <= buf.Length
    ensures r.Ok? ==> (r.value == offset + 4
                       && buf[offset..offset + 4] == BigEndian32(value)
                       && buf[..offset] == old(buf[..offset])
                       && buf[offset + 4..] == old(buf[offset + 4..]))
    ensures r.Err? ==> buf[..] == old(buf[..])
    ensures !(0 <= value < UINT32_LIMIT) ==> r == Err(ValueOutOfRange(value))
  {
    if !(0 <= value < UINT32_LIMIT) {
      return Err(ValueOutOfRange(value));
    }
    if offset + 4 > buf.Length {
      return Err(OffsetOutOfRange(offset));
    }
    buf[offset] := value / 0x100_0000 % 256;
    buf[offset + 1] := value / 0x1_0000 % 256;
    buf[offset + 2] := value / 0x100 % 256;
    buf[offset + 3] := value % 256;
    r := Ok(offset + 4);
  }

  /** `encodeMessage` once the payload is serialized: a zero-filled 5-byte
      prefix gets flag 0 and the payload length, and the payload is
      appended. */
  method EncodeMessage(payload: Bytes) returns (r: Result<Bytes, FrameError>)
    ensures r == Frame(payload)
  {
    var prefix := new byte[5](_ => 0);
    prefix[0] := 0;
    var written := WriteUInt32BE(prefix, |payload|, 1);
    if written.Err? {
      return Err(written.error);
    }
    assert prefix[..] == [prefix[0]] + prefix[1..5];
    r := Ok(prefix[..] + payload);
  }

  /** What `encodeMessage` produces: five header bytes more than the
      payload, flag 0, the payload length as a big-endian uint32, then the
      payload itself. */
  lemma FrameLayout(payload: Bytes)
    requires |payload| < UINT32_LIMIT
    ensures Frame(payload).Ok?
    ensures var f := Frame(payload).value;
      |f| == |payload| + 5 && f[0] == 0 && ReadUInt32BE(f[1..5]) == |payload| && f[5..] == payload
  {
    var f := Frame(payload).value;
    assert f[1..5] == BigEndian32(|payload|);
    ReadWriteUInt32(|payload|);
  }

  /** The fallback test: the message opens with the gzip magic number. */
  predicate HasGzipMagic(m: Bytes) {
    |m| >= 2 && m[0] == GZIP_MAGIC_0 && m[1] == GZIP_MAGIC_1
  }

  /** `decodeGrpcResponse`: reading the flag of an empty buffer throws;
      otherwise everything from offset 5 on (nothing, for a buffer of five
      bytes or fewer) is the message, inflated when the flag is 1 or the
      message opens with the gzip magic number. */
  function DecodeGrpcResponse(buffer: Bytes, ungzip: Inflater): Result<Bytes, FrameError> {
    if |buffer| == 0 then Err(OffsetOutOfRange(0))
    else
      var flag := buffer[0];
      var message := if |buffer| >= 5 then buffer[5..] else [];
      if flag == 1 || HasGzipMagic(message) then
        match ungzip(message)
        case Ok(inflated) => Ok(inflated)
        case Err(why) => Err(Inflate(why))
      else Ok(message)
  }

  /** The decoder's decision, stated on its own: the message is returned
      untouched unless the flag is 1 or it carries the gzip magic, and only
      then does the inflater see it. */
  lemma DecodeCases(buffer: Bytes, ungzip: Inflater)
    requires |buffer| >= 5
    ensures var m := buffer[5..];
      DecodeGrpcResponse(buffer, ungzip)
        == if buffer[0] == 1 || HasGzipMagic(m) then
             (if ungzip(m).Ok? then Ok(ungzip(m).value) else Err(Inflate(ungzip(m).error)))
           else Ok(m)
  {
  }

  /** Bytes 1 to 4, the declared length, are never read: two buffers that
      differ only there decode alike. */
  lemma DecodeIgnoresDeclaredLength(b1: Bytes, b2: Bytes, ungzip: Inflater)
    requires |b1| == |b2| >= 1 && b1[0] == b2[0]
    requires |b1| > 5 ==> b1[5..] == b2[5..]
    ensures DecodeGrpcResponse(b1, ungzip) == DecodeGrpcResponse(b2, ungzip)
  {
  }

  /** A buffer of one to five bytes whose flag is not 1 decodes to the
      empty message. */
  lemma DecodeShortBuffer(buffer: Bytes, ungzip: Inflater)
    requires 1 <= |buffer| <= 5 && buffer[0] != 1
    ensures DecodeGrpcResponse(buffer, ungzip) == Ok([])
  {
  }

  /** Round trip: decoding what `encodeMessage` produced gives the payload
      back, except that a payload opening with the gzip magic number is
      handed to the inflater. */
  lemma RoundTrip(payload: Bytes, ungzip: Inflater)
    requires |payload| < UINT32_LIMIT
    ensures Frame(payload).Ok?
    ensures !HasGzipMagic(payload) ==> DecodeGrpcResponse(Frame(payload).value, ungzip) == Ok(payload)
    ensures HasGzipMagic(payload) ==>
      DecodeGrpcResponse(Frame(payload).value, ungzip)
        == if ungzip(payload).Ok? then Ok(ungzip(payload).value) else Err(Inflate(ungzip(payload).error))
  {
    FrameLayout(payload);
  }

  /** Since the length is not checked, a frame whose declared length is
      wrong still decodes to whatever follows the header. */
  lemma DeclaredLengthNotChecked(payload: Bytes, declared: int, ungzip: Inflater)
    requires 0 <= declared < UINT32_LIMIT && !HasGzipMagic(payload)
    ensures DecodeGrpcResponse([0] + BigEndian32(declared) + payload, ungzip) == Ok(payload)
  {
    var f := [0] + BigEndian32(declared) + payload;
    assert f[5..] == payload;
  }
}

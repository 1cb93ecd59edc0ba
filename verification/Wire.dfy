/**
 The single RPC's framing: a 32-byte request, answered by `0x00 | u32be | data`,
 `0x01` or `0x02`. `Parse` is the client's reading of a flat byte stream; the
 lemmas say it is exactly the inverse of the proxy's printing.
 */
module Wire {
  import opened Prelude

  const STATUS_OK: Byte := 0x00
  const STATUS_NOT_FOUND: Byte := 0x01
  const STATUS_REFUSED: Byte := 0x02

  const MAX_MESSAGE_PAYLOAD: nat := 16 * 1024 - 64
  const MAX_RESPONSE_LEN: nat := 8 * 1024 * 1024
  const U32_LIMIT: nat := 0x1_0000_0000

  /** Why `getChunk` throws. */
  datatype Fault =
    | BadAddress(got: nat)
    | NoStream
    | SendClosed
    | Reset
    | Ended(have: nat, wanted: nat)
    | RefusedByProxy
    | UnknownStatus(status: Byte)
    | Oversized(length: nat)

  /** What one `getChunk` call comes to: null, bytes, or a thrown error. */
  datatype Reply = Absent | Chunk(bytes: Bytes) | Failed(fault: Fault)

  /** What a prefix of the response stream tells the client so far. */
  datatype Verdict = Decided(reply: Reply) | Short(have: nat, wanted: nat)

  function BigEndian(n: nat): (b: Bytes)
    requires n < U32_LIMIT
    ensures |b| == 4
  {
    [n / 0x100_0000, n / 0x1_0000 % 0x100, n / 0x100 % 0x100, n % 0x100]
  }

  function FromBigEndian(b: Bytes): nat
    requires |b| == 4
  {
    (b[0] as int) * 0x100_0000 + (b[1] as int) * 0x1_0000 + (b[2] as int) * 0x100 + b[3]
  }

  lemma BigEndianInverse(b: Bytes)
    requires |b| == 4
    ensures FromBigEndian(b) < U32_LIMIT
    ensures BigEndian(FromBigEndian(b)) == b
  {
    var n := FromBigEndian(b);
    assert n % 0x100 == b[3];
    assert n / 0x100 == (b[0] as int) * 0x1_0000 + (b[1] as int) * 0x100 + b[2];
    assert n / 0x1_0000 == (b[0] as int) * 0x100 + b[1];
    assert n / 0x100_0000 == b[0];
  }

  lemma BigEndianRoundTrip(n: nat)
    requires n < U32_LIMIT
    ensures FromBigEndian(BigEndian(n)) == n
  {
    assert n == n / 0x100 * 0x100 + n % 0x100;
    assert n / 0x100 == n / 0x1_0000 * 0x100 + n / 0x100 % 0x100;
    assert n / 0x1_0000 == n / 0x100_0000 * 0x100 + n / 0x1_0000 % 0x100;
  }

  /** The bytes of a successful response. */
  function Frame(data: Bytes): Bytes
    requires |data| < U32_LIMIT
  {
    [STATUS_OK] + BigEndian(|data|) + data
  }

  /** The client's three reads, run over one flat byte sequence. */
  function Parse(flat: Bytes): Verdict {
    if flat == [] then Short(0, 1)
    else if flat[0] == STATUS_NOT_FOUND then Decided(Absent)
    else if flat[0] == STATUS_REFUSED then Decided(Failed(RefusedByProxy))
    else if flat[0] != STATUS_OK then Decided(Failed(UnknownStatus(flat[0])))
    else if |flat| < 5 then Short(|flat| - 1, 4)
    else
      var length := FromBigEndian(flat[1..5]);
      if length > MAX_RESPONSE_LEN then Decided(Failed(Oversized(length)))
      else if |flat| < 5 + length then Short(|flat| - 5, length)
      else Decided(Chunk(flat[5..5 + length]))
  }

  /** The reply for a whole stream: a stream that stops too early is an error. */
  function ReplyOf(flat: Bytes, breaks: bool): Reply {
    match Parse(flat)
    case Decided(reply) => reply
    case Short(have, wanted) => Failed(if breaks then Reset else Ended(have, wanted))
  }

  /** More bytes never change a verdict already reached. */
  lemma DecidedIsStable(flat: Bytes, more: Bytes)
    requires Parse(flat).Decided?
    ensures Parse(flat + more) == Parse(flat)
  {
    if |flat| >= 5 {
      assert (flat + more)[1..5] == flat[1..5];
      var length := FromBigEndian(flat[1..5]);
      if 5 + length <= |flat| {
        assert (flat + more)[5..5 + length] == flat[5..5 + length];
      }
    }
  }

  lemma DecidedPrefix(flat: Bytes, whole: Bytes)
    requires flat <= whole && Parse(flat).Decided?
    ensures Parse(whole) == Parse(flat)
  {
    DecidedIsStable(flat, whole[|flat|..]);
    assert whole == flat + whole[|flat|..];
  }

  /**
   The bytes of a successful response as they lie on the wire: 0x00, the length
   of `data` in four bytes with the highest first, `data`, then anything.
   */
  ghost predicate CarriesData(flat: Bytes, data: Bytes) {
    && |data| <= 8388608 && |flat| >= 5 + |data|
    && flat[0] == 0x00
    && LengthField(flat) == |data|
    && flat[5..5 + |data|] == data
  }

  ghost function LengthField(flat: Bytes): int
    requires |flat| >= 5
  {
    (flat[1] as int) * 16777216 + (flat[2] as int) * 65536 + (flat[3] as int) * 256 + (flat[4] as int)
  }

  /**
   The client gets `data` exactly when the stream starts with the frame the
   proxy prints for it, which is to say, with these bytes.
   */
  lemma ChunkIffFramed(flat: Bytes, data: Bytes)
    ensures Parse(flat) == Decided(Chunk(data)) <==>
            |data| <= MAX_RESPONSE_LEN && Frame(data) <= flat
    ensures Parse(flat) == Decided(Chunk(data)) <==> CarriesData(flat, data)
  {
    if Parse(flat) == Decided(Chunk(data)) {
      ChunkIsFramed(flat, data);
    }
    if |data| <= MAX_RESPONSE_LEN && Frame(data) <= flat {
      FramedIsChunk(flat, data);
    }
  }

  lemma ChunkIsFramed(flat: Bytes, data: Bytes)
    requires Parse(flat) == Decided(Chunk(data))
    ensures |data| <= MAX_RESPONSE_LEN && Frame(data) <= flat
  {
    var header := flat[1..5];
    BigEndianInverse(header);
    assert flat[..5 + |data|] == [flat[0]] + header + data;
  }

  lemma FrameShape(data: Bytes)
    requires |data| < U32_LIMIT
    ensures |Frame(data)| == 5 + |data|
    ensures Frame(data)[0] == STATUS_OK
    ensures Frame(data)[1..5] == BigEndian(|data|)
    ensures Frame(data)[5..] == data
    ensures |data| <= 8388608 ==> CarriesData(Frame(data), data)
  {
    BigEndianRoundTrip(|data|);
  }

  lemma FramedIsChunk(flat: Bytes, data: Bytes)
    requires |data| <= MAX_RESPONSE_LEN && Frame(data) <= flat
    ensures Parse(flat) == Decided(Chunk(data))
  {
    FrameShape(data);
    BigEndianRoundTrip(|data|);
    assert flat[1..5] == Frame(data)[1..5];
    assert flat[5..5 + |data|] == Frame(data)[5..];
  }

  /** A stream that stops inside a field: `have` of that field's `wanted` bytes arrived. */
  ghost predicate Lacks(flat: Bytes, have: nat, wanted: nat) {
    || (flat == [] && have == 0 && wanted == 1)
    || (0 < |flat| < 5 && flat[0] == 0x00 && have == |flat| - 1 && wanted == 4)
    || (|flat| >= 5 && flat[0] == 0x00 && have == |flat| - 5 < wanted == LengthField(flat) <= 8388608)
  }

  /**
   What a whole stream gets a caller, in terms of its bytes alone: null, data and
   each error exactly when the bytes call for it, and nothing else.
   */
  lemma ReplyTrichotomy(flat: Bytes, breaks: bool)
    ensures ReplyOf(flat, breaks) == Absent <==> flat != [] && flat[0] == 0x01
    ensures forall data :: ReplyOf(flat, breaks) == Chunk(data) <==> CarriesData(flat, data)
    ensures ReplyOf(flat, breaks) == Failed(RefusedByProxy) <==> flat != [] && flat[0] == 0x02
    ensures forall status :: ReplyOf(flat, breaks) == Failed(UnknownStatus(status)) <==>
              flat != [] && flat[0] == status && status > 0x02
    ensures forall length :: ReplyOf(flat, breaks) == Failed(Oversized(length)) <==>
              |flat| >= 5 && flat[0] == 0x00 && LengthField(flat) == length && length > 8388608
    ensures forall have, wanted :: ReplyOf(flat, breaks) == Failed(Ended(have, wanted)) <==>
              !breaks && Lacks(flat, have, wanted)
    ensures ReplyOf(flat, breaks) == Failed(Reset) <==> breaks && exists have, wanted :: Lacks(flat, have, wanted)
    ensures ReplyOf(flat, breaks).Failed? <==>
            !(flat != [] && flat[0] == 0x01) && !exists data :: CarriesData(flat, data)
  {
    forall data
      ensures ReplyOf(flat, breaks) == Chunk(data) <==> CarriesData(flat, data)
    {
      ChunkIffFramed(flat, data);
    }
    if ReplyOf(flat, breaks).Chunk? {
      assert CarriesData(flat, ReplyOf(flat, breaks).bytes);
    }
    match Parse(flat) {
      case Short(have, wanted) => assert Lacks(flat, have, wanted);
      case Decided(_) =>
    }
  }

  /** No proper prefix of a frame satisfies the client; the whole frame does. */
  lemma FrameDecidesOnlyWhole(data: Bytes, k: nat)
    requires |data| <= MAX_RESPONSE_LEN && k <= |Frame(data)|
    ensures Parse(Frame(data)[..k]) ==
            if k == |Frame(data)| then Decided(Chunk(data))
            else if k == 0 then Short(0, 1)
            else if k < 5 then Short(k - 1, 4)
            else Short(k - 5, |data|)
  {
    var frame := Frame(data);
    var part := frame[..k];
    FrameShape(data);
    if k == |frame| {
      assert part == frame;
      FramedIsChunk(frame, data);
    } else if k >= 5 {
      assert part[1..5] == frame[1..5];
      BigEndianRoundTrip(|data|);
    }
  }

  /** `data.chunks(size)`: consecutive pieces of at most `size` bytes. */
  function Pieces(data: Bytes, size: nat): seq<Bytes>
    requires size > 0
  {
    if data == [] then []
    else if |data| <= size then [data]
    else [data[..size]] + Pieces(data[size..], size)
  }

  lemma {:induction false} PiecesPartition(data: Bytes, size: nat)
    requires size > 0
    ensures Flatten(Pieces(data, size)) == data
    ensures forall i :: 0 <= i < |Pieces(data, size)| ==> 0 < |Pieces(data, size)[i]| <= size
    ensures forall i :: 0 <= i < |Pieces(data, size)| - 1 ==> |Pieces(data, size)[i]| == size
  {
    if |data| > size {
      PiecesPartition(data[size..], size);
      assert data == data[..size] + data[size..];
    } else if data != [] {
      assert Flatten([data]) == data + Flatten([]);
    }
  }

  /** The transport writes `write_found` makes, one element per `write_all`. */
  function FoundMessages(data: Bytes): seq<Bytes>
    requires |data| < U32_LIMIT
  {
    [[STATUS_OK], BigEndian(|data|)] + Pieces(data, MAX_MESSAGE_PAYLOAD)
  }

  lemma FoundMessagesCarryFrame(data: Bytes)
    requires |data| < U32_LIMIT
    ensures Flatten(FoundMessages(data)) == Frame(data)
    ensures forall i :: 0 <= i < |FoundMessages(data)| ==> FoundMessages(data)[i] != []
  {
    var payload := Pieces(data, MAX_MESSAGE_PAYLOAD);
    PiecesPartition(data, MAX_MESSAGE_PAYLOAD);
    assert FoundMessages(data)[1..] == [BigEndian(|data|)] + payload;
    assert FoundMessages(data)[1..][1..] == payload;
    assert Flatten(FoundMessages(data)) == [STATUS_OK] + (BigEndian(|data|) + Flatten(payload));
  }
}

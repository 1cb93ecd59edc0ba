/** The proxy's side of one stream: read a request, look it up, answer, close, drain. */
module ProxyProtocol {
  import opened Prelude
  import opened Wire

  /** What the chunk source says about an address. */
  datatype Lookup = LookupFailed | NotStored | Stored(data: Bytes)

  datatype ProxyError = UnexpectedEof | SourceFailed | ExceedsU32 | ExceedsMaximum | TransportFault

  /** The messages that answer a lookup; none when the task gives up without writing. */
  function Answer(found: Lookup): Option<seq<Bytes>> {
    match found
    case LookupFailed => None
    case NotStored => Some([[STATUS_NOT_FOUND]])
    case Stored(data) => if |data| <= MAX_RESPONSE_LEN then Some(FoundMessages(data)) else None
  }

  /** What the client's `getChunk` should come to for a lookup that is answered. */
  function Expected(found: Lookup): Reply {
    match found
    case LookupFailed => Failed(Reset)
    case NotStored => Absent
    case Stored(data) => if |data| <= MAX_RESPONSE_LEN then Chunk(data) else Failed(Reset)
  }

  /**
   The client reads an answer back, and needs all of it: the whole answer decides
   for the expected reply and no proper prefix decides anything.
   */
  lemma AnswerDecidesOnlyWhole(found: Lookup, k: nat)
    requires Answer(found).Some? && k <= |Flatten(Answer(found).value)|
    ensures var flat := Flatten(Answer(found).value);
            if k == |flat| then Parse(flat[..k]) == Decided(Expected(found)) else Parse(flat[..k]).Short?
  {
    match found {
      case NotStored =>
        assert Flatten([[STATUS_NOT_FOUND]]) == [STATUS_NOT_FOUND] + Flatten([]);
      case Stored(data) =>
        FoundMessagesCarryFrame(data);
        FrameDecidesOnlyWhole(data, k);
    }
  }

  /** What a transport with `room` takes of a frame: some header, then some data. */
  lemma FrameInTwo(data: Bytes, room: nat)
    requires |data| < U32_LIMIT
    ensures var header := [STATUS_OK] + BigEndian(|data|);
            var taken := Frame(data)[..Min(|Frame(data)|, room)];
            |Frame(data)| == 5 + |data| &&
            (if room < 5 then taken == header[..room]
             else taken == header[..5] + data[..Min(|data|, room - 5)])
  {
  }

  /** Why a request cannot be answered whatever the transport does. */
  function Complaint(source: Bytes -> Lookup, inbound: Bytes): Option<ProxyError> {
    if |inbound| < 32 then Some(UnexpectedEof)
    else
      match source(inbound[..32])
      case LookupFailed => Some(SourceFailed)
      case NotStored => None
      case Stored(data) =>
        if |data| <= 8388608 then None else Some(if |data| < 4294967296 then ExceedsMaximum else ExceedsU32)
  }

  /** What has been written once a frame follows `before`, and the messages it took, byte by byte. */
  lemma FoundOnTheWire(data: Bytes, before: Bytes, earlier: seq<Bytes>)
    requires |data| <= MAX_RESPONSE_LEN
    ensures |before + Frame(data)| == |before| + 5 + |data|
    ensures CarriesData((before + Frame(data))[|before|..], data)
    ensures var messages := earlier + FoundMessages(data);
            forall i :: |earlier| <= i < |messages| ==> 0 < |messages[i]| <= 16320
  {
    FrameShape(data);
    PiecesPartition(data, MAX_MESSAGE_PAYLOAD);
    assert (before + Frame(data))[|before|..] == Frame(data);
  }

  /**
   A stream as the proxy holds it. `inbound` is what the client sends before it
   closes its side; `wire` is what the transport has taken, and it takes `budget`
   more bytes before it faults. Reads, flushes and closes may fail at any time,
   unless the stream is `steady`.
   */
  class ProxyStream {
    const steady: bool
    var inbound: Bytes
    var wire: Bytes
    var budget: nat
    var closed: bool
    /** The writes that went through whole. */
    ghost var messages: seq<Bytes>

    constructor (inbound: Bytes, budget: nat, steady: bool)
      ensures this.inbound == inbound && this.budget == budget && this.steady == steady
      ensures wire == [] && messages == [] && !closed
    {
      this.inbound, this.budget, this.steady := inbound, budget, steady;
      wire, messages, closed := [], [], false;
    }

    /** Whether a read, flush or close goes through. */
    method Survives() returns (ok: bool)
      ensures steady ==> ok
    {
      ok := *;
      ok := ok || steady;
    }

    /** `write_all`: all of `bytes`, or a fault after the part the transport took. */
    method WriteAll(bytes: Bytes) returns (ok: bool)
      requires !closed
      modifies this`wire, this`budget, this`messages
      ensures ok == (|bytes| <= old(budget))
      ensures wire == old(wire) + bytes[..Min(|bytes|, old(budget))]
      ensures budget == old(budget) - Min(|bytes|, old(budget))
      ensures ok ==> messages == old(messages) + [bytes]
    {
      var taken := Min(|bytes|, budget);
      ok := taken == |bytes|;
      wire := wire + bytes[..taken];
      budget := budget - taken;
      messages := if ok then messages + [bytes] else messages;
    }

    method Close() returns (ok: bool)
      requires !closed
      modifies this`closed
      ensures closed == ok && (steady ==> ok)
    {
      ok := Survives();
      closed := ok;
    }

    /** `read_exact` of one address; end of stream before that is an error. */
    method ReadRequest() returns (r: Result<Address, ProxyError>)
      modifies this`inbound
      ensures r.Ok? ==>
                |old(inbound)| >= ADDRESS_LEN &&
                r.value == old(inbound)[..ADDRESS_LEN] && inbound == old(inbound)[ADDRESS_LEN..]
      ensures r.Err? ==> r.error == TransportFault || (r.error == UnexpectedEof && |old(inbound)| < ADDRESS_LEN)
      ensures steady ==> (r.Ok? <==> |old(inbound)| >= ADDRESS_LEN) && (r.Err? ==> r.error == UnexpectedEof)
    {
      var readable := Survives();
      if !readable {
        return Err(TransportFault);
      }
      if |inbound| < ADDRESS_LEN {
        inbound := [];
        return Err(UnexpectedEof);
      }
      r := Ok(inbound[..ADDRESS_LEN]);
      inbound := inbound[ADDRESS_LEN..];
    }

    /** Reads of one to 64 bytes, whatever arrives, until end of stream or a read error. */
    method DrainToEof()
      modifies this`inbound
      ensures steady ==> inbound == []
    {
      while inbound != []
        decreases |inbound|
      {
        var readable := Survives();
        if !readable {
          return;
        }
        var got :| 1 <= got <= 64 && got <= |inbound|;
        inbound := inbound[got..];
      }
    }

    /** Write and flush the pieces in order, stopping at the first fault. */
    method WritePieces(pieces: seq<Bytes>) returns (ok: bool)
      requires !closed
      modifies this`wire, this`budget, this`messages
      ensures ok ==> |Flatten(pieces)| <= old(budget) && messages == old(messages) + pieces
      ensures steady || ok ==> wire == old(wire) + Flatten(pieces)[..Min(|Flatten(pieces)|, old(budget))]
      ensures steady ==> ok == (|Flatten(pieces)| <= old(budget))
      ensures old(wire) <= wire <= old(wire) + Flatten(pieces)
    {
      var left := pieces;
      ghost var all := Flatten(pieces);
      ghost var done: nat := 0;
      while left != []
        invariant done <= |all| && Flatten(left) == all[done..]
        invariant done <= old(budget) && budget == old(budget) - done
        invariant wire == old(wire) + all[..done]
        invariant messages + left == old(messages) + pieces
        decreases |left|
      {
        var piece := left[0];
        assert piece <= all[done..];
        assert all[..done] + piece[..Min(|piece|, budget)] == all[..done + Min(|piece|, budget)];
        assert messages + left == messages + [piece] + left[1..];
        ok := WriteAll(piece);
        if !ok {
          return;
        }
        ok := Survives();
        if !ok {
          return;
        }
        done := done + |piece|;
        left := left[1..];
      }
      ok := true;
    }

    /** The status byte and the length, each written on its own. */
    method WriteHeader(length: nat) returns (ok: bool)
      requires !closed && length < U32_LIMIT
      modifies this`wire, this`budget, this`messages
      ensures ok == (5 <= old(budget))
      ensures wire == old(wire) + ([STATUS_OK] + BigEndian(length))[..Min(5, old(budget))]
      ensures ok ==> budget == old(budget) - 5 && messages == old(messages) + [[STATUS_OK], BigEndian(length)]
    {
      ok := WriteAll([STATUS_OK]);
      if ok {
        ok := WriteAll(BigEndian(length));
      }
    }

    /** The header, the pieces and the close, for data that is not too long. */
    method WriteFrame(data: Bytes) returns (ok: bool)
      requires !closed && |data| <= MAX_RESPONSE_LEN
      modifies this`wire, this`budget, this`messages, this`closed
      ensures closed == ok
      ensures old(wire) <= wire <= old(wire) + Frame(data)
      ensures ok ==> wire == old(wire) + Frame(data) && messages == old(messages) + FoundMessages(data)
      ensures steady ==>
                && (ok <==> |Frame(data)| <= old(budget))
                && wire == old(wire) + Frame(data)[..Min(|Frame(data)|, old(budget))]
    {
      PiecesPartition(data, MAX_MESSAGE_PAYLOAD);
      FrameInTwo(data, budget);
      ok := WriteHeader(|data|);
      if !ok {
        return;
      }
      ok := WritePieces(Pieces(data, MAX_MESSAGE_PAYLOAD));
      if !ok {
        return;
      }
      ok := Close();
    }

    /**
     A successful response; above 8 MiB it fails having written nothing. What the
     transport has is always a prefix of the frame, and the whole of it on success:
     0x00, the length with its highest byte first, the data.
     */
    method WriteFound(data: Bytes) returns (r: Result<(), ProxyError>)
      requires !closed
      modifies this`wire, this`budget, this`messages, this`closed
      ensures closed <==> r.Ok?
      ensures |data| > MAX_RESPONSE_LEN ==> r.Err? && wire == old(wire)
      ensures |data| <= MAX_RESPONSE_LEN ==>
                && old(wire) <= wire <= old(wire) + Frame(data)
                && (r.Ok? ==> wire == old(wire) + Frame(data) && messages == old(messages) + FoundMessages(data))
                && (steady ==>
                      && (r.Ok? <==> |Frame(data)| <= old(budget))
                      && wire == old(wire) + Frame(data)[..Min(|Frame(data)|, old(budget))])
      ensures r.Ok? ==> |wire| == |old(wire)| + 5 + |data| && CarriesData(wire[|old(wire)|..], data)
      ensures r.Ok? ==> forall i :: |old(messages)| <= i < |messages| ==> 0 < |messages[i]| <= 16320
      ensures r == Err(ExceedsU32) <==> |data| >= 4294967296
      ensures r == Err(ExceedsMaximum) <==> 8388608 < |data| < 4294967296
      ensures r.Err? && |data| <= 8388608 ==> r.error == TransportFault
    {
      if |data| >= U32_LIMIT {
        return Err(ExceedsU32);
      }
      if |data| > MAX_RESPONSE_LEN {
        return Err(ExceedsMaximum);
      }
      FoundOnTheWire(data, wire, messages);
      var ok := WriteFrame(data);
      r := if ok then Ok(()) else Err(TransportFault);
    }

    method WriteStatus(status: Byte) returns (r: Result<(), ProxyError>)
      requires !closed
      modifies this`wire, this`budget, this`messages, this`closed
      ensures closed <==> r.Ok?
      ensures wire == old(wire) + if old(budget) >= 1 then [status] else []
      ensures r.Ok? ==> old(budget) >= 1 && messages == old(messages) + [[status]]
      ensures r.Err? ==> r.error == TransportFault
      ensures steady ==> (r.Ok? <==> old(budget) >= 1)
    {
      var ok := WriteAll([status]);
      if !ok {
        return Err(TransportFault);
      }
      ok := Close();
      r := if ok then Ok(()) else Err(TransportFault);
    }

    /**
     One request, start to finish. The transport only ever gets a prefix of the
     answer to the address that was read. The write side is closed exactly on
     success, and then the answer was written whole. On a steady stream that
     happens exactly when there is an answer and the transport takes all of it,
     and the client's side has then been read to its end.
     */
    method HandleRequest(source: Bytes -> Lookup) returns (r: Result<(), ProxyError>)
      requires wire == [] && messages == [] && !closed
      modifies this
      ensures closed <==> r.Ok?
      ensures var asked := old(inbound);
              if |asked| < ADDRESS_LEN || Answer(source(asked[..ADDRESS_LEN])).None? then r.Err? && wire == []
              else
                var answer := Answer(source(asked[..ADDRESS_LEN])).value;
                && wire <= Flatten(answer)
                && (r.Ok? ==> messages == answer && wire == Flatten(answer))
                && (steady ==>
                      && (r.Ok? <==> |Flatten(answer)| <= old(budget))
                      && wire == Flatten(answer)[..Min(|Flatten(answer)|, old(budget))]
                      && (r.Ok? ==> inbound == []))
      // In bytes, for the address read.
      ensures r.Ok? ==>
                && |old(inbound)| >= 32
                && match source(old(inbound)[..32])
                   case LookupFailed => false
                   case NotStored => wire == [0x01]
                   case Stored(data) => |wire| == 5 + |data| && CarriesData(wire, data)
      ensures var complaint := Complaint(source, old(inbound));
              r.Err? ==> r.error == TransportFault || complaint == Some(r.error)
      ensures var complaint := Complaint(source, old(inbound));
              steady && complaint.Some? ==> r == Err(complaint.value)
    {
      var request := ReadRequest();
      if request.Err? {
        return Err(request.error);
      }
      match source(request.value) {
        case LookupFailed =>
          return Err(SourceFailed);
        case Stored(data) =>
          if |data| <= MAX_RESPONSE_LEN {
            FoundMessagesCarryFrame(data);
          }
          r := WriteFound(data);
        case NotStored =>
          assert Flatten([[STATUS_NOT_FOUND]]) == [STATUS_NOT_FOUND] + Flatten([]);
          r := WriteStatus(STATUS_NOT_FOUND);
      }
      if r.Ok? {
        DrainToEof();
      }
    }
  }
}

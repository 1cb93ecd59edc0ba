/**
 The browser's side of one request: a reader that buffers arbitrary deliveries,
 and the response parser built on it.
 */
module FetchClient {
  import opened Prelude
  import opened Wire

  /**
   One libp2p stream as the client sees it. `pieces` are the deliveries the peer
   will make, in order; after the last one the iterator ends, or throws when
   `breaks` holds. `pulled` counts the deliveries taken so far.
   */
  class ClientStream {
    const pieces: seq<Bytes>
    const breaks: bool
    const sendable: bool
    var pulled: nat
    var sent: Bytes
    var closed: bool

    constructor (pieces: seq<Bytes>, breaks: bool, sendable: bool)
      ensures this.pieces == pieces && this.breaks == breaks && this.sendable == sendable
      ensures pulled == 0 && sent == [] && !closed
    {
      this.pieces, this.breaks, this.sendable := pieces, breaks, sendable;
      pulled, sent, closed := 0, [], false;
    }

    method Send(bytes: Bytes) returns (ok: bool)
      requires !closed
      modifies this`sent
      ensures ok == sendable && sent == old(sent) + (if ok then bytes else [])
    {
      ok := sendable;
      if ok {
        sent := sent + bytes;
      }
    }

    method Close()
      modifies this`closed
      ensures closed
    {
      closed := true;
    }
  }

  /** `exactReader`: pieces wait in a queue and are joined once per read. */
  class ExactReader {
    const stream: ClientStream
    var queue: seq<Bytes>
    var queued: nat
    /** Everything reads have returned so far, in order. */
    ghost var returned: Bytes
    /** What is still to be read: the queue, then the deliveries not yet pulled. */
    ghost var unread: Bytes
    /** Bytes copied into result buffers since the reader was made. */
    ghost var copied: nat

    constructor (stream: ClientStream)
      requires stream.pulled == 0
      ensures this.stream == stream && Valid() && Tidy() && Lazy()
      ensures returned == [] && unread == Flatten(stream.pieces)
    {
      this.stream := stream;
      queue, queued, returned, copied := [], 0, [], 0;
      unread := Flatten(stream.pieces);
      new;
      assert stream.pieces[0..] == stream.pieces;
    }

    /** No byte is lost, repeated or reordered, and every byte is copied once. */
    ghost predicate Valid()
      reads this, stream
    {
      && stream.pulled <= |stream.pieces|
      && queued == |Flatten(queue)|
      && unread == Flatten(queue) + Flatten(stream.pieces[stream.pulled..])
      && Flatten(stream.pieces) == returned + unread
      && copied == |returned|
    }

    /** Between successful reads: at most one piece is left over, and it is not empty. */
    ghost predicate Tidy()
      reads this
    {
      |queue| <= 1 && forall i :: 0 <= i < |queue| ==> queue[i] != []
    }

    /** What is queued is less than the last delivery: nothing was pulled without need. */
    ghost predicate Lazy()
      reads this, stream
    {
      && stream.pulled <= |stream.pieces|
      && (stream.pulled > 0 ==> queued < |stream.pieces[stream.pulled - 1]|)
    }

    /** A lazy reader that stopped at the decision point pulled no delivery too many. */
    lemma StoppedInTime()
      requires Valid() && Lazy() && Parse(Flatten(stream.pieces)).Decided?
      requires |returned| == DecisionPoint(Flatten(stream.pieces))
      ensures PulledJustEnough(stream)
    {
      MinimalPull(stream.pieces, stream.pulled, queued);
    }

    /** A reader that found the stream too short pulled all of it. */
    lemma RanOut()
      requires stream.pulled == |stream.pieces| && Parse(Flatten(stream.pieces)).Short?
      ensures PulledJustEnough(stream)
    {
      ShortThroughout(stream.pieces);
    }

    /** Take the next delivery off the iterator and queue it. */
    method Pull()
      requires Valid() && stream.pulled < |stream.pieces|
      modifies this`queue, this`queued, stream`pulled
      ensures Valid() && stream.pulled == old(stream.pulled) + 1
      ensures queue == old(queue) + [stream.pieces[old(stream.pulled)]]
      ensures queued == old(queued) + |stream.pieces[old(stream.pulled)]|
    {
      var piece := stream.pieces[stream.pulled];
      FlattenSnoc(queue, piece);
      assert stream.pieces[stream.pulled..][1..] == stream.pieces[stream.pulled + 1..];
      assert Flatten(queue) + (piece + Flatten(stream.pieces[stream.pulled + 1..]))
          == Flatten(queue) + piece + Flatten(stream.pieces[stream.pulled + 1..]);
      stream.pulled := stream.pulled + 1;
      queue := queue + [piece];
      queued := queued + |piece|;
    }

    /** The first loop of a read: pull until enough is queued or the stream ends. */
    method Fill(wanted: nat) returns (fault: Option<Fault>)
      requires Valid()
      modifies this`queue, this`queued, stream`pulled
      ensures Valid()
      ensures if wanted <= |unread| then fault == None && wanted <= queued
              else fault == Some(if stream.breaks then Reset else Ended(|unread|, wanted)) &&
                   stream.pulled == |stream.pieces|
      ensures stream.pulled >= old(stream.pulled)
      ensures stream.pulled == old(stream.pulled) ==> queued == old(queued)
      ensures stream.pulled > old(stream.pulled) ==> queued < wanted + |stream.pieces[stream.pulled - 1]|
      ensures fault == None && old(Tidy()) ==> Poised(queue, wanted)
    {
      while queued < wanted
        invariant Valid()
        invariant stream.pulled >= old(stream.pulled)
        invariant stream.pulled == old(stream.pulled) ==> queued == old(queued)
        invariant stream.pulled > old(stream.pulled) ==> queued < wanted + |stream.pieces[stream.pulled - 1]|
        invariant queued < wanted || (old(Tidy()) ==> Poised(queue, wanted))
        decreases |stream.pieces| - stream.pulled
      {
        if stream.pulled == |stream.pieces| {
          return Some(if stream.breaks then Reset else Ended(queued, wanted));
        }
        Pull();
      }
      fault := None;
    }

    /** One turn of the copy loop: move what fits of the first piece into `out`. */
    method CopyFront(out: array<Byte>, filled: nat) returns (take: nat)
      requires queue != [] && filled < out.Length
      modifies this`queue, this`copied, out
      ensures take == Min(|old(queue)[0]|, out.Length - filled)
      ensures queue == AfterTaking(old(queue), take) && copied == old(copied) + take
      ensures out[..filled + take] == old(out[..filled]) + old(queue)[0][..take]
    {
      var piece := queue[0];
      take := Min(|piece|, out.Length - filled);
      forall i | 0 <= i < take {
        out[filled + i] := piece[i];
      }
      copied := copied + take;
      if take == |piece| {
        queue := queue[1..];
      } else {
        queue := queue[0 := piece[take..]];
      }
    }

    /** The second loop: copy `wanted` bytes from the front of the queue. */
    method Take(wanted: nat) returns (out: array<Byte>)
      requires wanted <= queued == |Flatten(queue)|
      modifies this`queue, this`queued, this`copied
      ensures fresh(out) && out[..] == old(Flatten(queue))[..wanted]
      ensures Flatten(queue) == old(Flatten(queue))[wanted..]
      ensures queued == old(queued) - wanted && copied == old(copied) + wanted
      ensures old(Poised(queue, wanted)) ==> Poised(queue, 0)
    {
      ghost var bytes := Flatten(queue);
      out := new Byte[wanted];
      var filled: nat := 0;
      while filled < wanted
        invariant filled <= wanted <= |bytes|
        invariant out[..filled] == bytes[..filled]
        invariant Flatten(queue) == bytes[filled..]
        invariant copied == old(copied) + filled && queued == old(queued)
        invariant old(Poised(queue, wanted)) ==> Poised(queue, wanted - filled)
        decreases wanted - filled + |queue|
      {
        ghost var was := queue;
        var take := CopyFront(out, filled);
        TakeFront(was, take);
        PoisedStep(was, wanted - filled);
        SliceOn(bytes, filled, take);
        filled := filled + take;
      }
      queued := queued - wanted;
    }

    /**
     Read exactly `wanted` bytes: the next slice of the concatenated stream, or a
     fault exactly when too few bytes are left; a failed read loses nothing.
     */
    method Read(wanted: nat) returns (r: Result<Bytes, Fault>)
      requires Valid() && !stream.closed
      modifies this, stream`pulled
      ensures Valid()
      ensures r == OneRead(old(unread), stream.breaks, wanted) && unread == Beyond(old(unread), wanted)
      ensures returned == old(returned) + (if r.Ok? then r.value else [])
      ensures r.Err? ==> stream.pulled == |stream.pieces|
      ensures r.Ok? && old(Tidy()) ==> Tidy()
      ensures r.Ok? && old(Lazy()) ==> Lazy()
    {
      var fault := Fill(wanted);
      if fault.Some? {
        return Err(fault.value);
      }
      ghost var later := Flatten(stream.pieces[stream.pulled..]);
      ghost var bytes := Flatten(queue);
      var out := Take(wanted);
      MoveFront(returned, bytes, later, wanted);
      returned, unread := returned + out[..], unread[wanted..];
      PoisedAtRest(queue);
      r := Ok(out[..]);
    }
  }

  /**
   A queue from which taking `wanted` bytes uses up every piece but the last:
   either it already is at most one non-empty piece, or the pieces before the
   last do not reach `wanted`.
   */
  ghost predicate Poised(queue: seq<Bytes>, wanted: nat) {
    || queue == []
    || (|queue| == 1 && queue[0] != [])
    || (queue[|queue| - 1] != [] && |Flatten(queue)| < wanted + |queue[|queue| - 1]|)
  }

  lemma {:induction false} LastFits(queue: seq<Bytes>)
    requires queue != []
    ensures |queue[|queue| - 1]| <= |Flatten(queue)|
  {
    if |queue| > 1 {
      LastFits(queue[1..]);
    }
  }

  lemma PoisedAtRest(queue: seq<Bytes>)
    ensures Poised(queue, 0) ==> |queue| <= 1 && forall i :: 0 <= i < |queue| ==> queue[i] != []
  {
    if queue != [] {
      LastFits(queue);
    }
  }

  /** The queue once `take` bytes of its first piece are gone. */
  ghost function AfterTaking(queue: seq<Bytes>, take: nat): seq<Bytes>
    requires queue != [] && take <= |queue[0]|
  {
    if take == |queue[0]| then queue[1..] else queue[0 := queue[0][take..]]
  }

  lemma TakeFront(queue: seq<Bytes>, take: nat)
    requires queue != [] && take <= |queue[0]|
    ensures take <= |Flatten(queue)| && queue[0][..take] == Flatten(queue)[..take]
    ensures Flatten(AfterTaking(queue, take)) == Flatten(queue)[take..]
  {
    assert queue[0 := queue[0][take..]][1..] == queue[1..];
  }

  lemma SliceOn(bytes: Bytes, filled: nat, take: nat)
    requires filled + take <= |bytes|
    ensures bytes[filled..][take..] == bytes[filled + take..]
    ensures bytes[..filled] + bytes[filled..][..take] == bytes[..filled + take]
  {
  }

  lemma MoveFront(before: Bytes, bytes: Bytes, later: Bytes, wanted: nat)
    requires wanted <= |bytes|
    ensures (bytes + later)[..wanted] == bytes[..wanted]
    ensures (bytes + later)[wanted..] == bytes[wanted..] + later
    ensures before + (bytes + later) == before + bytes[..wanted] + (bytes[wanted..] + later)
  {
  }

  lemma PoisedStep(queue: seq<Bytes>, wanted: nat)
    requires queue != []
    ensures var take := Min(|queue[0]|, wanted);
            Poised(queue, wanted) ==> Poised(AfterTaking(queue, take), wanted - take)
  {
    TakeFront(queue, Min(|queue[0]|, wanted));
  }

  /** One read over a flat byte sequence: the next slice, or a fault when it is too short. */
  function OneRead(flat: Bytes, breaks: bool, wanted: nat): Result<Bytes, Fault> {
    if wanted <= |flat| then Ok(flat[..wanted])
    else Err(if breaks then Reset else Ended(|flat|, wanted))
  }

  /** What that read leaves unread; a failed read takes nothing. */
  function Beyond(flat: Bytes, wanted: nat): Bytes {
    if wanted <= |flat| then flat[wanted..] else flat
  }

  /** What the reads in `wants` return when run over one flat byte sequence. */
  function SliceReads(flat: Bytes, breaks: bool, wants: seq<nat>): seq<Result<Bytes, Fault>> {
    if wants == [] then []
    else [OneRead(flat, breaks, wants[0])] + SliceReads(Beyond(flat, wants[0]), breaks, wants[1..])
  }

  method ReadOn(reader: ExactReader, wants: seq<nat>) returns (results: seq<Result<Bytes, Fault>>)
    requires reader.Valid() && !reader.stream.closed
    modifies reader, reader.stream`pulled
    ensures reader.Valid() && results == SliceReads(old(reader.unread), reader.stream.breaks, wants)
    decreases |wants|
  {
    if wants == [] {
      return [];
    }
    var r := reader.Read(wants[0]);
    var rest := ReadOn(reader, wants[1..]);
    results := [r] + rest;
  }

  /** Any series of reads sees only the concatenated stream, never its fragmentation. */
  method ReadSeries(pieces: seq<Bytes>, breaks: bool, wants: seq<nat>)
    returns (results: seq<Result<Bytes, Fault>>)
    ensures results == SliceReads(Flatten(pieces), breaks, wants)
  {
    var stream := new ClientStream(pieces, breaks, true);
    var reader := new ExactReader(stream);
    results := ReadOn(reader, wants);
  }

  /** How many bytes the client reads to reach its verdict. */
  ghost function DecisionPoint(flat: Bytes): nat
    requires Parse(flat).Decided?
  {
    if flat[0] != STATUS_OK then 1
    else if FromBigEndian(flat[1..5]) > MAX_RESPONSE_LEN then 5
    else 5 + FromBigEndian(flat[1..5])
  }

  lemma ShortBeforeDecision(flat: Bytes, k: nat)
    requires Parse(flat).Decided? && k <= |flat|
    ensures Parse(flat[..k]).Short? <==> k < DecisionPoint(flat)
  {
    if k >= 5 {
      assert flat[..k][1..5] == flat[1..5];
    }
  }

  lemma MinimalPull(pieces: seq<Bytes>, pulled: nat, queued: nat)
    requires pulled <= |pieces| && Parse(Flatten(pieces)).Decided?
    requires DecisionPoint(Flatten(pieces)) + queued + |Flatten(pieces[pulled..])| == |Flatten(pieces)|
    requires pulled > 0 ==> queued < |pieces[pulled - 1]|
    ensures forall k :: 0 <= k < pulled ==> Parse(Flatten(pieces[..k])).Short?
    ensures Parse(Flatten(pieces[..pulled])).Decided?
  {
    var flat := Flatten(pieces);
    FlattenSplit(pieces, pulled);
    assert Flatten(pieces[..pulled]) == flat[..|Flatten(pieces[..pulled])|];
    ShortBeforeDecision(flat, |Flatten(pieces[..pulled])|);
    forall k | 0 <= k < pulled
      ensures Parse(Flatten(pieces[..k])).Short?
    {
      FlattenMonotone(pieces, k, pulled - 1);
      FlattenSnoc(pieces[..pulled - 1], pieces[pulled - 1]);
      assert pieces[..pulled] == pieces[..pulled - 1] + [pieces[pulled - 1]];
      FlattenSplit(pieces, k);
      assert Flatten(pieces[..k]) == flat[..|Flatten(pieces[..k])|];
      ShortBeforeDecision(flat, |Flatten(pieces[..k])|);
    }
  }

  lemma ShortThroughout(pieces: seq<Bytes>)
    requires Parse(Flatten(pieces)).Short?
    ensures forall k :: 0 <= k <= |pieces| ==> Parse(Flatten(pieces[..k])).Short?
  {
    forall k | 0 <= k <= |pieces|
      ensures Parse(Flatten(pieces[..k])).Short?
    {
      FlattenSplit(pieces, k);
      if Parse(Flatten(pieces[..k])).Decided? {
        DecidedPrefix(Flatten(pieces[..k]), Flatten(pieces));
      }
    }
  }

  /** A stream on which nothing has happened yet. */
  ghost predicate Untouched(stream: ClientStream)
    reads stream
  {
    stream.pulled == 0 && stream.sent == [] && !stream.closed
  }

  /** The deliveries taken are the fewest that settle the reply, or all of them. */
  ghost predicate PulledJustEnough(stream: ClientStream)
    reads stream
  {
    && stream.pulled <= |stream.pieces|
    && (forall k :: 0 <= k < stream.pulled ==> Parse(Flatten(stream.pieces[..k])).Short?)
    && (Parse(Flatten(stream.pieces)).Decided? ==> Parse(Flatten(stream.pieces[..stream.pulled])).Decided?)
  }

  /** The three reads of `getChunk`, stopping at the first verdict. */
  method ReadReply(stream: ClientStream) returns (r: Reply)
    requires stream.pulled == 0 && !stream.closed
    modifies stream`pulled
    ensures r == ReplyOf(Flatten(stream.pieces), stream.breaks) && PulledJustEnough(stream)
  {
    var reader := new ExactReader(stream);
    ghost var flat := Flatten(stream.pieces);
    var status := reader.Read(1);
    if status.Err? {
      reader.RanOut();
      return Failed(status.error);
    }
    assert status.value == [flat[0]] && reader.unread == flat[1..];
    if status.value[0] != STATUS_OK {
      r := if status.value[0] == STATUS_NOT_FOUND then Absent
           else if status.value[0] == STATUS_REFUSED then Failed(RefusedByProxy)
           else Failed(UnknownStatus(status.value[0]));
      reader.StoppedInTime();
      return;
    }
    r := ReadBody(reader, flat);
  }

  /** The rest of a response whose status byte was OK. */
  method ReadBody(reader: ExactReader, ghost flat: Bytes) returns (r: Reply)
    requires reader.Valid() && reader.Lazy() && !reader.stream.closed
    requires flat == Flatten(reader.stream.pieces) && flat != [] && flat[0] == STATUS_OK
    requires reader.returned == flat[..1] && reader.unread == flat[1..]
    modifies reader, reader.stream`pulled
    ensures r == ReplyOf(flat, reader.stream.breaks) && PulledJustEnough(reader.stream)
  {
    var stream := reader.stream;
    var header := reader.Read(4);
    if header.Err? {
      reader.RanOut();
      return Failed(header.error);
    }
    assert header.value == flat[1..5] && reader.unread == flat[5..];
    var length := FromBigEndian(header.value);
    if length > MAX_RESPONSE_LEN {
      reader.StoppedInTime();
      return Failed(Oversized(length));
    }
    var body := reader.Read(length);
    if body.Err? {
      reader.RanOut();
      return Failed(body.error);
    }
    assert body.value == flat[5..5 + length];
    reader.StoppedInTime();
    r := Chunk(body.value);
  }

  /**
   Fetch the bytes at one address over a stream of its own (`null` when none could
   be opened). The stream is closed on every path, after the last read.
   */
  method GetChunk(addr: Bytes, stream: ClientStream?) returns (r: Reply)
    requires stream != null ==> Untouched(stream)
    modifies stream
    ensures |addr| != ADDRESS_LEN ==> r == Failed(BadAddress(|addr|)) && (stream != null ==> Untouched(stream))
    ensures |addr| == ADDRESS_LEN && stream == null ==> r == Failed(NoStream)
    ensures |addr| == ADDRESS_LEN && stream != null ==>
              && stream.closed
              && (if stream.sendable then
                    stream.sent == addr && PulledJustEnough(stream) &&
                    r == ReplyOf(Flatten(stream.pieces), stream.breaks)
                  else
                    r == Failed(SendClosed) && stream.sent == [] && stream.pulled == 0)
    ensures |addr| == 32 && stream != null && stream.sendable ==>
              var flat := Flatten(stream.pieces);
              && (r == Absent <==> flat != [] && flat[0] == 0x01)
              && (forall data :: r == Chunk(data) <==> CarriesData(flat, data))
  {
    if |addr| != ADDRESS_LEN {
      return Failed(BadAddress(|addr|));
    }
    if stream == null {
      return Failed(NoStream);
    }
    ReplyTrichotomy(Flatten(stream.pieces), stream.breaks);
    var ok := stream.Send(addr);
    if ok {
      r := ReadReply(stream);
    } else {
      r := Failed(SendClosed);
    }
    stream.Close();
  }
}

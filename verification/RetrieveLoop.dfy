/**
 `retrieve` as the page runs it: a loop over rounds and, within a round, one
 worker fetching address after address. Its execution is proved to be one of the
 event-loop runs, so every theorem about those holds of it.
 */
module RetrieveLoop {
  import opened Prelude
  import opened Wire
  import opened FetchClient
  import opened SelfEncryption
  import opened Retrieval
  import opened Driver
  import Pool = WorkerPool

  /** How one `getChunk` call fares: what its stream delivers, cut into pieces. */
  datatype Delivery = NotOpened | Opened(pieces: seq<Bytes>, breaks: bool, sendable: bool)

  /** The proxy and the network: any delivery for the i-th call, whatever was asked. */
  type Network = (nat, Bytes) -> Delivery

  function ReplyTo(delivery: Delivery, addr: Bytes): Reply {
    if |addr| != ADDRESS_LEN then Failed(BadAddress(|addr|))
    else
      match delivery
      case NotOpened => Failed(NoStream)
      case Opened(pieces, breaks, sendable) =>
        if sendable then ReplyOf(Flatten(pieces), breaks) else Failed(SendClosed)
  }

  method Fetch(net: Network, call: nat, addr: Bytes) returns (r: Reply)
    ensures r == ReplyTo(net(call, addr), addr)
  {
    match net(call, addr) {
      case NotOpened =>
        r := GetChunk(addr, null);
      case Opened(pieces, breaks, sendable) =>
        var stream := new ClientStream(pieces, breaks, sendable);
        r := GetChunk(addr, stream);
    }
  }

  // ----- The flat encoding of the required addresses -----

  /** `flat` cut into records of 32 bytes, the last one possibly shorter. */
  function Records(flat: Bytes): seq<Bytes> {
    if flat == [] then []
    else [flat[..Min(ADDRESS_LEN, |flat|)]] + Records(flat[Min(ADDRESS_LEN, |flat|)..])
  }

  /** Splitting undoes the concatenation of any list of addresses, duplicates and order kept. */
  lemma {:induction false} RecordsUndoFlatten(addresses: seq<Address>)
    ensures Records(Flatten(addresses)) == addresses
  {
    if addresses != [] {
      RecordsUndoFlatten(addresses[1..]);
      var flat := Flatten(addresses);
      assert flat[..ADDRESS_LEN] == addresses[0];
      assert flat[ADDRESS_LEN..] == Flatten(addresses[1..]);
    }
  }

  method SplitAddresses(flat: Bytes) returns (out: seq<Bytes>)
    ensures out == Records(flat)
  {
    out := [];
    var offset := 0;
    while offset < |flat|
      invariant 0 <= offset <= |flat|
      invariant out + Records(flat[offset..]) == Records(flat)
      decreases |flat| - offset
    {
      var end := Min(offset + ADDRESS_LEN, |flat|);
      ghost var rest := flat[offset..];
      assert rest[..Min(ADDRESS_LEN, |rest|)] == flat[offset..end];
      assert rest[Min(ADDRESS_LEN, |rest|)..] == flat[end..];
      assert out + Records(rest) == out + [flat[offset..end]] + Records(flat[end..]);
      out := out + [flat[offset..end]];
      offset := end;
    }
  }

  // ----- Following the event-loop machine -----

  /** Every reply in the run is what the network delivered for that call. */
  ghost predicate Obeys(cfg: Config, net: Network, events: seq<Event>)
    requires Run(cfg, events).Some?
  {
    events != [] ==>
      var earlier, last := events[..|events| - 1], events[|events| - 1];
      var d := Run(cfg, earlier).value;
      && Obeys(cfg, net, earlier)
      && (last.MapReply? || last.ChunkReply? ==>
            last.reply == ReplyTo(net(d.calls, Asked(cfg, d, last)), Asked(cfg, d, last)))
  }

  /** `events` is a run against `net` that has reached `d`. */
  ghost predicate Reaches(cfg: Config, net: Network, events: seq<Event>, d: State) {
    Run(cfg, events) == Some(d) && Obeys(cfg, net, events)
  }

  lemma Extend(cfg: Config, net: Network, events: seq<Event>, d: State, e: Event)
    requires Reaches(cfg, net, events, d) && Enabled(d, e)
    requires e.MapReply? || e.ChunkReply? ==> e.reply == ReplyTo(net(d.calls, Asked(cfg, d, e)), Asked(cfg, d, e))
    ensures Reaches(cfg, net, events + [e], Step(cfg, d, e))
  {
    RunSnoc(cfg, events, e);
    assert (events + [e])[..|events|] == events;
  }

  /** The machine is in a round whose single worker is about to fetch item `next`. */
  ghost predicate AtItem(d: State, s: Session, items: seq<Address>, next: nat) {
    && d.main.AwaitRound? && d.main.round < MAX_ROUNDS && d.session == Some(s) && d.items == items && d.failure.None?
    && d.pool.count == |items| && d.pool.next == next + 1
    && d.pool.workers == [if next < |items| then Pool.Busy(next) else Pool.Returned]
  }

  /** The task for one item, then the worker's return to the head of its loop. */
  method FetchOne(cfg: Config, net: Network, retrieval: Retrieval, items: seq<Address>, index: nat,
                  events: seq<Event>, ghost d: State)
    returns (failure: Option<Failure>, events': seq<Event>, ghost d': State)
    requires cfg.lib == retrieval.lib && index < |items|
    requires Reaches(cfg, net, events, d) && AtItem(d, retrieval.View(), items, index)
    requires d.calls == Replies(events)
    modifies retrieval`cache
    ensures Reaches(cfg, net, events', d') && d'.main == d.main && d'.failure == failure
    ensures d'.calls == Replies(events')
    ensures failure.None? ==> AtItem(d', retrieval.View(), items, index + 1)
    ensures failure.Some? ==> d'.session.Some?
  {
    var addr := items[index];
    var reply := Fetch(net, Replies(events), addr);
    var arrival := ChunkReply(0, reply);
    Extend(cfg, net, events, d, arrival);
    RepliesSnoc(events, arrival);
    events', d' := events + [arrival], Step(cfg, d, arrival);
    match reply {
      case Failed(fault) =>
        failure := Some(FetchFailed(fault));
      case Absent =>
        failure := Some(MissingFromNetwork(addr));
      case Chunk(bytes) =>
        var supplied := retrieval.Supply(addr, bytes);
        if supplied.Err? {
          failure := Some(Client(supplied.error));
          return;
        }
        assert d'.pool.workers == [Pool.Between];
        Extend(cfg, net, events', d', WorkerResumes(0));
        RepliesSnoc(events', WorkerResumes(0));
        events', d' := events' + [WorkerResumes(0)], Step(cfg, d', WorkerResumes(0));
        failure := None;
    }
  }

  /**
   `forEachConcurrently` with one worker. Without a failure every item was fetched
   and the worker returned; with one, the machine has recorded the same failure.
   */
  method FetchAll(cfg: Config, net: Network, retrieval: Retrieval, items: seq<Address>,
                  events: seq<Event>, ghost d: State)
    returns (failure: Option<Failure>, events': seq<Event>, ghost d': State)
    requires cfg.lib == retrieval.lib
    requires Reaches(cfg, net, events, d) && AtItem(d, retrieval.View(), items, 0)
    requires d.calls == Replies(events)
    modifies retrieval`cache
    ensures Reaches(cfg, net, events', d') && d'.main == d.main && d'.failure == failure
    ensures d'.calls == Replies(events')
    ensures failure.None? ==> AtItem(d', retrieval.View(), items, |items|)
    ensures failure.Some? ==> d'.session.Some?
  {
    events', d', failure := events, d, None;
    var next: nat := 0;
    while true
      invariant next <= |items| && failure.None?
      invariant Reaches(cfg, net, events', d') && d'.main == d.main
      invariant d'.calls == Replies(events')
      invariant AtItem(d', retrieval.View(), items, next)
      decreases |items| - next
    {
      var index := next;
      if index >= |items| {
        return;
      }
      next := next + 1;
      failure, events', d' := FetchOne(cfg, net, retrieval, items, index, events', d');
      if failure.Some? {
        return;
      }
    }
  }

  /** How many replies a run has seen, which is how many calls were answered. */
  function Replies(events: seq<Event>): nat {
    if events == [] then 0
    else
      var last := events[|events| - 1];
      Replies(events[..|events| - 1]) + if last.MapReply? || last.ChunkReply? then 1 else 0
  }

  lemma RepliesSnoc(events: seq<Event>, e: Event)
    ensures Replies(events + [e]) == Replies(events) + if e.MapReply? || e.ChunkReply? then 1 else 0
  {
    assert (events + [e])[..|events|] == events;
  }

  // ----- The round loop -----

  /** The machine has run from the loop head, with this session and round, to its next await. */
  ghost predicate AtLoopTop(cfg: Config, net: Network, events: seq<Event>, base: State, s: Session, round: nat) {
    && Reaches(cfg, net, events, LoopTop(cfg, base, s, round))
    && base.failure.None? && base.calls == Replies(events)
  }

  /** The same, from the end of a round's fetches. */
  ghost predicate AtRoundEnd(cfg: Config, net: Network, events: seq<Event>, base: State, s: Session, round: nat) {
    && round < MAX_ROUNDS
    && Reaches(cfg, net, events, AfterRound(cfg, base, s, round))
    && base.failure.None? && base.calls == Replies(events)
  }

  /** One round's fetches, if it needs any. */
  method RunRound(cfg: Config, net: Network, retrieval: Retrieval, round: nat, events: seq<Event>, ghost base: State)
    returns (failure: Option<Failure>, events': seq<Event>, ghost base': State)
    requires cfg.lib == retrieval.lib && cfg.limit == DEFAULT_CONCURRENCY && round < MAX_ROUNDS
    requires AtLoopTop(cfg, net, events, base, retrieval.View(), round) && !retrieval.View().IsComplete()
    modifies retrieval`cache
    ensures failure.None? ==> AtRoundEnd(cfg, net, events', base', retrieval.View(), round)
    ensures failure.Some? ==> Run(cfg, events').Some? && Obeys(cfg, net, events') &&
                              Run(cfg, events').value.main == Settled(Threw(failure.value))
  {
    var flat := retrieval.RequiredAddresses();
    var required := SplitAddresses(flat);
    RecordsUndoFlatten(retrieval.View().Required());
    if |required| == 0 {
      return None, events, base;
    }
    ghost var d := LoopTop(cfg, base, retrieval.View(), round);
    assert d.pool.workers == [Pool.Busy(0)];
    failure, events', base' := FetchAll(cfg, net, retrieval, required, events, d);
    Extend(cfg, net, events', base', MainResumes);
    RepliesSnoc(events', MainResumes);
    events' := events' + [MainResumes];
  }

  /** One turn of the round loop: fetch, advance, and the stall check. */
  method OneRound(cfg: Config, net: Network, retrieval: Retrieval, round: nat, events: seq<Event>, ghost base: State)
    returns (failure: Option<Failure>, events': seq<Event>, ghost base': State)
    requires cfg.lib == retrieval.lib && cfg.limit == DEFAULT_CONCURRENCY && round < MAX_ROUNDS
    requires AtLoopTop(cfg, net, events, base, retrieval.View(), round) && !retrieval.View().IsComplete()
    modifies retrieval
    ensures failure.None? ==> AtLoopTop(cfg, net, events', base', retrieval.View(), round + 1)
    ensures failure.Some? ==> Run(cfg, events').Some? && Obeys(cfg, net, events') &&
                              Run(cfg, events').value.main == Settled(Threw(failure.value))
  {
    failure, events', base' := RunRound(cfg, net, retrieval, round, events, base);
    if failure.Some? {
      return;
    }
    var advanced := retrieval.Advance();
    if advanced.Err? {
      failure := Some(Client(advanced.error));
      return;
    }
    var complete := retrieval.IsComplete();
    var required := retrieval.RequiredAddresses();
    FlatEmpty(retrieval.View().Required());
    if !complete && |required| == 0 {
      failure := Some(Stalled);
      return;
    }
    base' := base'.(log := base'.log + [AdvanceCall]);
  }

  /** The round loop and what follows it, up to the end of `retrieve`. */
  method Rounds(cfg: Config, net: Network, retrieval: Retrieval, events: seq<Event>, ghost start: State)
    returns (outcome: Outcome, events': seq<Event>)
    requires cfg.lib == retrieval.lib && cfg.limit == DEFAULT_CONCURRENCY
    requires AtLoopTop(cfg, net, events, start, retrieval.View(), 0)
    modifies retrieval
    ensures Run(cfg, events').Some? && Obeys(cfg, net, events') && Run(cfg, events').value.main == Settled(outcome)
  {
    events' := events;
    ghost var base := start;
    var round: nat := 0;
    while round < MAX_ROUNDS
      invariant round <= MAX_ROUNDS
      invariant AtLoopTop(cfg, net, events', base, retrieval.View(), round)
    {
      var complete := retrieval.IsComplete();
      if complete {
        break;
      }
      var failure;
      failure, events', base := OneRound(cfg, net, retrieval, round, events', base);
      if failure.Some? {
        return Threw(failure.value), events';
      }
      round := round + 1;
    }
    var complete := retrieval.IsComplete();
    if !complete {
      return Threw(TooManyRounds), events';
    }
    var finished := retrieval.Finish();
    match finished {
      case Ok(plaintext) => outcome := Plaintext(plaintext);
      case Err(e) => outcome := Threw(Client(e));
    }
  }

  /** The data map's reply is the first event, and decides whether the loop is entered. */
  lemma FirstReply(cfg: Config, net: Network, reply: Reply)
    requires reply == ReplyTo(net(0, cfg.address), cfg.address)
    ensures Run(cfg, [MapReply(reply)]) == Some(Step(cfg, Init(), MapReply(reply)))
    ensures Obeys(cfg, net, [MapReply(reply)])
    ensures reply.Chunk? && Begin(cfg.lib, cfg.address, reply.bytes).Ok? ==>
              AtLoopTop(cfg, net, [MapReply(reply)], Init().(calls := 1, first := reply.bytes),
                        Begin(cfg.lib, cfg.address, reply.bytes).value, 0)
  {
    Extend(cfg, net, [], Init(), MapReply(reply));
    RepliesSnoc([], MapReply(reply));
    assert [] + [MapReply(reply)] == [MapReply(reply)];
  }

  /**
   Fetch, verify and decrypt the content at an address. The outcome is that of a
   run of the event-loop machine with one worker in which every reply is what
   `net` delivered; `events` is that run.
   */
  method Retrieve(lib: Library, net: Network, address: Bytes) returns (outcome: Outcome, events: seq<Event>)
    ensures var cfg := Config(lib, address, DEFAULT_CONCURRENCY);
            && Run(cfg, events).Some?
            && Run(cfg, events).value.main == Settled(outcome)
            && Obeys(cfg, net, events)
  {
    var cfg := Config(lib, address, DEFAULT_CONCURRENCY);
    var reply := Fetch(net, 0, address);
    events := [MapReply(reply)];
    FirstReply(cfg, net, reply);
    if reply.Failed? {
      return Threw(FetchFailed(reply.fault)), events;
    }
    if reply.Absent? {
      return Threw(NoData), events;
    }
    var begun := Retrieval.Start(lib, address, reply.bytes);
    if begun.Err? {
      return Threw(Client(begun.error)), events;
    }
    ghost var base := Init().(calls := 1, first := reply.bytes);
    outcome, events := Rounds(cfg, net, begun.value, events, base);
  }
}

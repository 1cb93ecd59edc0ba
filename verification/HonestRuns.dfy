/**
 Runs of `retrieve` against an honest store, each reply coming out of a complete
 request over the wire: what they return, exactly.
 */
module HonestRuns {
  import opened Prelude
  import opened Wire
  import opened ProxyProtocol
  import opened SelfEncryption
  import opened Retrieval
  import opened Driver
  import opened DriverProofs
  import opened Fixture
  import opened Blame
  import Handshake
  import RetrieveTheorems

  /** The request for `address` that went through `steps` is over on both sides, with `reply`. */
  ghost predicate EndsWith(store: Chunks, address: Address, steps: seq<Handshake.Event>, reply: Reply) {
    var run := Handshake.Run(Handshake.Setup(a => Find(store, a), address), steps);
    run.Some? && Handshake.Terminal(run.value) && run.value.client.reply == reply
  }

  /** `reply` is how some complete request for `address`, however interleaved and cut up, ended. */
  ghost predicate Served(store: Chunks, address: Bytes, reply: Reply) {
    |address| == ADDRESS_LEN && exists steps :: EndsWith(store, address, steps, reply)
  }

  lemma ServedIsExpected(store: Chunks, address: Bytes, reply: Reply)
    requires Served(store, address, reply)
    ensures reply == Expected(Find(store, address))
  {
    var steps :| EndsWith(store, address, steps, reply);
    Handshake.FinishedMeansExpected(Handshake.Setup(a => Find(store, a), address), steps);
  }

  /** Every request can be served to its end. */
  lemma ServedByStore(store: Chunks, address: Address)
    ensures Served(store, address, Expected(Find(store, address)))
  {
    var cfg := Handshake.Setup(a => Find(store, a), address);
    var steps := Handshake.RunToEnd(cfg, []);
    Handshake.FinishedMeansExpected(cfg, steps);
    assert EndsWith(store, address, steps, Expected(Find(store, address)));
  }

  /** Every reply of the run was served from `store`. */
  ghost predicate Honest(cfg: Config, store: Chunks, events: seq<Event>)
    requires Run(cfg, events).Some?
  {
    events != [] ==>
      var earlier, last := events[..|events| - 1], events[|events| - 1];
      && Honest(cfg, store, earlier)
      && (last.MapReply? || last.ChunkReply? ==>
            Served(store, Asked(cfg, Run(cfg, earlier).value, last), last.reply))
  }

  // ----- What such a run can see -----

  /** The chunks of `store` that `infos` lists. */
  ghost function Listed(store: Chunks, infos: seq<ChunkInfo>): Chunks {
    map a | a in store && (exists i :: 0 <= i < |infos| && infos[i].dstHash == a) :: store[a]
  }

  /** The root map that `advance` can reach: wrapper levels are followed only through `first`'s own chunks. */
  ghost function ReachableRoot(lib: Library, store: Chunks, first: DataMap): Option<DataMap> {
    RootMap(lib, first, Listed(store, first.infos), lib.maxLevels)
  }

  ghost predicate Fits(store: Chunks, infos: seq<ChunkInfo>) {
    Covers(store, infos) && forall i :: 0 <= i < |infos| ==> |store[infos[i].dstHash]| <= MAX_RESPONSE_LEN
  }

  /** `store` holds, small enough to send, everything a retrieval of `address` will ask for. */
  ghost predicate Complete(lib: Library, store: Chunks, address: Bytes, first: DataMap) {
    && |address| == ADDRESS_LEN
    && ContentAddressed(lib, store)
    && address in store && |store[address]| <= MAX_RESPONSE_LEN
    && lib.decodeMap(store[address]) == Some(first)
    && Fits(store, first.infos)
    && (ReachableRoot(lib, store, first).Some? ==> Fits(store, ReachableRoot(lib, store, first).value.infos))
  }

  /** The one outcome of a retrieval from such a store. */
  ghost function HonestOutcome(lib: Library, store: Chunks, first: DataMap): Outcome {
    match ReachableRoot(lib, store, first)
    case None => Threw(Client(RootUnresolved))
    case Some(root) =>
      match Collect(root.infos, store)
      case Err(address) => Threw(Client(MissingChunk(address)))
      case Ok(chunks) =>
        match lib.decrypt(root, chunks)
        case None => Threw(Client(DecryptFailed))
        case Some(plaintext) => Plaintext(plaintext)
  }

  /** The data map stored at `address` is `first`; nothing is said about what it lists. */
  ghost predicate Starts(lib: Library, store: Chunks, address: Bytes, first: DataMap) {
    && |address| == ADDRESS_LEN
    && ContentAddressed(lib, store)
    && address in store && |store[address]| <= MAX_RESPONSE_LEN
    && lib.decodeMap(store[address]) == Some(first)
  }

  ghost predicate Lists(dataMap: DataMap, a: Bytes) {
    exists i :: 0 <= i < |dataMap.infos| && dataMap.infos[i].dstHash == a
  }

  /** What a retrieval asks for after the first map: what that lists, then what the root lists. */
  ghost predicate Wants(lib: Library, store: Chunks, first: DataMap, a: Bytes) {
    || Lists(first, a)
    || (ReachableRoot(lib, store, first).Some? && Lists(ReachableRoot(lib, store, first).value, a))
  }

  ghost predicate Servable(store: Chunks, a: Bytes) {
    a in store && |store[a]| <= MAX_RESPONSE_LEN
  }

  /** Where an honest session stands: at `first`, or at the root it leads to. */
  ghost predicate OnTrack(lib: Library, store: Chunks, first: DataMap, s: Session) {
    && Within(s.cache, store)
    && (forall a :: a in s.cache ==> Servable(store, a))
    && if s.rootResolved
       then ReachableRoot(lib, store, first) == Some(s.dataMap) && (first.IsChild() ==> Covers(s.cache, first.infos))
       else s.dataMap == first && first.IsChild() && Within(s.cache, Listed(store, first.infos))
  }

  ghost predicate HonestState(cfg: Config, store: Chunks, first: DataMap, d: State) {
    && (d.session.Some? ==> OnTrack(cfg.lib, store, first, d.session.value))
    && (d.main.AwaitRound? ==>
          d.session.Some? && forall i :: 0 <= i < |d.items| ==> Lists(d.session.value.dataMap, d.items[i]))
  }

  /** Holding all of the first map's chunks, `advance` finds just what is reachable. */
  lemma AdvanceFindsReachable(lib: Library, store: Chunks, first: DataMap, s: Session)
    requires OnTrack(lib, store, first, s) && !s.rootResolved && Covers(s.cache, s.dataMap.infos)
    ensures RootMap(lib, s.dataMap, s.cache, lib.maxLevels) == ReachableRoot(lib, store, first)
  {
    var listed := Listed(store, first.infos);
    assert s.cache == listed by {
      forall a | a in listed ensures a in s.cache {
        var i :| 0 <= i < |first.infos| && first.infos[i].dstHash == a;
      }
    }
  }

  lemma AdvanceKeepsTrack(lib: Library, store: Chunks, first: DataMap, s: Session)
    requires OnTrack(lib, store, first, s) && s.Advance(lib).Ok?
    ensures OnTrack(lib, store, first, s.Advance(lib).value)
  {
    CountingLaw(s.dataMap.infos, s.cache);
    if !s.rootResolved && s.Required() == [] {
      AdvanceFindsReachable(lib, store, first, s);
    }
  }

  lemma {:induction false} LoopTopHonest(cfg: Config, store: Chunks, first: DataMap, d: State, s: Session, round: nat)
    requires OnTrack(cfg.lib, store, first, s)
    ensures HonestState(cfg, store, first, LoopTop(cfg, d, s, round))
    decreases MAX_ROUNDS - round, 1
  {
    CountingLaw(s.dataMap.infos, s.cache);
    if round < MAX_ROUNDS && !s.IsComplete() {
      if s.Required() == [] {
        AfterRoundHonest(cfg, store, first, d, s, round);
      } else {
        forall i | 0 <= i < |s.Required()| ensures Lists(s.dataMap, s.Required()[i]) {
          assert s.Required()[i] in Missing(s.dataMap.infos, s.cache);
        }
      }
    }
  }

  lemma {:induction false} AfterRoundHonest(cfg: Config, store: Chunks, first: DataMap, d: State, s: Session,
                                            round: nat)
    requires OnTrack(cfg.lib, store, first, s) && round < MAX_ROUNDS
    ensures HonestState(cfg, store, first, AfterRound(cfg, d, s, round))
    decreases MAX_ROUNDS - round, 0
  {
    var advanced := s.Advance(cfg.lib);
    if advanced.Ok? {
      AdvanceKeepsTrack(cfg.lib, store, first, s);
      LoopTopHonest(cfg, store, first, d.(log := d.log + [AdvanceCall]), advanced.value, round + 1);
    }
  }

  lemma MapReplyHonest(cfg: Config, store: Chunks, first: DataMap, d: State, reply: Reply)
    requires Starts(cfg.lib, store, cfg.address, first)
    requires Good(cfg, d) && d.main.AwaitMap? && reply == Chunk(store[cfg.address])
    ensures HonestState(cfg, store, first, Step(cfg, d, MapReply(reply)))
  {
    var s := Session(first, !first.IsChild(), map[]);
    assert Begin(cfg.lib, cfg.address, reply.bytes) == Ok(s);
    LoopTopHonest(cfg, store, first, d.(calls := d.calls + 1, first := reply.bytes), s, 0);
  }

  lemma SupplyKeepsTrack(lib: Library, store: Chunks, first: DataMap, s: Session, address: Address)
    requires OnTrack(lib, store, first, s) && ContentAddressed(lib, store)
    requires Servable(store, address) && Lists(s.dataMap, address)
    ensures s.Supply(lib, address, store[address]).Ok?
    ensures OnTrack(lib, store, first, s.Supply(lib, address, store[address]).value)
  {
    assert s.Supply(lib, address, store[address]).value.cache == s.cache[address := store[address]];
  }

  lemma ChunkReplyHonest(cfg: Config, store: Chunks, first: DataMap, d: State, k: nat, reply: Reply)
    requires ContentAddressed(cfg.lib, store)
    requires Good(cfg, d) && HonestState(cfg, store, first, d) && Enabled(d, ChunkReply(k, reply))
    requires reply == Expected(Find(store, d.items[d.pool.workers[k].index]))
    ensures HonestState(cfg, store, first, Step(cfg, d, ChunkReply(k, reply)))
  {
    if reply.Chunk? && d.main.AwaitRound? {
      SupplyKeepsTrack(cfg.lib, store, first, d.session.value, d.items[d.pool.workers[k].index]);
    }
  }

  lemma StepHonest(cfg: Config, store: Chunks, first: DataMap, d: State, e: Event)
    requires Starts(cfg.lib, store, cfg.address, first)
    requires Good(cfg, d) && HonestState(cfg, store, first, d) && Enabled(d, e)
    requires (e.MapReply? || e.ChunkReply?) ==> Served(store, Asked(cfg, d, e), e.reply)
    ensures HonestState(cfg, store, first, Step(cfg, d, e))
  {
    match e {
      case MapReply(reply) =>
        ServedIsExpected(store, cfg.address, reply);
        MapReplyHonest(cfg, store, first, d, reply);
      case ChunkReply(k, reply) =>
        ServedIsExpected(store, Asked(cfg, d, e), reply);
        ChunkReplyHonest(cfg, store, first, d, k, reply);
      case WorkerResumes(_) =>
      case MainResumes =>
        if d.failure.None? {
          AfterRoundHonest(cfg, store, first, d, d.session.value, d.main.round);
        }
    }
  }

  lemma {:induction false} HonestInvariant(cfg: Config, store: Chunks, first: DataMap, events: seq<Event>)
    requires Starts(cfg.lib, store, cfg.address, first) && cfg.limit >= 1
    requires Run(cfg, events).Some? && Honest(cfg, store, events)
    ensures HonestState(cfg, store, first, Run(cfg, events).value)
  {
    if events != [] {
      var earlier := events[..|events| - 1];
      HonestInvariant(cfg, store, first, earlier);
      RunIsGood(cfg, earlier);
      StepHonest(cfg, store, first, Run(cfg, earlier).value, events[|events| - 1]);
    }
  }

  // ----- What an honest run returns -----

  lemma {:induction false} HonestPrefix(cfg: Config, store: Chunks, events: seq<Event>, i: nat)
    requires Run(cfg, events).Some? && Honest(cfg, store, events) && i < |events|
    ensures Run(cfg, events[..i]).Some? && Honest(cfg, store, events[..i])
    ensures Enabled(Run(cfg, events[..i]).value, events[i])
    ensures events[i].MapReply? || events[i].ChunkReply? ==>
              Served(store, Asked(cfg, Run(cfg, events[..i]).value, events[i]), events[i].reply)
  {
    var earlier := events[..|events| - 1];
    if i < |earlier| {
      HonestPrefix(cfg, store, earlier, i);
      assert earlier[..i] == events[..i];
    }
  }

  /** Until something fails, what an honest run asks for is wanted. */
  lemma AskedIsWanted(cfg: Config, store: Chunks, first: DataMap, d: State, e: Event)
    requires Good(cfg, d) && HonestState(cfg, store, first, d) && d.failure.None?
    requires e.ChunkReply? && Enabled(d, e)
    ensures Wants(cfg.lib, store, first, Asked(cfg, d, e))
  {
    assert !d.pool.AllReturned();
    assert d.main.AwaitRound?;
  }

  /** The first reply to fail in an honest run is for something wanted that the store cannot serve. */
  lemma FailureIsUnservable(cfg: Config, store: Chunks, first: DataMap, events: seq<Event>, i: int)
    requires Starts(cfg.lib, store, cfg.address, first) && cfg.limit >= 1
    requires Run(cfg, events).Some? && Honest(cfg, store, events) && FailsFirst(cfg, events, i)
    ensures var a := AskedAt(cfg, events, i);
            && Wants(cfg.lib, store, first, a) && !Servable(store, a)
            && events[i].reply == if a in store then Failed(Reset) else Absent
  {
    HonestPrefix(cfg, store, events, i);
    FailingReply(cfg, store, events, i);
    BeforeFailing(cfg, store, first, events, i);
    AskedIsWanted(cfg, store, first, Run(cfg, events[..i]).value, events[i]);
  }

  lemma BeforeFailing(cfg: Config, store: Chunks, first: DataMap, events: seq<Event>, i: int)
    requires Starts(cfg.lib, store, cfg.address, first) && cfg.limit >= 1 && FailsFirst(cfg, events, i)
    requires Run(cfg, events[..i]).Some? && Honest(cfg, store, events[..i])
    ensures var d := Run(cfg, events[..i]).value;
            Good(cfg, d) && HonestState(cfg, store, first, d) && d.failure.None?
  {
    HonestInvariant(cfg, store, first, events[..i]);
    RunIsGood(cfg, events[..i]);
    NothingFailedBefore(cfg, events, i);
    FailureIsFirst(cfg, events[..i]);
  }

  lemma FailingReply(cfg: Config, store: Chunks, events: seq<Event>, i: int)
    requires ContentAddressed(cfg.lib, store) && Fails(cfg, events, i)
    requires Served(store, AskedAt(cfg, events, i), events[i].reply)
    ensures !Servable(store, AskedAt(cfg, events, i))
    ensures events[i].reply == if AskedAt(cfg, events, i) in store then Failed(Reset) else Absent
  {
    ServedIsExpected(store, AskedAt(cfg, events, i), events[i].reply);
  }

  lemma NothingFailedBefore(cfg: Config, events: seq<Event>, i: int)
    requires FailsFirst(cfg, events, i)
    ensures forall j :: !Fails(cfg, events[..i], j)
  {
    forall j ensures !Fails(cfg, events[..i], j) {
      if 0 <= j < i {
        FailsPrefix(cfg, events[..i], events[i..], j);
        assert events == events[..i] + events[i..];
      }
    }
  }

  /** A clean honest run comes to the one outcome, and everything it wanted was served. */
  lemma ConcludedHonestly(lib: Library, store: Chunks, first: DataMap, s: Session, outcome: Outcome)
    requires OnTrack(lib, store, first, s) && Concluded(lib, s, outcome)
    ensures outcome == HonestOutcome(lib, store, first)
    ensures forall a :: Wants(lib, store, first, a) ==> Servable(store, a)
  {
    if s.rootResolved {
      var root := s.dataMap;
      var chunks :| Gathered(s, chunks) &&
                    lib.decrypt(root, chunks) == if outcome.Plaintext? then Some(outcome.bytes) else None;
      CollectInOrder(root.infos, store);
      assert Covers(store, root.infos);
      assert Collect(root.infos, store).value == chunks;
    } else {
      AdvanceFindsReachable(lib, store, first, s);
      if ReachableRoot(lib, store, first).Some? {
        RootIffChain(lib, s.dataMap, s.cache, lib.maxLevels, ReachableRoot(lib, store, first).value);
      }
    }
  }

  /** The map's reply in an honest run is the map. */
  lemma HonestMapFits(cfg: Config, store: Chunks, first: DataMap, events: seq<Event>)
    requires Starts(cfg.lib, store, cfg.address, first)
    requires Run(cfg, events).Some? && Honest(cfg, store, events) && events != []
    ensures events[0].MapReply? && MapFits(cfg, events[0].reply)
  {
    HonestPrefix(cfg, store, events, 0);
    ServedIsExpected(store, cfg.address, events[0].reply);
  }

  /** An honest run in which nothing failed settles with the one outcome. */
  lemma CleanHonestRun(cfg: Config, store: Chunks, first: DataMap, events: seq<Event>)
    requires Starts(cfg.lib, store, cfg.address, first) && cfg.limit >= 1
    requires Run(cfg, events).Some? && Honest(cfg, store, events)
    requires Run(cfg, events).value.main.Settled? && Run(cfg, events).value.failure.None?
    ensures Run(cfg, events).value.main.outcome == HonestOutcome(cfg.lib, store, first)
    ensures forall a :: Wants(cfg.lib, store, first, a) ==> Servable(store, a)
  {
    var d := Run(cfg, events).value;
    HonestInvariant(cfg, store, first, events);
    HonestMapFits(cfg, store, first, events);
    MapDecidesRun(cfg, events);
    RunEnds(cfg, events);
    ConcludedHonestly(cfg.lib, store, first, d.session.value, d.main.outcome);
  }

  /**
   Against a store that holds everything asked of it, every run at any limit that
   settles has the same outcome, and no fetch in it ever fails.
   */
  lemma HonestRunsAgree(cfg: Config, store: Chunks, first: DataMap, events: seq<Event>)
    requires Complete(cfg.lib, store, cfg.address, first) && cfg.limit >= 1
    requires Run(cfg, events).Some? && Honest(cfg, store, events)
    ensures var d := Run(cfg, events).value;
            d.failure.None? && (d.main.Settled? ==> d.main.outcome == HonestOutcome(cfg.lib, store, first))
  {
    FailureIsFirst(cfg, events);
    if Run(cfg, events).value.failure.Some? {
      var i :| FailsFirst(cfg, events, i);
      FailureIsUnservable(cfg, store, first, events, i);
    } else if Run(cfg, events).value.main.Settled? {
      CleanHonestRun(cfg, store, first, events);
    }
  }

  /**
   Against any honest store, complete or not: a settled run has the one outcome
   exactly when the store can serve everything wanted. If it cannot, the run has
   thrown for something wanted that the store lacks, naming it, or, when a stored
   chunk is too long to send, for that chunk's broken stream.
   */
  lemma MissingChunkIsReported(cfg: Config, store: Chunks, first: DataMap, events: seq<Event>)
    requires Starts(cfg.lib, store, cfg.address, first) && cfg.limit >= 1
    requires Run(cfg, events).Some? && Honest(cfg, store, events) && Run(cfg, events).value.main.Settled?
    ensures Run(cfg, events).value.main.outcome == HonestOutcome(cfg.lib, store, first) <==>
            forall a :: Wants(cfg.lib, store, first, a) ==> Servable(store, a)
    ensures (exists a :: Wants(cfg.lib, store, first, a) && !Servable(store, a)) ==>
              exists a :: Wants(cfg.lib, store, first, a) && !Servable(store, a) &&
                          ThrewFor(Run(cfg, events).value.main.outcome, store, a)
  {
    var d := Run(cfg, events).value;
    FailureIsFirst(cfg, events);
    if d.failure.None? {
      CleanHonestRun(cfg, store, first, events);
    } else {
      var i :| FailsFirst(cfg, events, i) && Blamed(d.failure.value, AskedAt(cfg, events, i), events[i].reply);
      FailureIsUnservable(cfg, store, first, events, i);
      HonestMapFits(cfg, store, first, events);
      MapDecidesRun(cfg, events);
      RunEnds(cfg, events);
      assert ThrewFor(d.main.outcome, store, AskedAt(cfg, events, i));
    }
  }

  /** The error for an address that cannot be served. */
  ghost predicate ThrewFor(outcome: Outcome, store: Chunks, a: Bytes) {
    |a| == ADDRESS_LEN && outcome == Threw(if a in store then FetchFailed(Reset) else MissingFromNetwork(a))
  }

  /** An address the store lacks: every honest run, at any limit, settles with the no-data error. */
  lemma AbsentAddressIsNoData(cfg: Config, store: Chunks, events: seq<Event>)
    requires |cfg.address| == ADDRESS_LEN && cfg.address !in store && cfg.limit >= 1
    requires Run(cfg, events).Some? && Honest(cfg, store, events) && events != []
    ensures Run(cfg, events).value.main == Settled(Threw(NoData))
  {
    HonestPrefix(cfg, store, events, 0);
    ServedIsExpected(store, cfg.address, events[0].reply);
    MapDecidesRun(cfg, events);
  }

  lemma HonestSnoc(cfg: Config, store: Chunks, events: seq<Event>, e: Event)
    requires Run(cfg, events).Some? && Honest(cfg, store, events) && Enabled(Run(cfg, events).value, e)
    requires (e.MapReply? || e.ChunkReply?) ==> Served(store, Asked(cfg, Run(cfg, events).value, e), e.reply)
    ensures Run(cfg, events + [e]) == Some(Step(cfg, Run(cfg, events).value, e)) && Honest(cfg, store, events + [e])
  {
    RunSnoc(cfg, events, e);
    assert (events + [e])[..|events|] == events;
  }

  /** Against any store, an honest run can be carried on, by honest replies, until it settles. */
  lemma {:induction false} HonestRunGoesOn(cfg: Config, store: Chunks, events: seq<Event>) returns (all: seq<Event>)
    requires |cfg.address| == ADDRESS_LEN && cfg.limit >= 1
    requires Run(cfg, events).Some? && Honest(cfg, store, events)
    ensures Run(cfg, all).Some? && Honest(cfg, store, all) && Run(cfg, all).value.main.Settled?
    ensures events <= all
    decreases RetrieveTheorems.Phases(Run(cfg, events).value), RetrieveTheorems.WorkLeft(Run(cfg, events).value)
  {
    var d := Run(cfg, events).value;
    if d.main.Settled? {
      return events;
    }
    var e := RetrieveTheorems.NeverStuck(cfg, events, Absent);
    if e.MapReply? || e.ChunkReply? {
      var asked := Asked(cfg, d, e);
      ServedByStore(store, asked);
      e := e.(reply := Expected(Find(store, asked)));
    }
    HonestSnoc(cfg, store, events, e);
    RetrieveTheorems.EveryStepCounts(cfg, events, e);
    all := HonestRunGoesOn(cfg, store, events + [e]);
  }

  /** Any honest run against a complete store can be carried on to the one outcome. */
  lemma HonestRunSettles(cfg: Config, store: Chunks, first: DataMap, events: seq<Event>) returns (all: seq<Event>)
    requires Complete(cfg.lib, store, cfg.address, first) && cfg.limit >= 1
    requires Run(cfg, events).Some? && Honest(cfg, store, events)
    ensures Run(cfg, all).Some? && Honest(cfg, store, all) && events <= all
    ensures Run(cfg, all).value.main == Settled(HonestOutcome(cfg.lib, store, first))
  {
    all := HonestRunGoesOn(cfg, store, events);
    HonestRunsAgree(cfg, store, first, all);
  }

  /**
   An honest retrieval returns what its address denotes in the store exactly when
   the first map's own chunks are enough to reach a root map.
   */
  lemma ReturnsDenotationIffRootReachable(lib: Library, store: Chunks, address: Bytes, first: DataMap, plaintext: Bytes)
    requires Complete(lib, store, address, first)
    ensures HonestOutcome(lib, store, first) == Plaintext(plaintext) <==>
            Denote(lib, store, address) == Some(plaintext) && ReachableRoot(lib, store, first).Some?
  {
    var listed := Listed(store, first.infos);
    if ReachableRoot(lib, store, first).Some? {
      RootMonotone(lib, first, listed, store, lib.maxLevels);
      CollectInOrder(ReachableRoot(lib, store, first).value.infos, store);
    }
  }

  /** The first map's wrapper chunks, read from the store. */
  lemma ListedCollects(store: Chunks, infos: seq<ChunkInfo>)
    requires Covers(store, infos)
    ensures Collect(infos, Listed(store, infos)) == Collect(infos, store)
    ensures Collect(infos, store).Ok?
  {
    var listed := Listed(store, infos);
    CollectInOrder(infos, store);
    assert Covers(listed, infos);
    CollectInOrder(infos, listed);
    CollectMonotone(infos, listed, store);
  }

  ghost predicate ListsOnly(first: DataMap, dataMap: DataMap) {
    forall j :: 0 <= j < |dataMap.infos| ==>
      exists i :: 0 <= i < |first.infos| && first.infos[i].dstHash == dataMap.infos[j].dstHash
  }

  /**
   Each child map met on the way to the root, reading wrapper chunks out of the
   whole store, lists only addresses that the first map lists as well.
   */
  ghost predicate SelfContained(lib: Library, store: Chunks, first: DataMap, dataMap: DataMap, levels: nat)
    decreases levels
  {
    dataMap.IsChild() && levels > 0 ==>
      && ListsOnly(first, dataMap)
      && match Collect(dataMap.infos, store)
         case Err(_) => true
         case Ok(wrappers) =>
           match lib.unwrap(dataMap, wrappers)
           case None => true
           case Some(inner) => SelfContained(lib, store, first, inner, levels - 1)
  }

  /** The first map's chunks hold what `infos` asks of the store exactly when `first` lists it all. */
  lemma ListedSuffices(store: Chunks, first: DataMap, dataMap: DataMap)
    requires Collect(dataMap.infos, store).Ok?
    ensures ListsOnly(first, dataMap) ==>
              Collect(dataMap.infos, Listed(store, first.infos)) == Collect(dataMap.infos, store)
    ensures !ListsOnly(first, dataMap) ==> Collect(dataMap.infos, Listed(store, first.infos)).Err?
  {
    var listed := Listed(store, first.infos);
    CollectInOrder(dataMap.infos, store);
    CollectInOrder(dataMap.infos, listed);
    if Covers(listed, dataMap.infos) {
      CollectMonotone(dataMap.infos, listed, store);
      forall j | 0 <= j < |dataMap.infos|
        ensures exists i :: 0 <= i < |first.infos| && first.infos[i].dstHash == dataMap.infos[j].dstHash
      {
        assert dataMap.infos[j].dstHash in listed;
      }
    }
  }

  /** With only the first map's chunks, resolution goes as far as the maps stay self-contained. */
  lemma {:induction false} RootsAgreeWhileSelfContained(lib: Library, store: Chunks, first: DataMap,
                                                        dataMap: DataMap, levels: nat)
    ensures RootMap(lib, dataMap, Listed(store, first.infos), levels) ==
            if SelfContained(lib, store, first, dataMap, levels) then RootMap(lib, dataMap, store, levels) else None
    decreases levels
  {
    if dataMap.IsChild() && levels > 0 {
      var listed, wrappers := Listed(store, first.infos), Collect(dataMap.infos, store);
      CollectInOrder(dataMap.infos, store);
      CollectInOrder(dataMap.infos, listed);
      if wrappers.Err? {
        assert !Covers(listed, dataMap.infos);
      } else {
        ListedSuffices(store, first, dataMap);
        var inner := lib.unwrap(dataMap, wrappers.value);
        if inner.Some? {
          RootsAgreeWhileSelfContained(lib, store, first, inner.value, levels - 1);
        }
      }
    }
  }

  /**
   A settled honest run, at any limit, has returned what its address denotes
   exactly when the maps on the way to the root are self-contained; when the
   address denotes something and they are not, the run has thrown.
   */
  lemma ReturnsDenotationIffSelfContained(cfg: Config, store: Chunks, first: DataMap, events: seq<Event>,
                                          plaintext: Bytes)
    requires Complete(cfg.lib, store, cfg.address, first) && cfg.limit >= 1
    requires Run(cfg, events).Some? && Honest(cfg, store, events) && Run(cfg, events).value.main.Settled?
    ensures Run(cfg, events).value.main == Settled(Plaintext(plaintext)) <==>
            Denote(cfg.lib, store, cfg.address) == Some(plaintext) &&
            SelfContained(cfg.lib, store, first, first, cfg.lib.maxLevels)
    ensures Denote(cfg.lib, store, cfg.address).Some? &&
            !SelfContained(cfg.lib, store, first, first, cfg.lib.maxLevels) ==>
              Run(cfg, events).value.main == Settled(Threw(Client(RootUnresolved)))
  {
    HonestRunsAgree(cfg, store, first, events);
    ReturnsDenotationIffRootReachable(cfg.lib, store, cfg.address, first, plaintext);
    RootsAgreeWhileSelfContained(cfg.lib, store, first, first, cfg.lib.maxLevels);
  }

  /**
   A settled honest run has thrown the unresolved-root error exactly when a child
   map on the way, at any depth, lists an address the first map does not, or the
   store itself leads to no root.
   */
  lemma DeeperNestingIsUnresolved(cfg: Config, store: Chunks, first: DataMap, events: seq<Event>)
    requires Complete(cfg.lib, store, cfg.address, first) && cfg.limit >= 1
    requires Run(cfg, events).Some? && Honest(cfg, store, events) && Run(cfg, events).value.main.Settled?
    ensures Run(cfg, events).value.main == Settled(Threw(Client(RootUnresolved))) <==>
            !SelfContained(cfg.lib, store, first, first, cfg.lib.maxLevels) ||
            RootMap(cfg.lib, first, store, cfg.lib.maxLevels).None?
  {
    HonestRunsAgree(cfg, store, first, events);
    RootsAgreeWhileSelfContained(cfg.lib, store, first, first, cfg.lib.maxLevels);
  }
}

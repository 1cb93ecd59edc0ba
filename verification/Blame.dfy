/**
 What a run of `retrieve` settles with, told from the replies it got and the
 addresses it asked for: which reply is to blame for which error, for every proxy,
 every interleaving and every limit.
 */
module Blame {
  import opened Prelude
  import opened Wire
  import opened SelfEncryption
  import opened Retrieval
  import opened Driver
  import opened DriverProofs
  import opened RetrieveTheorems
  import Pool = WorkerPool

  /** The bytes are a data map and belong at the address. */
  ghost predicate MapFits(cfg: Config, reply: Reply) {
    reply.Chunk? && |cfg.address| == 32 && cfg.lib.hash(reply.bytes) == cfg.address &&
    cfg.lib.decodeMap(reply.bytes).Some?
  }

  /** The `i`-th event brings the reply for a chunk. */
  ghost predicate Answers(cfg: Config, events: seq<Event>, i: int) {
    && 0 <= i < |events| && events[i].ChunkReply?
    && Run(cfg, events[..i]).Some? && Enabled(Run(cfg, events[..i]).value, events[i])
  }

  /** The address that chunk was asked for under. */
  ghost function AskedAt(cfg: Config, events: seq<Event>, i: int): Bytes
    requires Answers(cfg, events, i)
  {
    Asked(cfg, Run(cfg, events[..i]).value, events[i])
  }

  /** The `i`-th event brings no chunk for the address asked: an error, null, or bytes that hash to another. */
  ghost predicate Fails(cfg: Config, events: seq<Event>, i: int) {
    && Answers(cfg, events, i)
    && (events[i].reply.Chunk? ==> cfg.lib.hash(events[i].reply.bytes) != AskedAt(cfg, events, i))
  }

  ghost predicate FailsFirst(cfg: Config, events: seq<Event>, i: int) {
    Fails(cfg, events, i) && forall j :: 0 <= j < i ==> !Fails(cfg, events, j)
  }

  /** `failure` is what such a reply amounts to. */
  ghost predicate Blamed(failure: Failure, asked: Bytes, reply: Reply) {
    match reply
    case Failed(fault) => failure == FetchFailed(fault)
    case Absent => failure.MissingFromNetwork? && failure.address == asked
    case Chunk(_) => failure.Client? && failure.error.ChunkRejected? && failure.error.address == asked
  }

  // ----- The first reply -----

  ghost predicate MapBlamed(cfg: Config, failure: Failure, reply: Reply) {
    match reply
    case Failed(fault) => failure == FetchFailed(fault)
    case Absent => failure == NoData
    case Chunk(bytes) =>
      failure == Client(if |cfg.address| != 32 then AddressLength(|cfg.address|)
                        else if cfg.lib.hash(bytes) != cfg.address then MapRejected
                        else NotADataMap)
  }

  ghost predicate MapDecides(cfg: Config, events: seq<Event>, d: State) {
    if events == [] then d == Init()
    else
      && events[0].MapReply?
      && if MapFits(cfg, events[0].reply) then d.session.Some? && !d.main.AwaitMap?
         else |events| == 1 && d.session.None? && d.pool.workers == [] &&
              d.main.Settled? && d.main.outcome.Threw? && MapBlamed(cfg, d.main.outcome.failure, events[0].reply)
  }

  /** The main task keeps the failure and leaves a session behind, having settled or begun a round. */
  lemma {:induction false} LoopTopLeaves(cfg: Config, d: State, s: Session, round: nat)
    ensures var next := LoopTop(cfg, d, s, round);
            next.failure == d.failure && next.session.Some? && !next.main.AwaitMap?
    decreases MAX_ROUNDS - round, 1
  {
    if round < MAX_ROUNDS && !s.IsComplete() && s.Required() == [] {
      AfterRoundLeaves(cfg, d, s, round);
    }
  }

  lemma {:induction false} AfterRoundLeaves(cfg: Config, d: State, s: Session, round: nat)
    requires round < MAX_ROUNDS
    ensures var next := AfterRound(cfg, d, s, round);
            next.failure == d.failure && next.session.Some? && !next.main.AwaitMap?
    decreases MAX_ROUNDS - round, 0
  {
    var advanced := s.Advance(cfg.lib);
    if advanced.Ok? {
      LoopTopLeaves(cfg, d.(log := d.log + [AdvanceCall]), advanced.value, round + 1);
    }
  }

  lemma FirstMapDecides(cfg: Config, reply: Reply)
    ensures MapDecides(cfg, [MapReply(reply)], Step(cfg, Init(), MapReply(reply)))
  {
    if MapFits(cfg, reply) {
      LoopTopLeaves(cfg, Init().(calls := 1, first := reply.bytes), Begin(cfg.lib, cfg.address, reply.bytes).value, 0);
    }
  }

  lemma StepKeepsSession(cfg: Config, d: State, e: Event)
    requires Enabled(d, e) && d.session.Some? && !d.main.AwaitMap?
    ensures Step(cfg, d, e).session.Some? && !Step(cfg, d, e).main.AwaitMap?
  {
    if e.MainResumes? && d.failure.None? {
      AfterRoundLeaves(cfg, d, d.session.value, d.main.round);
    }
  }

  lemma {:induction false} MapDecidesRun(cfg: Config, events: seq<Event>)
    requires Run(cfg, events).Some?
    ensures MapDecides(cfg, events, Run(cfg, events).value)
  {
    if events != [] {
      var earlier, last := events[..|events| - 1], events[|events| - 1];
      var d := Run(cfg, earlier).value;
      MapDecidesRun(cfg, earlier);
      if earlier == [] {
        assert events == [last];
        assert last.MapReply?;
        FirstMapDecides(cfg, last.reply);
      } else {
        StepKeepsSession(cfg, d, last);
      }
    }
  }

  // ----- The first failing chunk -----

  /** A failure has been recorded exactly when some reply failed, and it is the first such reply's. */
  ghost predicate FailureExplained(cfg: Config, events: seq<Event>, failure: Option<Failure>) {
    && (failure.None? <==> forall i :: !Fails(cfg, events, i))
    && (failure.Some? ==> exists i :: FailsFirst(cfg, events, i) &&
                                      Blamed(failure.value, AskedAt(cfg, events, i), events[i].reply))
  }

  lemma FailsPrefix(cfg: Config, events: seq<Event>, more: seq<Event>, i: int)
    requires i < |events|
    ensures Answers(cfg, events + more, i) == Answers(cfg, events, i)
    ensures Answers(cfg, events, i) ==> AskedAt(cfg, events + more, i) == AskedAt(cfg, events, i)
    ensures Fails(cfg, events + more, i) == Fails(cfg, events, i)
  {
    if 0 <= i {
      assert (events + more)[..i] == events[..i];
    }
  }

  /** How an event after `events`, in state `d`, changes the failure. */
  lemma StepFailure(cfg: Config, d: State, e: Event)
    requires Good(cfg, d) && Enabled(d, e)
    ensures var next := Step(cfg, d, e);
            if e.ChunkReply? && (e.reply.Chunk? ==> cfg.lib.hash(e.reply.bytes) != Asked(cfg, d, e)) then
              next.failure.Some? && if d.failure.Some? then next.failure == d.failure
                                    else Blamed(next.failure.value, Asked(cfg, d, e), e.reply)
            else next.failure == d.failure
  {
    match e {
      case MapReply(reply) =>
        if reply.Chunk? && Begin(cfg.lib, cfg.address, reply.bytes).Ok? {
          LoopTopLeaves(cfg, d.(calls := d.calls + 1, first := reply.bytes),
                        Begin(cfg.lib, cfg.address, reply.bytes).value, 0);
        }
      case ChunkReply(k, reply) =>
        if d.main.Settled? {
          assert !d.pool.AllReturned();
        }
      case WorkerResumes(_) =>
      case MainResumes =>
        if d.failure.None? {
          AfterRoundLeaves(cfg, d, d.session.value, d.main.round);
        }
    }
  }

  lemma ExplainedSnoc(cfg: Config, events: seq<Event>, e: Event, before: Option<Failure>, after: Option<Failure>)
    requires Run(cfg, events).Some? && Enabled(Run(cfg, events).value, e)
    requires FailureExplained(cfg, events, before)
    requires if Fails(cfg, events + [e], |events|) then
               after.Some? && if before.Some? then after == before
                              else Blamed(after.value, AskedAt(cfg, events + [e], |events|), e.reply)
             else after == before
    ensures FailureExplained(cfg, events + [e], after)
  {
    var all := events + [e];
    forall i | i < |events|
      ensures Fails(cfg, all, i) == Fails(cfg, events, i)
      ensures Answers(cfg, events, i) ==>
                Answers(cfg, all, i) && AskedAt(cfg, all, i) == AskedAt(cfg, events, i) && all[i] == events[i]
    {
      FailsPrefix(cfg, events, [e], i);
    }
    if before.Some? {
      var i :| FailsFirst(cfg, events, i) && Blamed(before.value, AskedAt(cfg, events, i), events[i].reply);
      assert FailsFirst(cfg, all, i) && Blamed(after.value, AskedAt(cfg, all, i), all[i].reply);
    } else if Fails(cfg, all, |events|) {
      assert FailsFirst(cfg, all, |events|);
    }
  }

  lemma {:induction false} FailureIsFirst(cfg: Config, events: seq<Event>)
    requires Run(cfg, events).Some? && cfg.limit >= 1
    ensures FailureExplained(cfg, events, Run(cfg, events).value.failure)
  {
    if events != [] {
      var earlier, e := events[..|events| - 1], events[|events| - 1];
      var d := Run(cfg, earlier).value;
      assert events == earlier + [e];
      assert events[..|earlier|] == earlier;
      FailureIsFirst(cfg, earlier);
      RunIsGood(cfg, earlier);
      StepFailure(cfg, d, e);
      ExplainedSnoc(cfg, earlier, e, d.failure, Step(cfg, d, e).failure);
    }
  }

  // ----- Runs in which nothing failed -----

  /** The chunks the session's map lists, in its order. */
  ghost predicate Gathered(s: Session, chunks: seq<Bytes>) {
    && |chunks| == |s.dataMap.infos|
    && forall i :: 0 <= i < |chunks| ==>
         s.dataMap.infos[i].dstHash in s.cache && s.cache[s.dataMap.infos[i].dstHash] == chunks[i]
  }

  /** Every chunk of a resolved map is held, and decrypting them in order gives `result`. */
  ghost predicate Decrypts(lib: Library, s: Session, result: Option<Bytes>) {
    s.rootResolved && exists chunks :: Gathered(s, chunks) && lib.decrypt(s.dataMap, chunks) == result
  }

  /** Every chunk of the map is held, but they lead to no root. */
  ghost predicate Rootless(lib: Library, s: Session) {
    && !s.rootResolved && Covers(s.cache, s.dataMap.infos)
    && forall root :: !LeadsTo(lib, s.cache, s.dataMap, lib.maxLevels, root)
  }

  ghost predicate Concluded(lib: Library, s: Session, outcome: Outcome) {
    match outcome
    case Plaintext(bytes) => Decrypts(lib, s, Some(bytes))
    case Threw(failure) =>
      || (failure == Client(RootUnresolved) && Rootless(lib, s))
      || (failure == Client(DecryptFailed) && Decrypts(lib, s, None))
  }

  /** The ends that `AtMostTwoRounds` rules out. */
  predicate Abandoned(outcome: Outcome) {
    outcome.Threw? &&
    (outcome.failure in {Stalled, TooManyRounds, Client(Incomplete)} ||
     (outcome.failure.Client? && outcome.failure.error.MissingChunk?))
  }

  lemma ConcludeIsExact(lib: Library, s: Session)
    ensures Abandoned(Conclude(lib, s)) || Concluded(lib, s, Conclude(lib, s))
  {
    CollectInOrder(s.dataMap.infos, s.cache);
    var chunks := Collect(s.dataMap.infos, s.cache);
    if chunks.Ok? {
      assert Gathered(s, chunks.value);
    }
  }

  lemma RefusedAdvanceIsRootless(lib: Library, s: Session)
    requires s.Advance(lib).Err?
    ensures s.Advance(lib) == Err(RootUnresolved) && Rootless(lib, s)
  {
    AdvanceFollowsChain(lib, s);
    CountingLaw(s.dataMap.infos, s.cache);
  }

  lemma {:induction false} LoopTopConcludes(cfg: Config, d: State, s: Session, round: nat)
    ensures var next := LoopTop(cfg, d, s, round);
            next.main.Settled? ==>
              next.session.Some? &&
              (Abandoned(next.main.outcome) || Concluded(cfg.lib, next.session.value, next.main.outcome))
    decreases MAX_ROUNDS - round, 1
  {
    ConcludeIsExact(cfg.lib, s);
    if round < MAX_ROUNDS && !s.IsComplete() && s.Required() == [] {
      AfterRoundConcludes(cfg, d, s, round);
    }
  }

  lemma {:induction false} AfterRoundConcludes(cfg: Config, d: State, s: Session, round: nat)
    requires round < MAX_ROUNDS
    ensures var next := AfterRound(cfg, d, s, round);
            next.main.Settled? ==>
              next.session.Some? &&
              (Abandoned(next.main.outcome) || Concluded(cfg.lib, next.session.value, next.main.outcome))
    decreases MAX_ROUNDS - round, 0
  {
    var advanced := s.Advance(cfg.lib);
    if advanced.Ok? {
      LoopTopConcludes(cfg, d.(log := d.log + [AdvanceCall]), advanced.value, round + 1);
    } else {
      RefusedAdvanceIsRootless(cfg.lib, s);
    }
  }

  /** A run past its map settles with its failure, or with what its session comes to. */
  ghost predicate EndsExactly(cfg: Config, d: State) {
    d.main.Settled? && d.session.Some? ==>
      if d.failure.Some? then d.main.outcome == Threw(d.failure.value)
      else Concluded(cfg.lib, d.session.value, d.main.outcome)
  }

  lemma PossibleIsNotAbandoned(cfg: Config, d: State, outcome: Outcome)
    requires Possible(cfg, d, outcome)
    ensures !Abandoned(outcome)
  {
  }

  /** What the main task settles with once nothing has failed. */
  lemma SettlesExactly(cfg: Config, next: State)
    requires Good(cfg, next) && next.failure.None?
    requires next.main.Settled? && next.session.Some? ==>
               Abandoned(next.main.outcome) || Concluded(cfg.lib, next.session.value, next.main.outcome)
    ensures EndsExactly(cfg, next)
  {
    if next.main.Settled? {
      PossibleIsNotAbandoned(cfg, next, next.main.outcome);
    }
  }

  lemma LoopStartEnds(cfg: Config, base: State, s: Session)
    requires base.failure.None? && Good(cfg, LoopTop(cfg, base, s, 0))
    ensures EndsExactly(cfg, LoopTop(cfg, base, s, 0))
  {
    LoopTopLeaves(cfg, base, s, 0);
    LoopTopConcludes(cfg, base, s, 0);
    SettlesExactly(cfg, LoopTop(cfg, base, s, 0));
  }

  lemma AfterRoundEnds(cfg: Config, d: State, s: Session, round: nat)
    requires round < MAX_ROUNDS && d.failure.None? && Good(cfg, AfterRound(cfg, d, s, round))
    ensures EndsExactly(cfg, AfterRound(cfg, d, s, round))
  {
    AfterRoundLeaves(cfg, d, s, round);
    AfterRoundConcludes(cfg, d, s, round);
    SettlesExactly(cfg, AfterRound(cfg, d, s, round));
  }

  lemma MapReplyEnds(cfg: Config, d: State, reply: Reply)
    requires Good(cfg, d) && d.main.AwaitMap?
    ensures EndsExactly(cfg, Step(cfg, d, MapReply(reply)))
  {
    if reply.Chunk? && Begin(cfg.lib, cfg.address, reply.bytes).Ok? {
      MapReplyIsGood(cfg, d, reply);
      LoopStartEnds(cfg, d.(calls := d.calls + 1, first := reply.bytes),
                    Begin(cfg.lib, cfg.address, reply.bytes).value);
    }
  }

  /** A chunk reply after the end changes neither the session nor the outcome. */
  lemma ChunkReplyEnds(cfg: Config, d: State, e: Event)
    requires Good(cfg, d) && EndsExactly(cfg, d) && e.ChunkReply? && Enabled(d, e)
    ensures EndsExactly(cfg, Step(cfg, d, e))
  {
    if d.main.Settled? {
      StepFailure(cfg, d, e);
      assert !d.pool.AllReturned();
      assert d.failure.Some?;
    }
  }

  lemma MainResumesEnds(cfg: Config, d: State)
    requires Good(cfg, d) && Enabled(d, MainResumes) && cfg.limit >= 1
    ensures EndsExactly(cfg, Step(cfg, d, MainResumes))
  {
    if d.failure.None? {
      MainResumesIsGood(cfg, d);
      AfterRoundEnds(cfg, d, d.session.value, d.main.round);
    }
  }

  lemma StepEnds(cfg: Config, d: State, e: Event)
    requires Good(cfg, d) && EndsExactly(cfg, d) && Enabled(d, e) && cfg.limit >= 1
    ensures EndsExactly(cfg, Step(cfg, d, e))
  {
    match e {
      case MapReply(reply) => MapReplyEnds(cfg, d, reply);
      case ChunkReply(_, _) => ChunkReplyEnds(cfg, d, e);
      case WorkerResumes(_) =>
      case MainResumes => MainResumesEnds(cfg, d);
    }
  }

  lemma {:induction false} RunEnds(cfg: Config, events: seq<Event>)
    requires Run(cfg, events).Some? && cfg.limit >= 1
    ensures EndsExactly(cfg, Run(cfg, events).value)
  {
    if events != [] {
      RunEnds(cfg, events[..|events| - 1]);
      RunIsGood(cfg, events[..|events| - 1]);
      StepEnds(cfg, Run(cfg, events[..|events| - 1]).value, events[|events| - 1]);
    }
  }

  // ----- Which error, exactly -----

  /** The reply for the data map decides everything when it is not the data map. */
  lemma MapErrors(cfg: Config, events: seq<Event>)
    requires Run(cfg, events).Some? && cfg.limit >= 1 && Run(cfg, events).value.main.Settled?
    ensures events != [] && events[0].MapReply?
    ensures var main, reply := Run(cfg, events).value.main, events[0].reply;
            && (main == Settled(Threw(NoData)) <==> reply == Absent)
            && (main == Settled(Threw(Client(MapRejected))) <==>
                reply.Chunk? && |cfg.address| == 32 && cfg.lib.hash(reply.bytes) != cfg.address)
            && (main == Settled(Threw(Client(NotADataMap))) <==>
                reply.Chunk? && cfg.lib.hash(reply.bytes) == cfg.address && cfg.lib.decodeMap(reply.bytes).None?)
            && (forall n :: main == Settled(Threw(Client(AddressLength(n)))) <==>
                  reply.Chunk? && |cfg.address| == n && n != 32)
  {
    MapDecidesRun(cfg, events);
    FailureIsFirst(cfg, events);
    RunEnds(cfg, events);
  }

  /**
   Otherwise the first chunk reply that fails decides, for the address it was asked
   for under; a run without one never throws any of these.
   */
  lemma ChunkErrors(cfg: Config, events: seq<Event>)
    requires Run(cfg, events).Some? && cfg.limit >= 1 && Run(cfg, events).value.main.Settled?
    ensures events != [] && events[0].MapReply?
    ensures var main := Run(cfg, events).value.main;
            && (forall fault :: main == Settled(Threw(FetchFailed(fault))) <==>
                  events[0].reply == Failed(fault) ||
                  exists i :: FailsFirst(cfg, events, i) && events[i].reply == Failed(fault))
            && (forall a :: main == Settled(Threw(MissingFromNetwork(a))) <==>
                  exists i :: FailsFirst(cfg, events, i) && events[i].reply == Absent && AskedAt(cfg, events, i) == a)
            && (forall a :: main == Settled(Threw(Client(ChunkRejected(a)))) <==>
                  exists i :: FailsFirst(cfg, events, i) && events[i].reply.Chunk? && AskedAt(cfg, events, i) == a)
            && main != Settled(Threw(UsedAfterFree))
  {
    MapDecidesRun(cfg, events);
    FailureIsFirst(cfg, events);
    RunEnds(cfg, events);
    FirstIsUnique(cfg, events);
  }

  lemma FirstIsUnique(cfg: Config, events: seq<Event>)
    ensures forall i, j :: FailsFirst(cfg, events, i) && FailsFirst(cfg, events, j) ==> i == j
  {
  }

  /** The first reply was the data map, and every chunk reply was the chunk asked for. */
  ghost predicate Clean(cfg: Config, events: seq<Event>) {
    events != [] && events[0].MapReply? && MapFits(cfg, events[0].reply) && forall i :: !Fails(cfg, events, i)
  }

  lemma CleanIff(cfg: Config, events: seq<Event>)
    requires Run(cfg, events).Some? && cfg.limit >= 1 && Run(cfg, events).value.main.Settled?
    ensures var d := Run(cfg, events).value;
            && (Clean(cfg, events) <==> d.session.Some? && d.failure.None?)
            && (!Clean(cfg, events) ==>
                  d.main.outcome.Threw? && d.main.outcome.failure !in {Client(RootUnresolved), Client(DecryptFailed)})
  {
    MapDecidesRun(cfg, events);
    FailureIsFirst(cfg, events);
    RunEnds(cfg, events);
  }

  /** A clean run settles with what its session comes to, and no other run settles so. */
  lemma CleanRuns(cfg: Config, events: seq<Event>, plaintext: Bytes)
    requires Run(cfg, events).Some? && cfg.limit >= 1 && Run(cfg, events).value.main.Settled?
    ensures Clean(cfg, events) ==> Run(cfg, events).value.session.Some?
    ensures var d, clean := Run(cfg, events).value, Clean(cfg, events);
            && (d.main == Settled(Plaintext(plaintext)) <==>
                clean && Decrypts(cfg.lib, d.session.value, Some(plaintext)))
            && (d.main == Settled(Threw(Client(DecryptFailed))) <==>
                clean && Decrypts(cfg.lib, d.session.value, None))
            && (d.main == Settled(Threw(Client(RootUnresolved))) <==> clean && Rootless(cfg.lib, d.session.value))
  {
    CleanIff(cfg, events);
    if Clean(cfg, events) {
      RunEnds(cfg, events);
      ConcludedOneWay(cfg.lib, Run(cfg, events).value.session.value, Run(cfg, events).value.main.outcome, plaintext);
    }
  }

  lemma ConcludedOneWay(lib: Library, s: Session, outcome: Outcome, plaintext: Bytes)
    requires Concluded(lib, s, outcome)
    ensures outcome == Plaintext(plaintext) <==> Decrypts(lib, s, Some(plaintext))
    ensures outcome == Threw(Client(DecryptFailed)) <==> Decrypts(lib, s, None)
    ensures outcome == Threw(Client(RootUnresolved)) <==> Rootless(lib, s)
  {
    DecryptsOneWay(lib, s);
  }

  lemma DecryptsOneWay(lib: Library, s: Session)
    ensures forall r, r' :: Decrypts(lib, s, r) && Decrypts(lib, s, r') ==> r == r'
    ensures forall r :: Decrypts(lib, s, r) ==> !Rootless(lib, s)
  {
    forall xs, ys | Gathered(s, xs) && Gathered(s, ys) ensures xs == ys {
    }
  }

  /** Bytes that hash to another address than the one asked for are never part of an answer. */
  lemma AlteredChunkIsFatal(cfg: Config, events: seq<Event>, i: int)
    requires Run(cfg, events).Some? && cfg.limit >= 1 && Answers(cfg, events, i)
    requires events[i].reply.Chunk? && cfg.lib.hash(events[i].reply.bytes) != AskedAt(cfg, events, i)
    ensures forall plaintext :: !Returns(cfg, events, plaintext)
  {
    assert Fails(cfg, events, i);
    forall plaintext ensures !Returns(cfg, events, plaintext) {
      if Returns(cfg, events, plaintext) {
        CleanRuns(cfg, events, plaintext);
      }
    }
  }
}

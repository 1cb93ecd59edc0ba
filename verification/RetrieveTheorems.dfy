/** The properties of whole runs of `retrieve`, for every proxy and every interleaving. */
module RetrieveTheorems {
  import opened Prelude
  import opened Wire
  import opened SelfEncryption
  import opened Retrieval
  import opened Driver
  import opened DriverProofs
  import Pool = WorkerPool

  /**
   At most two rounds of fetches ever start, and neither the "stalled" nor the
   "too many rounds" error, nor a `finish` on an incomplete session, ever happens.
   */
  lemma AtMostTwoRounds(cfg: Config, events: seq<Event>)
    requires Run(cfg, events).Some? && cfg.limit >= 1
    ensures var d := Run(cfg, events).value;
            && d.fetchRounds <= 2
            && d.main != Settled(Threw(Stalled))
            && d.main != Settled(Threw(TooManyRounds))
            && d.main != Settled(Threw(Client(Incomplete)))
            && forall a :: d.main != Settled(Threw(Client(MissingChunk(a))))
  {
    RunIsGood(cfg, events);
  }

  // ----- Proxy independence -----

  /** Every byte string this run's client verified and kept. */
  ghost function Seen(cfg: Config, events: seq<Event>): set<Bytes>
    requires Run(cfg, events).Some?
  {
    {Run(cfg, events).value.first} + Accepted(cfg.lib, Run(cfg, events).value.log)
  }

  ghost predicate Returns(cfg: Config, events: seq<Event>, plaintext: Bytes) {
    Run(cfg, events).Some? && Run(cfg, events).value.main == Settled(Plaintext(plaintext))
  }

  /** A plaintext returned is what the address denotes among the bytes verified. */
  lemma AnswerIsDenotation(cfg: Config, events: seq<Event>, plaintext: Bytes, seen: set<Bytes>)
    requires cfg.limit >= 1 && Returns(cfg, events, plaintext)
    requires NoCollisions(cfg.lib, seen) && Seen(cfg, events) <= seen
    ensures Denote(cfg.lib, ByAddress(cfg.lib, seen), cfg.address) == Some(plaintext)
  {
    var d := Run(cfg, events).value;
    RunIsGood(cfg, events);
    SessionDenotes(cfg.lib, cfg.address, d.first, d.log, plaintext, seen);
  }

  /**
   Two runs for the same address against any two proxies, with any replies, any
   interleaving and even different concurrency limits: if both return, they
   return the same plaintext, unless the two runs together exhibit a collision.
   */
  lemma ProxyIndependence(cfg: Config, limit': nat, events: seq<Event>, events': seq<Event>,
                          plaintext: Bytes, plaintext': Bytes)
    requires cfg.limit >= 1 && limit' >= 1
    requires Returns(cfg, events, plaintext) && Returns(cfg.(limit := limit'), events', plaintext')
    requires NoCollisions(cfg.lib, Seen(cfg, events) + Seen(cfg.(limit := limit'), events'))
    ensures plaintext == plaintext'
  {
    var seen := Seen(cfg, events) + Seen(cfg.(limit := limit'), events');
    AnswerIsDenotation(cfg, events, plaintext, seen);
    AnswerIsDenotation(cfg.(limit := limit'), events', plaintext', seen);
  }

  /** Two different answers for one address exhibit a hash collision among the bytes verified. */
  lemma DifferentAnswersCollide(cfg: Config, limit': nat, events: seq<Event>, events': seq<Event>,
                                plaintext: Bytes, plaintext': Bytes) returns (x: Bytes, y: Bytes)
    requires cfg.limit >= 1 && limit' >= 1
    requires Returns(cfg, events, plaintext) && Returns(cfg.(limit := limit'), events', plaintext')
    requires plaintext != plaintext'
    ensures x != y && cfg.lib.hash(x) == cfg.lib.hash(y)
    ensures {x, y} <= Seen(cfg, events) + Seen(cfg.(limit := limit'), events')
  {
    var seen := Seen(cfg, events) + Seen(cfg.(limit := limit'), events');
    if NoCollisions(cfg.lib, seen) {
      ProxyIndependence(cfg, limit', events, events', plaintext, plaintext');
    }
    x, y :| x in seen && y in seen && cfg.lib.hash(x) == cfg.lib.hash(y) && x != y;
  }

  // ----- Use after free -----

  /** With one worker, nothing touches the retrieval once it is freed, in any run. */
  lemma OneWorkerIsSafe(cfg: Config, events: seq<Event>)
    requires Run(cfg, events).Some? && cfg.limit == DEFAULT_CONCURRENCY
    ensures !Run(cfg, events).value.misused
    ensures var d := Run(cfg, events).value;
            d.main.Settled? ==>
              forall k :: 0 <= k < |d.pool.workers| ==> d.pool.workers[k].Returned? || d.pool.workers[k].Rejected?
  {
    RunIsGood(cfg, events);
  }

  ghost predicate FreshRound(d: State) {
    && d.main.AwaitRound? && d.main.round < MAX_ROUNDS && d.session.Some? && d.failure.None?
    && |d.pool.workers| >= 2 && d.pool.workers[0] == Pool.Busy(0) && d.pool.workers[1] == Pool.Busy(1)
    && |d.items| >= 2
  }

  /** The main task leaves the pool as it was, or starts a fresh round. */
  lemma {:induction false} LoopTopPool(cfg: Config, d: State, s: Session, round: nat)
    requires d.failure.None?
    ensures var next := LoopTop(cfg, d, s, round);
            |next.pool.workers| < 2 || next.pool.workers == d.pool.workers || FreshRound(next)
    decreases MAX_ROUNDS - round, 1
  {
    if round < MAX_ROUNDS && !s.IsComplete() && s.Required() == [] {
      AfterRoundPool(cfg, d, s, round);
    }
  }

  lemma {:induction false} AfterRoundPool(cfg: Config, d: State, s: Session, round: nat)
    requires round < MAX_ROUNDS && d.failure.None?
    ensures var next := AfterRound(cfg, d, s, round);
            |next.pool.workers| < 2 || next.pool.workers == d.pool.workers || FreshRound(next)
    decreases MAX_ROUNDS - round, 0
  {
    var advanced := s.Advance(cfg.lib);
    if advanced.Ok? {
      LoopTopPool(cfg, d.(log := d.log + [AdvanceCall]), advanced.value, round + 1);
    }
  }

  lemma StepPool(cfg: Config, d: State, e: Event)
    requires Good(cfg, d) && Enabled(d, e)
    ensures |Step(cfg, d, e).pool.workers| >= 2 ==> |d.pool.workers| >= 2 || FreshRound(Step(cfg, d, e))
  {
    if e.MapReply? && e.reply.Chunk? && Begin(cfg.lib, cfg.address, e.reply.bytes).Ok? {
      LoopTopPool(cfg, d.(calls := d.calls + 1, first := e.reply.bytes),
                  Begin(cfg.lib, cfg.address, e.reply.bytes).value, 0);
    }
    if e.MainResumes? && d.failure.None? {
      AfterRoundPool(cfg, d, d.session.value, d.main.round);
    }
  }

  /** A run that ever has two workers passed through the start of such a round. */
  lemma {:induction false} RoundStart(cfg: Config, events: seq<Event>) returns (start: seq<Event>)
    requires cfg.limit >= 1
    requires Run(cfg, events).Some? && |Run(cfg, events).value.pool.workers| >= 2
    ensures Run(cfg, start).Some? && FreshRound(Run(cfg, start).value)
  {
    if FreshRound(Run(cfg, events).value) {
      return events;
    }
    var earlier, last := events[..|events| - 1], events[|events| - 1];
    RunIsGood(cfg, earlier);
    StepPool(cfg, Run(cfg, earlier).value, last);
    start := RoundStart(cfg, earlier);
  }

  lemma MisuseFollows(cfg: Config, start: seq<Event>, bytes: Bytes)
    requires Run(cfg, start).Some? && FreshRound(Run(cfg, start).value)
    ensures var events := start + [ChunkReply(0, Absent)] + [MainResumes] + [ChunkReply(1, Chunk(bytes))];
            && Run(cfg, events).Some? && Run(cfg, events).value.misused
            && Run(cfg, events).value.fetchRounds == Run(cfg, start).value.fetchRounds
  {
    var d := Run(cfg, start).value;
    RunSnoc(cfg, start, ChunkReply(0, Absent));
    RunSnoc(cfg, start + [ChunkReply(0, Absent)], MainResumes);
    RunSnoc(cfg, start + [ChunkReply(0, Absent)] + [MainResumes], ChunkReply(1, Chunk(bytes)));
    var failed := Step(cfg, d, ChunkReply(0, Absent));
    assert failed.failure.Some? && failed.pool.workers[1] == Pool.Busy(1);
    var settled := Step(cfg, failed, MainResumes);
    assert Enabled(settled, ChunkReply(1, Chunk(bytes))) && settled.Freed();
  }

  /**
   A retrieval can be used after it is freed exactly when the limit is at least
   two and some run reaches a round of two or more addresses.
   */
  lemma MisuseIffTwoInFlight(cfg: Config)
    requires cfg.limit >= 1
    ensures (exists events :: Run(cfg, events).Some? && Run(cfg, events).value.misused) <==>
            cfg.limit >= 2 && exists events :: Run(cfg, events).Some? && |Run(cfg, events).value.items| >= 2
  {
    if events :| Run(cfg, events).Some? && Run(cfg, events).value.misused {
      RunIsGood(cfg, events);
      assert |Run(cfg, events).value.items| >= 2;
    }
    if cfg.limit >= 2 {
      if events :| Run(cfg, events).Some? && |Run(cfg, events).value.items| >= 2 {
        RunIsGood(cfg, events);
        var start := RoundStart(cfg, events);
        MisuseFollows(cfg, start, []);
      }
    }
  }

  /** A further round of fetches has started, or the items are the same. */
  ghost predicate Onward(d: State, next: State) {
    next.fetchRounds > d.fetchRounds || (next.fetchRounds == d.fetchRounds && next.items == d.items)
  }

  /** The main task starts a further round of fetches, or keeps the items it has. */
  lemma {:induction false} LoopTopItems(cfg: Config, d: State, s: Session, round: nat)
    ensures Onward(d, LoopTop(cfg, d, s, round))
    decreases MAX_ROUNDS - round, 1
  {
    if round < MAX_ROUNDS && !s.IsComplete() && s.Required() == [] {
      AfterRoundItems(cfg, d, s, round);
    }
  }

  lemma {:induction false} AfterRoundItems(cfg: Config, d: State, s: Session, round: nat)
    requires round < MAX_ROUNDS
    ensures Onward(d, AfterRound(cfg, d, s, round))
    decreases MAX_ROUNDS - round, 0
  {
    var advanced := s.Advance(cfg.lib);
    if advanced.Ok? {
      LoopTopItems(cfg, d.(log := d.log + [AdvanceCall]), advanced.value, round + 1);
    }
  }

  lemma StepItems(cfg: Config, d: State, e: Event)
    requires Enabled(d, e)
    ensures Onward(d, Step(cfg, d, e))
  {
    if e.MapReply? && e.reply.Chunk? && Begin(cfg.lib, cfg.address, e.reply.bytes).Ok? {
      LoopTopItems(cfg, d.(calls := d.calls + 1, first := e.reply.bytes),
                   Begin(cfg.lib, cfg.address, e.reply.bytes).value, 0);
    }
    if e.MainResumes? && d.failure.None? {
      AfterRoundItems(cfg, d, d.session.value, d.main.round);
    }
  }

  /** As long as no further round has started, a run works on the same items. */
  lemma {:induction false} SameRoundSameItems(cfg: Config, start: seq<Event>, more: seq<Event>)
    requires Run(cfg, start + more).Some?
    ensures Run(cfg, start).Some?
    ensures Onward(Run(cfg, start).value, Run(cfg, start + more).value)
  {
    if more == [] {
      assert start + more == start;
    } else {
      var fewer, last := more[..|more| - 1], more[|more| - 1];
      assert start + more == start + fewer + [last];
      RunSnoc(cfg, start + fewer, last);
      SameRoundSameItems(cfg, start, fewer);
      StepItems(cfg, Run(cfg, start + fewer).value, last);
    }
  }

  /** A round that has just started: every worker has claimed its first item and nothing has failed. */
  ghost predicate AtRoundStart(cfg: Config, d: State) {
    d.main.AwaitRound? && d.pool == Pool.Start(|d.items|, cfg.limit) && d.failure.None?
  }

  /** Some continuation of `start` uses the freed retrieval without starting a further round. */
  ghost predicate MisuseInRound(cfg: Config, start: seq<Event>)
    requires Run(cfg, start).Some?
  {
    exists more ::
      && Run(cfg, start + more).Some?
      && Run(cfg, start + more).value.misused
      && Run(cfg, start + more).value.fetchRounds == Run(cfg, start).value.fetchRounds
  }

  /**
   What the limit and the number of items decide when a round starts: the round
   can end in a use after free exactly when two of its tasks run at once.
   */
  lemma MisuseIffRoundHasTwoInFlight(cfg: Config, start: seq<Event>)
    requires cfg.limit >= 1 && Run(cfg, start).Some? && AtRoundStart(cfg, Run(cfg, start).value)
    ensures MisuseInRound(cfg, start) <==> Min(cfg.limit, |Run(cfg, start).value.items|) >= 2
  {
    var d := Run(cfg, start).value;
    RunIsGood(cfg, start);
    if MisuseInRound(cfg, start) {
      var more :| Run(cfg, start + more).Some? && Run(cfg, start + more).value.misused &&
                  Run(cfg, start + more).value.fetchRounds == d.fetchRounds;
      RunIsGood(cfg, start + more);
      SameRoundSameItems(cfg, start, more);
    }
    if Min(cfg.limit, |d.items|) >= 2 {
      MisuseFollows(cfg, start, []);
      var more := [ChunkReply(0, Absent), MainResumes, ChunkReply(1, Chunk([]))];
      assert start + more == start + [ChunkReply(0, Absent)] + [MainResumes] + [ChunkReply(1, Chunk([]))];
      assert Run(cfg, start + more).value.misused;
    }
  }

  // ----- A failure stops the download -----

  /** Once a fetch or a verification of a round has failed, the run throws that first failure. */
  lemma {:induction false} FailedRoundThrows(cfg: Config, events: seq<Event>, more: seq<Event>)
    requires Run(cfg, events + more).Some?
    ensures Run(cfg, events).Some?
    ensures var d, later := Run(cfg, events).value, Run(cfg, events + more).value;
            d.main.AwaitRound? && d.failure.Some? ==>
              && later.failure == d.failure
              && (later.main == d.main || later.main == Settled(Threw(d.failure.value)))
  {
    if more == [] {
      assert events + more == events;
    } else {
      var fewer := more[..|more| - 1];
      assert (events + more)[..|events + more| - 1] == events + fewer;
      FailedRoundThrows(cfg, events, fewer);
    }
  }

  // ----- Progress reports -----

  lemma ReportsRise(d: State, s: Session)
    requires Reported(d, s)
    ensures forall i, j :: 0 <= i < j < |d.progress| ==> d.progress[i].held <= d.progress[j].held
    ensures forall i :: 0 <= i < |d.progress| ==> d.progress[i].held <= d.progress[i].total
  {
    CountingLaw(s.dataMap.infos, s.cache);
  }

  lemma LastReport(cfg: Config, d: State)
    requires Good(cfg, d) && d.main.AwaitRound? && d.pool.AllReturned() && cfg.limit >= 1
    ensures d.progress != [] && d.progress[|d.progress| - 1].held == d.progress[|d.progress| - 1].total
  {
    var s := d.session.value;
    RoundLeavesNothingMissing(cfg, d);
    CountingLaw(s.dataMap.infos, s.cache);
    Pool.AllReturnedMeansAllDone(d.pool, cfg.limit);
  }

  /**
   Within a round the reported count never falls and never passes the total; when
   the round's fetches have all succeeded the last report is held = total.
   */
  lemma ProgressRisesToTotal(cfg: Config, events: seq<Event>)
    requires Run(cfg, events).Some? && cfg.limit >= 1 && Run(cfg, events).value.main.AwaitRound?
    ensures var d := Run(cfg, events).value;
            && (forall i, j :: 0 <= i < j < |d.progress| ==> d.progress[i].held <= d.progress[j].held)
            && (forall i :: 0 <= i < |d.progress| ==> d.progress[i].held <= d.progress[i].total)
            && (d.pool.AllReturned() ==>
                  d.progress != [] && d.progress[|d.progress| - 1].held == d.progress[|d.progress| - 1].total)
  {
    var d := Run(cfg, events).value;
    RunIsGood(cfg, events);
    ReportsRise(d, d.session.value);
    if d.pool.AllReturned() {
      LastReport(cfg, d);
    }
  }

  // ----- Every run settles -----

  /** First component: phases of the main task still ahead. */
  ghost function Phases(d: State): nat {
    match d.main
    case AwaitMap => 3
    case AwaitRound(round) => if round <= 1 then 2 - round else 0
    case Settled(_) => 0
  }

  /** Second component: steps the workers of the current pool can still take. */
  ghost function WorkLeft(d: State): nat {
    Pool.Potential(d.pool)
  }

  lemma AdvancesPhase(cfg: Config, d: State, s: Session, round: nat)
    requires round < MAX_ROUNDS
    ensures var next := AfterRound(cfg, d, s, round);
            next.main.Settled? || (next.main.AwaitRound? && next.main.round > round)
    decreases MAX_ROUNDS - round
  {
    var advanced := s.Advance(cfg.lib);
    if advanced.Ok? && round + 1 < MAX_ROUNDS && !advanced.value.IsComplete() && advanced.value.Required() == [] {
      AdvancesPhase(cfg, d.(log := d.log + [AdvanceCall]), advanced.value, round + 1);
    }
  }

  lemma ChunkReplyCounts(cfg: Config, d: State, k: nat, reply: Reply)
    requires Enabled(d, ChunkReply(k, reply))
    ensures var next := Step(cfg, d, ChunkReply(k, reply));
            next.main == d.main && WorkLeft(next) < WorkLeft(d)
  {
    Pool.StepUsesPotential(d.pool, Pool.TaskDone(k));
    Pool.StepUsesPotential(d.pool, Pool.TaskFailed(k));
  }

  lemma MainResumesCounts(cfg: Config, d: State)
    requires Enabled(d, MainResumes) && d.main.round <= 1
    requires Step(cfg, d, MainResumes).main.AwaitRound? ==> Step(cfg, d, MainResumes).main.round <= 1
    ensures Phases(Step(cfg, d, MainResumes)) < Phases(d)
  {
    AdvancesPhase(cfg, d, d.session.value, d.main.round);
  }

  lemma RoundIsEarly(cfg: Config, d: State)
    requires Good(cfg, d) && d.main.AwaitRound?
    ensures d.main.round <= 1
  {
  }

  lemma ResumedRounds(cfg: Config, d: State)
    requires Good(cfg, d) && Enabled(d, MainResumes) && cfg.limit >= 1
    ensures d.main.round <= 1
    ensures Step(cfg, d, MainResumes).main.AwaitRound? ==> Step(cfg, d, MainResumes).main.round <= 1
  {
    RoundIsEarly(cfg, d);
    MainResumesIsGood(cfg, d);
    if Step(cfg, d, MainResumes).main.AwaitRound? {
      RoundIsEarly(cfg, Step(cfg, d, MainResumes));
    }
  }

  lemma MapReplyCounts(cfg: Config, d: State, reply: Reply)
    requires d.main.AwaitMap?
    ensures Phases(Step(cfg, d, MapReply(reply))) < Phases(d)
  {
    if reply.Chunk? && Begin(cfg.lib, cfg.address, reply.bytes).Ok? {
      AdvancesPhase(cfg, d.(calls := d.calls + 1, first := reply.bytes),
                    Begin(cfg.lib, cfg.address, reply.bytes).value, 0);
    }
  }

  /** Every event moves the main task on, or uses up some of the workers' steps. */
  lemma EveryStepCounts(cfg: Config, events: seq<Event>, e: Event)
    requires Run(cfg, events).Some? && Enabled(Run(cfg, events).value, e) && cfg.limit >= 1
    ensures var d := Run(cfg, events).value;
            var next := Step(cfg, d, e);
            Phases(next) < Phases(d) || (Phases(next) == Phases(d) && WorkLeft(next) < WorkLeft(d))
  {
    var d := Run(cfg, events).value;
    RunIsGood(cfg, events);
    match e {
      case MapReply(reply) =>
        MapReplyCounts(cfg, d, reply);
      case ChunkReply(k, reply) =>
        ChunkReplyCounts(cfg, d, k, reply);
      case WorkerResumes(k) =>
        Pool.StepUsesPotential(d.pool, Pool.TakeNext(k));
      case MainResumes =>
        ResumedRounds(cfg, d);
        MainResumesCounts(cfg, d);
    }
  }

  /** Until it settles, a run can always go on once a reply, whatever it is, arrives. */
  lemma NeverStuck(cfg: Config, events: seq<Event>, reply: Reply) returns (e: Event)
    requires Run(cfg, events).Some? && cfg.limit >= 1 && !Run(cfg, events).value.main.Settled?
    ensures Enabled(Run(cfg, events).value, e)
    ensures (e.MapReply? || e.ChunkReply?) ==> e.reply == reply
  {
    var d := Run(cfg, events).value;
    RunIsGood(cfg, events);
    if d.main.AwaitMap? {
      e := MapReply(reply);
    } else if d.pool.AllReturned() || d.failure.Some? {
      e := MainResumes;
    } else {
      var k := Pool.SomeoneCanMove(d.pool);
      if d.pool.workers[k].Between? {
        e := WorkerResumes(k);
      } else {
        HeldIndexInRange(cfg, d, k);
        e := ChunkReply(k, reply);
      }
    }
  }

  lemma HeldIndexInRange(cfg: Config, d: State, k: nat)
    requires Good(cfg, d) && k < |d.pool.workers| && d.pool.workers[k].Busy?
    ensures d.pool.workers[k].index < |d.items|
  {
    var i := d.pool.workers[k].index;
    Pool.HoldersCount(d.pool.workers, k, i);
    assert Pool.Started(d.pool, i) >= 1;
  }
}

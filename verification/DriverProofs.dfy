/** What holds in every state of every run of `retrieve`, whatever the proxy sends. */
module DriverProofs {
  import opened Prelude
  import opened Wire
  import opened SelfEncryption
  import opened Retrieval
  import opened Driver
  import Pool = WorkerPool

  /** The session is what the logged calls made of the first data map. */
  ghost predicate Grounded(cfg: Config, d: State) {
    d.session.Some? ==>
      && Begin(cfg.lib, cfg.address, d.first).Ok?
      && d.session.value == Play(cfg.lib, Begin(cfg.lib, cfg.address, d.first).value, d.log)
  }

  /** A round in flight fetches everything still missing, and keeps what it fetched. */
  ghost predicate Covering(d: State, s: Session) {
    && (forall j :: 0 <= j < |s.dataMap.infos| ==>
          s.dataMap.infos[j].dstHash in s.cache || s.dataMap.infos[j].dstHash in d.items)
    && (forall i :: i in d.pool.done ==> 0 <= i < |d.items| && d.items[i] in s.cache)
  }

  /** The round's reports rise towards the map's size and the last one is current. */
  ghost predicate Reported(d: State, s: Session) {
    && |d.progress| == |d.pool.done|
    && (forall i :: 0 <= i < |d.progress| ==>
          d.progress[i].held <= s.ChunksHeld() && d.progress[i].total == s.ChunkCount())
    && (forall i, j :: 0 <= i < j < |d.progress| ==> d.progress[i].held <= d.progress[j].held)
    && (d.progress != [] ==> d.progress[|d.progress| - 1].held == s.ChunksHeld())
  }

  /** No outcome but these is ever reached. */
  ghost predicate Possible(cfg: Config, d: State, o: Outcome) {
    match o
    case Plaintext(bytes) => d.session.Some? && d.session.value.Finish(cfg.lib) == Ok(bytes)
    case Threw(f) =>
      && f != Stalled && f != TooManyRounds
      && (f.Client? ==> f.error != Incomplete && !f.error.MissingChunk?)
      && (f.UsedAfterFree? ==> cfg.limit >= 2)
  }

  ghost predicate PoolOk(cfg: Config, d: State) {
    && Pool.Invariant(d.pool, cfg.limit)
    && d.pool.count == |d.items|
    && (d.failure.Some? <==> d.pool.AnyRejected())
    && (d.misused ==> d.main.Settled? && |d.pool.workers| >= 2)
    && (d.failure.Some? ==> Possible(cfg, d, Threw(d.failure.value)))
  }

  ghost predicate Good(cfg: Config, d: State) {
    && Grounded(cfg, d)
    && PoolOk(cfg, d)
    && match d.main
       case AwaitMap => d == Init()
       case AwaitRound(round) =>
         && d.session.Some?
         && var s := d.session.value;
            && round <= 1 && d.fetchRounds <= round + 1
            && (round == 1 ==> s.rootResolved)
            && d.items != []
            && Covering(d, s) && Reported(d, s)
       case Settled(outcome) =>
         && d.fetchRounds <= 2
         && Possible(cfg, d, outcome)
         && (d.pool.AllReturned() || d.pool.AnyRejected())
  }

  lemma GroundedValid(cfg: Config, d: State)
    requires Grounded(cfg, d) && d.session.Some?
    ensures d.session.value.Valid(cfg.lib)
  {
    BeginIsValid(cfg.lib, cfg.address, d.first);
    PlayKeepsValid(cfg.lib, Begin(cfg.lib, cfg.address, d.first).value, d.log);
  }

  // ----- The synchronous part between two awaits -----

  /** `base` is a state about to enter the loop head with session `s`. */
  ghost predicate Entering(cfg: Config, base: State, s: Session) {
    && Grounded(cfg, base.(session := Some(s)))
    && base.failure == None && !base.misused
    && Pool.Invariant(base.pool, cfg.limit) && base.pool.count == |base.items|
    && base.pool.AllReturned() && !base.pool.AnyRejected()
  }

  lemma ConcludeIsPossible(cfg: Config, d: State, s: Session)
    requires s.IsComplete() && d.session == Some(s) && s.Valid(cfg.lib)
    ensures Possible(cfg, d, Conclude(cfg.lib, s))
  {
    FinishHandsOverEveryChunk(cfg.lib, s);
  }

  lemma NewRoundIsGood(cfg: Config, base: State, s: Session, round: nat)
    requires Entering(cfg, base, s) && !s.IsComplete() && s.Required() != []
    requires round <= 1 && base.fetchRounds <= round && (round == 1 ==> s.rootResolved)
    ensures Good(cfg, LoopTop(cfg, base, s, round))
  {
    var d := LoopTop(cfg, base, s, round);
    Pool.StartInvariant(|s.Required()|, cfg.limit);
    CountingLaw(s.dataMap.infos, s.cache);
    assert !d.pool.AnyRejected();
    forall j | 0 <= j < |s.dataMap.infos|
      ensures s.dataMap.infos[j].dstHash in s.cache || s.dataMap.infos[j].dstHash in d.items
    {
      if s.dataMap.infos[j].dstHash !in s.cache {
        assert s.dataMap.infos[j].dstHash in Missing(s.dataMap.infos, s.cache);
      }
    }
  }

  lemma LoopEndIsGood(cfg: Config, base: State, s: Session, round: nat)
    requires Entering(cfg, base, s) && s.IsComplete() && base.fetchRounds <= 2
    ensures Good(cfg, LoopTop(cfg, base, s, round))
  {
    var d := LoopTop(cfg, base, s, round);
    GroundedValid(cfg, d);
    ConcludeIsPossible(cfg, d, s);
  }

  /** With nothing left to fetch, advancing throws or leaves the root resolved. */
  lemma AfterRoundIsGood(cfg: Config, base: State, s: Session, round: nat)
    requires Entering(cfg, base, s) && s.Required() == []
    requires round <= 1 && base.fetchRounds <= round + 1 && (round == 1 ==> s.rootResolved)
    ensures Good(cfg, AfterRound(cfg, base, s, round))
  {
    var logged := base.(log := base.log + [AdvanceCall]);
    var start := Begin(cfg.lib, cfg.address, base.first).value;
    PlaySnoc(cfg.lib, start, base.log, AdvanceCall);
    match s.Advance(cfg.lib) {
      case Err(e) =>
      case Ok(next) =>
        assert next.rootResolved;
        assert Entering(cfg, logged, next);
        if next.IsComplete() {
          LoopEndIsGood(cfg, logged, next, round + 1);
        } else {
          NewRoundIsGood(cfg, logged, next, round + 1);
        }
    }
  }

  lemma LoopStartIsGood(cfg: Config, base: State, s: Session)
    requires Entering(cfg, base, s) && base.fetchRounds == 0
    ensures Good(cfg, LoopTop(cfg, base, s, 0))
  {
    if s.IsComplete() {
      LoopEndIsGood(cfg, base, s, 0);
    } else if s.Required() != [] {
      NewRoundIsGood(cfg, base, s, 0);
    } else {
      AfterRoundIsGood(cfg, base, s, 0);
    }
  }

  // ----- One event -----

  lemma MapReplyIsGood(cfg: Config, d: State, reply: Reply)
    requires Good(cfg, d) && d.main.AwaitMap?
    ensures Good(cfg, Step(cfg, d, MapReply(reply)))
  {
    if reply.Chunk? {
      var begun := Begin(cfg.lib, cfg.address, reply.bytes);
      if begun.Ok? {
        var base := d.(calls := d.calls + 1, first := reply.bytes);
        assert Play(cfg.lib, begun.value, []) == begun.value;
        LoopStartIsGood(cfg, base, begun.value);
      }
    }
  }

  /** A round whose fetches all succeeded leaves nothing missing. */
  lemma RoundLeavesNothingMissing(cfg: Config, d: State)
    requires Good(cfg, d) && d.main.AwaitRound? && d.pool.AllReturned() && cfg.limit >= 1
    ensures d.session.value.Required() == []
  {
    var s := d.session.value;
    Pool.AllReturnedMeansAllDone(d.pool, cfg.limit);
    forall j | 0 <= j < |s.dataMap.infos|
      ensures s.dataMap.infos[j].dstHash in s.cache
    {
      var address := s.dataMap.infos[j].dstHash;
      if address in d.items {
        var i :| 0 <= i < |d.items| && d.items[i] == address;
        assert i in d.pool.done;
      }
    }
    CountingLaw(s.dataMap.infos, s.cache);
  }

  lemma MainResumesIsGood(cfg: Config, d: State)
    requires Good(cfg, d) && Enabled(d, MainResumes) && cfg.limit >= 1
    ensures Good(cfg, Step(cfg, d, MainResumes))
  {
    if d.failure.None? {
      RoundLeavesNothingMissing(cfg, d);
      AfterRoundIsGood(cfg, d, d.session.value, d.main.round);
    }
  }

  lemma WorkerResumesIsGood(cfg: Config, d: State, k: nat)
    requires Good(cfg, d) && Enabled(d, WorkerResumes(k))
    ensures Good(cfg, Step(cfg, d, WorkerResumes(k)))
  {
    var next := Step(cfg, d, WorkerResumes(k));
    Pool.StepInvariant(d.pool, cfg.limit, Pool.TakeNext(k));
    KeepsRejections(d.pool, Pool.TakeNext(k));
  }

  lemma KeepsRejections(p: Pool.Pool, e: Pool.Event)
    requires Pool.Enabled(p, e)
    ensures Pool.Step(p, e).AnyRejected() <==> p.AnyRejected() || e.TaskFailed?
    ensures !p.AllReturned()
  {
    var q := Pool.Step(p, e);
    if p.AnyRejected() {
      var j :| 0 <= j < |p.workers| && p.workers[j].Rejected?;
      assert q.workers[j].Rejected?;
    }
    if e.TaskFailed? {
      assert q.workers[e.worker].Rejected?;
    }
    if q.AnyRejected() {
      var j :| 0 <= j < |q.workers| && q.workers[j].Rejected?;
      assert j == e.worker || p.workers[j].Rejected?;
    }
    assert !p.workers[e.worker].Returned?;
  }

  /** A worker still running once `retrieve` has settled means another one failed. */
  lemma StrayMeansTwoWorkers(cfg: Config, d: State, k: nat)
    requires Good(cfg, d) && d.main.Settled? && k < |d.pool.workers| && d.pool.workers[k].Busy?
    ensures |d.pool.workers| >= 2 && cfg.limit >= 2
  {
    assert !d.pool.AllReturned();
    var j :| 0 <= j < |d.pool.workers| && d.pool.workers[j].Rejected?;
    assert j != k;
  }

  lemma RejectIsGood(cfg: Config, d: State, k: nat, failure: Failure)
    requires Good(cfg, d) && Enabled(d, ChunkReply(k, Absent))
    requires Possible(cfg, d, Threw(failure))
    ensures Good(cfg, Reject(d.(calls := d.calls + 1), k, failure))
  {
    Pool.StepInvariant(d.pool, cfg.limit, Pool.TaskFailed(k));
    KeepsRejections(d.pool, Pool.TaskFailed(k));
  }

  lemma SupplyKeepsRound(cfg: Config, d: State, k: nat, bytes: Bytes)
    requires Good(cfg, d) && Enabled(d, ChunkReply(k, Chunk(bytes))) && d.main.AwaitRound?
    requires d.session.value.Supply(cfg.lib, d.items[d.pool.workers[k].index], bytes).Ok?
    ensures var next := Step(cfg, d, ChunkReply(k, Chunk(bytes)));
            Covering(next, next.session.value) && Reported(next, next.session.value)
  {
    var s := d.session.value;
    var next := Step(cfg, d, ChunkReply(k, Chunk(bytes)));
    var t := next.session.value;
    HeldMonotone(s.dataMap.infos, s.cache, t.cache);
    assert forall a :: a in s.cache ==> a in t.cache;
    assert next.pool.done == d.pool.done + [d.pool.workers[k].index];
  }

  lemma SuppliedIsGood(cfg: Config, d: State, k: nat, bytes: Bytes)
    requires Good(cfg, d) && Enabled(d, ChunkReply(k, Chunk(bytes))) && d.main.AwaitRound?
    requires d.session.value.Supply(cfg.lib, d.items[d.pool.workers[k].index], bytes).Ok?
    ensures Good(cfg, Step(cfg, d, ChunkReply(k, Chunk(bytes))))
  {
    var address := d.items[d.pool.workers[k].index];
    PlaySnoc(cfg.lib, Begin(cfg.lib, cfg.address, d.first).value, d.log, SupplyCall(address, bytes));
    Pool.StepInvariant(d.pool, cfg.limit, Pool.TaskDone(k));
    KeepsRejections(d.pool, Pool.TaskDone(k));
    SupplyKeepsRound(cfg, d, k, bytes);
  }

  lemma RefusedLogIsGood(cfg: Config, d: State, address: Bytes, bytes: Bytes)
    requires Good(cfg, d) && d.session.Some? && d.session.value.Supply(cfg.lib, address, bytes).Err?
    ensures Good(cfg, d.(log := d.log + [SupplyCall(address, bytes)]))
  {
    var logged := d.(log := d.log + [SupplyCall(address, bytes)]);
    PlaySnoc(cfg.lib, Begin(cfg.lib, cfg.address, d.first).value, d.log, SupplyCall(address, bytes));
    assert Grounded(cfg, logged);
    assert PoolOk(cfg, logged);
  }

  lemma RefusedIsGood(cfg: Config, d: State, k: nat, bytes: Bytes)
    requires Good(cfg, d) && Enabled(d, ChunkReply(k, Chunk(bytes))) && !d.Freed()
    requires d.session.value.Supply(cfg.lib, d.items[d.pool.workers[k].index], bytes).Err?
    ensures Good(cfg, Step(cfg, d, ChunkReply(k, Chunk(bytes))))
  {
    var address := d.items[d.pool.workers[k].index];
    RefusedLogIsGood(cfg, d, address, bytes);
    RejectIsGood(cfg, d.(log := d.log + [SupplyCall(address, bytes)]), k,
                 Client(d.session.value.Supply(cfg.lib, address, bytes).error));
  }

  lemma StrayIsGood(cfg: Config, d: State, k: nat, bytes: Bytes)
    requires Good(cfg, d) && Enabled(d, ChunkReply(k, Chunk(bytes))) && d.Freed()
    ensures Good(cfg, Step(cfg, d, ChunkReply(k, Chunk(bytes))))
  {
    StrayMeansTwoWorkers(cfg, d, k);
    var misused := d.(misused := true);
    assert Good(cfg, misused);
    RejectIsGood(cfg, misused, k, UsedAfterFree);
  }

  lemma BytesIsGood(cfg: Config, d: State, k: nat, bytes: Bytes)
    requires Good(cfg, d) && Enabled(d, ChunkReply(k, Chunk(bytes)))
    ensures Good(cfg, Step(cfg, d, ChunkReply(k, Chunk(bytes))))
  {
    if d.Freed() {
      StrayIsGood(cfg, d, k, bytes);
    } else if d.session.value.Supply(cfg.lib, d.items[d.pool.workers[k].index], bytes).Ok? {
      SuppliedIsGood(cfg, d, k, bytes);
    } else {
      RefusedIsGood(cfg, d, k, bytes);
    }
  }

  lemma ChunkReplyIsGood(cfg: Config, d: State, k: nat, reply: Reply)
    requires Good(cfg, d) && Enabled(d, ChunkReply(k, reply))
    ensures Good(cfg, Step(cfg, d, ChunkReply(k, reply)))
  {
    match reply {
      case Failed(fault) =>
        RejectIsGood(cfg, d, k, FetchFailed(fault));
      case Absent =>
        RejectIsGood(cfg, d, k, MissingFromNetwork(d.items[d.pool.workers[k].index]));
      case Chunk(bytes) =>
        BytesIsGood(cfg, d, k, bytes);
    }
  }

  lemma StepIsGood(cfg: Config, d: State, e: Event)
    requires Good(cfg, d) && Enabled(d, e) && cfg.limit >= 1
    ensures Good(cfg, Step(cfg, d, e))
  {
    match e {
      case MapReply(reply) => MapReplyIsGood(cfg, d, reply);
      case ChunkReply(k, reply) => ChunkReplyIsGood(cfg, d, k, reply);
      case WorkerResumes(k) => WorkerResumesIsGood(cfg, d, k);
      case MainResumes => MainResumesIsGood(cfg, d);
    }
  }

  lemma InitIsGood(cfg: Config)
    ensures Good(cfg, Init())
  {
    assert Pool.Invariant(Init().pool, cfg.limit) by {
      Pool.StartInvariant(0, cfg.limit);
      assert Init().pool == Pool.Start(0, cfg.limit);
    }
  }

  lemma {:induction false} RunIsGood(cfg: Config, events: seq<Event>)
    requires Run(cfg, events).Some? && cfg.limit >= 1
    ensures Good(cfg, Run(cfg, events).value)
  {
    if events == [] {
      InitIsGood(cfg);
    } else {
      RunIsGood(cfg, events[..|events| - 1]);
      StepIsGood(cfg, Run(cfg, events[..|events| - 1]).value, events[|events| - 1]);
    }
  }
}

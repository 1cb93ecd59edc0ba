/**
 `retrieve` as it runs under an event loop: the main task and the workers of the
 current round take turns at awaits, and every reply is whatever the proxy chose
 to send. One event is everything that happens between two awaits. The number of
 concurrent requests is a parameter; the page uses `DEFAULT_CONCURRENCY`.
 */
module Driver {
  import opened Prelude
  import opened Wire
  import opened SelfEncryption
  import opened Retrieval
  import Pool = WorkerPool

  const DEFAULT_CONCURRENCY: nat := 1
  const MAX_ROUNDS: nat := 16

  datatype Config = Config(lib: Library, address: Bytes, limit: nat)

  datatype Failure =
    | NoData
    | FetchFailed(fault: Fault)
    | MissingFromNetwork(address: Address)
    | Client(error: Error)
    | UsedAfterFree
    | Stalled
    | TooManyRounds

  datatype Outcome = Plaintext(bytes: Bytes) | Threw(failure: Failure)

  datatype Progress = Progress(held: nat, total: nat)

  /** Where the main task is. Settled means that `finally` has run. */
  datatype Main = AwaitMap | AwaitRound(round: nat) | Settled(outcome: Outcome)

  /**
   `first` and `log` record what the session was given; `failure` is the first
   rejection of the round; `progress` holds the round's progress reports.
   */
  datatype State = State(
    main: Main,
    first: Bytes,
    session: Option<Session>,
    log: seq<Call>,
    items: seq<Address>,
    pool: Pool.Pool,
    failure: Option<Failure>,
    progress: seq<Progress>,
    fetchRounds: nat,
    calls: nat,
    misused: bool)
  {
    /** The WASM object is freed when `retrieve` leaves its try block. */
    predicate Freed() {
      main.Settled? && session.Some?
    }
  }

  function Init(): State {
    State(AwaitMap, [], None, [], [], Pool.Pool(0, 0, [], []), None, [], 0, 0, false)
  }

  datatype Event =
    | MapReply(reply: Reply)
    | ChunkReply(worker: nat, reply: Reply)
    | WorkerResumes(worker: nat)
    | MainResumes

  predicate Enabled(d: State, e: Event) {
    match e
    case MapReply(_) => d.main.AwaitMap?
    case ChunkReply(k, _) =>
      Pool.Enabled(d.pool, Pool.TaskDone(k)) && d.pool.workers[k].index < |d.items| && d.session.Some?
    case WorkerResumes(k) => Pool.Enabled(d.pool, Pool.TakeNext(k))
    case MainResumes =>
      d.main.AwaitRound? && d.main.round < MAX_ROUNDS && d.session.Some? &&
      (d.pool.AllReturned() || d.failure.Some?)
  }

  /** The address whose reply event `e` brings in state `d`. */
  function Asked(cfg: Config, d: State, e: Event): Bytes
    requires Enabled(d, e) && (e.MapReply? || e.ChunkReply?)
  {
    if e.MapReply? then cfg.address else d.items[d.pool.workers[e.worker].index]
  }

  function Step(cfg: Config, d: State, e: Event): State
    requires Enabled(d, e)
  {
    match e
    case MapReply(reply) => OnMap(cfg, d.(calls := d.calls + 1), reply)
    case ChunkReply(k, reply) => OnChunk(cfg, d.(calls := d.calls + 1), k, reply)
    case WorkerResumes(k) => d.(pool := Pool.Step(d.pool, Pool.TakeNext(k)))
    case MainResumes =>
      if d.failure.Some? then d.(main := Settled(Threw(d.failure.value)))
      else AfterRound(cfg, d, d.session.value, d.main.round)
  }

  function OnMap(cfg: Config, d: State, reply: Reply): State {
    match reply
    case Failed(fault) => d.(main := Settled(Threw(FetchFailed(fault))))
    case Absent => d.(main := Settled(Threw(NoData)))
    case Chunk(bytes) =>
      match Begin(cfg.lib, cfg.address, bytes)
      case Err(e) => d.(main := Settled(Threw(Client(e))))
      case Ok(s) => LoopTop(cfg, d.(first := bytes), s, 0)
  }

  /** The task of one worker, from the reply to the end of the task. */
  function OnChunk(cfg: Config, d: State, k: nat, reply: Reply): State
    requires Enabled(d, ChunkReply(k, reply))
  {
    var address := d.items[d.pool.workers[k].index];
    match reply
    case Failed(fault) => Reject(d, k, FetchFailed(fault))
    case Absent => Reject(d, k, MissingFromNetwork(address))
    case Chunk(bytes) =>
      if d.Freed() then Reject(d.(misused := true), k, UsedAfterFree)
      else
        var logged := d.(log := d.log + [SupplyCall(address, bytes)]);
        match d.session.value.Supply(cfg.lib, address, bytes)
        case Err(e) => Reject(logged, k, Client(e))
        case Ok(s) =>
          logged.(session := Some(s),
                  progress := d.progress + [Progress(s.ChunksHeld(), s.ChunkCount())],
                  pool := Pool.Step(d.pool, Pool.TaskDone(k)))
  }

  /** `Promise.all` keeps the first rejection and lets the other workers run on. */
  function Reject(d: State, k: nat, failure: Failure): State
    requires Pool.Enabled(d.pool, Pool.TaskFailed(k))
  {
    d.(pool := Pool.Step(d.pool, Pool.TaskFailed(k)),
       failure := if d.failure.Some? then d.failure else Some(failure))
  }

  /** From the head of the round loop to the next await, or to the end. */
  function LoopTop(cfg: Config, d: State, s: Session, round: nat): State
    decreases MAX_ROUNDS - round, 1
  {
    if round >= MAX_ROUNDS || s.IsComplete() then
      d.(session := Some(s), main := Settled(Conclude(cfg.lib, s)))
    else if s.Required() != [] then
      d.(session := Some(s), main := AwaitRound(round), items := s.Required(),
         pool := Pool.Start(|s.Required()|, cfg.limit), progress := [], fetchRounds := d.fetchRounds + 1)
    else
      AfterRound(cfg, d, s, round)
  }

  /** From the end of a round's fetches: advance, then back to the loop head. */
  function AfterRound(cfg: Config, d: State, s: Session, round: nat): State
    requires round < MAX_ROUNDS
    decreases MAX_ROUNDS - round, 0
  {
    var logged := d.(log := d.log + [AdvanceCall]);
    match s.Advance(cfg.lib)
    case Err(e) => logged.(session := Some(s), main := Settled(Threw(Client(e))))
    case Ok(next) =>
      if !next.IsComplete() && next.Required() == [] then
        logged.(session := Some(next), main := Settled(Threw(Stalled)))
      else
        LoopTop(cfg, logged, next, round + 1)
  }

  function Conclude(lib: Library, s: Session): Outcome {
    if !s.IsComplete() then Threw(TooManyRounds)
    else
      match s.Finish(lib)
      case Ok(plaintext) => Plaintext(plaintext)
      case Err(e) => Threw(Client(e))
  }

  /** The state after a sequence of events, when each was possible in turn. */
  function Run(cfg: Config, events: seq<Event>): Option<State> {
    if events == [] then Some(Init())
    else
      var last := events[|events| - 1];
      match Run(cfg, events[..|events| - 1])
      case None => None
      case Some(d) => if Enabled(d, last) then Some(Step(cfg, d, last)) else None
  }

  lemma RunSnoc(cfg: Config, events: seq<Event>, e: Event)
    ensures Run(cfg, events + [e]) ==
            if Run(cfg, events).Some? && Enabled(Run(cfg, events).value, e)
            then Some(Step(cfg, Run(cfg, events).value, e)) else None
  {
    assert (events + [e])[..|events|] == events;
  }
}

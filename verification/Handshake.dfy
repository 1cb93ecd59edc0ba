/**
 One request over one stream: a client task and a proxy task joined by a byte
 channel in each direction, interleaved in any order and with any delivery
 boundaries. A proxy that drops its end without having closed it and seen the
 client's close sends a RESET, which the client may see at any later moment.
 */
module Handshake {
  import opened Prelude
  import opened Wire
  import opened ProxyProtocol

  datatype Setup = Setup(source: Bytes -> Lookup, address: Address) {
    function Found(): Lookup {
      source(address)
    }
  }

  datatype Proxy = Reading(got: Bytes) | Writing(left: seq<Bytes>) | Draining | Dropped(graceful: bool)

  datatype Client = Sending | Receiving(got: Bytes) | Done(got: Bytes, reply: Reply)

  datatype State = State(
    proxy: Proxy, client: Client,
    up: Bytes, upClosed: bool,
    down: Bytes, downClosed: bool,
    reset: bool)

  const INITIAL := State(Reading([]), Sending, [], false, [], false, false)

  datatype Event =
    | ClientSends
    | ClientPulls(count: nat)
    | ClientFinishes
    | ClientSeesEnd
    | ClientSeesReset
    | ProxyReads(count: nat)
    | ProxySeesEarlyEnd
    | ProxyLooksUp
    | ProxyWrites
    | ProxyCloses
    | ProxyDrains(count: nat)
    | ProxyDrops

  predicate Enabled(s: State, e: Event) {
    match e
    case ClientSends => s.client.Sending?
    case ClientPulls(n) => s.client.Receiving? && Parse(s.client.got).Short? && 1 <= n <= |s.down|
    case ClientFinishes => s.client.Receiving? && Parse(s.client.got).Decided?
    case ClientSeesEnd => s.client.Receiving? && Parse(s.client.got).Short? && s.down == [] && s.downClosed
    case ClientSeesReset => s.client.Receiving? && Parse(s.client.got).Short? && s.reset
    case ProxyReads(n) => s.proxy.Reading? && 1 <= n <= |s.up| && |s.proxy.got| + n <= ADDRESS_LEN
    case ProxySeesEarlyEnd => s.proxy.Reading? && |s.proxy.got| < ADDRESS_LEN && s.up == [] && s.upClosed
    case ProxyLooksUp => s.proxy.Reading? && |s.proxy.got| == ADDRESS_LEN
    case ProxyWrites => s.proxy.Writing? && s.proxy.left != []
    case ProxyCloses => s.proxy.Writing? && s.proxy.left == []
    case ProxyDrains(n) => s.proxy.Draining? && 1 <= n <= 64 && n <= |s.up|
    case ProxyDrops => s.proxy.Draining? && s.up == [] && s.upClosed
  }

  function Step(cfg: Setup, s: State, e: Event): State
    requires Enabled(s, e)
  {
    match e
    case ClientSends => s.(client := Receiving([]), up := s.up + cfg.address)
    case ClientPulls(n) => s.(client := Receiving(s.client.got + s.down[..n]), down := s.down[n..])
    case ClientFinishes => Hangup(s, Parse(s.client.got).reply)
    case ClientSeesEnd => Hangup(s, ReplyOf(s.client.got, false))
    case ClientSeesReset => Hangup(s, Failed(Reset))
    case ProxyReads(n) => s.(proxy := Reading(s.proxy.got + s.up[..n]), up := s.up[n..])
    case ProxySeesEarlyEnd => Drop(s, false)
    case ProxyLooksUp =>
      (match Answer(cfg.source(s.proxy.got))
       case None => Drop(s, false)
       case Some(messages) => s.(proxy := Writing(messages)))
    case ProxyWrites => s.(proxy := Writing(s.proxy.left[1..]), down := s.down + s.proxy.left[0])
    case ProxyCloses => s.(proxy := Draining, downClosed := true)
    case ProxyDrains(n) => s.(up := s.up[n..])
    case ProxyDrops => Drop(s, s.downClosed)
  }

  /** The client's `finally`: its outcome is settled and its write side closed. */
  function Hangup(s: State, reply: Reply): State
    requires s.client.Receiving?
  {
    s.(client := Done(s.client.got, reply), upClosed := true)
  }

  /** The proxy lets go of the stream; without a graceful close that is a RESET. */
  function Drop(s: State, graceful: bool): State {
    s.(proxy := Dropped(graceful), reset := s.reset || !graceful)
  }

  /** The state after a sequence of events, when each was possible in turn. */
  function Run(cfg: Setup, events: seq<Event>): Option<State> {
    if events == [] then Some(INITIAL)
    else
      var last := events[|events| - 1];
      match Run(cfg, events[..|events| - 1])
      case None => None
      case Some(s) => if Enabled(s, last) then Some(Step(cfg, s, last)) else None
  }

  predicate Terminal(s: State) {
    s.proxy.Dropped? && s.client.Done?
  }

  // ----- Invariant -----

  ghost function Received(c: Client): Bytes {
    if c.Sending? then [] else c.got
  }

  ghost function Ahead(messages: seq<Bytes>, p: Proxy): seq<Bytes> {
    match p
    case Reading(_) => messages
    case Writing(left) => left
    case _ => []
  }

  /** The request is in the client's hands, on the way, or with the proxy; whole and once. */
  ghost predicate RequestIntact(cfg: Setup, s: State) {
    if s.proxy.Reading? then
      s.proxy.got + s.up == if s.client.Sending? then [] else cfg.address
    else
      s.up == [] && !s.client.Sending?
  }

  /** The lookup has an answer. Its bytes are conserved, and the close order holds. */
  ghost predicate Serving(cfg: Setup, messages: seq<Bytes>, s: State) {
    && RequestIntact(cfg, s)
    && !s.reset
    && Received(s.client) + s.down + Flatten(Ahead(messages, s.proxy)) == Flatten(messages)
    && (s.upClosed <==> s.client.Done?)
    && (s.downClosed <==> s.proxy.Draining? || s.proxy.Dropped?)
    && (s.client.Done? ==> s.client.got == Flatten(messages) && s.client.reply == Expected(cfg.Found()))
    && (s.proxy.Dropped? ==> s.proxy.graceful && s.client.Done?)
  }

  /** The lookup has none: the proxy drops the stream and the client sees a reset. */
  ghost predicate GivingUp(cfg: Setup, s: State) {
    && RequestIntact(cfg, s)
    && (s.proxy == Dropped(false) || s.proxy.Reading?)
    && (s.reset <==> s.proxy.Dropped?)
    && s.down == [] && !s.downClosed && Received(s.client) == []
    && (s.upClosed <==> s.client.Done?)
    && (s.client.Done? ==> s.reset && s.client.reply == Failed(Reset))
  }

  ghost predicate Invariant(cfg: Setup, s: State) {
    match Answer(cfg.Found())
    case Some(messages) => Serving(cfg, messages, s)
    case None => GivingUp(cfg, s)
  }

  /** The client holds a prefix of the answer; it stops pulling only at the end. */
  lemma ClientHoldsPrefix(cfg: Setup, messages: seq<Bytes>, s: State)
    requires Answer(cfg.Found()) == Some(messages) && Serving(cfg, messages, s)
    ensures var got := Received(s.client);
            if got == Flatten(messages) then Parse(got) == Decided(Expected(cfg.Found())) else Parse(got).Short?
  {
    var got, flat := Received(s.client), Flatten(messages);
    assert got <= flat;
    assert flat[..|got|] == got;
    AnswerDecidesOnlyWhole(cfg.Found(), |got|);
  }

  lemma ServingClientStep(cfg: Setup, messages: seq<Bytes>, s: State, e: Event)
    requires Answer(cfg.Found()) == Some(messages) && Serving(cfg, messages, s) && Enabled(s, e)
    requires e.ClientSends? || e.ClientPulls? || e.ClientFinishes? || e.ClientSeesEnd? || e.ClientSeesReset?
    ensures Serving(cfg, messages, Step(cfg, s, e))
  {
    ClientHoldsPrefix(cfg, messages, s);
    match e {
      case ClientPulls(n) =>
        assert s.down == s.down[..n] + s.down[n..];
        assert s.client.got + s.down == s.client.got + s.down[..n] + s.down[n..];
      case _ =>
    }
  }

  lemma ServingProxyStep(cfg: Setup, messages: seq<Bytes>, s: State, e: Event)
    requires Answer(cfg.Found()) == Some(messages) && Serving(cfg, messages, s) && Enabled(s, e)
    requires !(e.ClientSends? || e.ClientPulls? || e.ClientFinishes? || e.ClientSeesEnd? || e.ClientSeesReset?)
    ensures Serving(cfg, messages, Step(cfg, s, e))
  {
    match e {
      case ProxyReads(n) =>
        assert s.proxy.got + s.up == s.proxy.got + s.up[..n] + s.up[n..];
      case ProxyLooksUp =>
        assert s.proxy.got == cfg.address;
      case ProxyWrites =>
        var left := s.proxy.left;
        assert Received(s.client) + s.down + (left[0] + Flatten(left[1..]))
            == Received(s.client) + (s.down + left[0]) + Flatten(left[1..]);
      case ProxySeesEarlyEnd =>
        ClientHoldsPrefix(cfg, messages, s);
      case _ =>
    }
  }

  lemma GivingUpStep(cfg: Setup, s: State, e: Event)
    requires Answer(cfg.Found()) == None && GivingUp(cfg, s) && Enabled(s, e)
    ensures GivingUp(cfg, Step(cfg, s, e))
  {
    match e {
      case ProxyReads(n) =>
        assert s.proxy.got + s.up == s.proxy.got + s.up[..n] + s.up[n..];
      case ProxyLooksUp =>
        assert s.proxy.got == cfg.address;
      case _ =>
    }
  }

  lemma {:induction false} RunInvariant(cfg: Setup, events: seq<Event>)
    requires Run(cfg, events).Some?
    ensures Invariant(cfg, Run(cfg, events).value)
  {
    if events != [] {
      var s, e := Run(cfg, events[..|events| - 1]).value, events[|events| - 1];
      RunInvariant(cfg, events[..|events| - 1]);
      match Answer(cfg.Found()) {
        case None => GivingUpStep(cfg, s, e);
        case Some(messages) =>
          if e.ClientSends? || e.ClientPulls? || e.ClientFinishes? || e.ClientSeesEnd? || e.ClientSeesReset? {
            ServingClientStep(cfg, messages, s, e);
          } else {
            ServingProxyStep(cfg, messages, s, e);
          }
      }
    }
  }

  // ----- What that means -----

  /**
   When the lookup has an answer: in every interleaving no RESET is ever sent, the
   client closes its side only with the whole answer in hand, and the proxy drops
   the stream only after that close.
   */
  lemma DropOnlyAfterClientIsDone(cfg: Setup, events: seq<Event>)
    requires Run(cfg, events).Some? && Answer(cfg.Found()).Some?
    ensures var s := Run(cfg, events).value;
            && !s.reset
            && (s.upClosed ==> Received(s.client) == Flatten(Answer(cfg.Found()).value))
            && (s.proxy.Dropped? ==> s.proxy.graceful && s.upClosed && s.downClosed && s.up == [] && s.down == [])
  {
    RunInvariant(cfg, events);
  }

  /** However a run goes, once both sides are finished the client has the expected reply. */
  lemma FinishedMeansExpected(cfg: Setup, events: seq<Event>)
    requires Run(cfg, events).Some? && Terminal(Run(cfg, events).value)
    ensures var s := Run(cfg, events).value;
            s.client.reply == Expected(cfg.Found()) && (s.proxy.graceful <==> Answer(cfg.Found()).Some?)
  {
    RunInvariant(cfg, events);
  }

  /** Some interleaving sends a RESET exactly when the lookup fails or the chunk is too large. */
  lemma ResetIffNoAnswer(cfg: Setup)
    ensures (exists events :: Run(cfg, events).Some? && Run(cfg, events).value.reset) <==>
            cfg.Found().LookupFailed? || (cfg.Found().Stored? && |cfg.Found().data| > MAX_RESPONSE_LEN)
  {
    if events :| Run(cfg, events).Some? && Run(cfg, events).value.reset {
      RunInvariant(cfg, events);
    }
    if Answer(cfg.Found()).None? {
      var events := RefusalResets(cfg);
    }
  }

  lemma RunSnoc(cfg: Setup, events: seq<Event>, e: Event)
    requires Run(cfg, events).Some? && Enabled(Run(cfg, events).value, e)
    ensures Run(cfg, events + [e]) == Some(Step(cfg, Run(cfg, events).value, e))
  {
    assert (events + [e])[..|events|] == events;
  }

  lemma Then(cfg: Setup, events: seq<Event>, s: State, e: Event) returns (longer: seq<Event>)
    requires Run(cfg, events) == Some(s) && Enabled(s, e)
    ensures Run(cfg, longer) == Some(Step(cfg, s, e))
  {
    RunSnoc(cfg, events, e);
    longer := events + [e];
  }

  lemma RefusalResets(cfg: Setup) returns (events: seq<Event>)
    requires Answer(cfg.Found()).None?
    ensures Run(cfg, events).Some? && Run(cfg, events).value.reset
  {
    events := Then(cfg, [], INITIAL, ClientSends);
    var sent := Step(cfg, INITIAL, ClientSends);
    assert sent.up == cfg.address;
    events := Then(cfg, events, sent, ProxyReads(ADDRESS_LEN));
    var read := Step(cfg, sent, ProxyReads(ADDRESS_LEN));
    assert read.proxy.got == cfg.address;
    events := Then(cfg, events, read, ProxyLooksUp);
  }

  /** Neither side ever waits for the other forever: a run not finished can go on. */
  lemma NoDeadlock(cfg: Setup, events: seq<Event>) returns (e: Event)
    requires Run(cfg, events).Some? && !Terminal(Run(cfg, events).value)
    ensures Enabled(Run(cfg, events).value, e)
  {
    var s := Run(cfg, events).value;
    RunInvariant(cfg, events);
    if s.client.Sending? {
      return ClientSends;
    }
    match s.proxy {
      case Reading(got) =>
        e := if |got| == ADDRESS_LEN then ProxyLooksUp else ProxyReads(1);
      case Writing(left) =>
        e := if left == [] then ProxyCloses else ProxyWrites;
      case Draining =>
        ClientHoldsPrefix(cfg, Answer(cfg.Found()).value, s);
        e := if s.client.Done? then ProxyDrops
             else if Parse(s.client.got).Decided? then ClientFinishes
             else ClientPulls(1);
      case Dropped(_) =>
        e := ClientSeesReset;
    }
  }

  /** Steps still to come: bytes to move, messages to write, closes and the drop. */
  ghost function Remaining(cfg: Setup, s: State): int {
    var messages := if Answer(cfg.Found()).Some? then Answer(cfg.Found()).value else [];
    (match s.client
     case Sending => |Flatten(messages)| + 2
     case Receiving(got) => |Flatten(messages)| - |got| + 1
     case Done(_, _) => 0) +
    (match s.proxy
     case Reading(got) => ADDRESS_LEN - |got| + |messages| + 3
     case Writing(left) => |left| + 2
     case Draining => 1
     case Dropped(_) => 0)
  }

  /** Every step uses up some of what remains, so every run comes to an end. */
  lemma EveryStepCounts(cfg: Setup, events: seq<Event>, e: Event)
    requires Run(cfg, events).Some? && Enabled(Run(cfg, events).value, e)
    ensures var s := Run(cfg, events).value;
            0 <= Remaining(cfg, Step(cfg, s, e)) < Remaining(cfg, s)
  {
    var s := Run(cfg, events).value;
    RunInvariant(cfg, events);
    RunSnoc(cfg, events, e);
    RunInvariant(cfg, events + [e]);
    if s.proxy.Reading? && |s.proxy.got| == ADDRESS_LEN && !s.client.Sending? {
      assert s.proxy.got == cfg.address;
    }
  }

  /** Any run can be carried on until both sides are finished. */
  lemma {:induction false} RunToEnd(cfg: Setup, events: seq<Event>) returns (all: seq<Event>)
    requires Run(cfg, events).Some?
    ensures Run(cfg, all).Some? && Terminal(Run(cfg, all).value)
    decreases Remaining(cfg, Run(cfg, events).value)
  {
    if Terminal(Run(cfg, events).value) {
      return events;
    }
    var e := NoDeadlock(cfg, events);
    EveryStepCounts(cfg, events, e);
    RunSnoc(cfg, events, e);
    all := RunToEnd(cfg, events + [e]);
  }

  /** The pieces the client pulled off the stream, in order. */
  ghost function Deliveries(cfg: Setup, events: seq<Event>): seq<Bytes>
    requires Run(cfg, events).Some?
  {
    if events == [] then []
    else
      var earlier, last := events[..|events| - 1], events[|events| - 1];
      var pieces := Deliveries(cfg, earlier);
      if last.ClientPulls? then pieces + [Run(cfg, earlier).value.down[..last.count]] else pieces
  }

  lemma {:induction false} DeliveriesAreReceived(cfg: Setup, events: seq<Event>)
    requires Run(cfg, events).Some?
    ensures Flatten(Deliveries(cfg, events)) == Received(Run(cfg, events).value.client)
  {
    if events != [] {
      var earlier, last := events[..|events| - 1], events[|events| - 1];
      DeliveriesAreReceived(cfg, earlier);
      if last.ClientPulls? {
        FlattenSnoc(Deliveries(cfg, earlier), Run(cfg, earlier).value.down[..last.count]);
      }
    }
  }
}

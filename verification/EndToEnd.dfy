/**
 A local file served by a proxy and fetched by the page: whatever the
 interleaving, the fragmentation and the concurrency limit, the page gets the
 file back.
 */
module EndToEnd {
  import opened Prelude
  import opened Wire
  import opened ProxyProtocol
  import opened SelfEncryption
  import opened Retrieval
  import opened Driver
  import opened Fixture
  import opened HonestRuns
  import opened RetrieveLoop
  import opened Blame
  import Handshake

  /** What `encrypt` produced for `content`, and its data map's encoding. */
  datatype Upload = Upload(content: Bytes, dataMap: DataMap, encrypted: seq<Bytes>, serialized: Bytes) {

    ghost predicate ProducedBy(lib: Library) {
      lib.encrypt(content) == Some((dataMap, encrypted)) && lib.encodeMap(dataMap) == Some(serialized)
    }

    function Blobs(): seq<Bytes> {
      encrypted + [serialized]
    }

    function Store(lib: Library): Chunks {
      Index(lib, Blobs())
    }

    /** The map that lists the content chunks: the data map, or what its wrapper chunks hold. */
    ghost function Root(lib: Library): Option<DataMap> {
      var held := Index(lib, encrypted);
      if !dataMap.IsChild() then Some(dataMap)
      else if Collect(dataMap.infos, held).Err? then None
      else lib.unwrap(dataMap, Collect(dataMap.infos, held).value)
    }

    /** Decoding undoes encoding, and decrypting the listed chunks undoes encrypting. */
    ghost predicate Invertible(lib: Library) {
      var held := Index(lib, encrypted);
      && lib.decodeMap(serialized) == Some(dataMap)
      && Covers(held, dataMap.infos)
      && Root(lib).Some?
      && Covers(held, Root(lib).value.infos)
      && Collect(Root(lib).value.infos, held).Ok?
      && lib.decrypt(Root(lib).value, Collect(Root(lib).value.infos, held).value) == Some(content)
    }

    /** At most one level of wrapper chunks, which the library is willing to follow. */
    ghost predicate ShrunkAtMostOnce(lib: Library) {
      Root(lib).Some? ==> !Root(lib).value.IsChild() && (dataMap.IsChild() ==> lib.maxLevels >= 1)
    }

    ghost predicate Sendable() {
      forall x :: x in Blobs() ==> |x| <= MAX_RESPONSE_LEN
    }
  }

  ghost predicate Recoverable(lib: Library, up: Upload) {
    && up.Invertible(lib) && up.ShrunkAtMostOnce(lib) && up.Sendable()
    && NoCollisions(lib, Contents(up.Blobs()))
  }

  lemma StoreHoldsChunks(lib: Library, up: Upload)
    requires NoCollisions(lib, Contents(up.Blobs()))
    ensures Within(Index(lib, up.encrypted), up.Store(lib)) && ContentAddressed(lib, up.Store(lib))
    ensures lib.hash(up.serialized) in up.Store(lib) && up.Store(lib)[lib.hash(up.serialized)] == up.serialized
    ensures forall a :: a in up.Store(lib) ==> up.Store(lib)[a] in up.Blobs()
  {
    assert Contents(up.encrypted) <= Contents(up.Blobs());
    assert up.serialized in up.Blobs();
    IndexKeepsEveryBlob(lib, up.Blobs());
    IndexKeepsEveryBlob(lib, up.encrypted);
  }

  lemma FitsBecauseHeld(lib: Library, up: Upload, infos: seq<ChunkInfo>)
    requires NoCollisions(lib, Contents(up.Blobs())) && up.Sendable()
    requires Covers(Index(lib, up.encrypted), infos)
    ensures Fits(up.Store(lib), infos) && Collect(infos, up.Store(lib)) == Collect(infos, Index(lib, up.encrypted))
  {
    StoreHoldsChunks(lib, up);
    CollectInOrder(infos, Index(lib, up.encrypted));
    CollectMonotone(infos, Index(lib, up.encrypted), up.Store(lib));
  }

  /** The fixture's store answers everything a retrieval asks, and the outcome is the content. */
  lemma FixtureIsRetrievable(lib: Library, up: Upload)
    requires Recoverable(lib, up)
    ensures Complete(lib, up.Store(lib), lib.hash(up.serialized), up.dataMap)
    ensures HonestOutcome(lib, up.Store(lib), up.dataMap) == Plaintext(up.content)
  {
    var store, root := up.Store(lib), up.Root(lib).value;
    StoreHoldsChunks(lib, up);
    FitsBecauseHeld(lib, up, up.dataMap.infos);
    FitsBecauseHeld(lib, up, root.infos);
    ListedCollects(store, up.dataMap.infos);
    if up.dataMap.IsChild() {
      assert RootMap(lib, root, Listed(store, up.dataMap.infos), lib.maxLevels - 1) == Some(root);
    }
    assert ReachableRoot(lib, store, up.dataMap) == Some(root);
  }

  /**
   Every run of `retrieve` at any limit, each of whose requests went over the wire
   to a proxy serving this upload, ends with the content if it ends; and any such
   run can be carried on to its end.
   */
  lemma FileComesBack(lib: Library, up: Upload, limit: nat, events: seq<Event>) returns (all: seq<Event>)
    requires Recoverable(lib, up) && limit >= 1
    requires Run(Config(lib, lib.hash(up.serialized), limit), events).Some?
    requires Honest(Config(lib, lib.hash(up.serialized), limit), up.Store(lib), events)
    ensures var cfg := Config(lib, lib.hash(up.serialized), limit);
            && (Run(cfg, events).value.main.Settled? ==> Run(cfg, events).value.main.outcome == Plaintext(up.content))
            && Run(cfg, all).Some? && Honest(cfg, up.Store(lib), all) && events <= all
            && Run(cfg, all).value.main == Settled(Plaintext(up.content))
  {
    var cfg := Config(lib, lib.hash(up.serialized), limit);
    FixtureIsRetrievable(lib, up);
    HonestRunsAgree(cfg, up.Store(lib), up.dataMap, events);
    all := HonestRunSettles(cfg, up.Store(lib), up.dataMap, events);
  }

  // ----- What is not there -----

  /** The store holds what the blobs hash to, and each of its chunks is a blob. */
  lemma StoreIffBlob(lib: Library, up: Upload, a: Bytes)
    ensures a in up.Store(lib) <==> exists x :: x in up.Blobs() && lib.hash(x) == a
    ensures a in up.Store(lib) ==> up.Store(lib)[a] in up.Blobs()
  {
    FindIsTrue(lib, up.Blobs(), a);
    TrueAnswers(lib, up.Blobs(), a, Find(up.Store(lib), a));
  }

  /**
   For an address that neither a chunk of the upload nor its data map hashes to,
   every run whose requests went over the wire ends with the no-data error if it
   ends, and can be carried on to its end.
   */
  lemma UnknownAddressIsNoData(lib: Library, up: Upload, address: Address, limit: nat, events: seq<Event>)
    returns (all: seq<Event>)
    requires limit >= 1 && forall x :: x in up.Blobs() ==> lib.hash(x) != address
    requires Run(Config(lib, address, limit), events).Some?
    requires Honest(Config(lib, address, limit), up.Store(lib), events)
    ensures var cfg, thrown := Config(lib, address, limit), Settled(Threw(NoData));
            && (Run(cfg, events).value.main.Settled? ==> Run(cfg, events).value.main == thrown)
            && Run(cfg, all).Some? && Honest(cfg, up.Store(lib), all) && events <= all
            && Run(cfg, all).value.main == thrown
  {
    var cfg := Config(lib, address, limit);
    StoreIffBlob(lib, up, address);
    all := HonestRunGoesOn(cfg, up.Store(lib), events);
    AbsentAddressIsNoData(cfg, up.Store(lib), all);
    if events != [] {
      AbsentAddressIsNoData(cfg, up.Store(lib), events);
    }
  }

  /** An upload whose data map lists something that none of its chunks hashes to. */
  ghost predicate LacksChunk(lib: Library, up: Upload, a: Bytes) {
    Lists(up.dataMap, a) && forall x :: x in up.Blobs() ==> lib.hash(x) != a
  }

  /** Every run for such an upload that ends, at any limit, has thrown for a wanted address that is not there. */
  lemma MissingChunkIsNamed(lib: Library, up: Upload, limit: nat, events: seq<Event>, lacking: Bytes)
    returns (named: Address)
    requires lib.decodeMap(up.serialized) == Some(up.dataMap) && up.Sendable() && limit >= 1
    requires LacksChunk(lib, up, lacking)
    requires Run(Config(lib, lib.hash(up.serialized), limit), events).Some?
    requires Honest(Config(lib, lib.hash(up.serialized), limit), up.Store(lib), events)
    requires Run(Config(lib, lib.hash(up.serialized), limit), events).value.main.Settled?
    ensures Run(Config(lib, lib.hash(up.serialized), limit), events).value.main ==
            Settled(Threw(MissingFromNetwork(named)))
    ensures Wants(lib, up.Store(lib), up.dataMap, named) && forall x :: x in up.Blobs() ==> lib.hash(x) != named
  {
    var cfg, store := Config(lib, lib.hash(up.serialized), limit), up.Store(lib);
    assert store[cfg.address] == up.serialized && up.serialized in up.Blobs();
    IndexIsContentAddressed(lib, up.Blobs());
    MissingChunkIsReported(cfg, store, up.dataMap, events);
    StoreIffBlob(lib, up, lacking);
    assert !Servable(store, lacking) && Wants(lib, store, up.dataMap, lacking);
    var a :| Wants(lib, store, up.dataMap, a) && !Servable(store, a) &&
             ThrewFor(Run(cfg, events).value.main.outcome, store, a);
    StoreIffBlob(lib, up, a);
    named := a;
  }

  // ----- The same for the page's own loop -----

  /** `net` carries the source's answers, cut into pieces any way at all. */
  ghost predicate Carries(net: Network, source: Bytes -> Lookup) {
    forall call, address: Address :: Faithful(net(call, address), source(address))
  }

  ghost predicate Faithful(delivery: Delivery, found: Lookup) {
    Answer(found).Some? ==>
      delivery.Opened? && delivery.sendable && Flatten(delivery.pieces) == Flatten(Answer(found).value)
  }

  /** Fragmentation does not matter: the reply is the one the answer was meant to give. */
  lemma CarriedReply(delivery: Delivery, found: Lookup, address: Address)
    requires Faithful(delivery, found) && Answer(found).Some?
    ensures ReplyTo(delivery, address) == Expected(found)
  {
    var flat := Flatten(Answer(found).value);
    AnswerDecidesOnlyWhole(found, |flat|);
    assert flat[..|flat|] == flat;
  }

  /** What a complete request delivers, piece by piece, is such a delivery. */
  lemma RequestsAreFaithful(cfg: Handshake.Setup, steps: seq<Handshake.Event>, breaks: bool)
    requires Handshake.Run(cfg, steps).Some? && Handshake.Terminal(Handshake.Run(cfg, steps).value)
    ensures Faithful(Opened(Handshake.Deliveries(cfg, steps), breaks, true), cfg.Found())
  {
    Handshake.DeliveriesAreReceived(cfg, steps);
    Handshake.RunInvariant(cfg, steps);
  }

  /** `delivery` brings the bytes that one complete request delivered, perhaps cut up again. */
  ghost predicate DeliversRequest(delivery: Delivery, cfg: Handshake.Setup, steps: seq<Handshake.Event>) {
    && Handshake.Run(cfg, steps).Some? && Handshake.Terminal(Handshake.Run(cfg, steps).value)
    && delivery.Opened? && delivery.sendable
    && Flatten(delivery.pieces) == Flatten(Handshake.Deliveries(cfg, steps))
  }

  /** If the proxy has an answer, the delivery is that of some complete request. */
  ghost predicate Requested(delivery: Delivery, source: Bytes -> Lookup, address: Address) {
    Answer(source(address)).Some? ==>
      exists steps :: DeliversRequest(delivery, Handshake.Setup(source, address), steps)
  }

  /** Every call the proxy answers is a complete request between the two tasks. */
  ghost predicate OverTheWire(net: Network, source: Bytes -> Lookup) {
    forall call, address: Address :: Requested(net(call, address), source, address)
  }

  lemma FaithfulIffRequested(delivery: Delivery, source: Bytes -> Lookup, address: Address)
    ensures Faithful(delivery, source(address)) <==> Requested(delivery, source, address)
  {
    var cfg := Handshake.Setup(source, address);
    if Answer(cfg.Found()).Some? {
      if steps :| DeliversRequest(delivery, cfg, steps) {
        RequestsAreFaithful(cfg, steps, false);
      }
      if Faithful(delivery, cfg.Found()) {
        var steps := Handshake.RunToEnd(cfg, []);
        RequestsAreFaithful(cfg, steps, false);
        assert DeliversRequest(delivery, cfg, steps);
      }
    }
  }

  /** Carrying the answers and running the request protocol come to the same. */
  lemma CarriesIffOverTheWire(net: Network, source: Bytes -> Lookup)
    ensures Carries(net, source) <==> OverTheWire(net, source)
  {
    forall call: nat, address: Address
      ensures Faithful(net(call, address), source(address)) <==> Requested(net(call, address), source, address)
    {
      FaithfulIffRequested(net(call, address), source, address);
    }
  }

  lemma {:induction false} CarriedRunIsHonest(cfg: Config, net: Network, store: Chunks, source: Bytes -> Lookup,
                                              events: seq<Event>)
    requires Run(cfg, events).Some? && Obeys(cfg, net, events) && Carries(net, source)
    requires |cfg.address| == ADDRESS_LEN && forall a :: source(a) == Find(store, a)
    requires forall a :: a in store ==> |store[a]| <= MAX_RESPONSE_LEN
    ensures Honest(cfg, store, events)
  {
    if events != [] {
      var earlier, last := events[..|events| - 1], events[|events| - 1];
      CarriedRunIsHonest(cfg, net, store, source, earlier);
      if last.MapReply? || last.ChunkReply? {
        var d := Run(cfg, earlier).value;
        var asked := Asked(cfg, d, last);
        CarriedReply(net(d.calls, asked), source(asked), asked);
        ServedByStore(store, asked);
      }
    }
  }

  /** A settled run of the page against the fixture's proxy has the content. */
  lemma PageGetsContent(lib: Library, up: Upload, net: Network, source: Bytes -> Lookup, events: seq<Event>)
    requires Recoverable(lib, up) && OverTheWire(net, source)
    requires forall a :: source(a) == Find(up.Store(lib), a)
    requires var cfg := Config(lib, lib.hash(up.serialized), DEFAULT_CONCURRENCY);
             Run(cfg, events).Some? && Obeys(cfg, net, events) && Run(cfg, events).value.main.Settled?
    ensures Run(Config(lib, lib.hash(up.serialized), DEFAULT_CONCURRENCY), events).value.main ==
            Settled(Plaintext(up.content))
  {
    var cfg := Config(lib, lib.hash(up.serialized), DEFAULT_CONCURRENCY);
    StoreHoldsChunks(lib, up);
    FixtureIsRetrievable(lib, up);
    CarriesIffOverTheWire(net, source);
    CarriedRunIsHonest(cfg, net, up.Store(lib), source, events);
    HonestRunsAgree(cfg, up.Store(lib), up.dataMap, events);
  }

  /**
   A proxy is started on `content` and the page fetches the address it prints,
   each request being one between the page's client and the proxy serving the
   fixture: the page gets `content`. Nothing is fetched when the fixture cannot
   be built.
   */
  method ServeAndFetch(lib: Library, content: Bytes, network: (Bytes -> Lookup) -> Network)
    returns (r: Option<Outcome>)
    requires forall source :: OverTheWire(network(source), source)
    requires forall up: Upload :: up.content == content && up.ProducedBy(lib) ==> Recoverable(lib, up)
    ensures r == if lib.encrypt(content).Some? && lib.encodeMap(lib.encrypt(content).value.0).Some?
                 then Some(Plaintext(content)) else None
  {
    var built := FixtureSource.New(lib, content);
    if built.Err? {
      return None;
    }
    var fixture := built.value;
    var source := fixture.Get;
    var outcome, events := Retrieve(lib, network(source), fixture.dataMapAddress);
    ghost var (dataMap, encrypted) := lib.encrypt(content).value;
    ghost var up := Upload(content, dataMap, encrypted, lib.encodeMap(dataMap).value);
    assert up.ProducedBy(lib);
    PageGetsContent(lib, up, network(source), source, events);
    r := Some(outcome);
  }

  lemma {:induction false} FirstReplyObeys(cfg: Config, net: Network, events: seq<Event>)
    requires Run(cfg, events).Some? && Obeys(cfg, net, events) && events != []
    ensures events[0] == MapReply(ReplyTo(net(0, cfg.address), cfg.address))
  {
    var earlier := events[..|events| - 1];
    if earlier == [] {
      assert events[0].MapReply?;
    } else {
      FirstReplyObeys(cfg, net, earlier);
    }
  }

  /**
   What the page throws for the bytes the first call delivers: no data exactly when
   they start with 0x01, a rejected map exactly when they carry a chunk that does
   not hash to the address.
   */
  lemma PageErrors(cfg: Config, net: Network, events: seq<Event>)
    requires cfg.limit >= 1
    requires Run(cfg, events).Some? && Obeys(cfg, net, events) && Run(cfg, events).value.main.Settled?
    ensures var main, first := Run(cfg, events).value.main, net(0, cfg.address);
            && (main == Settled(Threw(NoData)) <==>
                |cfg.address| == 32 && first.Opened? && first.sendable &&
                Flatten(first.pieces) != [] && Flatten(first.pieces)[0] == 0x01)
            && (main == Settled(Threw(Client(MapRejected))) <==>
                |cfg.address| == 32 && first.Opened? && first.sendable &&
                exists data :: CarriesData(Flatten(first.pieces), data) && cfg.lib.hash(data) != cfg.address)
  {
    var first := net(0, cfg.address);
    MapErrors(cfg, events);
    FirstReplyObeys(cfg, net, events);
    if first.Opened? {
      ReplyTrichotomy(Flatten(first.pieces), first.breaks);
    }
  }

  /**
   The page asks the same proxy for any address. If nothing of the upload hashes
   to it, the page reports that there is no data; an address of the wrong length
   is refused before anything is sent.
   */
  method ServeAndMiss(lib: Library, content: Bytes, network: (Bytes -> Lookup) -> Network, address: Bytes)
    returns (r: Option<Outcome>)
    requires forall source :: OverTheWire(network(source), source)
    requires forall up: Upload :: up.content == content && up.ProducedBy(lib) ==> up.Sendable()
    ensures forall up: Upload :: up.content == content && up.ProducedBy(lib) ==>
              && (|address| != 32 ==> r == Some(Threw(FetchFailed(BadAddress(|address|)))))
              && (|address| == 32 && (forall x :: x in up.Blobs() ==> lib.hash(x) != address) ==>
                    r == Some(Threw(NoData)))
  {
    var built := FixtureSource.New(lib, content);
    if built.Err? {
      return None;
    }
    var fixture := built.value;
    var source := fixture.Get;
    var outcome, events := Retrieve(lib, network(source), address);
    r := Some(outcome);
    ghost var cfg := Config(lib, address, DEFAULT_CONCURRENCY);
    ghost var (dataMap, encrypted) := lib.encrypt(content).value;
    ghost var up := Upload(content, dataMap, encrypted, lib.encodeMap(dataMap).value);
    assert up.ProducedBy(lib);
    PageMisses(cfg, up, network(source), source, events);
  }

  /** A settled run of the page for an address of the wrong length, or one that the fixture lacks. */
  lemma PageMisses(cfg: Config, up: Upload, net: Network, source: Bytes -> Lookup, events: seq<Event>)
    requires cfg.limit >= 1 && up.Sendable() && OverTheWire(net, source)
    requires forall a :: source(a) == Find(up.Store(cfg.lib), a)
    requires Run(cfg, events).Some? && Obeys(cfg, net, events) && Run(cfg, events).value.main.Settled?
    ensures |cfg.address| != 32 ==>
              Run(cfg, events).value.main == Settled(Threw(FetchFailed(BadAddress(|cfg.address|))))
    ensures |cfg.address| == 32 && (forall x :: x in up.Blobs() ==> cfg.lib.hash(x) != cfg.address) ==>
              Run(cfg, events).value.main == Settled(Threw(NoData))
  {
    var store := up.Store(cfg.lib);
    FirstReplyObeys(cfg, net, events);
    ChunkErrors(cfg, events);
    if |cfg.address| == 32 {
      forall a | a in store ensures |store[a]| <= MAX_RESPONSE_LEN {
        StoreIffBlob(cfg.lib, up, a);
      }
      CarriesIffOverTheWire(net, source);
      CarriedRunIsHonest(cfg, net, store, source, events);
      StoreIffBlob(cfg.lib, up, cfg.address);
      if cfg.address !in store {
        AbsentAddressIsNoData(cfg, store, events);
      }
    }
  }
}

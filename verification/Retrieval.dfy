/**
 The WASM client's state machine. `Session` is its state as a value with every
 operation as a function; the class updates the same state in place and is
 proved against those functions. The theorems range over every sequence of calls.
 */
module Retrieval {
  import opened Prelude
  import opened SelfEncryption

  datatype Error =
    | AddressLength(got: nat)
    | MapRejected
    | NotADataMap
    | ChunkRejected(address: Address)
    | RootUnresolved
    | Incomplete
    | MissingChunk(address: Address)
    | DecryptFailed

  /** The addresses a map lists that are not held, in map order, duplicates kept. */
  function Missing(infos: seq<ChunkInfo>, cache: Chunks): seq<Address> {
    if infos == [] then []
    else (if infos[0].dstHash in cache then [] else [infos[0].dstHash]) + Missing(infos[1..], cache)
  }

  function CountHeld(infos: seq<ChunkInfo>, cache: Chunks): nat {
    if infos == [] then 0
    else (if infos[0].dstHash in cache then 1 else 0) + CountHeld(infos[1..], cache)
  }

  datatype Session = Session(dataMap: DataMap, rootResolved: bool, cache: Chunks) {

    function Required(): seq<Address> {
      Missing(dataMap.infos, cache)
    }

    predicate IsComplete() {
      rootResolved && Required() == []
    }

    function ChunkCount(): nat {
      |dataMap.infos|
    }

    function ChunksHeld(): nat {
      CountHeld(dataMap.infos, cache)
    }

    function Supply(lib: Library, address: Bytes, bytes: Bytes): Result<Session, Error> {
      if |address| != ADDRESS_LEN then Err(AddressLength(|address|))
      else if lib.hash(bytes) != address then Err(ChunkRejected(address))
      else Ok(this.(cache := cache[address := bytes]))
    }

    function Advance(lib: Library): Result<Session, Error> {
      if rootResolved || Required() != [] then Ok(this)
      else
        match RootMap(lib, dataMap, cache, lib.maxLevels)
        case None => Err(RootUnresolved)
        case Some(root) => Ok(this.(dataMap := root, rootResolved := true))
    }

    function Finish(lib: Library): Result<Bytes, Error> {
      if !IsComplete() then Err(Incomplete)
      else
        match Collect(dataMap.infos, cache)
        case Err(address) => Err(MissingChunk(address))
        case Ok(chunks) =>
          match lib.decrypt(dataMap, chunks)
          case None => Err(DecryptFailed)
          case Some(plaintext) => Ok(plaintext)
    }

    ghost predicate Valid(lib: Library) {
      ContentAddressed(lib, cache) && (rootResolved <==> !dataMap.IsChild())
    }
  }

  function Begin(lib: Library, address: Bytes, bytes: Bytes): Result<Session, Error> {
    if |address| != ADDRESS_LEN then Err(AddressLength(|address|))
    else if lib.hash(bytes) != address then Err(MapRejected)
    else
      match lib.decodeMap(bytes)
      case None => Err(NotADataMap)
      case Some(dataMap) => Ok(Session(dataMap, !dataMap.IsChild(), map[]))
  }

  // ----- Counting and the required list -----

  lemma {:induction false} MissingSnoc(infos: seq<ChunkInfo>, info: ChunkInfo, cache: Chunks)
    ensures info.dstHash in cache ==> Missing(infos + [info], cache) == Missing(infos, cache)
    ensures info.dstHash !in cache ==> Missing(infos + [info], cache) == Missing(infos, cache) + [info.dstHash]
  {
    if infos == [] {
      assert infos + [info] == [info];
      assert Missing([info], cache) == (if info.dstHash in cache then [] else [info.dstHash]) + Missing([], cache);
    } else {
      MissingSnoc(infos[1..], info, cache);
      assert (infos + [info])[1..] == infos[1..] + [info];
    }
  }

  /** Held and still-required always add up to the map's size, duplicates included. */
  lemma {:induction false} CountingLaw(infos: seq<ChunkInfo>, cache: Chunks)
    ensures CountHeld(infos, cache) + |Missing(infos, cache)| == |infos|
    ensures Missing(infos, cache) == [] <==> Covers(cache, infos)
    ensures forall a :: a in Missing(infos, cache) <==>
              a !in cache && exists i :: 0 <= i < |infos| && infos[i].dstHash == a
  {
    if infos != [] {
      CountingLaw(infos[1..], cache);
      assert forall i :: 0 < i < |infos| ==> infos[i] == infos[1..][i - 1];
      assert forall i :: 0 <= i < |infos[1..]| ==> infos[1..][i] == infos[i + 1];
    }
  }

  /** `places` are the positions of `infos` whose chunk is not held, in increasing order. */
  ghost predicate Lacking(infos: seq<ChunkInfo>, cache: Chunks, places: seq<nat>) {
    && (forall j, k :: 0 <= j < k < |places| ==> places[j] < places[k])
    && (forall k :: 0 <= k < |places| ==> places[k] < |infos|)
    && (forall i: nat :: i < |infos| ==> (i in places <==> infos[i].dstHash !in cache))
  }

  /** `addresses` are what `infos` lists at `places`, in that order. */
  ghost predicate Picks(infos: seq<ChunkInfo>, places: seq<nat>, addresses: seq<Address>) {
    && |addresses| == |places|
    && forall k :: 0 <= k < |places| ==> places[k] < |infos| && addresses[k] == infos[places[k]].dstHash
  }

  lemma LackingSnoc(infos: seq<ChunkInfo>, cache: Chunks, places: seq<nat>, info: ChunkInfo)
    requires Lacking(infos, cache, places)
    ensures Lacking(infos + [info], cache, if info.dstHash in cache then places else places + [|infos|])
  {
    var all, more := infos + [info], if info.dstHash in cache then places else places + [|infos|];
    forall i: nat | i < |all| ensures i in more <==> all[i].dstHash !in cache {
      if i < |infos| {
        assert all[i] == infos[i];
      }
    }
  }

  lemma PicksSnoc(infos: seq<ChunkInfo>, places: seq<nat>, addresses: seq<Address>, info: ChunkInfo)
    requires Picks(infos, places, addresses)
    ensures Picks(infos + [info], places, addresses)
    ensures Picks(infos + [info], places + [|infos|], addresses + [info.dstHash])
  {
  }

  lemma {:induction false} MissingPlaces(infos: seq<ChunkInfo>, cache: Chunks) returns (places: seq<nat>)
    ensures Lacking(infos, cache, places) && Picks(infos, places, Missing(infos, cache))
  {
    if infos == [] {
      return [];
    }
    var earlier, info := infos[..|infos| - 1], infos[|infos| - 1];
    assert infos == earlier + [info];
    places := MissingPlaces(earlier, cache);
    LackingSnoc(earlier, cache, places, info);
    MissingSnoc(earlier, info, cache);
    PicksSnoc(earlier, places, Missing(earlier, cache), info);
    if info.dstHash !in cache {
      places := places + [|earlier|];
    }
  }

  /**
   In any session: the required list is the map's addresses at the places whose
   chunk is not held, in map order and duplicates included, and the chunks held
   count all the other places.
   */
  lemma RequiredInMapOrder(s: Session) returns (places: seq<nat>)
    ensures Lacking(s.dataMap.infos, s.cache, places) && Picks(s.dataMap.infos, places, s.Required())
    ensures s.ChunkCount() == |s.dataMap.infos|
    ensures s.ChunksHeld() + |s.Required()| == s.ChunkCount()
    ensures s.IsComplete() <==> s.rootResolved && s.ChunksHeld() == s.ChunkCount()
  {
    places := MissingPlaces(s.dataMap.infos, s.cache);
    CountingLaw(s.dataMap.infos, s.cache);
  }

  lemma {:induction false} HeldMonotone(infos: seq<ChunkInfo>, inner: Chunks, outer: Chunks)
    requires inner.Keys <= outer.Keys
    ensures CountHeld(infos, inner) <= CountHeld(infos, outer)
  {
    if infos != [] {
      HeldMonotone(infos[1..], inner, outer);
    }
  }

  // ----- Every sequence of calls -----

  datatype Call = SupplyCall(address: Bytes, bytes: Bytes) | AdvanceCall

  /** One call; a call that fails leaves the state as it was. */
  function Apply(lib: Library, s: Session, call: Call): Session {
    var r := if call.SupplyCall? then s.Supply(lib, call.address, call.bytes) else s.Advance(lib);
    match r
    case Ok(next) => next
    case Err(_) => s
  }

  function Play(lib: Library, s: Session, calls: seq<Call>): Session {
    if calls == [] then s
    else Apply(lib, Play(lib, s, calls[..|calls| - 1]), calls[|calls| - 1])
  }

  lemma PlaySnoc(lib: Library, s: Session, calls: seq<Call>, call: Call)
    ensures Play(lib, s, calls + [call]) == Apply(lib, Play(lib, s, calls), call)
  {
    assert (calls + [call])[..|calls|] == calls;
  }

  /** The byte strings a sequence of calls got past verification. */
  ghost function Accepted(lib: Library, calls: seq<Call>): set<Bytes> {
    set call | call in calls && call.SupplyCall? && lib.hash(call.bytes) == call.address :: call.bytes
  }

  lemma AcceptedSnoc(lib: Library, calls: seq<Call>, call: Call)
    ensures Accepted(lib, calls + [call]) ==
            Accepted(lib, calls) +
            (if call.SupplyCall? && lib.hash(call.bytes) == call.address then {call.bytes} else {})
  {
    var all := calls + [call];
    assert forall c :: c in all <==> c in calls || c == call;
  }

  /**
   Bytes are accepted exactly when they hash to the 32-byte address they are
   supplied for, held already or not; the cache then gains that entry and nothing
   else changes. Each refusal has its own error.
   */
  lemma SupplyAcceptsIffHash(lib: Library, s: Session, address: Bytes, bytes: Bytes)
    ensures s.Supply(lib, address, bytes).Ok? <==> |address| == 32 && lib.hash(bytes) == address
    ensures s.Supply(lib, address, bytes).Ok? ==>
              var t := s.Supply(lib, address, bytes).value;
              && t.dataMap == s.dataMap && t.rootResolved == s.rootResolved
              && t.cache.Keys == s.cache.Keys + {address} && t.cache[address] == bytes
              && forall a :: a in s.cache && a != address ==> t.cache[a] == s.cache[a]
    ensures |address| != 32 ==> s.Supply(lib, address, bytes) == Err(AddressLength(|address|))
    ensures |address| == 32 && lib.hash(bytes) != address ==>
              s.Supply(lib, address, bytes) == Err(ChunkRejected(address))
  {
    if s.Supply(lib, address, bytes).Ok? {
      assert s.Supply(lib, address, bytes).value.cache == s.cache[address := bytes];
    }
  }

  /**
   After any calls: an address is held exactly when it was held at the start or
   bytes hashing to it were supplied for it; what is held is what was last
   accepted for it.
   */
  lemma {:induction false} HeldIffAccepted(lib: Library, s: Session, calls: seq<Call>, a: Address)
    ensures a in Play(lib, s, calls).cache <==> a in s.cache || exists i :: Accepts(lib, calls, i, a)
    ensures forall i :: LastAccepted(lib, calls, i, a) ==> Play(lib, s, calls).cache[a] == calls[i].bytes
    ensures (forall i :: !Accepts(lib, calls, i, a)) && a in s.cache ==> Play(lib, s, calls).cache[a] == s.cache[a]
  {
    if calls != [] {
      var n := |calls| - 1;
      var earlier := calls[..n];
      HeldIffAccepted(lib, s, earlier, a);
      EarlierAccepts(lib, calls, a);
      SupplyHolds(lib, Play(lib, s, earlier), calls[n]);
    }
  }

  lemma SupplyHolds(lib: Library, s: Session, call: Call)
    ensures Apply(lib, s, call).cache ==
            if call.SupplyCall? && lib.hash(call.bytes) == call.address then s.cache[call.address := call.bytes]
            else s.cache
  {
  }

  lemma EarlierAccepts(lib: Library, calls: seq<Call>, a: Address)
    requires calls != []
    ensures var n := |calls| - 1;
            && (forall i :: i != n ==> Accepts(lib, calls, i, a) == Accepts(lib, calls[..n], i, a))
            && (Accepts(lib, calls, n, a) ==> forall i :: LastAccepted(lib, calls, i, a) ==> i == n)
            && (!Accepts(lib, calls, n, a) ==>
                  forall i :: LastAccepted(lib, calls, i, a) ==> LastAccepted(lib, calls[..n], i, a))
  {
  }

  /** The `i`-th call supplies `a` with bytes that hash to it. */
  ghost predicate Accepts(lib: Library, calls: seq<Call>, i: int, a: Address) {
    0 <= i < |calls| && calls[i].SupplyCall? && calls[i].address == a && lib.hash(calls[i].bytes) == a
  }

  ghost predicate LastAccepted(lib: Library, calls: seq<Call>, i: int, a: Address) {
    Accepts(lib, calls, i, a) && forall j :: i < j < |calls| ==> !Accepts(lib, calls, j, a)
  }

  /**
   `advance` does nothing to a resolved session or one that lacks a listed chunk.
   Otherwise it moves to the root that the wrapper chunks at hand lead to, keeping
   them, and fails exactly when they lead to none.
   */
  lemma AdvanceFollowsChain(lib: Library, s: Session)
    ensures s.rootResolved || (exists i :: 0 <= i < |s.dataMap.infos| && s.dataMap.infos[i].dstHash !in s.cache) ==>
              s.Advance(lib) == Ok(s)
    ensures !s.rootResolved && (forall i :: 0 <= i < |s.dataMap.infos| ==> s.dataMap.infos[i].dstHash in s.cache) ==>
              && (forall root :: s.Advance(lib) == Ok(Session(root, true, s.cache)) <==>
                                 LeadsTo(lib, s.cache, s.dataMap, lib.maxLevels, root))
              && (s.Advance(lib) == Err(RootUnresolved) <==>
                  !exists root :: LeadsTo(lib, s.cache, s.dataMap, lib.maxLevels, root))
  {
    CountingLaw(s.dataMap.infos, s.cache);
    forall root
      ensures RootMap(lib, s.dataMap, s.cache, lib.maxLevels) == Some(root) <==>
              LeadsTo(lib, s.cache, s.dataMap, lib.maxLevels, root)
    {
      RootIffChain(lib, s.dataMap, s.cache, lib.maxLevels, root);
    }
  }

  lemma BeginIsValid(lib: Library, address: Bytes, bytes: Bytes)
    requires Begin(lib, address, bytes).Ok?
    ensures Begin(lib, address, bytes).value.Valid(lib)
  {
  }

  lemma ApplyKeepsValid(lib: Library, s: Session, call: Call)
    requires s.Valid(lib)
    ensures Apply(lib, s, call).Valid(lib)
  {
    RootIsNoChild(lib, s.dataMap, s.cache, lib.maxLevels);
  }

  /** In every reachable state each chunk hashes to its key and the flag is exact. */
  lemma {:induction false} PlayKeepsValid(lib: Library, s: Session, calls: seq<Call>)
    requires s.Valid(lib)
    ensures Play(lib, s, calls).Valid(lib)
  {
    if calls != [] {
      PlayKeepsValid(lib, s, calls[..|calls| - 1]);
      ApplyKeepsValid(lib, Play(lib, s, calls[..|calls| - 1]), calls[|calls| - 1]);
    }
  }

  /** How a later state relates to an earlier one. */
  ghost predicate Extends(s: Session, t: Session) {
    && s.cache.Keys <= t.cache.Keys
    && (s.rootResolved ==> t.rootResolved)
    && (s.rootResolved || !t.rootResolved ==> t.dataMap == s.dataMap)
    && (s.IsComplete() ==> t.IsComplete())
  }

  lemma MoreCoverage(infos: seq<ChunkInfo>, inner: Chunks, outer: Chunks)
    requires inner.Keys <= outer.Keys && Missing(infos, inner) == []
    ensures Missing(infos, outer) == []
  {
    CountingLaw(infos, inner);
    CountingLaw(infos, outer);
    assert Covers(outer, infos) by {
      forall i | 0 <= i < |infos| ensures infos[i].dstHash in outer {
        assert infos[i].dstHash in inner.Keys;
      }
    }
  }

  /**
   Along any run held chunks stay held, the map changes at most once (when the
   root is resolved), and a complete retrieval stays complete.
   */
  lemma {:induction false} PlayExtends(lib: Library, s: Session, calls: seq<Call>)
    ensures Extends(s, Play(lib, s, calls))
  {
    if calls != [] {
      var before := Play(lib, s, calls[..|calls| - 1]);
      PlayExtends(lib, s, calls[..|calls| - 1]);
      var after := Apply(lib, before, calls[|calls| - 1]);
      if before.IsComplete() {
        MoreCoverage(before.dataMap.infos, before.cache, after.cache);
      }
    }
  }

  /** Finishing is refused exactly while the root is unresolved or a listed chunk is not held. */
  lemma FinishNeedsEverything(lib: Library, s: Session)
    ensures s.Finish(lib) == Err(Incomplete) <==>
            !s.rootResolved || exists i :: 0 <= i < |s.dataMap.infos| && s.dataMap.infos[i].dstHash !in s.cache
  {
    CountingLaw(s.dataMap.infos, s.cache);
  }

  /**
   Finishing a complete session never meets a missing chunk, and hands `decrypt`
   one chunk per map entry, in map order, each hashing to that entry's address.
   */
  lemma FinishHandsOverEveryChunk(lib: Library, s: Session)
    requires s.Valid(lib) && s.IsComplete()
    ensures exists chunks: seq<Bytes> ::
              && |chunks| == |s.dataMap.infos|
              && (forall i :: 0 <= i < |chunks| ==> lib.hash(chunks[i]) == s.dataMap.infos[i].dstHash)
              && s.Finish(lib) == (match lib.decrypt(s.dataMap, chunks)
                                   case None => Err(DecryptFailed)
                                   case Some(plaintext) => Ok(plaintext))
  {
    CountingLaw(s.dataMap.infos, s.cache);
    CollectInOrder(s.dataMap.infos, s.cache);
    var chunks := Collect(s.dataMap.infos, s.cache).value;
    assert forall i :: 0 <= i < |chunks| ==> lib.hash(chunks[i]) == s.dataMap.infos[i].dstHash;
  }

  // ----- The answer does not depend on who served the chunks -----

  /** `s` is where the data map at `address` leads, holding only chunks of `world`. */
  ghost predicate Explained(lib: Library, world: Chunks, address: Bytes, s: Session) {
    && address in world
    && lib.decodeMap(world[address]).Some?
    && Within(s.cache, world)
    && var first := lib.decodeMap(world[address]).value;
       if s.rootResolved then RootMap(lib, first, world, lib.maxLevels) == Some(s.dataMap)
       else s.dataMap == first
  }

  lemma ApplyExplained(lib: Library, world: Chunks, address: Bytes, s: Session, call: Call)
    requires Explained(lib, world, address, s)
    requires forall x :: x in Accepted(lib, [call]) ==> lib.hash(x) in world && world[lib.hash(x)] == x
    ensures Explained(lib, world, address, Apply(lib, s, call))
  {
    match call {
      case SupplyCall(a, bytes) =>
        if s.Supply(lib, a, bytes).Ok? {
          assert [call][0] == call;
          assert bytes in Accepted(lib, [call]);
        }
      case AdvanceCall =>
        if RootMap(lib, s.dataMap, s.cache, lib.maxLevels).Some? {
          RootMonotone(lib, s.dataMap, s.cache, world, lib.maxLevels);
        }
    }
  }

  lemma {:induction false} PlayExplained(lib: Library, address: Bytes, bytes: Bytes, calls: seq<Call>, seen: set<Bytes>)
    requires NoCollisions(lib, seen) && bytes in seen && Accepted(lib, calls) <= seen
    requires Begin(lib, address, bytes).Ok?
    ensures Explained(lib, ByAddress(lib, seen), address, Play(lib, Begin(lib, address, bytes).value, calls))
  {
    if calls != [] {
      var earlier, call := calls[..|calls| - 1], calls[|calls| - 1];
      assert calls == earlier + [call];
      AcceptedSnoc(lib, earlier, call);
      AcceptedSnoc(lib, [], call);
      assert [] + [call] == [call];
      PlayExplained(lib, address, bytes, earlier, seen);
      ApplyExplained(lib, ByAddress(lib, seen), address, Play(lib, Begin(lib, address, bytes).value, earlier), call);
    }
  }

  /** A session begun with `bytes` and put through `calls` finishes with `plaintext`. */
  ghost predicate Yields(lib: Library, address: Bytes, bytes: Bytes, calls: seq<Call>, plaintext: Bytes) {
    && Begin(lib, address, bytes).Ok?
    && Play(lib, Begin(lib, address, bytes).value, calls).Finish(lib) == Ok(plaintext)
  }

  /** Whatever a session returns is what its address denotes among the chunks it accepted. */
  lemma SessionDenotes(lib: Library, address: Bytes, bytes: Bytes, calls: seq<Call>, plaintext: Bytes, seen: set<Bytes>)
    requires Yields(lib, address, bytes, calls, plaintext)
    requires NoCollisions(lib, seen) && bytes in seen && Accepted(lib, calls) <= seen
    ensures Denote(lib, ByAddress(lib, seen), address) == Some(plaintext)
  {
    var s := Play(lib, Begin(lib, address, bytes).value, calls);
    PlayExplained(lib, address, bytes, calls, seen);
    CollectMonotone(s.dataMap.infos, s.cache, ByAddress(lib, seen));
  }

  /**
   Two sessions for one address, fed by any two parties in any order with any
   duplicates and extra chunks, return the same plaintext if both return.
   */
  lemma SessionsAgree(lib: Library, address: Bytes, bytes: Bytes, calls: seq<Call>, plaintext: Bytes,
                      bytes': Bytes, calls': seq<Call>, plaintext': Bytes)
    requires Yields(lib, address, bytes, calls, plaintext) && Yields(lib, address, bytes', calls', plaintext')
    requires NoCollisions(lib, {bytes, bytes'} + Accepted(lib, calls) + Accepted(lib, calls'))
    ensures plaintext == plaintext'
  {
    var seen := {bytes, bytes'} + Accepted(lib, calls) + Accepted(lib, calls');
    SessionDenotes(lib, address, bytes, calls, plaintext, seen);
    SessionDenotes(lib, address, bytes', calls', plaintext', seen);
  }

  // ----- Supplies commute -----

  ghost predicate OnlySupplies(calls: seq<Call>) {
    forall i :: 0 <= i < |calls| ==> calls[i].SupplyCall?
  }

  lemma AddThenUpdate(chunks: Chunks, more: Chunks, a: Address, x: Bytes)
    ensures chunks + more[a := x] == (chunks + more)[a := x]
  {
  }

  lemma SupplyAddsAccepted(lib: Library, s: Session, before: set<Bytes>, call: Call)
    requires call.SupplyCall? && lib.hash(call.bytes) == call.address && NoCollisions(lib, before + {call.bytes})
    ensures Apply(lib, s.(cache := s.cache + ByAddress(lib, before)), call) ==
            s.(cache := s.cache + ByAddress(lib, before + {call.bytes}))
  {
    ByAddressGrows(lib, before, call.bytes);
    AddThenUpdate(s.cache, ByAddress(lib, before), call.address, call.bytes);
  }

  lemma {:induction false} SuppliesAddAccepted(lib: Library, s: Session, calls: seq<Call>)
    requires OnlySupplies(calls) && NoCollisions(lib, Accepted(lib, calls))
    ensures Play(lib, s, calls) == s.(cache := s.cache + ByAddress(lib, Accepted(lib, calls)))
  {
    if calls == [] {
      assert s.cache + ByAddress(lib, {}) == s.cache;
    } else {
      var earlier, call := calls[..|calls| - 1], calls[|calls| - 1];
      assert calls == earlier + [call];
      AcceptedSnoc(lib, earlier, call);
      SuppliesAddAccepted(lib, s, earlier);
      if lib.hash(call.bytes) == call.address {
        SupplyAddsAccepted(lib, s, Accepted(lib, earlier), call);
      } else {
        assert Accepted(lib, calls) == Accepted(lib, earlier);
      }
    }
  }

  /** Reordering or repeating the same accepted supplies reaches the same state. */
  lemma SuppliesCommute(lib: Library, s: Session, calls: seq<Call>, calls': seq<Call>)
    requires OnlySupplies(calls) && OnlySupplies(calls')
    requires Accepted(lib, calls) == Accepted(lib, calls') && NoCollisions(lib, Accepted(lib, calls))
    ensures Play(lib, s, calls) == Play(lib, s, calls')
  {
    SuppliesAddAccepted(lib, s, calls);
    SuppliesAddAccepted(lib, s, calls');
  }

  // ----- The class JavaScript holds -----

  class Retrieval {
    const lib: Library
    var dataMap: DataMap
    var rootResolved: bool
    var cache: Chunks

    constructor (lib: Library, dataMap: DataMap)
      ensures this.lib == lib && View() == Session(dataMap, !dataMap.IsChild(), map[])
    {
      this.lib, this.dataMap := lib, dataMap;
      rootResolved, cache := !dataMap.IsChild(), map[];
    }

    function View(): Session
      reads this
    {
      Session(dataMap, rootResolved, cache)
    }

    static method Start(lib: Library, address: Bytes, bytes: Bytes) returns (r: Result<Retrieval, Error>)
      ensures r.Err? ==> Begin(lib, address, bytes) == Err(r.error)
      ensures r.Ok? ==> fresh(r.value) && r.value.lib == lib && Begin(lib, address, bytes) == Ok(r.value.View())
    {
      if |address| != ADDRESS_LEN {
        return Err(AddressLength(|address|));
      }
      if lib.hash(bytes) != address {
        return Err(MapRejected);
      }
      var decoded := lib.decodeMap(bytes);
      if decoded.None? {
        return Err(NotADataMap);
      }
      var retrieval := new Retrieval(lib, decoded.value);
      r := Ok(retrieval);
    }

    /** The missing addresses, flat: one 32-byte record each. */
    method RequiredAddresses() returns (out: Bytes)
      ensures out == Flatten(View().Required())
    {
      out := [];
      assert dataMap.infos[..|dataMap.infos|] == dataMap.infos;
      for i := 0 to |dataMap.infos|
        invariant out == Flatten(Missing(dataMap.infos[..i], cache))
      {
        var info := dataMap.infos[i];
        assert dataMap.infos[..i + 1] == dataMap.infos[..i] + [info];
        MissingSnoc(dataMap.infos[..i], info, cache);
        if info.dstHash !in cache {
          FlattenSnoc(Missing(dataMap.infos[..i], cache), info.dstHash);
          out := out + info.dstHash;
        }
      }
    }

    method Supply(address: Bytes, bytes: Bytes) returns (r: Result<(), Error>)
      modifies this`cache
      ensures match old(View()).Supply(lib, address, bytes)
              case Ok(next) => r == Ok(()) && View() == next
              case Err(e) => r == Err(e) && View() == old(View())
      ensures r.Ok? <==> |address| == 32 && lib.hash(bytes) == address
      ensures cache == if r.Ok? then old(cache)[address := bytes] else old(cache)
    {
      if |address| != ADDRESS_LEN {
        return Err(AddressLength(|address|));
      }
      if lib.hash(bytes) != address {
        return Err(ChunkRejected(address));
      }
      cache := cache[address := bytes];
      r := Ok(());
    }

    method Advance() returns (r: Result<(), Error>)
      modifies this`dataMap, this`rootResolved
      ensures match old(View()).Advance(lib)
              case Ok(next) => r == Ok(()) && View() == next
              case Err(e) => r == Err(e) && View() == old(View())
    {
      var required := RequiredAddresses();
      FlatEmpty(View().Required());
      if rootResolved || required != [] {
        return Ok(());
      }
      match RootMap(lib, dataMap, cache, lib.maxLevels) {
        case None => return Err(RootUnresolved);
        case Some(root) =>
          dataMap := root;
          rootResolved := true;
          r := Ok(());
      }
    }

    method IsComplete() returns (complete: bool)
      ensures complete == View().IsComplete()
    {
      var required := RequiredAddresses();
      FlatEmpty(View().Required());
      complete := rootResolved && required == [];
    }

    /** Decrypt what was collected; an error unless the retrieval is complete. */
    method Finish() returns (r: Result<Bytes, Error>)
      ensures r == View().Finish(lib)
    {
      var complete := IsComplete();
      if !complete {
        return Err(Incomplete);
      }
      var chunks := Collect(dataMap.infos, cache);
      if chunks.Err? {
        return Err(MissingChunk(chunks.error));
      }
      var plaintext := lib.decrypt(dataMap, chunks.value);
      r := if plaintext.None? then Err(DecryptFailed) else Ok(plaintext.value);
    }
  }

  lemma FlatEmpty(addresses: seq<Address>)
    ensures Flatten(addresses) == [] <==> addresses == []
  {
    if addresses != [] {
      assert |addresses[0]| == ADDRESS_LEN;
    }
  }
}

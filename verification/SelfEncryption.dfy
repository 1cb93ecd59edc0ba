/**
 The library the client calls into. Its cryptography is not part of this model:
 a `Library` is any choice of functions with the right signatures, and what a
 result needs of them is stated as a hypothesis of that result.
 */
module SelfEncryption {
  import opened Prelude

  datatype ChunkInfo = ChunkInfo(index: nat, dstHash: Address, srcHash: Address, srcSize: nat)

  /** The list of chunks that make up some content, or another (shrunk) data map. */
  datatype DataMap = DataMap(infos: seq<ChunkInfo>, child: Option<nat>) {
    predicate IsChild() {
      child.Some?
    }
  }

  /** Chunks keyed by content address. */
  type Chunks = map<Address, Bytes>

  datatype Library = Library(
    hash: Bytes -> Address,
    encodeMap: DataMap -> Option<Bytes>,
    decodeMap: Bytes -> Option<DataMap>,
    encrypt: Bytes -> Option<(DataMap, seq<Bytes>)>,
    decrypt: (DataMap, seq<Bytes>) -> Option<Bytes>,
    /** Decrypt one level of wrapper chunks into the data map they hold. */
    unwrap: (DataMap, seq<Bytes>) -> Option<DataMap>,
    /** How many wrapper levels `get_root_data_map` follows before giving up. */
    maxLevels: nat)

  ghost predicate ContentAddressed(lib: Library, chunks: Chunks) {
    forall a :: a in chunks ==> lib.hash(chunks[a]) == a
  }

  ghost predicate Within(inner: Chunks, outer: Chunks) {
    forall a :: a in inner ==> a in outer && outer[a] == inner[a]
  }

  predicate Covers(chunks: Chunks, infos: seq<ChunkInfo>) {
    forall i :: 0 <= i < |infos| ==> infos[i].dstHash in chunks
  }

  /** The chunks a map lists, in its order, or the first address that is missing. */
  function Collect(infos: seq<ChunkInfo>, chunks: Chunks): Result<seq<Bytes>, Address> {
    if infos == [] then Ok([])
    else if infos[0].dstHash !in chunks then Err(infos[0].dstHash)
    else
      match Collect(infos[1..], chunks)
      case Err(missing) => Err(missing)
      case Ok(rest) => Ok([chunks[infos[0].dstHash]] + rest)
  }

  /** Collecting succeeds exactly when nothing is missing, and keeps the map's order. */
  lemma {:induction false} CollectInOrder(infos: seq<ChunkInfo>, chunks: Chunks)
    ensures Collect(infos, chunks).Ok? <==> Covers(chunks, infos)
    ensures Collect(infos, chunks).Ok? ==>
              var xs := Collect(infos, chunks).value;
              |xs| == |infos| &&
              forall i :: 0 <= i < |infos| ==> xs[i] == chunks[infos[i].dstHash]
  {
    if infos != [] {
      CollectInOrder(infos[1..], chunks);
      if Covers(chunks, infos) {
        forall i | 0 <= i < |infos[1..]| ensures infos[1..][i].dstHash in chunks {
          assert infos[1..][i] == infos[i + 1];
        }
      } else {
        assert forall i :: 0 < i < |infos| ==> infos[i] == infos[1..][i - 1];
      }
    }
  }

  lemma {:induction false} CollectMonotone(infos: seq<ChunkInfo>, inner: Chunks, outer: Chunks)
    requires Within(inner, outer) && Collect(infos, inner).Ok?
    ensures Collect(infos, outer) == Collect(infos, inner)
  {
    if infos != [] {
      CollectMonotone(infos[1..], inner, outer);
    }
  }

  /** `get_root_data_map`: follow wrapper levels using only the chunks at hand. */
  function RootMap(lib: Library, dataMap: DataMap, chunks: Chunks, levels: nat): Option<DataMap>
    decreases levels
  {
    if !dataMap.IsChild() then Some(dataMap)
    else if levels == 0 then None
    else
      match Collect(dataMap.infos, chunks)
      case Err(_) => None
      case Ok(wrappers) =>
        match lib.unwrap(dataMap, wrappers)
        case None => None
        case Some(inner) => RootMap(lib, inner, chunks, levels - 1)
  }

  /** The chunks `outer` lists, in its order, hold `inner`. */
  ghost predicate Wraps(lib: Library, chunks: Chunks, outer: DataMap, wrappers: seq<Bytes>, inner: DataMap) {
    && |wrappers| == |outer.infos|
    && (forall i :: 0 <= i < |wrappers| ==>
          outer.infos[i].dstHash in chunks && chunks[outer.infos[i].dstHash] == wrappers[i])
    && lib.unwrap(outer, wrappers) == Some(inner)
  }

  ghost predicate Holds(lib: Library, chunks: Chunks, outer: DataMap, inner: DataMap) {
    outer.IsChild() && exists wrappers :: Wraps(lib, chunks, outer, wrappers, inner)
  }

  /** Child maps each holding the next in its chunks, down to one that is no child. */
  ghost predicate Chain(lib: Library, chunks: Chunks, maps: seq<DataMap>) {
    && maps != [] && !maps[|maps| - 1].IsChild()
    && forall i, j :: 0 <= i && j == i + 1 < |maps| ==> Holds(lib, chunks, maps[i], maps[j])
  }

  /** A chain of at most `levels` steps from `first` to `root`. */
  ghost predicate LeadsTo(lib: Library, chunks: Chunks, first: DataMap, levels: nat, root: DataMap) {
    exists maps: seq<DataMap> ::
      Chain(lib, chunks, maps) && |maps| <= levels + 1 && maps[0] == first && maps[|maps| - 1] == root
  }

  lemma UnwrapIff(lib: Library, chunks: Chunks, outer: DataMap, inner: DataMap)
    ensures Holds(lib, chunks, outer, inner) <==>
            outer.IsChild() && Collect(outer.infos, chunks).Ok? &&
            lib.unwrap(outer, Collect(outer.infos, chunks).value) == Some(inner)
  {
    CollectInOrder(outer.infos, chunks);
    if wrappers :| Wraps(lib, chunks, outer, wrappers, inner) {
      assert Covers(chunks, outer.infos);
      assert wrappers == Collect(outer.infos, chunks).value;
    }
    if Collect(outer.infos, chunks).Ok? && lib.unwrap(outer, Collect(outer.infos, chunks).value) == Some(inner) {
      assert Wraps(lib, chunks, outer, Collect(outer.infos, chunks).value, inner);
    }
  }

  lemma ChainCons(lib: Library, chunks: Chunks, outer: DataMap, maps: seq<DataMap>)
    requires maps != []
    ensures Chain(lib, chunks, [outer] + maps) <==> Holds(lib, chunks, outer, maps[0]) && Chain(lib, chunks, maps)
  {
    var all := [outer] + maps;
    if Chain(lib, chunks, all) {
      assert Holds(lib, chunks, all[0], all[1]);
      forall i, j | 0 <= i && j == i + 1 < |maps| ensures Holds(lib, chunks, maps[i], maps[j]) {
        assert Holds(lib, chunks, all[i + 1], all[j + 1]);
      }
    }
  }

  lemma {:induction false} RootHasChain(lib: Library, dataMap: DataMap, chunks: Chunks, levels: nat)
    returns (maps: seq<DataMap>)
    requires RootMap(lib, dataMap, chunks, levels).Some?
    ensures Chain(lib, chunks, maps) && |maps| <= levels + 1
    ensures maps[0] == dataMap && maps[|maps| - 1] == RootMap(lib, dataMap, chunks, levels).value
    decreases levels
  {
    if !dataMap.IsChild() {
      return [dataMap];
    }
    var inner := lib.unwrap(dataMap, Collect(dataMap.infos, chunks).value).value;
    UnwrapIff(lib, chunks, dataMap, inner);
    var rest := RootHasChain(lib, inner, chunks, levels - 1);
    maps := [dataMap] + rest;
    ChainCons(lib, chunks, dataMap, rest);
  }

  lemma {:induction false} ChainGivesRoot(lib: Library, chunks: Chunks, maps: seq<DataMap>, levels: nat)
    requires Chain(lib, chunks, maps) && |maps| <= levels + 1
    ensures RootMap(lib, maps[0], chunks, levels) == Some(maps[|maps| - 1])
    decreases levels
  {
    if |maps| > 1 {
      UnwrapIff(lib, chunks, maps[0], maps[1]);
      assert maps == [maps[0]] + maps[1..];
      ChainCons(lib, chunks, maps[0], maps[1..]);
      ChainGivesRoot(lib, chunks, maps[1..], levels - 1);
    }
  }

  /** Resolution finds a root exactly when a short enough chain leads to it. */
  lemma RootIffChain(lib: Library, dataMap: DataMap, chunks: Chunks, levels: nat, root: DataMap)
    ensures RootMap(lib, dataMap, chunks, levels) == Some(root) <==> LeadsTo(lib, chunks, dataMap, levels, root)
  {
    if RootMap(lib, dataMap, chunks, levels) == Some(root) {
      var maps := RootHasChain(lib, dataMap, chunks, levels);
    }
    if LeadsTo(lib, chunks, dataMap, levels, root) {
      var maps: seq<DataMap> :|
        Chain(lib, chunks, maps) && |maps| <= levels + 1 && maps[0] == dataMap && maps[|maps| - 1] == root;
      ChainGivesRoot(lib, chunks, maps, levels);
    }
  }

  lemma {:induction false} RootIsNoChild(lib: Library, dataMap: DataMap, chunks: Chunks, levels: nat)
    ensures RootMap(lib, dataMap, chunks, levels).Some? ==>
              !RootMap(lib, dataMap, chunks, levels).value.IsChild()
    decreases levels
  {
    if dataMap.IsChild() && levels > 0 {
      var wrappers := Collect(dataMap.infos, chunks);
      if wrappers.Ok? && lib.unwrap(dataMap, wrappers.value).Some? {
        RootIsNoChild(lib, lib.unwrap(dataMap, wrappers.value).value, chunks, levels - 1);
      }
    }
  }

  /** Holding more chunks never changes a root map already found. */
  lemma {:induction false} RootMonotone(lib: Library, dataMap: DataMap, inner: Chunks, outer: Chunks, levels: nat)
    requires Within(inner, outer) && RootMap(lib, dataMap, inner, levels).Some?
    ensures RootMap(lib, dataMap, outer, levels) == RootMap(lib, dataMap, inner, levels)
    decreases levels
  {
    if dataMap.IsChild() {
      CollectMonotone(dataMap.infos, inner, outer);
      RootMonotone(lib, lib.unwrap(dataMap, Collect(dataMap.infos, inner).value).value, inner, outer, levels - 1);
    }
  }

  /** No two of the byte strings in `seen` share an address. */
  ghost predicate NoCollisions(lib: Library, seen: set<Bytes>) {
    forall x, y :: x in seen && y in seen && lib.hash(x) == lib.hash(y) ==> x == y
  }

  /** The byte strings in `seen`, looked up by address. */
  ghost function ByAddress(lib: Library, seen: set<Bytes>): (chunks: Chunks)
    requires NoCollisions(lib, seen)
    ensures ContentAddressed(lib, chunks)
    ensures forall x :: x in seen ==> lib.hash(x) in chunks && chunks[lib.hash(x)] == x
    ensures forall a :: a in chunks ==> chunks[a] in seen
  {
    map x | x in seen :: lib.hash(x) := x
  }

  lemma ByAddressGrows(lib: Library, seen: set<Bytes>, x: Bytes)
    requires NoCollisions(lib, seen + {x})
    ensures ByAddress(lib, seen + {x}) == ByAddress(lib, seen)[lib.hash(x) := x]
  {
    var grown, updated := ByAddress(lib, seen + {x}), ByAddress(lib, seen)[lib.hash(x) := x];
    forall a
      ensures a in grown <==> a in updated
      ensures a in grown ==> grown[a] == updated[a]
    {
      if a in grown {
        assert grown[a] in seen + {x};
      }
    }
  }

  /**
   What an address means, given the chunks of the world: the plaintext of the
   root map reached from the data map stored there. No protocol is involved.
   */
  ghost function Denote(lib: Library, world: Chunks, address: Bytes): Option<Bytes> {
    if address !in world then None
    else
      match lib.decodeMap(world[address])
      case None => None
      case Some(first) =>
        match RootMap(lib, first, world, lib.maxLevels)
        case None => None
        case Some(root) =>
          match Collect(root.infos, world)
          case Err(_) => None
          case Ok(chunks) => lib.decrypt(root, chunks)
  }
}

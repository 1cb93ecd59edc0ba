/**
 A map shrunk twice, all of whose chunks an honest store serves: its address
 denotes a plaintext, and yet no retrieval returns it.
 */
module DeepNesting {
  import opened Prelude
  import opened Wire
  import opened SelfEncryption
  import opened Retrieval
  import opened Driver
  import opened HonestRuns

  function Pad(x: Bytes): Address {
    if |x| >= ADDRESS_LEN then x[..ADDRESS_LEN] else x + seq(ADDRESS_LEN - |x|, i => 0)
  }

  /** A one-entry map pointing at the chunk `[n]`. */
  function MapTo(n: Byte, child: Option<nat>): DataMap {
    DataMap([ChunkInfo(0, Pad([n]), Pad([]), 1)], child)
  }

  function Decode(bytes: Bytes): Option<DataMap> {
    if bytes == [1] then Some(MapTo(2, Some(2))) else None
  }

  function Unwrap(dataMap: DataMap, wrappers: seq<Bytes>): Option<DataMap> {
    if wrappers == [[2]] then Some(MapTo(3, Some(1)))
    else if wrappers == [[3]] then Some(MapTo(4, None))
    else None
  }

  function Decrypt(dataMap: DataMap, chunks: seq<Bytes>): Option<Bytes> {
    if chunks == [[4]] then Some([5]) else None
  }

  function Demo(levels: nat): Library {
    Library(Pad, m => None, Decode, x => None, Decrypt, Unwrap, levels)
  }

  function Store(): Chunks {
    map[Pad([1]) := [1], Pad([2]) := [2], Pad([3]) := [3], Pad([4]) := [4]]
  }

  lemma PadsDiffer(a: Byte, b: Byte)
    ensures Pad([a]) == Pad([b]) <==> a == b
  {
    assert Pad([a])[0] == a && Pad([b])[0] == b;
  }

  lemma StoreEntries()
    ensures forall n: Byte :: 1 <= n <= 4 ==> Pad([n]) in Store() && Store()[Pad([n])] == [n]
    ensures ContentAddressed(Demo(2), Store())
  {
    PadsDiffer(1, 2);
    PadsDiffer(1, 3);
    PadsDiffer(1, 4);
    PadsDiffer(2, 3);
    PadsDiffer(2, 4);
    PadsDiffer(3, 4);
  }

  lemma CollectOne(n: Byte, chunks: Chunks, child: Option<nat>)
    requires Pad([n]) in chunks && chunks[Pad([n])] == [n]
    ensures Collect(MapTo(n, child).infos, chunks) == Ok([[n]])
  {
    assert Collect(MapTo(n, child).infos[1..], chunks) == Ok([]);
    assert [chunks[Pad([n])]] + [] == [[n]];
  }

  /** Everything is served and the address denotes `[5]`, but the maps are not self-contained. */
  lemma TwiceShrunkIsServed()
    ensures Complete(Demo(2), Store(), Pad([1]), MapTo(2, Some(2)))
    ensures Denote(Demo(2), Store(), Pad([1])) == Some([5])
    ensures !SelfContained(Demo(2), Store(), MapTo(2, Some(2)), MapTo(2, Some(2)), 2)
  {
    var lib, store, first, inner := Demo(2), Store(), MapTo(2, Some(2)), MapTo(3, Some(1));
    StoreEntries();
    CollectOne(2, store, Some(2));
    CollectOne(3, store, Some(1));
    CollectOne(4, store, None);
    PadsDiffer(2, 3);
    assert !ListsOnly(first, inner) by {
      assert inner.infos[0].dstHash != first.infos[0].dstHash;
    }
    assert !SelfContained(lib, store, first, inner, 1);
    assert RootMap(lib, MapTo(4, None), store, 0) == Some(MapTo(4, None));
    assert RootMap(lib, inner, store, 1) == Some(MapTo(4, None));
    assert RootMap(lib, first, store, 2) == Some(MapTo(4, None));
    RootsAgreeWhileSelfContained(lib, store, first, first, 2);
  }

  /**
   Every honest run that settles, at any limit, has thrown the unresolved-root
   error, and any honest run can be carried on until it does.
   */
  lemma TwiceShrunkIsNotRetrieved(limit: nat, events: seq<Event>) returns (all: seq<Event>)
    requires limit >= 1 && Run(Config(Demo(2), Pad([1]), limit), events).Some?
    requires Honest(Config(Demo(2), Pad([1]), limit), Store(), events)
    ensures var cfg, thrown := Config(Demo(2), Pad([1]), limit), Settled(Threw(Client(RootUnresolved)));
            && Denote(cfg.lib, Store(), cfg.address) == Some([5])
            && (Run(cfg, events).value.main.Settled? ==> Run(cfg, events).value.main == thrown)
            && Run(cfg, all).Some? && Honest(cfg, Store(), all) && events <= all && Run(cfg, all).value.main == thrown
  {
    var cfg, first := Config(Demo(2), Pad([1]), limit), MapTo(2, Some(2));
    TwiceShrunkIsServed();
    all := HonestRunSettles(cfg, Store(), first, events);
    DeeperNestingIsUnresolved(cfg, Store(), first, all);
    if Run(cfg, events).value.main.Settled? {
      DeeperNestingIsUnresolved(cfg, Store(), first, events);
    }
  }
}

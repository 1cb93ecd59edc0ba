/** The honest content-addressed store a proxy serves a local file from. */
module Fixture {
  import opened Prelude
  import opened SelfEncryption
  import opened ProxyProtocol

  datatype FixtureError = EncryptionFailed | SerializationFailed

  /** Blobs inserted one by one under their own address, later ones overwriting. */
  function Index(lib: Library, blobs: seq<Bytes>): Chunks {
    if blobs == [] then map[]
    else
      var last := blobs[|blobs| - 1];
      Index(lib, blobs[..|blobs| - 1])[lib.hash(last) := last]
  }

  ghost function Contents(blobs: seq<Bytes>): set<Bytes> {
    set x | x in blobs
  }

  /** Every entry hashes to its key, whatever was inserted. */
  lemma {:induction false} IndexIsContentAddressed(lib: Library, blobs: seq<Bytes>)
    ensures ContentAddressed(lib, Index(lib, blobs))
  {
    if blobs != [] {
      IndexIsContentAddressed(lib, blobs[..|blobs| - 1]);
    }
  }

  /** Without collisions no blob is lost: the index is exactly the blobs by address. */
  lemma {:induction false} IndexKeepsEveryBlob(lib: Library, blobs: seq<Bytes>)
    requires NoCollisions(lib, Contents(blobs))
    ensures Index(lib, blobs) == ByAddress(lib, Contents(blobs))
  {
    if blobs == [] {
      assert Contents(blobs) == {};
    } else {
      var earlier, last := blobs[..|blobs| - 1], blobs[|blobs| - 1];
      assert blobs == earlier + [last];
      assert Contents(blobs) == Contents(earlier) + {last};
      IndexKeepsEveryBlob(lib, earlier);
      ByAddressGrows(lib, Contents(earlier), last);
    }
  }

  /** A store's answer to a lookup. */
  function Find(chunks: Chunks, address: Bytes): Lookup {
    if address in chunks then Stored(chunks[address]) else NotStored
  }

  /** The last of the blobs that hash to `address`. */
  ghost predicate LastAt(lib: Library, blobs: seq<Bytes>, address: Bytes, i: int) {
    && 0 <= i < |blobs| && lib.hash(blobs[i]) == address
    && forall j :: i < j < |blobs| ==> lib.hash(blobs[j]) != address
  }

  /** What a lookup in a store of these blobs has to say. */
  ghost predicate TrueOf(lib: Library, blobs: seq<Bytes>, address: Bytes, found: Lookup) {
    match found
    case LookupFailed => false
    case NotStored => forall i :: 0 <= i < |blobs| ==> lib.hash(blobs[i]) != address
    case Stored(data) => exists i :: LastAt(lib, blobs, address, i) && blobs[i] == data
  }

  /** A lookup says so: not stored exactly when no blob hashes to the address, else the last that does. */
  lemma {:induction false} FindIsTrue(lib: Library, blobs: seq<Bytes>, address: Bytes)
    ensures TrueOf(lib, blobs, address, Find(Index(lib, blobs), address))
  {
    if blobs != [] {
      var n := |blobs| - 1;
      var earlier := blobs[..n];
      FindIsTrue(lib, earlier, address);
      if lib.hash(blobs[n]) == address {
        assert LastAt(lib, blobs, address, n);
      } else if Find(Index(lib, earlier), address).Stored? {
        var i :| LastAt(lib, earlier, address, i) && earlier[i] == Find(Index(lib, earlier), address).data;
        assert LastAt(lib, blobs, address, i);
      }
    }
  }

  /** There is only one such answer; without collisions it is the blob that hashes to the address, if any. */
  lemma TrueAnswers(lib: Library, blobs: seq<Bytes>, address: Bytes, found: Lookup)
    requires TrueOf(lib, blobs, address, found)
    ensures found == NotStored <==> forall x :: x in blobs ==> lib.hash(x) != address
    ensures forall x :: found == Stored(x) ==> x in blobs && lib.hash(x) == address
    ensures NoCollisions(lib, Contents(blobs)) ==>
              forall x :: found == Stored(x) <==> x in blobs && lib.hash(x) == address
  {
  }

  class FixtureSource {
    const chunks: Chunks
    const dataMapAddress: Address
    const plaintextLen: nat
    const chunkCount: nat

    constructor (chunks: Chunks, dataMapAddress: Address, plaintextLen: nat, chunkCount: nat)
      ensures this.chunks == chunks && this.dataMapAddress == dataMapAddress
      ensures this.plaintextLen == plaintextLen && this.chunkCount == chunkCount
    {
      this.chunks, this.dataMapAddress := chunks, dataMapAddress;
      this.plaintextLen, this.chunkCount := plaintextLen, chunkCount;
    }

    /** Self-encrypt `content`; index its chunks and, last, its serialized data map. */
    static method New(lib: Library, content: Bytes) returns (r: Result<FixtureSource, FixtureError>)
      ensures lib.encrypt(content).None? ==> r == Err(EncryptionFailed)
      ensures lib.encrypt(content).Some? ==>
                var (dataMap, encrypted) := lib.encrypt(content).value;
                match lib.encodeMap(dataMap)
                case None => r == Err(SerializationFailed)
                case Some(serialized) =>
                  r.Ok? && r.value.chunks == Index(lib, encrypted + [serialized]) &&
                  r.value.dataMapAddress == lib.hash(serialized) &&
                  r.value.plaintextLen == |content| && r.value.chunkCount == |dataMap.infos|
      ensures lib.encrypt(content).Some? && r.Ok? ==>
                var (dataMap, encrypted) := lib.encrypt(content).value;
                lib.encodeMap(dataMap).Some? &&
                forall a :: TrueOf(lib, encrypted + [lib.encodeMap(dataMap).value], a, r.value.Get(a))
    {
      var encryption := lib.encrypt(content);
      if encryption.None? {
        return Err(EncryptionFailed);
      }
      var (dataMap, encrypted) := encryption.value;
      var chunks: Chunks := map[];
      for i := 0 to |encrypted|
        invariant chunks == Index(lib, encrypted[..i])
      {
        assert encrypted[..i + 1][..i] == encrypted[..i];
        chunks := chunks[lib.hash(encrypted[i]) := encrypted[i]];
      }
      assert encrypted[..|encrypted|] == encrypted;
      var encoding := lib.encodeMap(dataMap);
      if encoding.None? {
        return Err(SerializationFailed);
      }
      var serialized := encoding.value;
      assert (encrypted + [serialized])[..|encrypted|] == encrypted;
      chunks := chunks[lib.hash(serialized) := serialized];
      forall a: Bytes ensures TrueOf(lib, encrypted + [serialized], a, Find(chunks, a)) {
        FindIsTrue(lib, encrypted + [serialized], a);
      }
      var source := new FixtureSource(chunks, lib.hash(serialized), |content|, |dataMap.infos|);
      r := Ok(source);
    }

    function Get(address: Bytes): Lookup {
      Find(chunks, address)
    }
  }
}

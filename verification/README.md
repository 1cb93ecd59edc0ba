# Fetching content-addressed files through an untrusted proxy

A page asks a proxy for chunks by content address, checks every chunk against the
hash it was asked for under, and decrypts what it has collected. This project
models the four components that cooperate in that, proves what each keeps in every
run, and composes them into two statements: what the page returns does not depend
on the proxy, and against an honest proxy the page gets the file back. Every other
end of a run is accounted for as well: each error is thrown exactly when the replies
call for it.

| file | component |
|---|---|
| `Prelude.dfy`, `Wire.dfy` | bytes, addresses, the framing of the one RPC |
| `FetchClient.dfy` | the browser's stream reader and `getChunk` |
| `ProxyProtocol.dfy` | the proxy's side of a stream |
| `Handshake.dfy` | one request as two tasks over two byte channels, all interleavings |
| `SelfEncryption.dfy` | data maps, root resolution, what an address denotes |
| `Retrieval.dfy` | the WASM state machine, as a value and as a class |
| `WorkerPool.dfy` | the bounded pool of workers, all interleavings, any limit |
| `Driver.dfy`, `DriverProofs.dfy`, `RetrieveTheorems.dfy` | `retrieve` under an event loop, any limit, any replies |
| `Blame.dfy` | what a run settles with, told from the replies and the addresses asked |
| `RetrieveLoop.dfy` | `retrieve` as the page runs it, with one worker |
| `Fixture.dfy`, `HonestRuns.dfy`, `EndToEnd.dfy` | the honest store, honest runs, the composition |
| `DeepNesting.dfy` | a twice-shrunk map that is served in full and never retrieved |
| `Hex.dfy` | addresses as text |

The hash, the data-map codec, `encrypt`, `decrypt` and the decryption of wrapper
chunks are the fields of a `Library` value over which every result is quantified.
"No collisions" is a hypothesis about the byte strings one or two runs verified,
and `DifferentAnswersCollide` produces the colliding pair when it fails.
`get_root_data_map` follows at most `maxLevels` wrapper levels, for any `maxLevels`.

A run is a sequence of events, one per stretch between two awaits, so a statement
about every sequence of events is a statement about every interleaving and every
choice the proxy makes. The imperative methods (`Retrieve`, `GetChunk`,
`HandleRequest`, `FixtureSource.New`, the `Retrieval` class) are proved against the
same functions; `Retrieve` returns the event-loop run that it performs.

Two places where the code does not do what its comments say, and the model follows
the code. The comment on `drain_to_eof` says the client half-closes right after its
request; `getChunk` closes only once the response is in, and
`DropOnlyAfterClientIsDone` depends on that. The round loop allows sixteen rounds of
resolving, but `advance` can only use the wrapper chunks of the first map: a map
shrunk twice is not retrieved even when everything is served
(`TwiceShrunkIsNotRetrieved`), the exact condition on the maps is `SelfContained`
in `ReturnsDenotationIffSelfContained`, and no run goes beyond two rounds
(`AtMostTwoRounds`).

## Model

| member | source | states |
|---|---|---|
| `RetrieveTheorems.ProxyIndependence` | web/src/retrieve.js:45-88 | Any two runs for one address, against any two proxies, with any replies, interleavings and limits, return the same plaintext if both return, given no collision among the bytes the two runs verified. |
| `RetrieveTheorems.DifferentAnswersCollide` | crates/wasm-client/src/lib.rs:26-32 | If two runs do return different plaintexts, two different byte strings with the same hash are among the bytes they verified. |
| `RetrieveTheorems.AnswerIsDenotation` | web/src/retrieve.js:45-88 | A returned plaintext is what the address denotes, a definition that mentions no protocol, over the verified bytes. |
| `RetrieveTheorems.AtMostTwoRounds` | web/src/retrieve.js:55-84 | Whatever the proxy does, at most two rounds of fetches start, and the stalled, too-many-rounds, incomplete-finish and missing-chunk errors are unreachable. |
| `RetrieveTheorems.OneWorkerIsSafe` | web/src/retrieve.js:31-31 | With the page's limit of one, in any run nothing touches the retrieval after it is freed, and by then every worker has returned or failed. |
| `RetrieveTheorems.MisuseIffRoundHasTwoInFlight` | web/src/retrieve.js:54-115 | At the start of any round, the round can end in a use after free exactly when min(limit, number of items) is at least two. |
| `RetrieveTheorems.MisuseIffTwoInFlight` | web/src/retrieve.js:99-115 | Over whole runs, use after free is reachable exactly when the limit is at least two and some run reaches a round of two or more addresses. |
| `RetrieveTheorems.FailedRoundThrows` | web/src/retrieve.js:99-115 | Once a fetch or verification of a round has failed, the only way a run can end is by throwing the first failure. |
| `RetrieveTheorems.ProgressRisesToTotal` | web/src/retrieve.js:60-69 | Within a round reported counts never fall or pass the total, and a round that succeeds ends with held = total. |
| `RetrieveTheorems.EveryStepCounts` | web/src/retrieve.js:54-87 | Every event decreases a lexicographic measure, so every run of replies comes to an end. |
| `RetrieveTheorems.NeverStuck` | web/src/retrieve.js:54-87 | A run that has not settled can go on, whatever the next reply is. |
| `Blame.MapErrors` | web/src/retrieve.js:45-52 | A settled run, at any limit and for any replies, has thrown the no-data error exactly when the data map's reply was null, the rejected-map error exactly when its bytes do not hash to the 32-byte address, and the not-a-data-map and address-length errors exactly on their conditions. |
| `Blame.ChunkErrors` | web/src/retrieve.js:60-68 | Otherwise the first chunk reply that fails decides: a thrown fetch error is that reply's fault (or the map reply's), "missing from the network" names exactly the address asked when it was null, and a rejected chunk exactly the address asked when the bytes hash to another. |
| `Blame.CleanRuns` | web/src/retrieve.js:71-84 | A plaintext, a decryption error or an unresolved root comes exactly of a run whose map and chunk replies were all genuine: when decrypting the listed chunks in order gives that result, or the held wrapper chunks lead to no root. |
| `Blame.AlteredChunkIsFatal` | crates/wasm-client/src/lib.rs:26-32 | A run in which any chunk reply carries bytes that do not hash to the address asked, held already or not, never returns a plaintext. |
| `Blame.FailureIsFirst` | web/src/retrieve.js:99-115 | In every run a failure is recorded exactly when some chunk reply failed, and it is the first such reply's error. |
| `DriverProofs.RunIsGood` | web/src/retrieve.js:45-115 | The invariant of every reachable state: session, pool, round number, reports and outcome fit together. |
| `DriverProofs.RoundLeavesNothingMissing` | web/src/retrieve.js:58-73 | When all workers of a round have returned, nothing is required any more. |
| `DriverProofs.AfterRoundIsGood` | web/src/retrieve.js:71-82 | With nothing required, advancing throws or leaves the root resolved, so the loop ends or enters one last round. |
| `RetrieveLoop.Retrieve` | web/src/retrieve.js:45-88 | The sequential loop performs an event-loop run with one worker in which each reply is what the network delivered for that call, and returns that run's outcome, which `MapErrors`, `ChunkErrors` and `CleanRuns` determine. |
| `RetrieveLoop.FetchAll` | web/src/retrieve.js:105-115 | One worker takes the items in order; it ends with all fetched and supplied, or with the failure the pool records. |
| `RetrieveLoop.FetchOne` | web/src/retrieve.js:60-68 | One task: fetch, null check, verified supply; its failure is the machine's failure. |
| `RetrieveLoop.OneRound` | web/src/retrieve.js:55-78 | One turn of the round loop goes from loop head to loop head, or settles with the error thrown. |
| `RetrieveLoop.SplitAddresses` | web/src/retrieve.js:90-97 | The offset loop cuts a flat array into 32-byte records. |
| `RetrieveLoop.RecordsUndoFlatten` | web/src/retrieve.js:90-97 | Splitting undoes the flat encoding of any address list, order and duplicates kept. |
| `WorkerPool.RunInvariant` | web/src/retrieve.js:105-115 | In every interleaving for any limit: each index below min(next, n) was started once and no other was, and the counter's overrun counts the workers that returned. |
| `WorkerPool.NothingRunsTwice` | web/src/retrieve.js:105-115 | Started indices are a prefix, none finishes twice or is held twice, at most min(limit, n) are in flight. |
| `WorkerPool.AllReturnedMeansAllDone` | web/src/retrieve.js:105-115 | When all workers return, every index ran exactly once and next = n + min(limit, n). |
| `WorkerPool.StepUsesPotential` | web/src/retrieve.js:105-115 | Every worker step uses up a bounded amount of work. |
| `Retrieval.PlayKeepsValid` | crates/wasm-client/src/lib.rs:74-173 | After every sequence of calls each cached chunk hashes to its key and the root flag holds exactly when the map is no child. |
| `Retrieval.PlayExtends` | crates/wasm-client/src/lib.rs:124-179 | Along every sequence of calls held chunks stay held, the map changes at most once, and completeness is never lost. |
| `Retrieval.CountingLaw` | crates/wasm-client/src/lib.rs:114-195 | Held plus required is the map's size, duplicates included; the required list is exactly the listed addresses not held, and empty exactly when the cache covers the map. |
| `Retrieval.RequiredInMapOrder` | crates/wasm-client/src/lib.rs:114-122 | In any session the required list is the map's addresses at the places whose chunk is not held, in map order and with duplicates; `chunks_held` counts all other places; complete means resolved with held = count. |
| `Retrieval.SupplyAcceptsIffHash` | crates/wasm-client/src/lib.rs:128-138 | Bytes are accepted exactly when they hash to the 32-byte address they come for, also when that address is held; the cache gains that entry and nothing else changes; each refusal has its own error. |
| `Retrieval.HeldIffAccepted` | crates/wasm-client/src/lib.rs:124-138 | After any calls an address is held exactly when bytes hashing to it were supplied for it, and what is held is what was last accepted. |
| `Retrieval.AdvanceFollowsChain` | crates/wasm-client/src/lib.rs:146-173 | `advance` does nothing once resolved or while a listed chunk is missing; otherwise it moves to the root that a chain of wrapper chunks at hand leads to, keeping the cache, and fails exactly when there is none. |
| `Retrieval.FinishNeedsEverything` | crates/wasm-client/src/lib.rs:200-206 | `finish` is refused as incomplete exactly while the root is unresolved or a listed chunk is not held. |
| `Retrieval.FinishHandsOverEveryChunk` | crates/wasm-client/src/lib.rs:200-223 | A complete session never meets a missing chunk, and `decrypt` gets one chunk per entry, in map order, each hashing to that entry. |
| `Retrieval.SessionDenotes` | crates/wasm-client/src/lib.rs:91-223 | For every sequence of calls by any client, what `finish` returns is what the address denotes among the accepted bytes. |
| `Retrieval.SessionsAgree` | crates/wasm-client/src/lib.rs:91-223 | Two sessions for one address, with any orders, duplicates and extra chunks, finish with the same plaintext if both finish. |
| `Retrieval.SuppliesCommute` | crates/wasm-client/src/lib.rs:128-138 | Reordering, repeating or mixing in rejected supplies reaches the same state, hence the same required list and the same next `advance`. |
| `Retrieval.Retrieval.Start` | crates/wasm-client/src/lib.rs:91-108 | Verifies length and hash, then decodes; each error case is distinct. |
| `Retrieval.Retrieval.RequiredAddresses` | crates/wasm-client/src/lib.rs:114-122 | The loop returns the missing addresses in map order, flat. |
| `Retrieval.Retrieval.Supply` | crates/wasm-client/src/lib.rs:128-138 | In place: accepted exactly when the bytes hash to the 32-byte address, and then the cache is the old one with that entry; a rejected chunk changes nothing. |
| `Retrieval.Retrieval.Advance` | crates/wasm-client/src/lib.rs:146-173 | In-place update equals the session function; a failed resolution changes nothing. |
| `Retrieval.Retrieval.IsComplete` | crates/wasm-client/src/lib.rs:177-179 | True exactly when the root is resolved and no listed chunk is missing. |
| `Retrieval.Retrieval.Finish` | crates/wasm-client/src/lib.rs:200-223 | The guard, collection and decryption agree with the session function on every branch. |
| `SelfEncryption.RootIsNoChild` | crates/wasm-client/src/lib.rs:164-168 | A resolved root is never a child map. |
| `SelfEncryption.RootIffChain` | crates/wasm-client/src/lib.rs:151-165 | A root is found exactly when a chain of child maps, each held in the listed chunks of the one before and no longer than the levels allowed, leads to it. |
| `SelfEncryption.RootMonotone` | crates/wasm-client/src/lib.rs:151-165 | Resolution consults only the chunks at hand, and more chunks never change a root already found. |
| `SelfEncryption.CollectInOrder` | crates/wasm-client/src/lib.rs:207-217 | Collecting succeeds exactly when nothing is missing and keeps the map's order. |
| `Wire.ChunkIffFramed` | web/src/fetch-client.js:82-97 | A stream yields `data` exactly when it starts with the frame `write_found` prints for it, and exactly when its bytes are 0x00, the length (at most 8388608) with its highest byte first, and `data`. |
| `Wire.ReplyTrichotomy` | web/src/fetch-client.js:82-97 | In terms of the bytes alone: null exactly when the first is 0x01; data exactly when 0x00, four length bytes, highest first, and that data follow; refused exactly on 0x02; unknown status, oversized length, early end and reset exactly on their bytes. |
| `Wire.FrameDecidesOnlyWhole` | crates/proxy/src/protocol.rs:53-87 | Every proper prefix of a frame leaves the client short by a stated amount; only the whole frame satisfies it. |
| `Wire.FoundMessagesCarryFrame` | crates/proxy/src/protocol.rs:67-86 | The messages written, none empty, carry exactly the frame. |
| `Wire.PiecesPartition` | crates/proxy/src/protocol.rs:81-84 | The payload pieces partition the data, each at most the message size and all but the last full. |
| `FetchClient.ExactReader.Read` | web/src/fetch-client.js:162-189 | Returns the next slice of the concatenated stream, or throws exactly when too few bytes are left, losing nothing; bytes are conserved, each copied once; between reads at most one non-empty piece is queued and less than the last delivery. |
| `FetchClient.ExactReader.Fill` | web/src/fetch-client.js:163-172 | Pulls until enough is queued or the stream ends, and no delivery beyond the one that sufficed. |
| `FetchClient.ExactReader.Take` | web/src/fetch-client.js:174-187 | Moves exactly the first `wanted` queued bytes into the buffer, and terminates with empty pieces in the queue. |
| `FetchClient.ReadSeries` | web/src/fetch-client.js:151-190 | Any series of reads, failed ones included, returns consecutive slices of the concatenation, whatever the fragmentation. |
| `FetchClient.GetChunk` | web/src/fetch-client.js:69-114 | The reply depends only on the concatenated bytes, null exactly when they start with 0x01 and data exactly when they carry it; the fewest deliveries that decide it are pulled; the request is sent whole and the stream is closed on every path after opening. |
| `FetchClient.MinimalPull` | web/src/fetch-client.js:162-172 | A reader that stopped where the reply was decided had no verdict from any shorter list of deliveries. |
| `ProxyProtocol.AnswerDecidesOnlyWhole` | crates/proxy/src/protocol.rs:7-16 | Reading back a whole answer gives the expected reply; no proper prefix gives any. |
| `ProxyProtocol.ProxyStream.WriteFound` | crates/proxy/src/protocol.rs:54-87 | Above 8 MiB nothing is written and the error says which bound; otherwise the transport has a prefix of the frame, whatever write, flush or close fails. On success it has 0x00, the length with its highest byte first and the data, in non-empty messages of at most 16320 bytes; closed exactly on success. |
| `ProxyProtocol.ProxyStream.WriteStatus` | crates/proxy/src/protocol.rs:109-115 | Writes the byte if the transport takes one and closes; closed exactly on success, which a failing close prevents. |
| `ProxyProtocol.ProxyStream.ReadRequest` | crates/proxy/src/protocol.rs:44-51 | Takes exactly 32 bytes, or reports an early end or a read error. |
| `ProxyProtocol.ProxyStream.DrainToEof` | crates/proxy/src/protocol.rs:95-106 | Terminates for any sizes of the reads, stops at a read error, and otherwise leaves nothing to read. |
| `ProxyProtocol.ProxyStream.HandleRequest` | crates/proxy/src/main.rs:238-264 | Whatever fails, only a prefix of the answer to the requested address is written, and the stream is closed exactly when it was written whole: the byte 0x01, or the data framed. Any error is a transport fault or the one the request calls for, always the latter without read, flush or close errors; then an answer the transport takes also means the client's side is drained. |
| `Handshake.RunInvariant` | crates/proxy/src/main.rs:238-264 | In every interleaving the request and the response are conserved across buffers and tasks, and closes happen in order. |
| `Handshake.DropOnlyAfterClientIsDone` | crates/proxy/src/main.rs:255-262 | When there is an answer, no RESET is ever sent, the client closes only with the whole answer, and the proxy drops only after that. |
| `Handshake.ResetIffNoAnswer` | crates/proxy/src/main.rs:242-262 | Some interleaving sends a RESET exactly when the lookup fails or the chunk exceeds 8 MiB. |
| `Handshake.FinishedMeansExpected` | web/src/fetch-client.js:79-113 | However a run goes, at its end the client has the reply meant for the lookup, and the drop was graceful exactly when there was an answer. |
| `Handshake.NoDeadlock` | crates/proxy/src/protocol.rs:89-106 | A run that is not over on both sides can take a step. |
| `Handshake.EveryStepCounts` | crates/proxy/src/protocol.rs:89-106 | Every step decreases a non-negative measure. |
| `Handshake.DeliveriesAreReceived` | web/src/fetch-client.js:143-150 | The pieces a client pulled make up what it has received. |
| `Fixture.FixtureSource.New` | crates/proxy/src/source.rs:46-84 | The loop indexes every chunk and then the serialized map under their own addresses; each failure is reported; `get` then says for every address what is true of those blobs. |
| `Fixture.FindIsTrue` | crates/proxy/src/source.rs:80-84 | A lookup says "not stored" exactly when no blob hashes to the address, and otherwise gives the last one that does. |
| `Fixture.TrueAnswers` | crates/proxy/src/source.rs:80-84 | Without collisions a blob is returned exactly when it is among the blobs and hashes to the address. |
| `Fixture.IndexIsContentAddressed` | crates/proxy/src/source.rs:51-64 | Every entry of the store hashes to its key. |
| `Fixture.IndexKeepsEveryBlob` | crates/proxy/src/source.rs:51-64 | Without collisions the store is exactly the inserted blobs by address. |
| `HonestRuns.HonestRunsAgree` | web/src/retrieve.js:45-88 | Against a store holding what is asked, every run at any limit whose requests complete over the wire has one outcome, and no fetch fails. |
| `HonestRuns.HonestRunSettles` | web/src/retrieve.js:45-88 | Every such run can be carried on to that outcome by replies the wire protocol can produce. |
| `HonestRuns.HonestRunGoesOn` | web/src/retrieve.js:45-88 | Against any store, complete or not, an honest run can be carried on until it settles. |
| `HonestRuns.MissingChunkIsReported` | web/src/retrieve.js:61-64 | Against any honest store a settled run has the one outcome exactly when everything wanted, by the first map or the root it reaches, can be served; if not, it has thrown for a wanted address that cannot, naming it when it is absent. |
| `HonestRuns.AbsentAddressIsNoData` | web/src/retrieve.js:46-49 | Every honest run for an address the store lacks has settled with the no-data error as soon as the first reply is in. |
| `HonestRuns.ReturnsDenotationIffSelfContained` | crates/wasm-client/src/lib.rs:146-173 | Every settled honest run, at any limit, has returned what the address denotes exactly when each child map met on the way to the root lists only addresses the first map lists; if the address denotes something and one does not, the run has thrown the unresolved-root error. |
| `HonestRuns.RootsAgreeWhileSelfContained` | crates/wasm-client/src/lib.rs:151-165 | Resolving from the first map's chunks gives what the whole store gives while the maps are self-contained, and nothing once they are not, at any depth. |
| `HonestRuns.DeeperNestingIsUnresolved` | crates/wasm-client/src/lib.rs:151-165 | Every settled honest run has thrown the unresolved-root error exactly when a child map at some depth lists an address the first map does not, or the store leads to no root. |
| `DeepNesting.TwiceShrunkIsNotRetrieved` | crates/wasm-client/src/lib.rs:140-173 | A concrete twice-shrunk map whose address denotes a plaintext in a complete store: every honest run that settles, at any limit, has thrown, and every honest run can be carried on until it does. |
| `EndToEnd.FixtureIsRetrievable` | crates/proxy/src/source.rs:46-84 | A fixture store answers everything a retrieval of its data-map address asks, and the outcome is the content. |
| `EndToEnd.FileComesBack` | web/src/retrieve.js:45-88 | Every run at any limit against a proxy serving the upload returns exactly the content if it ends, and can be carried on to its end. |
| `EndToEnd.UnknownAddressIsNoData` | web/src/retrieve.js:46-49 | For an address that nothing in the upload hashes to, every run at any limit ends with the no-data error if it ends, and can be carried to its end. |
| `EndToEnd.MissingChunkIsNamed` | web/src/retrieve.js:61-64 | For an upload whose map lists an address none of its chunks hashes to, every settled run has thrown "missing from the network" for a wanted address that is not there. |
| `EndToEnd.PageErrors` | web/src/retrieve.js:45-52 | In bytes on the wire: the page throws the no-data error exactly when the first call delivers 0x01, and the rejected-map error exactly when it carries a chunk not hashing to the address. |
| `EndToEnd.ServeAndMiss` | crates/proxy/src/source.rs:46-84 | Serving a fixture and running the page's loop on an address that nothing in it hashes to gives the no-data error; an address of the wrong length is refused. |
| `EndToEnd.ServeAndFetch` | crates/proxy/src/source.rs:46-84 | Building the fixture, serving its `get` over complete requests of the two-task protocol, cut up in any way, and running the page's loop returns exactly the content. |
| `EndToEnd.CarriedReply` | web/src/fetch-client.js:143-150 | Fragmentation of an answer does not change the reply. |
| `EndToEnd.RequestsAreFaithful` | crates/proxy/src/main.rs:238-264 | The deliveries of any complete request are a fragmentation of the proxy's answer. |
| `EndToEnd.CarriesIffOverTheWire` | crates/proxy/src/main.rs:227-264 | A network carries a source's answers, in any fragmentation, exactly when each answered call is a complete request between the two tasks. |
| `Hex.ParseHexAddress` | crates/wasm-client/src/lib.rs:242-258 | The pair loop computes the parse, whose value and errors `ParseSpells` determines for every text. |
| `Hex.ParseSpells` | crates/wasm-client/src/lib.rs:242-267 | For every text, as a core between white space: accepted exactly when the core is 64 hex digits, byte i being 16 times the digit at 2i plus the digit at 2i + 1; a core of another length in bytes and one with other characters have their own errors. |
| `Hex.TrimKeepsCore` | crates/wasm-client/src/lib.rs:243-243 | Trimming removes the white space at both ends and nothing else. |
| `Hex.AcceptedIffHex` | crates/wasm-client/src/lib.rs:242-267 | A text is accepted exactly when its trimmed form, which `TrimSplits` finds as the core of the text, is 64 hex digits. |
| `Hex.TrimSplits` | crates/wasm-client/src/lib.rs:243-243 | Every text is white space, its trimmed form, white space. |
| `Hex.ParseUndoesPrint` | crates/wasm-client/src/lib.rs:276-282 | Parsing the printed form of any address gives the address. |
| `Hex.PrintSpells` | crates/wasm-client/src/lib.rs:276-282 | Each byte is printed as two lower-case digits, the higher one first. |
| `Hex.PrintUndoesParse` | crates/wasm-client/src/lib.rs:242-282 | Printing an accepted text gives it trimmed and in lower case. |

## Left out

- The internals of BLAKE3, self-encryption, MessagePack and `verify_chunk`: library code; verification succeeds exactly when the hash equals the address.
- libp2p, WebRTC, DTLS and SCTP set-up, the swarm loop, key and certificate files, the command line and the live network source: plumbing around the modelled code.
- `send` backpressure, flush timing and message coalescing: the channel is a FIFO of bytes with arbitrary delivery boundaries.
- A stream that delivers empty pieces for ever, or hangs: such a call never returns; a stream here makes finitely many deliveries and then ends or breaks.
- Transport faults inside the two-task handshake: faults are modelled on each side alone, as a stream that breaks for the client and as reads, writes, flushes and closes that fail for the proxy.
- `serve` spawning one task per stream: tasks share only the read-only source, so it would add no property.
- `STATUS_REFUSED` on the sending side, allowlists and rate limits: the proxy does not implement them; the client's reading of the byte is modelled.
- The user interface, bundling and the pricing page: no protocol logic, or a single closed formula.

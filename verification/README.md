# Verified model of the Infinispan Go client

A Dafny 4.11 model of the parts of the Hot Rod client whose correctness spans many calls: the optimistic
transaction buffer, the multiplexed connection and its byte stream, the connection pool, the near cache, key
routing with bulk operations, the wire formats and SCRAM authentication. `dafny verify dfyconfig.toml` checks
everything.

## What is modelled

**Transactions** (`TxModel`, `TxProof`, `TxAnswers`, `Transactions`). A transaction reads lazily, remembers the
version it first saw, buffers writes under three control flags and sends one prepare request. The server's rule is the
documented one: a read entry must still have its version, a missing one must still be missing, a blind write is always
accepted; equal versions of a key mean equal values. `TxProof.SerialisableIff` gives the exact set of operation lists
for which every accepted commit is the same as running the operations directly on the commit-time map, whatever other
clients did: every key that is read is also written, and no Get follows a Put of a nil value to its key without a
write in between. The buffer (`Transactions.TxCache`) is an object over a map of entry objects, refined to the step
function. The control byte is kept as its three flags; setting a bit twice is setting a flag. `TxAnswers` says what
each Get answers (its own last write, else what the first successful request for the key found) and that the server
commits exactly if every written key that was read first is still as that read found it.

**Connection** (`Multiplex`, then `Headers`, `Bodies`, `Framing`, `ReadLoop`, `Panics`, and both in `Serving`,
`Rounds`). First the interleavings: callers, cancellations, failed writes, draining, closing and the read loop, each
step one atomic access, against a peer that may answer anything. Then the bytes: printers written from the documented
layout, parsers, and the client's imperative readers, which are proved equal to the parsers.
`Framing.NextFrameAligned` states exactly when the read loop finds the next header at its first byte: a response
answers a pending request or has an empty body, and a removed or expired event without custom data is for a registered
listener. `Serving` runs the interleavings on the bytes: up to the first frame that is not consumed exactly, every
Execute returns the body sent for its own message ID. `Panics.RoundPanicsIff` says where a negative length or count
ends the process. `Causes` says what lies behind every result that a call can get and behind the loop's own end;
`Rounds` shows the parser's round and the loop's interleaved steps to be the same.

**Pool** (`Topologies`, `Pools`). Topology updates are a fold over the history without consecutive repeats of one
ID, and connections have exactly one owner whatever dials, failures, updates and closes interleave.
`Pools.ServesDepartedIff` says when a connection serves a server that the last accepted update does not list.

**Near cache** (`LruModel`, `LruStores`, `NearCache`, `FilterUpdates`, `StaleRuns`, `Invalidations`, `LruFill`,
`RemovalCounter`, `Bloom`). The recency list as a map and a linked order, the interleavings of reads, writes,
invalidations and filter updates with their flag, the compare-and-swap counter, and the Bloom filter's bit array.
`NearCache.QuietStaleIff` says when an item is stale with nothing under way, `FilterUpdates.UncoveredIff` when a
stored key is outside the last filter sent. `LruFill` says how far the list fills up, `Invalidations` which writes are
announced and which notices are dropped.

**Routing and bulk operations** (`Murmur`, `MurmurVectors`, `Segments`, `Bulk`). The 64-bit hash with its block loop
and tail, the segment arithmetic with the bound that makes the floating-point ceiling exact, and sharded PutAll and
GetAll. `MurmurVectors` works out reference values.

**Protocol Buffers** (`Protobuf`, `Fields`, `Wrapped`, `Unwrapping`, `Query`). The field scanner, the printers it
undoes, and what it finds in any bytes; the unwrap functions on any bytes.

**SCRAM** (`Scram`). Client, an honest server, PBKDF2 and the authentication loop; hash, HMAC and base64 are
parameters.

Helpers: `Wrappers`, `Words` (integer widths), `Hex`, `Decimal`, `Varint`, `Wire`, `Streams`, `TimeUnits`, `Prepare`;
and `Samples`, byte strings that pin down the constants and byte orders which a round trip leaves open.

Conventions. Code that updates state in place is a class or a method with loops, proved against functions on
values; interleavings are state machines over values, one action for each atomic step, and lemmas quantify over
all action sequences. Bit operations of the codecs are arithmetic (an OR of disjoint bits is a sum); the hash and the
Bloom filter use bit-vectors. A Go slice that may be nil is an `Option`. A panic is a failed outcome.

## Where the code and a promise part

- Reads of keys that are never written are not validated (hotrod/transaction.go:176-192), and a Put of nil reads as
  "not found" (hotrod/transaction.go:47): `TxProof.UncoveredIsNotSerialisable`.
- A response nobody waits for leaves its body in the stream, and skipping a removed or expired event eats eight bytes
  too many: `Framing.NextFrameAligned`, `Bodies.SkipEventRest`.
- The near cache can keep a stale item with nothing under way: an invalidation overtook the store step of a read
  (`StaleRuns.RaceLeavesStaleItem`), or an own write was executed and only its answer was lost, so that the early
  return (hotrod/near_cache.go:101-116) skips the local Remove (`StaleRuns.LostAnswerLeavesStaleItem`).
  `NearCache.QuietStaleIff` says exactly when.
- A key stored while a filter update that has collected its keys is still running starts no update of its own
  (hotrod/near_cache.go:144-151), so no filter sent covers it: `StaleRuns.SkippedKeyGoesStale`, and exactly when:
  `FilterUpdates.UncoveredIff`, `FilterUpdates.SkippedIffUncovered`.
- The Bloom filter panics on a key whose hash is -2^31 unless its size divides 2^31; such a key is given, and
  sizes that are safe for all keys are characterised: `Bloom.TakesEveryKeyIff`.
- A length near 2^63 in a protobuf field passes the bounds check and panics: `Protobuf.PanicsIff`.
- A negative length or count in a response or event panics in the read loop: `Panics.RoundPanicsIff`, and a frame that
  does: `Panics.NegativeLengthPanics`.
- A table of one cache can route to servers that an update for another cache removed: `Topologies.TablesGoStale`, and
  exactly when a table is live: `Topologies.TableIsLiveIff`.
- The first topology update a new pool sees is ignored if its ID is 0, the pool's initial value:
  `Topologies.FirstUpdateIgnored`; in general `Topologies.HandledIff`, and for histories `Topologies.UnchangedIff`.
- A connection that is being set up while an update drops its server is installed and serves it nevertheless:
  `Pools.DepartedServerIsServed`, and exactly when: `Pools.ServesDepartedIff`.
- Closing the pool misses connections that are still being set up, and exactly those can serve afterwards:
  `Pools.CloseReachesAllIff`, `Pools.ServesAfterCloseIff`.
- A user name is sent without the escapes of section 5.1 of RFC 5802: a name with a comma or an equals sign arrives as
  something else or not at all: `Scram.UsernameArrivesIff`, `Scram.HonestServerCompletesIff`.
- Authenticate succeeds without having verified the server's signature if the server says that it is done in answer to
  the first request, with an acceptable first message as its challenge: `Scram.SuccessIsVerified`. A server without any
  account can do so: `Scram.UnverifiedSuccess`.
- Two listener calls with one listener ID share an entry, and the one that fails deletes it:
  `Multiplex.SecondCallTakesEntry`, and exactly when an entry is there: `Multiplex.EntryIff`. Only a caller of the
  internal ExecuteListener can bring this about: the client draws sixteen random bytes for each ID
  (hotrod/listener.go:82), and for IDs that differ `Multiplex.SuccessIsRegistered` holds.

## Model

| member | source | states |
|---|---|---|
| TxProof.SerialisableIff | hotrod/transaction.go:41-108 | every accepted commit, against every server history in which equal versions mean equal values, equals direct execution of the operations at commit time (same final map, same answers) if and only if every read key is written and no pending nil Put is read back |
| TxProof.CommitEqualsReplay | hotrod/transaction.go:176-192 | the modifications built from the buffer, in any map order, applied to any contents give what direct execution of the operations gives |
| TxProof.CoveredIsSerialisable | documentation/topics/transactions.adoc:65-86 | optimistic locking is serialisable under the two conditions, with the documented validation rule |
| TxProof.UncoveredIsNotSerialisable | hotrod/transaction.go:41-65 | a Get of a key that is never written, or after a nil Put, has a server history and an accepted commit with a wrong answer |
| TxProof.RunTracksWrites | hotrod/transaction.go:70-108 | an entry is modified exactly if its key was written, and holds nil exactly if a nil Put is pending |
| TxProof.ValidatedEvidence | hotrod/transaction.go:41-65 | what the buffer recorded at any moment about a written key is what the server checks at commit |
| TxAnswers.GetAnswers | hotrod/transaction.go:41-65 | a Get answers with the transaction's own last write to the key; without one, with what the first successful request for the key found; it fails if and only if no operation up to it has met the key |
| TxAnswers.FailsIff | hotrod/transaction.go:41-65 | an answer is a failure if and only if a Get's request failed and no earlier operation on its key was a write or a successful Get |
| TxAnswers.CommitsIff | documentation/topics/transactions.adoc:65-86 | the server commits if and only if every written key that was read first still has the version, or the absence, of that read |
| TxAnswers.UndisturbedCommits | hotrod/transaction.go:113-165 | a transaction that nobody disturbs is accepted |
| Transactions.TxCache.Get | hotrod/transaction.go:41-65 | the object's buffer and answer are those of the step function: buffered entry first, else one read that records version or absence |
| Transactions.TxCache.Put | hotrod/transaction.go:70-90 | sets value, times and modified, clears the remove flag, keeps what was read |
| Transactions.TxCache.Remove | hotrod/transaction.go:94-108 | sets the remove flag, drops the value, keeps what was read |
| Transactions.TxCache.BuildModifications | hotrod/transaction.go:176-192 | lists exactly the modified entries, each once |
| Transactions.WithTransaction | hotrod/transaction.go:113-165 | success comes exactly when the function did not fail, the read evidence still holds, and the answer to a prepare was not lost; it means the server's contents are those of direct execution; failure leaves them alone, unless the answer to the prepare was lost |
| Hex.HexOfInjective | hotrod/transaction.go:209-217 | different keys never share a buffer entry |
| Hex.HexIsRead | hotrod/transaction.go:209-217 | each byte is the high and the low of its two digits, lower case |
| Prepare.PrepareRoundTrip | internal/operation/transaction.go:43-69 | a reference decoder driven by the control and time-unit nibbles recovers XID, flags, timeout and all modifications from any prepare body, and what follows it |
| Prepare.PrepareUnique | internal/operation/transaction.go:129-161 | two requests with the same bytes mean the same to the server |
| Prepare.ValidationSurvivesTheWire | internal/operation/transaction.go:139-161 | the server validates what it received as it would the client's entries |
| Prepare.WriteBody | internal/operation/transaction.go:43-69 | the sequential writer produces the printed body |
| TimeUnits.DurationExact | internal/codec/timeunits.go:41-62 | unit times count is the positive duration exactly; zero is the default unit, negative the infinite one |
| TimeUnits.UnitIsCoarsest | internal/codec/timeunits.go:41-62 | no coarser unit would do, except that hours stop at a year |
| TimeUnits.TimeUnitsRoundTrip | internal/codec/timeunits.go:14-39 | both durations are recovered from nibbles and optional counts |
| Multiplex.AtMostOneResponse | internal/connection/conn.go:135-233 | over all interleavings a call's channel sees at most one send |
| Multiplex.SendNeverBlocks | internal/connection/conn.go:212-233 | the read loop's sends into capacity-one channels are always enabled |
| Multiplex.OwnResponse | internal/connection/conn.go:84-107 | a call returns the answer to its own message ID, decoded, or failed to decode, by its own operation |
| Multiplex.WaitingIsServed | internal/connection/conn.go:84-107 | a waiting call has its pending entry, or its response is in the loop's hand or in its channel |
| Multiplex.AnswerFindsItsCall | internal/connection/conn.go:135-192 | an answer to a call that still waits is never treated as an orphan |
| Multiplex.EndReleasesCalls | internal/connection/conn.go:135-150 | done is closed exactly when the loop has ended, and then every waiting call can return |
| Multiplex.FailedCallLeavesNoListener | internal/connection/conn.go:305-338 | a listener call that returned an error has left no entry of its own under any listener ID |
| Multiplex.EntryIff | internal/connection/conn.go:305-342 | in every run the entry under a listener ID is a call's if and only if the call stored it and no later step took it: UnregisterListener, the clearing at the stream's end, or the store or delete of a call with the same ID |
| Multiplex.StoredIff | internal/connection/conn.go:305-338 | a call is past its store and has not failed if and only if it has stored and not deleted its entry |
| Multiplex.SuccessIsRegistered | internal/connection/conn.go:305-342 | with an ID of its own that nobody unregisters or clears, a call is registered if and only if it has stored its entry and has not failed |
| Multiplex.SecondCallTakesEntry | internal/connection/conn.go:305-338 | a run in which a failing second call with the same ID removes a successful call's entry |
| Multiplex.FlagsRefuseNewCalls | internal/connection/conn.go:84-88 | once draining or closed is set it stays set, and a call that starts afterwards never draws a message ID: it is on its way to being refused, or refused |
| Causes.AnswersAreCaused | internal/connection/conn.go:135-192 | a call gets the stream's error only after a failed read, a server error only after a header with its number and an error status, and a decoded answer or a decoding error only after such a header without one and the matching send |
| Causes.LoopIsCaused | internal/connection/conn.go:135-192 | the loop deals with the header it read last, looks for idleness only after one without an error status, fails calls only after a failed read, and ends only then or after closing its own connection |
| Causes.ResultsAreCaused | internal/connection/conn.go:84-107 | every other result comes from the step that leads to it: refusal from a flag that was set, a write error from a failed write, the context's and the connection's end from the select; each flag is set if and only if one of its steps was taken |
| Causes.PendingIsLive | internal/connection/conn.go:84-107 | a call that has returned leaves no pending entry behind while the connection lives |
| Causes.ClosesOnlyIdle | internal/connection/conn.go:187-190 | the loop closes its connection only after Drain, having found nothing pending and after that no listener |
| Causes.ClosesWhenIdle | internal/connection/conn.go:187-190 | where it finds itself so after an answer, with nothing coming between, it closes and ends |
| Causes.ReadsOnUnlessIdle | internal/connection/conn.go:187-190 | anywhere else it goes on reading |
| Causes.CallsCanMove | internal/connection/conn.go:84-107 | no phase of a call but the select waits for anything, and there the context, a response and the connection's end each release it |
| Causes.LoopCanMove | internal/connection/conn.go:135-192 | the loop can go on from every state until it has stopped |
| Causes.FailsOneCall | internal/connection/conn.go:212-217 | after a failed read each pending call is sent the stream's error and its entry deleted |
| Causes.EndsAfterFailure | internal/connection/conn.go:135-150 | with nothing left pending the loop then ends, closes done and touches no call |
| Framing.FrameConsumed | internal/connection/conn.go:135-192 | one round over a well-formed frame delivers it as sent and leaves exactly the stated bytes |
| Framing.NextFrameAligned | internal/connection/conn.go:152-161 | the next round starts at the next frame's first byte if and only if the frame meets a condition on the pending requests and listeners |
| Framing.FramingIsKept | internal/connection/conn.go:135-192 | on any stream of acceptable frames every frame is delivered until the loop closes an idle draining connection, and nothing behind that is touched |
| Framing.DeliveredCount | internal/connection/conn.go:183-191 | the frames delivered are those up to the first decoded response after which the loop finds itself draining, with nothing pending and no listener |
| Serving.ExecuteReturnsItsBody | internal/connection/conn.go:84-192 | over all interleavings of callers and read loop on any stream of well-formed frames, a call that returned an answer sent before the first misconsumed frame returned the body of a frame with its own message ID, read by its own decoder |
| Serving.ErrorsAreSent | internal/connection/conn.go:174-182 | a server error that was sent before the first misconsumed frame carries the message of a frame with the call's own message ID and an error status |
| Serving.LoopIsPositioned | internal/connection/conn.go:135-192 | until then the loop is at a frame's first byte, or at the body of the response it deals with, pending requests and listeners being those of the run |
| Serving.MisalignedIff | internal/connection/conn.go:135-192 | some frame has not been consumed exactly if and only if a step read past the frames, met an event that is not consumed exactly, or left an orphan's body behind |
| Rounds.RoundAgrees | internal/connection/conn.go:135-192 | for a pending response the parser's round and the loop's header, take and send steps read the same bytes, panic alike, and give the call what the parser delivers, whatever the bytes |
| Rounds.OrphanAgrees | internal/connection/conn.go:152-161 | for a response that nobody waits for both leave the body unread |
| Panics.RoundPanicsIff | internal/codec/wire.go:19-32 | a round of the read loop panics if and only if it meets a negative length of bytes or a negative count of servers, segments or entries |
| Panics.HeaderPanicsIff | internal/codec/header.go:134-188 | which of these a header can meet, at every intelligence level |
| Panics.BodyPanicsIff | internal/operation/iteration.go:76-125 | which of these each operation's body can meet, by status |
| Panics.NegativeLengthPanics | internal/codec/wire.go:19-32 | a response to a pending Get whose value has length -1 panics, whatever its header |
| ReadLoop.Conn.ReadOne | internal/connection/conn.go:235-303 | one turn of the imperative loop is the parser's round, panics included, with pending entry and topology ID updated |
| ReadLoop.Conn.Loop | internal/connection/conn.go:135-192 | the loop over a stream, with its own exit when it finds itself draining with nothing pending and no listener, gives the parser's deliveries and rest |
| ReadLoop.DecodeResponse | internal/operation/iteration.go:76-157 | the response decoders read what the parsers read, also when they fail |
| ReadLoop.SkipEventBody | internal/operation/listener.go:194-219 | consumes what the skipping parser consumes |
| Bodies.BodyRoundTrip | internal/operation/getall.go:38-56 | every decoder reads exactly the body its operation is answered with, optional metadata and previous values included |
| Bodies.MetadataRoundTrip | internal/codec/wire.go:146-211 | optional lifespan and idle fields are consumed exactly |
| Bodies.EventRoundTrip | internal/operation/listener.go:145-192 | events are decoded exactly, for each opcode and custom data |
| Bodies.SkipEventRest | internal/operation/listener.go:194-219 | skipping ends at the event's last byte, or eight bytes later, or at the end of the stream, where there is no version |
| Headers.HeaderRoundTrip | internal/codec/header.go:93-132 | any documented response header is read back, at every intelligence level, and what follows is untouched |
| Headers.TopologyRoundTrip | internal/codec/header.go:134-193 | servers, hash version and segment table are read back |
| Headers.ReadResponseHeader | internal/codec/header.go:93-193 | the sequential reader is the parser |
| Varint.PrefixFree | internal/codec/varint.go:8-36 | two printed numbers followed by anything agree only as numbers and tails |
| Varint.Minimal | internal/codec/varint.go:38-70 | no byte string that reads as a number is shorter than its printed form |
| Wire.VIntRoundTrip | internal/codec/varint.go:8-53 | every int32 round-trips in at most five bytes |
| Wire.VLongFits | internal/codec/varint.go:23-36 | nine bytes are enough exactly for non-negative numbers |
| Wire.SignedVIntRoundTrip | internal/codec/wire.go:120-130 | zigzag numbers round-trip |
| Streams.Writer.WriteVLong | internal/codec/varint.go:23-36 | writes the number, or overruns its buffer exactly if it is negative |
| Streams.Reader.ReadGroups | internal/codec/varint.go:38-70 | the shifting loop reads what the recursive parser reads |
| Topologies.HandlingIsAFold | internal/connection/pool.go:450-497 | handling a history is accepting its updates without consecutive repeats of an ID |
| Topologies.HistoryDecides | internal/connection/pool.go:450-497 | servers are the last accepted ones, a connection survives exactly if all accepted updates name its server, a cache's table is the last accepted word on it |
| Topologies.TableAfterOne | internal/connection/pool.go:479-494 | what one accepted update does to the table of its cache, and that it leaves all others alone |
| Topologies.AddressesDiffer | internal/codec/header.go:40-42 | different servers have different addresses, and none has the empty one |
| Topologies.RenamingIsInvisible | internal/connection/pool.go:457-460 | an injective renaming of the IDs changes nothing but the stored ID |
| Topologies.FreshPoolRenaming | internal/connection/pool.go:457-460 | from a new pool, any such renaming that leaves 0 alone |
| Topologies.ParsedRows | internal/codec/header.go:165-188 | a parsed update has as many rows as segments |
| Topologies.BuiltTableRoutes | internal/connection/pool.go:479-490 | a table from a parsed update has a row for every hash and routes to the first owner, or nowhere for an index outside the server list |
| Topologies.TableIsLiveIff | internal/connection/pool.go:450-497 | after any history in a pool that started without tables, a cache's table points at live servers if and only if every in-range owner of its last replacing update names a server of the last accepted update |
| Topologies.IgnoredIff | internal/connection/pool.go:457-460 | no update of a history is accepted if and only if all have the ID the pool has already |
| Topologies.HandledIff | internal/connection/pool.go:457-460 | one update is without effect if and only if it has the pool's ID |
| Topologies.UnchangedIff | internal/connection/pool.go:450-497 | a history leaves the pool as it was if and only if none of its updates is accepted, or the accepted ones bring back ID, servers and tables and all name the servers of all connections |
| Topologies.AcceptedAndRestored | internal/connection/pool.go:450-497 | two accepted updates that leave the pool as it was |
| Topologies.FirstUpdateIgnored | internal/connection/pool.go:457-460 | a new pool is left as it was by its first update if and only if that has ID 0 |
| Topologies.TablesGoStale | internal/connection/pool.go:479-494 | an update for one cache leaves another cache's table at a removed server |
| Pools.EveryConnectionHasOnePlace | internal/connection/pool.go:139-161 | in every run every dialled connection is in setup, serving one server, draining or closed, exactly one of them, and serves the server it was dialled to |
| Pools.EndedIff | internal/connection/pool.go:139-161 | in every run a connection is closed if and only if its setup failed, its server had a connection already, or the pool was closed while it served; it is draining if and only if an accepted update did not name the server it served |
| Pools.ConnectionPool.HandleTopologyUpdate | internal/connection/pool.go:450-497 | the method's loops compute the accepted view and drain exactly the departed connections |
| Pools.ConnectionPool.Install | internal/connection/pool.go:152-161 | a second connection to the same server is closed, the first one stays |
| Pools.ConnectionPool.Close | internal/connection/pool.go:509-517 | every serving connection is closed, and only those |
| Pools.BuildRows | internal/connection/pool.go:480-489 | the nested loops build the rows |
| Pools.CloseReachesAllIff | internal/connection/pool.go:509-517 | in any run, after Close every dialled connection is draining or closed if and only if none was being set up |
| Pools.ServesAfterCloseIff | internal/connection/pool.go:139-161 | a connection dialled before Close can serve in some continuation if and only if it was being set up at the Close |
| Pools.UnlistedIff | internal/connection/pool.go:139-161 | in every run a serving connection's server is missing from the last accepted list if and only if it was missing at the installation and no update was accepted since |
| Pools.ServesDepartedIff | internal/connection/pool.go:152-161 | a connection dialled to a listed server serves an unlisted one if and only if the last accepted update dropped the server and found the connection in setup |
| Pools.DepartedServerIsServed | internal/connection/pool.go:152-161 | a run in which it does |
| Pools.GoneForEver | internal/connection/pool.go:139-161 | a draining or closed connection stays so and never serves again |
| LruModel.Inclusion | hotrod/lru.go:30-105 | the list of a smaller store is a subsequence of a larger one's after the same operations, and not shorter by more than the difference of their maxima |
| LruModel.RunBounded | hotrod/lru.go:41-54 | keys differ and the length never exceeds the maximum (one, for a maximum below one) |
| LruModel.RunOrdered | hotrod/lru.go:30-54 | list order is last-use order |
| LruModel.VictimIsLeastRecentlyUsed | hotrod/lru.go:94-105 | the evicted key has the oldest last use, and no other item is lost |
| LruModel.Conservation | hotrod/lru.go:41-105 | new-key Puts = length + keys reported to onRemove + items dropped by Clear |
| LruFill.FillsUp | hotrod/lru.go:41-54 | without removals the store holds as many items as different keys were put, up to its maximum, and within it all of them |
| LruFill.PutGrows | hotrod/lru.go:41-54 | after any operations a Put of a new key adds an item below the maximum and replaces one at it |
| LruFill.HoldsLastPut | hotrod/lru.go:30-54 | what is held under a key is what was last put there |
| LruFill.ReportedIff | hotrod/lru.go:41-105 | onRemove is told a key if and only if it was held and no longer is, Clear apart |
| LruStores.LruStore.Get | hotrod/lru.go:30-39 | map and list together behave as the recency list |
| LruStores.LruStore.Put | hotrod/lru.go:41-54 | the same, with the eviction it reports |
| LruStores.LruStore.Remove | hotrod/lru.go:56-68 | the same, with the removal it reports |
| NearCache.StaleIsExplained | hotrod/near_cache.go:85-142 | in every run, every write a stale item has missed is explained: it fell before the store step, or its local Remove is still to come or was given up with the call, and its invalidation was not sent, is under way or was dropped on overflow |
| NearCache.QuietStaleIff | hotrod/near_cache.go:85-142 | when nothing is under way an item is stale if and only if the last write to its key wrote something else and went unnoticed: raced with the store step, was lost with its own call's answer or another client's, and without an invalidation that got through |
| NearCache.QuietIsCoherent | hotrod/near_cache.go:85-142 | the same for the whole near cache: all items are current if and only if no key's last write went unnoticed like that |
| Invalidations.OverflowedIff | internal/connection/conn.go:265-270 | in every run a notice is dropped if and only if it is read while the channel holds 64 events, and it never holds more |
| Invalidations.FewEventsFit | hotrod/near_cache.go:57 | a run that has read no more than 64 events has dropped none |
| Invalidations.WritesAreMade | hotrod/near_cache.go:101-116 | every write was made by somebody: another client's is announced if and only if the server's filter matched its key, an own one if and only if, besides, the writer is notified |
| Invalidations.AbandonedIff | hotrod/near_cache.go:101-116 | a local Remove is given up if and only if its call got no answer |
| Invalidations.AppliedInOrder | hotrod/near_cache.go:130-142 | invalidations are applied in the order of the writes they announce |
| Invalidations.ItemsStay | hotrod/near_cache.go:85-142 | in every run an item stays until its own key is removed or stored again, or a full store evicts it |
| Invalidations.CallsAreUnderWay | hotrod/near_cache.go:85-116 | which steps begin a Get or an own write, and which end it |
| Invalidations.StaleWithoutOverflow | hotrod/near_cache.go:85-142 | where no more than 64 events have been read and nothing is under way, exactly which items are stale |
| StaleRuns.RaceLeavesStaleItem | hotrod/near_cache.go:85-99 | a run in which every write was invalidated and a stale item remains |
| StaleRuns.LostAnswerLeavesStaleItem | hotrod/near_cache.go:101-107 | a run without any race in which an own write's lost answer leaves a stale item |
| StaleRuns.SkippedKeyGoesStale | hotrod/near_cache.go:144-151 | a run without race, failure or removal that ends with nothing under way, a stored key in no filter sent, and its item stale |
| FilterUpdates.SingleFlight | hotrod/near_cache.go:144-151 | updates started by a Get run one at a time, and the flag is set if and only if one is running |
| FilterUpdates.StartsIff | hotrod/near_cache.go:144-165 | an update starts if and only if removals ask for one or a Get finds the flag clear |
| FilterUpdates.CoveredKeysMatch | hotrod/near_cache.go:167-182 | another client's write to a key of the last installed snapshot is announced |
| FilterUpdates.OutsideLastSnapshotIff | hotrod/near_cache.go:85-99 | with no update under way a stored key is outside the last snapshot if and only if its Get found the flag set after that had been taken |
| FilterUpdates.LastIsInstalledIff | hotrod/near_cache.go:167-182 | with no update under way the last snapshot is the one installed last if and only if its update did not fail and no older one was installed behind it |
| FilterUpdates.UncoveredIff | hotrod/near_cache.go:144-182 | with no update under way a stored key is outside the last installed filter if and only if it was skipped like that or, where the last snapshot was wasted, if the older one installed does not have it |
| FilterUpdates.SkippedIffUncovered | hotrod/near_cache.go:144-151 | where no update fails and none is started by removals, being skipped is the only reason |
| RemovalCounter.EveryRemovalCountedOnce | hotrod/near_cache.go:153-165 | under every interleaving finished calls = (threshold + 1) * updates + counter, with the counter within the threshold |
| RemovalCounter.UpdatesPerRemovals | hotrod/near_cache.go:153-165 | the number of triggered updates is the quotient of the finished calls |
| RemovalCounter.SwapsIff | hotrod/near_cache.go:153-165 | a compare-and-swap returns if and only if the counter is as loaded, and else the call tries again |
| RemovalCounter.UndisturbedCallsReturn | hotrod/near_cache.go:153-165 | calls one after another all return at their first attempt |
| Bloom.BloomFilter.Add | internal/hash/bloom.go:18-27 | adds exactly the key's three bits, or panics exactly on a hash that cannot be addressed |
| Bloom.BloomFilter.ToBitSet | internal/hash/bloom.go:37-48 | only zero bytes at the end are dropped, all bits stay |
| Bloom.BuildFilter | hotrod/near_cache.go:167-172 | the filter sent has a bit set if and only if some key and seed map to it |
| Bloom.NoFalseNegatives | internal/hash/bloom.go:18-27 | no added key is missed |
| Bloom.FilterIsUnique | internal/hash/bloom.go:10-48 | what is sent depends only on the set of keys |
| Bloom.BitsDetermine | internal/hash/bloom.go:37-48 | trimmed byte strings with the same bits are equal |
| Bloom.TakesEveryKeyIff | internal/hash/bloom.go:18-27 | no key panics if and only if the size is a positive divisor of 2^31 |
| Bloom.UnluckyAdd | internal/hash/bloom.go:21-25 | a concrete key that panics at every other size |
| Murmur.OneBlockIsNeverLost | internal/hash/murmur3.go:16-92 | keys of one length that differ only within one aligned block of sixteen bytes, or only in the tail, end with different (h1, h2) |
| Murmur.BmixInjectiveInWords | internal/hash/murmur3.go:101-123 | a block round is injective in the two words it absorbs |
| Murmur.BmixInjectiveInState | internal/hash/murmur3.go:101-123 | and in the state it starts from |
| Murmur.BmixKeepsOdd | internal/hash/murmur3.go:119-120 | the multipliers stay odd |
| Murmur.FmixInjective | internal/hash/murmur3.go:125-132 | finalisation is injective |
| Murmur.FmixOnto | internal/hash/murmur3.go:125-132 | and reaches every word |
| Murmur.PackInjective | internal/hash/murmur3.go:31-81 | sign-extended packing of up to eight bytes loses none of them |
| Murmur.OddCancel | internal/hash/murmur3.go:102-113 | multiplying by an odd number can be undone modulo 2^64 |
| Murmur.HashWithSeed | internal/hash/murmur3.go:11-92 | the block loop and the falling-through tail compute the specified hash |
| Murmur.SecondWordSparesH1 | internal/hash/murmur3.go:23-27 | h1 does not depend on the last eight bytes absorbed as a block |
| MurmurVectors.SixteenBytes | internal/hash/murmur3_test.go:18 | the reference value of a key of one block |
| MurmurVectors.ThirtytwoBytes | internal/hash/murmur3_test.go:20 | of two blocks |
| MurmurVectors.SeventeenBytes | internal/hash/murmur3_test.go:19 | of a block and a tail |
| MurmurVectors.Infinispan | internal/hash/murmur3_test.go:16 | of a tail of more than eight bytes |
| MurmurVectors.HighBytes | internal/hash/murmur3_test.go:25 | of bytes whose sign is extended |
| MurmurVectors.Hello | internal/hash/murmur3_test.go:15 | of a short tail |
| Murmur.EmptyKey | internal/hash/murmur3_test.go:11 | the reference value for the empty key |
| Murmur.UnluckyKey | internal/hash/murmur3.go:11-14 | a key that hashes to -2^31 with a seed of the filter |
| Segments.FloatCeilingIsExact | internal/hash/consistent_hash.go:11-17 | any correctly rounded quotient has the integer ceiling |
| Segments.ClampNeverFires | internal/hash/consistent_hash.go:19-24 | every masked hash divided by the segment size is a segment number |
| Segments.SegmentsPartition | internal/hash/consistent_hash.go:19-30 | a segment's hashes are the interval between two boundaries, which run from 0 to 2^31 |
| Segments.PrimaryOwnerIs | internal/hash/consistent_hash.go:19-30 | a key goes to the first owner of the segment in which the low 31 bits of its hash lie |
| Bulk.ShardsPartition | hotrod/hotrod.go:511-520 | every item occurs in its owner's group as often as in the input, and in no other group |
| Bulk.GroupItems | hotrod/hotrod.go:584-593 | the grouping loop builds exactly the non-empty groups, in input order |
| Bulk.GroupIsOwner | internal/hash/consistent_hash.go:19-30 | on a table built by the pool the group of a hash is its primary owner |
| Bulk.GroupIsPrimaryOwner | hotrod/hotrod.go:511-520 | a key's group is the primary owner of that key, and none without a table |
| Bulk.PutAll | hotrod/hotrod.go:502-575 | success is reported exactly if every group succeeded, and then the cache is what one unsharded write gives, in any order of the groups; otherwise only keys of failed groups may lack their value |
| Bulk.GetAll | hotrod/hotrod.go:579-663 | a result is returned exactly if every group succeeded: each key as its group's server had it, in any order of answers |
| Bulk.UndisturbedGetAll | hotrod/hotrod.go:598-663 | with no concurrent writes that is the cache restricted to the keys |
| Protobuf.ScanInvertsPrint | internal/protostream/wrapped.go:436-494 | scanning printed fields gives those fields in order |
| Protobuf.ScanPrinted | internal/protostream/wrapped.go:436-494 | the same with anything behind them |
| Protobuf.ScanConcatenation | internal/protostream/wrapped.go:436-494 | if a scans to its end, a followed by b scans as a and then b |
| Protobuf.PanicsIff | internal/protostream/wrapped.go:469-481 | the scan panics if and only if it reaches a length whose end does not fit an int |
| Fields.FoundIff | internal/protostream/wrapped.go:436-494 | one turn of the scanner finds a field if and only if the bytes up to the rest are a tag and a value of wire type 0, 1, 2 or 5, and the end of a delimited one fits an int |
| Protobuf.TenBytesPanic | internal/protostream/wrapped.go:474-476 | a concrete input that panics |
| Protobuf.ScanFields | internal/protostream/wrapped.go:436-494 | the loop, with wrapping addition, is the scanner |
| Protobuf.DecodeUvarint | internal/protostream/wrapped.go:496-508 | the loop reads at most ten groups modulo 2^64 |
| Protobuf.UvarintSize | internal/protostream/wrapped.go:246-253 | the size is the printed length, for every uint64 |
| Protobuf.TagSize | internal/protostream/wrapped.go:238-240 | the wire type never makes a tag longer |
| Wrapped.WrapRoundTrip | internal/protostream/wrapped.go:56-139 | every wrapped scalar comes back from UnwrapValue with its type |
| Wrapped.ScalarIsRead | internal/protostream/wrapped.go:56-139 | fixed-width, zigzag and message fields, which the client never writes, are unwrapped to their values |
| Unwrapping.UnwrapValueIff | internal/protostream/wrapped.go:56-139 | on any bytes: a value is unwrapped if and only if they scan to their end, with a value field among them and none that is unreadable; and when the scan's panic shows |
| Unwrapping.UnwrapMessageIs | internal/protostream/wrapped.go:158-186 | on any bytes: the last fields 17 and 16, both there and length-delimited, or an error |
| Unwrapping.UnwrapStringIs | internal/protostream/wrapped.go:190-210 | on any bytes: the last field 9, length-delimited, or an error |
| Wrapped.MessageRoundTrip | internal/protostream/wrapped.go:158-186 | a wrapped message gives back its bytes and type name |
| Wrapped.TypeIdRoundTrip | internal/protostream/wrapped.go:257-275 | a message wrapped by type ID gives back its bytes, and has no type name |
| Wrapped.StringRoundTrip | internal/protostream/wrapped.go:190-210 | a wrapped string is unwrapped |
| Wrapped.WrapMessage | internal/protostream/wrapped.go:46-53 | the message is written, in a buffer of exactly its size |
| Wrapped.UnwrapMessageFields | internal/protostream/wrapped.go:158-186 | the callback's assignments over the scanned fields compute the specified result |
| Wrapped.ZigZagRoundTrip | internal/protostream/wrapped.go:373-379 | zigzag decoding undoes zigzag encoding, at both widths |
| Query.RequestRoundTrip | internal/protostream/query.go:21-43 | a server reading by the message definition gets query, offset, limit and parameters |
| Query.EncodeQueryRequest | internal/protostream/query.go:21-43 | the appending loop writes exactly those fields |
| Query.ResponseRoundTrip | internal/protostream/query.go:46-83 | a printed response is decoded to itself, results in order |
| Scram.HonestServerCompletesIff | internal/auth/scram.go:44-128 | against an honest server for the same name and password the client ends complete and successful if and only if the name needs no escapes, and fails otherwise |
| Scram.ServerRecoversKey | internal/auth/scram.go:93-109 | the server finds the client key in the proof by exclusive or |
| Scram.ParsePrinted | internal/auth/scram.go:130-138 | parsing attributes undoes printing them |
| Scram.UsernameArrivesIff | internal/auth/scram.go:186-188 | a server that undoes the escapes of section 5.1 of RFC 5802 reads the user name if and only if it is not empty and has no NUL, comma or equals sign |
| Scram.Pbkdf2SHA256 | internal/auth/scram.go:159-184 | the loops compute PBKDF2 of section 5.2 of RFC 8018 |
| Scram.SaltedPassword | internal/auth/scram.go:159-184 | one iteration is HMAC over salt and block number, and each further one adds, by exclusive or, HMAC applied once more |
| Scram.XorTwice | internal/auth/scram.go:151-157 | exclusive or with the same bytes undoes itself |
| Scram.XorBits | internal/auth/scram.go:151-157 | a bit of the exclusive or is set if and only if it is set in one of the two |
| Scram.ScramSHA256.EvaluateChallenge | internal/auth/scram.go:55-128 | the state, the answer and the kept keys after any challenge in any state |
| Scram.Authenticate | internal/connection/auth.go:11-62 | at most two Auth requests whatever the server answers; from a fresh mechanism, exactly the specified dialogue |
| Scram.SucceedsIff | internal/auth/scram.go:60-126 | the second request is sent if and only if the first reply is a server's first message for the client's nonce and not the last word; it names channel binding, the combined nonce and the proof; and authentication then succeeds if and only if the second reply has no error and carries the signature, by the key for the password and the salt and count named, of the messages as exchanged |
| Scram.UnverifiedSuccess | internal/connection/auth.go:36-61 | a server without any account that is done at once makes every client succeed unverified |
| Scram.SuccessIsVerified | internal/connection/auth.go:36-61 | the mechanism is complete exactly after a success with two requests; a success with one is exactly a server that is done at once with an acceptable first message |
| Decimal.AtoiOfDigits | internal/auth/scram.go:86-91 | a printed iteration count is read back |
| Decimal.AtoiOfSigned | internal/auth/scram.go:86-91 | a sign in front is read as one |
| Samples.Numbers | internal/codec/varint_test.go:14-20 | numbers of one to five groups, the low group first |
| Samples.HeaderBytes | internal/codec/header_test.go:58-82 | a response header without a topology, and one with a wrong first byte |
| Samples.Codes | internal/codec/constants.go:131-135 | the opcodes of events, which of them carry a version, and the statuses of errors |
| Samples.Statuses | internal/codec/constants.go:138-144 | the statuses that decide about a body |
| Samples.Durations | internal/codec/timeunits_test.go:9-80 | expirations in bytes |
| Samples.FixedNumbers | internal/codec/wire.go:74-130 | fixed-width numbers have the high byte first; zigzag numbers and two's complement |
| Samples.WrappedNumbers | internal/protostream/wrapped_test.go:86-112 | wrapped numbers in bytes |
| Samples.WrappedTexts | internal/protostream/wrapped_test.go:70-80 | wrapped strings and bytes |
| Samples.WrappedFloats | internal/protostream/wrapped.go:56-139 | wrapped floats and doubles, the low byte first |
| Samples.MessageTags | internal/protostream/wrapped_test.go:38-63 | the tags of a wrapped message |

## Left out

- TxCache: slice aliasing is not modelled (the code copies with `dup`), nor logging, the random transaction ID, or the rollback and forget requests.
- Multiplex: message IDs are unbounded numbers; the 64-bit counter is taken never to wrap. A state machine over values, not an object; liveness (an idle drained connection is only closed after a later response) is not claimed.
- Serving: handling an event, and decoding a body, is one step with the read of its bytes; a panic ends the run. The server is taken to answer a request with the body its operation expects, in frames it may send at any time and more than once.
- Framing: the pending requests and listeners at each frame, and what the loop finds after a decoded response, are given with the frame; Serving derives them from the callers' steps. A header's topology update is handed over but not routed to the pool; error responses carry their message as the body.
- NearCache: a state machine over values from the start of the near cache to its Close; the server's filter may change only by the actions listed, with any false positives. That the listener's connection stays up is assumed. Writes of the same client past the near cache count as another client's. An update for removals may start at any time; when the code starts one is RemovalCounter's.
- NearCache.StaleIsExplained: overflow of the event queue is one of the explanations, because the code drops events without a trace.
- Pools: dialling, TLS, ping and authentication are one step between Dial and Install or SetupFails; a connection that dies on its own stays where it is, as in the code. Listener addresses and the round-robin index are not modelled.
- Topologies: an update with hash data must have at least one segment and no negative owner index, without which the client divides by zero or panics.
- Bloom: a filter of fewer than -14 bits is excluded, because making the array panics; which bits are set before a panic is not stated.
- Bulk.PutAll: how a failed group may have been applied is arbitrary, key by key; the code returns whichever error comes first.
- Protobuf.ScanFields: the callback runs over the collected fields; a callback error hides a later malformed field, as in the code, but interleaving with the scan is not visible.
- Wrapped: the container form of float arrays and continuous-query results are not modelled; floats are bit patterns.
- Scram: names and passwords are bytes; UTF-8 validity and SASLprep, which the code leaves out, are not modelled, nor are other mechanisms. The server's behaviour after a wrong password depends on the hash and is not stated.
- Request headers, the Add Client Listener request, media types and the simple operations: they reuse the same codec lemmas.
- Typed caches, marshallers, schemas, URI parsing, options and generated code: reflection and plumbing.

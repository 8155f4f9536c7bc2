# A Dafny model of chromatindb

This project models the hard core of chromatindb, a store of signed blobs spread over nodes, and of its client `cdb`,
and proves what its parts promise together: over every interleaving, every run, every order of replies and every cut of
a stream. It is written for Dafny 4.11; `dafny verify dfyconfig.toml` checks all of it.

Cryptography, the generated FlatBuffer code, the disk, the network and the clocks are parameters. A primitive is a
function value in a record (`Primitives`, `Suite`, `Aead`, `Codec`, `Kit`, `ChunkCodec`, `ManifestCodec`, `BlobLayer`),
and what is expected of it is a named predicate that a lemma lists among its `requires`; `LawsConsistent`,
`CodecLawConsistent` and `KitLawConsistent` show that the laws of the envelope, the stream and the handshake can be met.
A connection's future replies and failures are arbitrary values, so what is proved holds for all of them.

## Modules

- `Basics`, `Octets`, `BlobFormat`, `BlobStore`: numbers and sequences, bytes, the byte layouts that decide what kind a
  blob is, and the store's tables.
- `IngestMachine`, `NodeEngine`: `ingest` and `delete_blob` as segments between awaits, interleaved in any way with each
  other and with the expiry scan; and the same segments as methods of the engine and storage objects, with a node that
  serves any sequence of events.
- `CommitEffects`, `ExampleRuns`, `TombstoneSafety`, `StrandedTombstone`, `DelegationIndex`, `Provenance`,
  `Revocation`, `OwnerRegistry`, `Quota`: what every run of that machine keeps, and runs that show what fails.
- `Envelope`, `EnvelopeRoundTrip`: the CENV envelope.
- `ChunkPlan`, `Pipeline`, `ChunkedUpload`, `ChunkedDownload`, `CdatCodec`, `FileRoundTrip`, `CascadeDelete`: large
  files.
- `Frames`, `MessageStream`, `Transport`, `SendQueue`, `SendPath`, `ConnectionEnd`: the encrypted connection, from the
  coroutines that send to the callback at the far end, and how it ends.
- `Handshake`, `Authentication`, `SecureSession`: how a connection starts.
- `PeerDedup`, `Gossip`, `GossipReach`, `PendingFetch`, `CapExchange`, `RateLimit`, `Paging`, `Names`: the peers and the
  dispatcher, and the client's listing and name lookup.

## Where the code differs from what is said of it

Each of these is kept as the code has it. Where a property fails, the lemma that shows it and the one that says exactly
when it holds are named.

- A namespace can hold a tombstone and the blob it targets (`TombstoneSafetyFails`). The index entry that keeps the
  target out is erased when any tombstone for that target is deleted or expires, so the others are stranded. A run is
  free of such a pair throughout exactly if no event in it stores a regular blob that a stored tombstone targets and
  the index does not; the index stays complete throughout exactly if no event strands a tombstone
  (`TombstoneSafetyInEveryRun`).
- A stored delegation may not be found (`DelegateShutOut`). The index holds one hash for each delegate; deleting one of
  two delegations for a delegate while the other stays, or the expiry of the one the index points at, shuts the delegate
  out. Every stored delegation is found throughout a run exactly if no event does that (`DelegationsInEveryRun`).
- A call that storage refuses at the last moment has already deleted its victims and filed its key
  (`BombRefusedAfterDeleting`). A refused call leaves the store as it was exactly up to that (`RefusalChangesNothing`,
  `StorageRefusalEffect`).
- A call does not look at its delegation again when it commits, so a delegate's blob can be stored after the delegation
  is gone (`RevokedDelegateStores`). Every blob of a run is stored while its signer has authority exactly if no
  delegate's call commits after the last delegation to its key was taken away (`AuthorityInTime`).
- The owner registry is keyed by the signer hint, not by the namespace that was checked. So a key may be filed under a
  name that is not its hash, and a namespace may hold a blob and have no entry (`ForeignHintMisfiles`). The first never
  happens in a run exactly if no event files a key under another hint (`KeyedIff`), the second exactly if no event
  stores a blob past a missing entry other than a PUBK that has the namespace as its hint (`HousedIff`).
- The count behind the quota leaves tombstones out, and deleting one takes one off all the same (`CountFallsShort`), so
  a namespace can come to hold more than its quota (`ShortCountAdmits`). The count is true throughout a run exactly if
  no event deletes a tombstone and leaves something that counts (`CountInEveryRun`). A restart counts the tombstones
  too (`RebuiltTrueIff`).
- An envelope of more than 2^32 - 1 segments is silently cut short, because the segment count is cast to 32 bits
  (`EnvelopeRoundTripIff`).
- An upload under a cap that leaves less than 1 MiB after the overhead succeeds and leaves a manifest that the client
  itself refuses to read (`UnreadableManifestExists`, `ManifestReadableIff`).
- The plan of an upload leaves room for the chunks in their envelopes and does not look at the manifest, which can be
  over the cap when everything else has been uploaded (`OversizedManifestExists`, `ManifestOversizedIff`).
- A message over 65 MiB is sent without complaint and ends the stream for the receiver (`OversizedStops`,
  `StreamDelivers`).
- With two zero caps the capability exchange never ends (`PingPong`, `ExchangeTerminates`). The configuration checks
  exclude a zero cap, so this is a remark on the dispatcher alone.
- A listing stops at the first page whose hundred entries are all filtered out (`HiddenNameExists`). It is complete
  exactly when every entry that passes the filters comes within a hundred positions of the start or of another such
  entry (`ListingCompleteIff`). So an older record of a name can be resolved (`OlderNameWins`); the latest one is
  exactly if no such gap lies before it (`LatestWinsIff`).
- `Connection::run` says that the end of the message loop closes the connection. The loop closes it exactly if it read a
  goodbye or ran out of frames at one that no counter was left for (`MessageLoop`); otherwise, and unless another
  coroutine closes it, the drain coroutine sleeps on and `run` does not return (`RunReturns`, `LostReadSleeps`).
- A second `close_gracefully` queues a second goodbye, as it looks at `closed_` and not at `closing_` (`TwoGoodbyes`,
  `GoodbyeQueuedIff`).
- The lightweight handshake compares the key that signs with the key in the hello. The KEM paths do not: any key may
  stand in the KEM message, and the one that signs is the one that counts (`KemKeyNotCompared`). What is compared, and
  when, is part of the exact condition for being authenticated (`AuthenticationEarned`).
- A not-found answer to a push fetch leaves its pending entry, so later notifies for that blob are passed over
  (`SecondNotifyIgnored`, `NoFetchWhilePending`). A notify is followed by a fetch exactly if nothing holds it up, the
  blob is not there and no entry is pending (`NotifyFetchesIff`); an entry goes exactly when the ingest of a fetched
  copy has come back or the peer that was asked disconnects (`PendingGoesIff`). A node whose fetches were never answered
  with the blob keeps its entry that long, even if a client or a sync brings the blob (`EntryStays`).
- Dedup is said to be for peer connections only, and looks at the role of the new connection only. A client's entry for
  the same namespace can stand in for a peer's, and two peer connections then stay (`ClientsShadow`, `OnePeerIff`).

## Model

| member | source | states |
|---|---|---|
| `TombstoneSafety.TombstoneSafetyInEveryRun` | db/engine/engine.cpp:381-445 | In every interleaving of ingests, deletes and expiry scans no indexed target is stored as a regular blob and every index entry has a stored tombstone. No namespace ever holds a tombstone together with the regular blob it targets if and only if no event stores such a blob past a missing index entry, and the index stays complete if and only if no event strands a tombstone, which is enough for that. |
| `TombstoneSafety.StepSafeIff` | db/engine/engine.cpp:381-445 | A step from a store without a tombstone and its target keeps it so if and only if it is not the commit of a regular blob that passes the signature and the index, that storage takes, and that a stored tombstone targets. |
| `TombstoneSafety.StepKeepsFacts` | db/engine/engine.cpp:587-599 | One step of any call keeps the index free of stored regular targets, and keeps it complete if and only if it strands no tombstone; refused calls and scans of blobs without a ttl strand none. |
| `TombstoneSafety.CommitKeepsFacts` | db/engine/engine.cpp:381-445 | The verify-delete-register-store segment of either call keeps the index facts; a target is gone before its tombstone is stored. |
| `TombstoneSafety.CommitKeepsIndexIff` | db/engine/engine.cpp:381-445 | It keeps the index complete if and only if it does not pass, or no tombstone it deletes leaves another for the same target, save for a target that the stored blob itself names again. |
| `TombstoneSafety.DeleteKeepsIndexIff` | db/storage/storage.cpp:1069-1195 | Deleting a batch of blobs keeps every stored tombstone indexed if and only if none of the deleted blobs is a tombstone whose target another surviving tombstone shares. |
| `TombstoneSafety.ExpiryKeepsIndexIff` | db/storage/storage.cpp:1468-1578 | The same equivalence for a blob purged by the expiry scan. |
| `BlobStore.DeleteAllBlobs` | db/storage/storage.cpp:1069-1195 | A sequence of deletes leaves exactly the other blobs. |
| `BlobStore.DeleteAllIndexes` | db/storage/storage.cpp:1069-1195 | It leaves exactly the index entries that are neither the target of a deleted tombstone nor the delegate of a deleted delegation. |
| `StrandedTombstone.MissingEntryAdmitsTarget` | db/engine/engine.cpp:411-421 | From any reachable store with a stored tombstone that has no index entry, the owner can store its target again: tombstone and target then stand side by side. |
| `StrandedTombstone.TombstoneSafetyFails` | db/storage/storage.cpp:1069-1195 | A run of five calls, none overlapping, ends with a tombstone and its target in one namespace. |
| `CommitEffects.CommitShape` | db/engine/engine.cpp:381-467 | A commit that fails the signature or the tombstone check changes nothing; any other deletes exactly its victims, files a PUBK's key unless another is there, and adds its blob exactly if it reports it as newly stored. |
| `CommitEffects.RefusalChangesNothing` | db/engine/engine.cpp:105-640 | A call refused for any reason but storage's own has left the store as it was, at each of its segments. |
| `CommitEffects.StorageRefusalEffect` | db/engine/engine.cpp:440-482 | A refusal by storage leaves the victims deleted and the key filed, and nothing else changed. |
| `CommitEffects.RefusedBombDeletes` | db/engine/engine.cpp:399-467 | For every store: a signed BOMB that meets a full store at its commit is refused and each of its targets is gone. |
| `ExampleRuns.BombRefusedAfterDeleting` | db/engine/engine.cpp:399-467 | A run of three calls in which a stored blob is gone after the BOMB that names it was refused. |
| `DelegationIndex.DelegationsInEveryRun` | db/storage/storage.cpp:1319-1383 | In every run without hash collisions an index entry leads to a delegation to its very delegate or to nothing, and every stored delegation lets its delegate in throughout if and only if no event hides one. |
| `DelegationIndex.StepFindsIff` | db/engine/engine.cpp:381-467 | One step keeps every stored delegation found if and only if it neither commits past its checks with a batch that hides one nor purges one that the index points at while another stays. |
| `DelegationIndex.DeleteHidesIff` | db/storage/storage.cpp:1160-1171 | A batch of deletes hides a stored delegation if and only if it takes one delegation of a delegate while another stays outside the batch. |
| `DelegationIndex.ExpiryHidesIff` | db/storage/storage.cpp:1468-1578 | An expiry does if and only if, besides, the purged one is the one the index points at. |
| `DelegationIndex.SiblingShutOut` | db/storage/storage.cpp:1160-1171 | From any reachable store with two delegations for one delegate, the owner's tombstone for one shuts that delegate out while the other stays stored. |
| `DelegationIndex.DelegateShutOut` | db/storage/storage.cpp:1160-1171 | A run of four calls that ends so. |
| `DelegationIndex.InsertFinds` | db/storage/storage.cpp:363-533 | Storing a blob hides no delegation, and only a delegation makes a delegate found. |
| `Provenance.BackedInEveryRun` | db/engine/engine.cpp:239-321 | In every run the log of stored blobs is authorised, the store is contained in the log, and every suspended call holds a key that is the owner's or was granted. |
| `Provenance.EveryBlobAuthorised` | db/engine/engine.cpp:356-388 | Every blob in every reachable store was verified over its own namespace under a key hashing to it, or under a key delegated by a blob stored earlier; tombstones, BOMBs and delegations only under the owner's key, and BOMBs are well-formed with ttl 0. |
| `Provenance.EveryAckAuthorised` | db/engine/engine.cpp:356-365 | The same for every blob ever acknowledged, including a duplicate whose signature was not looked at. |
| `Provenance.DelegateGranted` | db/storage/storage.cpp:1319-1383 | A key found by the delegation lookup is in a delegation blob that was stored before in that namespace. |
| `Provenance.CommitOnlyAdds` | db/engine/engine.cpp:381-640 | A commit of either call that accepts verified its signature, and changed the store only by removing blobs and adding its own. |
| `Revocation.AuthorityInTime` | db/engine/engine.cpp:280-445 | In every run each blob is stored while the owner's key or a stored delegation's verifies it if no delegate's call commits after the last delegation to its key is gone, and only then if a signature has one key. Every suspended call keeps a stored delegation throughout if and only if no event takes away what another call leans on, and that is enough. |
| `Revocation.StepRevokesIff` | db/storage/storage.cpp:1069-1195 | An event leaves a granted key granted if and only if it neither commits past its checks with a batch that holds all delegations to it nor purges the only one. |
| `Revocation.StepSupportedIff` | db/engine/engine.cpp:280-321 | A step keeps every suspended delegate call on a stored delegation if and only if it takes away none that another call leans on. |
| `Revocation.RevokedDelegateStores` | db/engine/engine.cpp:381-445 | A run in which a delegate's blob is stored after the owner's tombstone deleted the only delegation, while the call was verifying. |
| `OwnerRegistry.RegistryInHonestRuns` | db/engine/engine.cpp:263-279 | With hints that are the hash of the signing key, in every run each registry entry holds a key hashing to it and every namespace with a blob has an entry. |
| `OwnerRegistry.EntriesNeverChange` | db/storage/storage.cpp:1389-1417 | Between any two points of any run registry entries are neither changed nor removed, whatever the hints. |
| `OwnerRegistry.KeyedIff` | db/engine/engine.cpp:423-438 | For any hints: at the end of a run every entry holds a key hashing to it if and only if no event filed a key under another hint. |
| `OwnerRegistry.StepKeepsKeyedIff` | db/engine/engine.cpp:428-438 | The same for one step. |
| `OwnerRegistry.HousedIff` | db/engine/engine.cpp:170-198 | For any hints: every namespace with a blob has an entry throughout a run if and only if no event stored a blob where there was none, other than a PUBK with that namespace as its hint. |
| `OwnerRegistry.StepHousedIff` | db/engine/engine.cpp:423-445 | The same for one step. |
| `Quota.CountInEveryRun` | db/storage/storage.cpp:424-516 | In every run the count of a namespace is at most its stored blobs that are no tombstones, and equals it throughout if and only if no event deletes a tombstone of the namespace and leaves something that counts. |
| `Quota.DeletesTrueIff` | db/storage/storage.cpp:1099-1118 | A batch of deletes leaves a true count true if and only if it takes no tombstone or leaves nothing that counts. |
| `Quota.QuotaKept` | db/storage/storage.cpp:424-449 | In every run under a count limit the count keeps to the limit, and so do the stored blobs if nothing was miscounted. |
| `Quota.ShortCountAdmits` | db/storage/storage.cpp:424-449 | With a count below the limit a blob is stored however many are there. |
| `Quota.CountFallsShort` | db/storage/storage.cpp:1099-1118 | A run of four calls after which the count is not true. |
| `Quota.RebuiltTrueIff` | db/storage/storage.cpp:1855-1896 | The count a restart sets is true if and only if the namespace holds no tombstone. |
| `OwnerRegistry.ForeignHintMisfiles` | db/engine/engine.cpp:190-198 | One PUBK with a foreign hint files its key there and leaves its own namespace holding a blob and unregistered. |
| `OwnerRegistry.CommitOwners` | db/engine/engine.cpp:423-438 | A commit leaves the registry as it was, or files the key of one PUBK under that PUBK's hint. |
| `OwnerRegistry.RegisteredInEveryRun` | cli/src/wire.cpp:285 | The invariant behind it, for runs in which every submitted blob has an honest hint. |
| `NodeEngine.Storage.StoreBlob` | db/storage/storage.cpp:363-533 | Stores, or reports why not, by the status table, and changes nothing when it refuses. |
| `NodeEngine.Storage.DeleteBlobData` | db/storage/storage.cpp:1069-1195 | Removes the blob, its delegation entry and the index entry of a tombstone's target; reports whether it was there. |
| `NodeEngine.Storage.RegisterOwnerPubkey` | db/storage/storage.cpp:1389-1417 | First write wins; a different key under the same hint is refused. |
| `NodeEngine.Storage.PurgeExpired` | db/storage/storage.cpp:1468-1578 | Removes the blob if it has a ttl, and a tombstone's index entry with it; the delegation entry stays. |
| `NodeEngine.BlobEngine.BeginIngest` | db/engine/engine.cpp:105-321 | The checks and the key lookup before the first await, in order, each with its error. |
| `NodeEngine.BlobEngine.CommitIngest` | db/engine/engine.cpp:381-467 | The last segment of ingest as one atomic change of the store, refining the machine's step. |
| `NodeEngine.BlobEngine.DeleteTargets` | db/engine/engine.cpp:399-410 | The loop over a BOMB's targets deletes all of them, in order. |
| `NodeEngine.BlobEngine.CommitDelete` | db/engine/engine.cpp:587-640 | The last segment of a delete request: the target goes and the request is stored. |
| `NodeEngine.BlobEngine.BeginDelete` | db/engine/engine.cpp:483-545 | The checks a delete request meets before its first await. |
| `NodeEngine.BlobEngine.ResumeSuspended` | db/engine/engine.cpp:243-381 | Any suspended call, from its resumption to its next await or its return, refines the machine's step. |
| `NodeEngine.Node.Handle` | db/engine/engine.cpp:105-640 | One event, an arriving call, a resumption or a purge, takes the node object where the machine's step leads. |
| `NodeEngine.Node.Serve` | db/engine/engine.cpp:105-640 | After any sequence of events on a new node: its objects are where the run leads, every blob in it was authorised, the index facts hold, and no tombstone stands beside its target if no event resurrected one. |
| `BlobFormat.KindsDisjoint` | db/wire/codec.cpp:137-234 | No data is two of tombstone, delegation, PUBK and BOMB. |
| `EnvelopeRoundTrip.EnvelopeRoundTripIff` | cli/src/envelope.cpp:102-421 | Encryption succeeds exactly for at most 65535 recipients with keys of the right size; then, whichever way the sort orders equal hashes, each recipient decrypts to the plaintext if and only if it has at most (2^32 - 1) MiB. |
| `EnvelopeRoundTrip.DecryptReturnsCovered` | cli/src/envelope.cpp:209-421 | For every plaintext, a recipient decrypts to exactly the part that the 32-bit segment count covers. |
| `EnvelopeRoundTrip.AdRebuilt` | cli/src/envelope.cpp:338-350 | The associated data rebuilt at the matched stanza equals the one used when that stanza's key was wrapped, whatever the other stanzas are. |
| `EnvelopeRoundTrip.ScanStops` | cli/src/envelope.cpp:301-311 | The scan finds the recipient's stanza in the sorted list. |
| `EnvelopeRoundTrip.SegmentsOpen` | cli/src/envelope.cpp:374-421 | Segment boundaries are recovered from the length alone, for empty and exact-multiple plaintexts too. |
| `EnvelopeRoundTrip.EnvelopeLength` | cli/src/envelope.cpp:210-217 | The size of an envelope: 20 bytes, 1648 for each recipient, the text, 16 for each segment. |
| `EnvelopeRoundTrip.EnvelopeOrdered` | cli/src/envelope.cpp:149-153 | The stanzas lie in the envelope in order of recipient hash, for every order of recipients. |
| `EnvelopeRoundTrip.LawsConsistent` | cli/src/envelope.cpp:102-247 | The laws assumed of KEM, AEAD and sort can be met together. |
| `Envelope.SegmentNoncesDistinct` | cli/src/envelope.cpp:38-48 | Two different 32-bit segment indexes never give the same nonce. |
| `Envelope.Encrypt` | cli/src/envelope.cpp:102-247 | The loops over recipients and segments build exactly the specified envelope, or refuse. |
| `Envelope.SealSegments` | cli/src/envelope.cpp:209-248 | The segment loop seals every segment of the plaintext under its own nonce. |
| `Envelope.BuildPrefix` | cli/src/envelope.cpp:164-227 | The stanza loop appends each recipient's stanza under the prefix built so far. |
| `Envelope.Decrypt` | cli/src/envelope.cpp:257-421 | The parser, the scan and the unwrapping compute the specified result, with all the refusals. |
| `Envelope.DecryptSegments` | cli/src/envelope.cpp:374-421 | The segment loop stops at the first segment that fails and returns the whole text otherwise. |
| `ChunkPlan.CdatFitsCap` | cli/src/chunked.cpp:184-222 | Every chunk of an accepted upload, enveloped and tagged, is at most cap bytes, for every cap, recipient count and file size. |
| `ChunkPlan.EngineNeverOversized` | db/engine/engine.cpp:109-118 | So the engine's size check with the same cap never rejects it, whatever else is configured. |
| `ChunkPlan.PlanIsTight` | cli/src/chunked.cpp:205-222 | The chunks of a plan cover the file, only the last is short, and none is empty. |
| `ChunkPlan.PlanAcceptsIff` | cli/src/chunked.cpp:151-222 | An upload is accepted exactly if the file is larger than the cap and at most 1 TiB, the overhead leaves a chunk size below 2^32, and 65536 such chunks hold it. |
| `ChunkPlan.FullChunkFillsCap` | cli/src/chunked.cpp:184-202 | A full chunk falls short of the cap by exactly the tags of the segments the cap would have had and the chunk has not. |
| `ChunkPlan.ManifestReadableIff` | cli/src/wire.cpp:511-563 | The manifest of a successful upload decodes to itself under the same cap if and only if the cap less the overhead is at least 1 MiB. |
| `ChunkPlan.UnreadableManifestExists` | cli/src/wire.cpp:511-563 | A cap of 1 MiB and a 2 MiB file are accepted for upload and every manifest for them is refused. |
| `ChunkPlan.ManifestOversizedIff` | cli/src/chunked.cpp:366-384 | The node's size check refuses the blob that carries a manifest if and only if header, stanzas, manifest and tags exceed the cap. |
| `ChunkPlan.OversizedManifestExists` | cli/src/chunked.cpp:366-384 | A cap of 2 MiB and a file of 65536 full chunks are accepted for upload, and the manifest's blob is over the cap. |
| `Pipeline.Connection.SendAsync` | cli/src/connection.cpp:838-856 | Sends exactly when fewer than eight requests are in flight and the transport accepts; only with eight in flight does it enter its loop, and then it can only fail, after stashing all that arrives. |
| `Pipeline.Connection.RecvNext` | cli/src/pipeline_pump.h:125-143 | Returns a stashed reply or the next arrival, and lowers the in-flight count by one, not below zero. |
| `Pipeline.Connection.RecvFor` | cli/src/pipeline_pump.h:67-115 | Returns the reply to one request and stashes the others. |
| `ChunkedUpload.UploadChunks` | cli/src/chunked.cpp:262-358 | For every reply order and send pattern, a finished upload has each chunk's recorded hash taken from an acknowledgement of that chunk's request, has absorbed the file in order, and never entered backpressure. |
| `ChunkedUpload.UploadFaithful` | cli/src/chunked.cpp:329-356 | If the node stores what it acknowledges, each recorded hash names a stored blob that decrypts to its chunk. |
| `ChunkedUpload.UploadPublished` | cli/src/chunked.cpp:366-404 | And the hash acknowledged for the manifest names the stored blob that carries it. |
| `ChunkedUpload.PutChunked` | cli/src/chunked.cpp:128-410 | A successful upload returns the hash of a stored blob that carries a manifest for the planned cut, whose hashes are faithful to the file. |
| `ChunkedUpload.SendChunk` | cli/src/chunked.cpp:286-322 | The retry loop sends the same chunk, freshly wrapped, under the same request id, up to three more times. |
| `ChunkedDownload.GetChunked` | cli/src/chunked.cpp:645-800 | A successful download wrote every chunk exactly once, from a reply to a request for its own hash and at its own offset, for every manifest with fields of the source's widths, an empty last chunk included; in flight stays at most the live map, at most eight, and backpressure is never entered. |
| `ChunkedDownload.PwriteFills` | cli/src/chunked.cpp:752-768 | A write of the checked length fills its chunk's place exactly. |
| `ChunkedDownload.PwriteSpares` | cli/src/chunked.cpp:752-768 | It leaves every other chunk's place alone: the places partition the file. |
| `ChunkedDownload.UncoveredAsksTooMuch` | cli/src/chunked.cpp:752-768 | A manifest whose last chunk would start past its total asks for a length that no text has, so its download cannot succeed. |
| `ChunkedDownload.Settle` | cli/src/chunked.cpp:718-775 | One reply ends in a retry under a fresh id, a write, or failure, and the books stay balanced. |
| `ChunkedDownload.Ask` | cli/src/chunked.cpp:656-700 | A request goes out under a fresh id bound to its chunk. |
| `ChunkedDownload.DownloadIsFile` | cli/src/chunked.cpp:645-800 | From a faithful manifest and truthful answers, what stands in the output is the file. |
| `ChunkedDownload.GetFile` | cli/src/commands.cpp:940-1085 | From the hash of a manifest: the manifest is read from a reply to the request for that hash and accepted by the decoder, and a successful download has each chunk in its place and the manifest's digest. |
| `ChunkedDownload.PutThenGet` | cli/src/chunked.cpp:128-800 | What a download of the hash printed by an upload gives is the file, for every file, reply order and retry pattern, given a codec that recovers. |
| `CdatCodec.CodecRecovers` | cli/src/chunked.cpp:85-106 | The tagged envelope is such a codec, for chunks and manifest, for every recipient and every draw of randomness. |
| `FileRoundTrip.PutFileGetFile` | cli/src/chunked.cpp:128-800 | So a file put for some recipients and got back by its hash by one of them is the same file, byte for byte, if the node kept its word. |
| `CascadeDelete.RmChunked` | cli/src/chunked.cpp:425-513 | The manifest's tombstone is sent only after every chunk's was acknowledged and none failed, and whenever they all were; success is exactly its own acknowledgement in a clean run. No request is settled twice. |
| `CascadeDelete.SweepChunks` | cli/src/chunked.cpp:431-492 | The pipelined loop ends with every chunk acknowledged, with an error counted, or with the connection lost and some chunk unacknowledged; it never enters backpressure. |
| `Frames.OpensWhole` | db/net/framing.cpp:10-70 | Wherever a stream of frames is cut, the receiver gets exactly the whole frames before the cut. |
| `Frames.NoncesDistinct` | db/net/framing.cpp:10-16 | Two counters below the limit never give the same nonce. |
| `MessageStream.StreamDelivers` | db/net/connection.cpp:762-904 | Either reader, on any cut of any frames of a run of messages, has exactly the messages that lie whole before the cut, in order and byte for byte, up to the first over the limit. |
| `MessageStream.SlicesReassemble` | db/net/connection.cpp:881-903 | The pieces of a payload and the empty frame reassemble to the payload, for every length. |
| `MessageStream.PartNotReassembled` | db/net/connection.cpp:881-903 | Without the empty frame nothing comes out. |
| `MessageStream.ArrivedUpTo` | db/net/connection.cpp:762-904 | If a stream ends inside a message, exactly the earlier ones have arrived, when none is over the limit. |
| `MessageStream.OversizedStops` | db/net/connection.cpp:866-870 | Nothing from the first message over 65 MiB on arrives. |
| `Transport.Sender.SendEncrypted` | db/net/connection.cpp:153-165 | One frame under the next counter, none past the limit; what fits on a breaking socket is a prefix. |
| `Transport.Sender.SendFramesOf` | db/net/connection.cpp:1030-1055 | The frames of one message go out with consecutive counters and nothing between them, or the stream is stuck inside it. |
| `Transport.Sender.SendSlices` | db/net/connection.cpp:1037-1046 | The slice loop sends the payload in 1 MiB pieces, in order. |
| `Transport.Sender.Drain` | db/net/connection.cpp:1021-1071 | A drain of a fixed list reports a prefix of it as sent and fails the rest; after a failure nothing more is reported as sent. |
| `Transport.SentIsReceived` | db/net/connection.cpp:1021-1071 | Whatever was drained and wherever the socket broke, reading it to the end gives exactly the messages reported as sent. |
| `Transport.Receiver.RecvEncrypted` | db/net/connection.cpp:167-189 | Takes the next frame of the stream, or fails on a short read, a long frame, an exhausted counter or a bad tag; it closes the connection exactly on the exhausted counter. |
| `Transport.Receiver.RecvChunked` | db/net/connection.cpp:837-904 | The reassembly loop computes the specified message or fails. |
| `Transport.Receiver.MessageLoop` | db/net/connection.cpp:762-831 | The message loop handles exactly the messages the stream parses into, up to a goodbye, and closes the connection if and only if it read a goodbye or ran out of frames at a whole one with the counter exhausted. |
| `Transport.CallbackGetsSent` | db/net/connection.cpp:762-831 | The callback at the far end is given exactly the messages reported as sent, less pings, pongs and goodbyes, in order and once each; the pings are answered and the loop closes exactly on a goodbye. |
| `SendQueue.EveryRunSound` | db/net/connection.cpp:991-1090 | In every run everything accepted is signalled, being written or queued, once each and in order; goodbyes come last; the drain coroutine sleeps unsignalled only on an empty queue of an open connection. |
| `SendQueue.QuietMeansAllSignalled` | db/net/connection.cpp:1021-1090 | Whenever the drain coroutine is asleep unsignalled or has exited, every accepted waiter has been signalled exactly once. |
| `SendQueue.TwoGoodbyes` | db/net/connection.cpp:1092-1120 | A second graceful close queues a second goodbye. |
| `SendQueue.GoodbyeQueuedIff` | db/net/connection.cpp:1092-1120 | A graceful close queues a goodbye if and only if the connection is open and authenticated and fewer than 1024 messages are queued. |
| `SendQueue.OpenIff` | db/net/connection.cpp:99-106 | A connection is open after a run if and only if no event closed it: a close, a graceful close or a send that found the queue full, a graceful close before authentication, or an exhausted counter. |
| `ConnectionEnd.RunReturns` | db/net/connection.cpp:956-978 | For every input and interleaving, at rest: the drain coroutine has exited if the message loop closed the connection, and otherwise if and only if another coroutine did. |
| `ConnectionEnd.LostReadSleeps` | db/net/connection.cpp:762-769 | A stream that just ends leaves the connection open and the drain coroutine asleep. |
| `SendQueue.DrainProgress` | db/net/connection.cpp:1021-1090 | Each of its own steps brings it closer to that, whatever the writes return. |
| `SendQueue.Queue.EnqueueSend` | db/net/connection.cpp:991-1019 | Rejects when closed or closing, closes when full, otherwise queues and wakes. |
| `SendQueue.Queue.CloseGracefully` | db/net/connection.cpp:1092-1120 | Queues a goodbye and bars further messages, unless closed, unauthenticated or full. |
| `SendQueue.Queue.AfterWrite` | db/net/connection.cpp:1057-1090 | Signals the writer, fails the rest on an error, and goes on to the next await. |
| `SendQueue.Queue.FailRemaining` | db/net/connection.cpp:1061-1069 | Every queued waiter is signalled with failure, in order. |
| `SendPath.Connection.Serve` | db/net/connection.cpp:991-1120 | Any interleaving of coroutines that queue, close and let the drain coroutine go on is a run of the queue in which the messages acknowledged are exactly those the sender reported, in order. |
| `SendPath.CallbackGetsAcked` | db/net/connection.cpp:762-1090 | After any such interleaving, and wherever the socket broke, the callback at the far end gets the messages whose waiters were told true, in that order and once each, pings, pongs and goodbyes aside. |
| `SendPath.NothingBehindGoodbye` | db/net/connection.cpp:1092-1120 | No acknowledged message is lost behind a goodbye. |
| `Handshake.Agreement` | db/net/connection.cpp:195-756 | For every pair of trust decisions and every schedule: an authenticated initiator agrees with its responder on keys, fingerprint, public keys, roles and counters; at rest both agree if and only if both roles are implemented. |
| `Authentication.AuthenticationEarned` | db/net/connection.cpp:195-756 | For every sequence of frames from the other side, honest or not: a session is authenticated if and only if the frames hold an exchange of its path and then a frame that opens under its key with the first nonce to a key, an implemented role and that key's signature over the fingerprint; the session's keys, peer key and role are those. On the lightweight path, and only there, the hello announced the key. |
| `Authentication.CountersAtOne` | db/net/connection.cpp:195-756 | At most one frame was sealed and one opened, exactly one each when authenticated. |
| `Authentication.KemKeyNotCompared` | db/net/connection.cpp:694-756 | On the KEM path a responder authenticates the key that signs, whatever key stood in the KEM message. |
| `Handshake.RunsSettle` | db/net/connection.cpp:195-756 | Every honest run comes to rest within six reads. |
| `Handshake.StepAdvances` | db/net/connection.cpp:225-260 | Every read moves the pair to a later stage of one of the three paths. |
| `Handshake.AuthAccepted` | db/net/connection.cpp:333-372 | A signature sealed by the other side with shared keys is accepted exactly when its role is implemented. |
| `Handshake.AuthRoundTripIff` | db/net/auth_helpers.h:25-73 | An authentication payload decodes to itself if and only if its role is implemented. |
| `Handshake.CiphertextRead` | db/net/handshake.cpp:15-56 | After the KEM exchange both sides hold mirrored keys and one fingerprint. |
| `Handshake.HelloBackRead` | db/net/handshake.cpp:62-109 | The same after the lightweight exchange. |
| `SecureSession.SessionDelivers` | db/net/connection.cpp:956-974 | After every honest handshake at rest, each direction delivers exactly the messages that lie whole before any cut. |
| `PeerDedup.BothKeepTheSame` | db/peer/connection_manager.cpp:120-160 | Whatever each of two nodes saw and in whatever order, with any number of reconnects: the connection opened by the smaller namespace is dropped by neither, and while it is live it is each side's one peer entry for the other, unless another of its direction came up meanwhile or a client's entry stood before a peer's. |
| `PeerDedup.SparedIff` | db/peer/connection_manager.cpp:122-160 | In a run of connects, refusals and disconnects a connection to keep is dropped if and only if another to keep came up while it was listed. |
| `PeerDedup.KeptIffLive` | db/peer/connection_manager.cpp:120-247 | Otherwise the connections to keep that are listed are exactly those that came up and have not gone since. |
| `PeerDedup.OnePeerIff` | db/peer/connection_manager.cpp:122-172 | There is at most one peer entry for a namespace throughout a run if and only if no connection to keep came up while a client's entry of that namespace stood before a peer's. |
| `PeerDedup.DialsOnceSuffices` | db/peer/connection_manager.cpp:122-160 | If none of a direction comes up while another of it is live, reconnects included, none to keep is dropped. |
| `PeerDedup.NewerReplaces` | db/peer/connection_manager.cpp:138-146 | A second connection of the kept direction takes the place of the first. |
| `PeerDedup.ClientsShadow` | db/peer/connection_manager.cpp:120-160 | With two clients of a namespace listed, two peer connections of it stay side by side. |
| `PeerDedup.PreferenceShared` | db/peer/connection_manager.cpp:127-137 | Both ends prefer the same one of two connections. |
| `PeerDedup.ConnectionManager.OnPeerConnected` | db/peer/connection_manager.cpp:67-172 | The scan over the deque and the replacement in it. |
| `PeerDedup.ConnectionManager.OnPeerDisconnected` | db/peer/connection_manager.cpp:210-247 | Removes every entry of the connection and keeps the order of the rest. |
| `Gossip.EveryRunSound` | db/peer/blob_push_manager.cpp:67-156 | Over any network and run: each node stores the blob at most once and notifies each peer at most once, after storing it; on each link fetches are bounded by notifies and responses by fetches. |
| `Gossip.OneFetchAtATime` | db/peer/blob_push_manager.cpp:140-156 | A node has sent at most one fetch more than its pending entry was removed. |
| `Gossip.GossipTerminates` | db/peer/blob_push_manager.cpp:45-296 | A run over n nodes has at most 5n² gossip steps, and two more for each write, whatever cycles the peers form and whatever is lost or filtered. |
| `Gossip.StepWorks` | db/peer/blob_push_manager.cpp:144-269 | Every gossip step lowers a measure, a write raises it by two, nothing else changes it. |
| `GossipReach.BlobReachesAll` | db/peer/blob_push_manager.cpp:45-269 | In every run without losses, filters and disconnects, once nothing is under way, every node that peers connect to one with the blob has it. |
| `GossipReach.StepSpreads` | db/peer/blob_push_manager.cpp:45-269 | The invariant behind it: whoever was told has the blob, has yet to read the notify, or has a fetch on its way from a node that has it. |
| `PendingFetch.NotifyFetchesIff` | db/peer/blob_push_manager.cpp:120-156 | A notify that is taken sends a fetch if and only if nothing holds it up, the blob is not there and no entry is pending. |
| `PendingFetch.PendingGoesIff` | db/peer/blob_push_manager.cpp:214-294 | A pending entry goes if and only if the ingest of a fetched copy comes back to the io thread or the peer that was asked disconnects; a not-found answer, a client's copy and a sync's copy leave it. |
| `PendingFetch.EntryStays` | db/peer/blob_push_manager.cpp:214-250 | In every run a node whose fetches were never answered with the blob keeps its entry until the peer it asked disconnects. |
| `PendingFetch.NoFetchWhilePending` | db/peer/blob_push_manager.cpp:140-143 | While an entry stays, in any run, its node fetches from nobody. |
| `PendingFetch.SecondNotifyIgnored` | db/peer/blob_push_manager.cpp:214-224 | A run in which a not-found answer makes a node pass over the notify of another peer that has the blob, and everything comes to rest without it. |
| `CapExchange.QuietMeansKnown` | db/peer/message_dispatcher.cpp:263-308 | After one request from either side, when nothing is under way both sides hold the other's cap, over every interleaving. |
| `CapExchange.ReciprocatedOnce` | db/peer/message_dispatcher.cpp:797-810 | With two non-zero caps a reciprocal request is never reciprocated. |
| `CapExchange.ExchangeTerminates` | db/peer/message_dispatcher.cpp:720-817 | Unless both caps are zero, each spontaneous request sets off at most nine steps. |
| `CapExchange.PingPong` | db/peer/message_dispatcher.cpp:797-810 | With two zero caps a single request is reciprocated without end. |
| `CapExchange.EveryRunSound` | db/peer/message_dispatcher.cpp:720-817 | A reciprocal request never overtakes the answer sent before it, and each side knows the other's cap or something under way leads to it. |
| `CapExchange.CapReadsBack` | db/peer/message_dispatcher.cpp:271-296 | The cap read from a node-info response is the one written into it. |
| `RateLimit.RateBound` | db/peer/message_dispatcher.cpp:41-58 | From any moment of a connection on, the write and delete bytes let through are at most the burst plus rate times the elapsed time. |
| `RateLimit.RunConserves` | db/peer/message_dispatcher.cpp:150-160 | Tokens left and bytes let through never exceed what was there and what time brought, over every run. |
| `RateLimit.CapHarmless` | db/peer/message_dispatcher.cpp:46-51 | When burst·1000 + rate is below 2^64, capping the elapsed time and computing in 64 bits gives the same level as the uncapped formula. |
| `RateLimit.TokenBucket.TryConsume` | db/peer/message_dispatcher.cpp:41-58 | In that range the wrap-around code does exactly what the unbounded formula says. |
| `RateLimit.TokenBucket.constructor` | db/peer/connection_manager.cpp:100-104 | A new connection has a full bucket. |
| `RateLimit.RefusedOnlyOverBudget` | db/peer/message_dispatcher.cpp:41-58 | The other side of the bound: a message is refused only if the bytes spent since the start, or since a moment when the bucket was full, and its own exceed the level then plus rate times the elapsed time less one token for each message. |
| `RateLimit.RunKeeps` | db/peer/message_dispatcher.cpp:46-53 | Rounding loses less than one token a message, over every run. |
| `Paging.ListingCompleteIff` | cli/src/commands.cpp:1556-1608 | The client's listing has every entry that passes the filters if and only if each comes within a hundred positions of the start or of another. |
| `Paging.ListedIsPrefix` | cli/src/commands.cpp:1556-1608 | What it has is always a prefix of those, so nothing twice and nothing out of order. |
| `Paging.HiddenNameExists` | db/peer/message_dispatcher.cpp:563-575 | A name record behind a hundred other entries is not found. |
| `Paging.Enumerate` | cli/src/commands.cpp:1556-1608 | The cursor loop computes that listing, or a prefix of it if the connection is lost, and terminates. |
| `Paging.ListRequest` | db/peer/message_dispatcher.cpp:563-636 | A page is the next hundred live entries past the cursor, filtered, with more exactly when there are further ones. |
| `Paging.RefsSince` | db/storage/storage.cpp:875-933 | The storage cursor returns the live entries past a sequence number, in order, at most so many. |
| `Paging.FrontIsMaximum` | cli/src/commands.cpp:1639-1655 | The front of any sort by the comparator is the latest candidate, and among the latest the one of the largest hash. |
| `Paging.WinnerOrderFree` | cli/src/commands.cpp:1639-1692 | The winner of a name is the same for every order of enumeration and every sort. |
| `Names.Resolve` | cli/src/commands.cpp:1665-1692 | The name lookup gives the target of the latest of the matching records listed, whichever way the sort goes, and with small gaps of all that are stored; none if and only if there is none. |
| `Names.LatestWinsIff` | cli/src/commands.cpp:1556-1692 | The latest record of a name wins if and only if neither it nor any entry before it that passes the filter is more than a hundred positions behind the start or another such entry. |
| `Names.ListedIff` | cli/src/commands.cpp:1556-1608 | The same says which entries are listed at all. |
| `Names.OlderNameWins` | cli/src/commands.cpp:1556-1692 | With a hundred other entries between two records of a name the older one wins. |

## Left out

- Cryptographic primitives, secure memory and the generated FlatBuffer code: taken as functions with stated laws.
- The chunked file loops: local file errors, truncation of the file during the upload, fsync and unlinking; the upload's
  publishing of the owner key beforehand.
- ChunkedDownload.GetFile: for one hash. In a get of several hashes a chunked download starts while other requests are
  outstanding, and both count request ids from 1; the connection is required to be idle instead.
- The size of a FlatBuffer manifest: the round trip is stated for one under 4 GiB.
- Storage: failed transactions inside a delete and sequence-number assignment; the space counters that a call reads are
  inputs, and Quota says when the namespace count is the true one. The byte total beside that count is not modelled.
- Blocking of later blobs by a BOMB, which the engine does not do.
- Sync and set reconciliation, subscriptions, access-control lists, configuration, metrics, timers and reconnects: they
  would add easy members, or rest on code that is not modelled.
- The 24-hour timers of the send queue: a waiter is woken by the drain coroutine only.
- Handshake.Agreement: the coroutines are modelled on values, one message at a time, and not as an object updated in
  place; raw frames arrive whole, which the transport modules cover.
- Gossip.EveryRunSound: the pending-fetch table and the peer lists are values in a world of nodes, not objects; the blob
  does not expire during the run.
- CapExchange.EveryRunSound: the per-peer record is a value in a world of two peers.
- RateLimit.RateBound: the graceful close that follows a refused write is not modelled; it can only let fewer bytes
  through.
- PeerDedup.BothKeepTheSame: the clauses about the two peer lists hold under the two exact conditions named by
  PeerDedup.SparedIff and PeerDedup.OnePeerIff, as they fail outside them.
- Paging.Enumerate: the rows of the index and the outcome of the filters are the same on every page; entries written,
  deleted or expired while the client pages are not modelled.
- Names.Resolve: fetching and parsing a name record is a function of its hash, on a connection that lasts.
- GossipReach.BlobReachesAll: for runs in which no message is lost or held back and nobody disconnects; otherwise a
  blob may not get through, and sync, which is not modelled, brings it.
- Transport.Sender.Drain: for a list that nobody adds to meanwhile; with other coroutines in between it is
  SendPath.Connection.Serve. A socket that has failed once takes no more bytes.

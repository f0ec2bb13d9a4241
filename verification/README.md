# llmp2p: a Dafny model

llmp2p pulls a model repository from the Hugging Face Hub or a BitTorrent swarm,
pins it with a content-addressed manifest, and publishes it into a local store, an
index and a signed DHT record. This project models the parts of it that have to be
right for the pulled bytes to be the intended ones, and proves what they promise.
Written for Dafny 4.11; check it with `dafny verify dfyconfig.toml`.

| file | what it models |
|---|---|
| `Text.dfy`, `Hashing.dfy`, `Bencode.dfy` | Go strings as bytes; digests and hexadecimal text; the bencoding of BEP 3 |
| `Manifest.dfy`, `Builder.dfy`, `Infohash.dfy`, `Metainfo.dfy` | the manifest, its directory check, the metainfo builder, how the two integrity checks agree, and what is in the hashed dictionary |
| `Download.dfy` | one resumable, digest-checked download and any sequence of interrupted ones |
| `Record.dfy`, `Sequence.dfy`, `Dht.dfy`, `Discovery.dfy` | the DHT record codec, persisted sequence numbers, signed puts, a client among untrusted nodes, publication and discovery |
| `Ref.dfy`, `Index.dfy`, `Hub.dfy` | the reference grammar, the index and its merge, the Hub listing |
| `Layout.dfy` | where a joined and cleaned path lands, and what the store keeps at the places below its root |
| `Store.dfy`, `StoreInvariant.dfy` | publication and removal over the store, and exactly when they keep it consistent |
| `Pull.dfy`, `PullOutcome.dfy`, `Isolation.dfy`, `PullInvariant.dfy` | one pull (cache, swarm, Hub); exactly how it ends; when it leaves everything outside its model alone; what it does to the store's invariant |
| `SwarmWait.dfy`, `Delivery.dfy` | the swarm wait loop, and the whole trust chain |
| `Examples.dfy` | concrete stores and swarms on which a promise fails |
| `Queue.dfy`, `QueueSafety.dfy` | the daemon's job queue, its counters and the store lock under every interleaving |

## Idealisations

- sha256 and sha1 are any functions with 32 and 20 octets of output. A theorem that
  needs collision resistance says for which inputs: `CollisionFree(digest, inputs)`
  covers only the strings hashed in the situation at hand, since no function of fixed
  output length is injective on all strings.
- ed25519 is a `sign`/`verify` pair. Completeness (`SignsFor`) is that a key holder's
  own signatures verify; unforgeability (`Unforged`) is that a reply verifying under a
  trusted key covers something its holder signed.
- The JSON of manifests and of index documents is a writer and a reader each that
  inverts it on valid manifests and valid indexes (`Json.Inverts`).
- Files are named by clean absolute paths, and directories are implied by the files in
  them. Downloads land at the cleaned join of the model directory and the Hub's path,
  arriving files at that of the owner's directory, the torrent's root name and the
  path in the torrent; what the torrent library itself refuses is not modelled.
- Network, clock, randomness and file-system failures are parameters: the exchanges a
  server offers, which write fails, which read fails, the byte counts the swarm
  reports. Writes of one file are atomic or fail.
- The piece hasher reads the first *length* bytes of each file of the info dictionary
  in order and fails on a missing or shorter file; pieces are the fixed-size blocks of
  the concatenation with a short last one (BEP 3, "metainfo files").
- A storing DHT node follows "Mutable Items" of BEP 44: it wants a valid signature, a
  value of at most 1000 bytes, a salt of at most 64, and a sequence number above the
  stored one.
- Operations on one store follow one another. For pulls and the daemon the store lock
  sees to that (up to the finding on returning daemons below); `llmp2p remove`
  (`internal/cli/remove.go:56`) takes no lock, so for removals it is an assumption.

## Findings

- A full 200 response over a longer part file seeks to the start and does not
  truncate. `Download.CheckedDigest` proves that this is the only way a successful
  checked download can miss its digest; `Download.ShortRewriteExample` shows it.
- A call sends one request for every leading answer that makes it start over, and one
  more, so two requests suffice exactly when at most one answer in a row does, or two
  do and the part file cannot be opened then (`Download.RequestCount`). No bound holds
  for every server, not even for a call without a part file
  (`Download.RequestsUnbounded`).
- Incrementing empty counters after a failed read of the state file hands out used
  numbers: of the salt itself, and of all the others, whose counters it overwrites
  (`Sequence.UnreadRepeats`). `Sequence.IncrementIssues` has the exact condition for a
  step and `Sequence.SafeExactly` for a run. A failed read at start-up alone is
  harmless: empty counters are read again before use.
- Removing a model deletes the torrent of another one exactly when their infohashes
  are equal (`StoreInvariant.RemoveIsolated`), as they are for the same files under
  the same repo name of another owner (`Examples.SharedTorrent`).
- A pull over HTTP downloads every listed path before any is validated. It leaves
  everything outside the model directory alone, whatever the servers answer, exactly
  when every path stays inside or its file is already in place
  (`Isolation.DownloadsApartExactly`), and keeps the store consistent exactly when no
  path lands on a pointer, a manifest copy, a torrent or the index, for files without
  a published digest there (`PullInvariant.ListingExactly`). Paths a manifest accepts
  stay inside, and only the pointer's own name is such a place among them;
  `Examples.EscapingPath` and `Examples.RespelledPointer` have the failing listings.
- Files from a swarm land below the torrent's root name in the owner's directory. They
  leave everything outside the model directory alone exactly when all they bring
  elsewhere was there before (`Isolation.ArrivalsApartExactly`); under another root name
  nothing reaches the model directory (`Isolation.PlainArrivals`,
  `Examples.ForeignRootName`).
- A swarm pull compares neither the model of its manifest with the requested one (for
  fetched and embedded manifests alike) nor, when the manifest is embedded in the DHT
  record, its revision with the entry's. The next pull is answered from the cache
  exactly when the revisions agree (`Pull.SwarmPullCached`), and the store stays
  consistent exactly when the models do (`PullInvariant.OrdinarySwarmExactly`). Such a
  pull succeeds for manifests of the same repo name (`Examples.EmbeddedUnchecked`).
  Removing the wrongly named model then takes the manifest copy of the other one
  (`Examples.SharedCopy`).
- A swarm pull is compared with its manifest, not with the Hub, against
  `docs/explanation/trust-model.md:13-29`. The published digests are on disk exactly
  when the manifest lists those files so, or does not list them and they were there
  (`Pull.SwarmOidsExactly`, `Examples.SwarmIgnoresHub`).
- A cache hit says that the wanted files are there exactly when the manifest it found
  lists them all (`Pull.HitCoversExactly`); after a pull of one file, the whole repo is
  answered from it, with its file count and the whole repo's size
  (`Examples.PartialCache`).
- With a publisher key, a publication leaves a signature next to the copy that no
  removal deletes (`StoreInvariant.RemoveUndoesPublish`, `Examples.SignatureStays`).
- A put whose answer is lost counts as failed although the node has the record, so
  several nodes may hold it (`Discovery.StoredExactly`).
- The comment on the queue promises that jobs run in the order they arrive
  (`internal/daemon/pull.go:38-40`). They need not: the goroutines race for the
  semaphore (`QueueSafety.LaterJobFirst`).
- A daemon that returns frees the store lock under its jobs. Two pulls can then work
  on the store at once exactly when some job is unfinished: running, waiting or being
  added (`QueueSafety.ReturnAdmitsAnother`); a single queued job is enough
  (`QueueSafety.QueuedJobOutlives`).
- The unlabelled `llmp2pd_pulls_total` (`internal/daemon/metrics.go:41`) counts
  outcomes that occurred, not jobs: it is right exactly when no outcome occurred twice
  (`QueueSafety.PullsTotal`, `QueueSafety.TwoPullsReportedAsOne`).
- A removal deletes the manifest copy before the directory and the index entry, and
  ignores a failing index. It leaves the store inconsistent exactly when the copy goes
  and the pointer, or an index entry with its digest, stays
  (`StoreInvariant.RemoveExactly`); in the latter case it may report success
  (`StoreInvariant.StoppedRemovals`). An interrupted publication never does this
  (`StoreInvariant.PublishExactly`).
- The comment on `pullP2P` says a failure has no side effects on the store; files the
  swarm already delivered stay, and the model keeps them. `docs/explanation/trust-model.md`
  says a record never carries manifest bytes and, further down, that small ones are
  embedded; the code embeds up to 700 bytes, and so does the model.

## Model

| member | source | states |
|---|---|---|
| Text.JoinSplit | internal/manifest/builder.go:112-114 | cutting a path into segments loses nothing, so the file the builder opens is the file the manifest lists |
| Text.LessExactly | internal/manifest/manifest.go:129-131 | the order of paths is that of the first differing byte, a prefix coming first |
| Hashing.HexAt | internal/manifest/builder.go:53-54 | each octet is printed as two lower-case digits, the high one first |
| Manifest.Parse | internal/manifest/manifest.go:177-186 | only valid manifests are ever accepted |
| Manifest.ParseExactly | internal/manifest/manifest.go:105-138 | bytes are accepted exactly when they decode to a manifest of the schema with a model, a revision, a piece length and files, in ascending order, each with a plain path, a size and a digest naming 32 bytes, and an infohash naming 20 |
| Manifest.PathsExactly | internal/manifest/manifest.go:65-101 | the accepted paths are exactly the names other than dot names joined by slashes, of at most 512 bytes of plain text |
| Manifest.VerifyDir | internal/manifest/manifest.go:190-209 | succeeds exactly when every listed file is there with its size and digest; otherwise names the first file that is not, and why |
| Manifest.VerifiedDetermines | internal/manifest/manifest.go:188-209 | two directories that pass against one manifest hold the same files |
| Manifest.PinnedDigestDetermines | docs/explanation/trust-model.md:18-29 | the manifest digest pins the manifest and, through the check, every file |
| Builder.BuildInfo | internal/manifest/builder.go:60-82 | the loop over the files yields the info dictionary of a valid manifest, and nothing for an invalid one or a missing or short file |
| Builder.Create | internal/manifest/builder.go:21-56 | succeeds exactly on non-empty, strictly sorted, plain paths present with the listed sizes and a non-empty model and revision, and otherwise names the first bad entry; the result lists them in order with the digests on disk and the infohash of their metainfo |
| Builder.MetaInfoBytes | internal/manifest/builder.go:86-100 | renders the torrent exactly when the rebuilt infohash is the pinned one |
| Builder.ConcatenationOf | internal/manifest/builder.go:74-80 | with the listed sizes, the piece hasher reads exactly the file contents in order |
| Infohash.PiecesCover | internal/manifest/builder.go:74-80 | the pieces concatenate to the data |
| Infohash.PieceLayout | internal/manifest/manifest.go:26-28 | all pieces are full but the last, which is not empty; there are ceil(total / piece length), and their lengths sum to the total |
| Infohash.PieceCount | internal/manifest/builder.go:60-82 | the info dictionary of a built manifest holds 20 bytes for each of ceil(total size / 4 MiB) pieces |
| Infohash.PieceHashesInjective | internal/manifest/builder.go:74-80 | equal concatenated piece hashes mean equal pieces |
| Infohash.InfoBytesInjective | internal/manifest/builder.go:53-54 | equal info bytes mean equal name, piece length, pieces and file list |
| Infohash.JoinedDetermines | internal/manifest/builder.go:60-82 | with equal listings, concatenations agree exactly when every file does |
| Infohash.InfohashDeterminesContent | internal/manifest/builder.go:16-20 | two created manifests share an infohash exactly when repo name, listing and contents agree, whatever the owner, revision and time |
| Infohash.ChecksAgree | internal/manifest/builder.go:84-100 | for a created manifest, the directory check accepts exactly the directories with the listed sizes whose metainfo rebuilds to its infohash |
| Metainfo.InfoDictionary | internal/manifest/builder.go:53-100 | a created manifest's infohash is the sha1 of one bencoded dictionary with ascending keys: the repo as name, 4 MiB pieces hashed block by block over the files laid one after the other, and the length and path segments of each file; the torrent file is this dictionary under its info key |
| Bencode.PrintedForms | internal/manifest/builder.go:53-54 | the examples of BEP 3 |
| Bencode.ParsePrint | internal/dht/record.go:53-59 | every bencoded value is read back, whatever follows it |
| Bencode.PrintInjective | internal/manifest/builder.go:53-54 | different values have different encodings |
| Download.Artifact.ResumeState | internal/hf/download.go:134-161 | opens or creates the part file; the digest is seeded with exactly its bytes and the offset is its length |
| Download.Artifact.DownloadFile | internal/hf/download.go:50-130 | part file, destination, result, digested bytes and requests of one call, for every server behaviour and failing file operation; what they are is said by the lemmas below |
| Download.EndsExactly | internal/hf/download.go:69-130 | the result by the last exchange: success exactly for a whole body that is not rejected when no file operation fails, and the one cause of each error |
| Download.PartLeft | internal/hf/download.go:46-49 | the part file after each result: removed after a checksum error unless that fails, the overlaid body after an interrupted one, as found after the others |
| Download.RejectedExample | internal/hf/download.go:121-123 | a rejected download leaves no part file, so the next call starts from nothing |
| Download.DestinationOnlyOnSuccess | internal/hf/download.go:46-49 | an error leaves the destination as it was; success renames the part file away and reports the digested length |
| Download.DestinationIsDigested | internal/hf/download.go:90-108 | after success the destination is the digested bytes exactly when no full body was shorter than the part file |
| Download.CheckedDigest | internal/hf/download.go:121-129 | a successful checked download hashes to the expected digest exactly in that case, against any server |
| Download.ShortRewriteExample | internal/hf/download.go:90-102 | a concrete download that succeeds and leaves other bytes than it checked |
| Download.RequestCount | internal/hf/download.go:78-84 | the exact number of requests, and exactly when two suffice |
| Download.RequestsUnbounded | internal/hf/download.go:78-84 | for every bound, a server that answers 416 to requests without a range is asked more often |
| Download.FaithfulStep | internal/hf/download.go:77-129 | against a server faithful to one artifact, part file and digested bytes stay prefixes of it and success delivers all of it with its length |
| Download.ResumeIsSafe | internal/hf/download.go:46-49 | the same over every sequence of calls interrupted anywhere: the destination is untouched or complete |
| Download.ResumeCompletes | internal/hf/download.go:46-49 | after any such sequence one undisturbed call delivers the artifact |
| Record.RoundTrip | internal/dht/record.go:53-101 | decoding an encoded record gives it back exactly for 20-byte infohash, 32-byte digest, non-empty revision, manifest empty or at most 700 bytes and matching the digest; all others are refused |
| Record.OnTheWire | internal/dht/record.go:27-59 | the encoded record is one dictionary of ascending keys, with each part under its own |
| Record.AcceptedReads | internal/dht/record.go:61-101 | accepted bytes are one dictionary with typed known keys, and the record is what they hold last |
| Record.TypedAccepted | internal/dht/record.go:61-101 | such a dictionary is accepted exactly when it gives a valid record |
| Record.AcceptedIsValid | internal/dht/record.go:61-101 | whatever bytes are accepted, the result is such a record and survives re-encoding |
| Record.EncodeInjective | internal/dht/record.go:52-59 | the signed bytes determine the record |
| Record.EncodedSize | internal/dht/record.go:23-42 | the exact length of an encoded record |
| Record.FitsLimit | internal/dht/record.go:16-26 | a valid record with a revision of at most 196 bytes and a non-negative size fits 1000 bytes |
| Record.LimitIsReached | internal/dht/record.go:16-26 | 700 bytes of manifest, 196 of revision and the largest size take exactly 1000 |
| Sequence.SeqState.constructor | internal/dht/publisher.go:49-55 | counters start as the state file has them, empty when it cannot be read |
| Sequence.SeqState.Increment | internal/dht/publisher.go:57-78 | memory, state file and result of one increment, including re-reading, wrap-around and a failed write |
| Sequence.IncrementIssues | internal/dht/publisher.go:57-78 | a number is handed out exactly when the file is written, and is then the one on disk; memory stays ahead of the file, no salt's counter on disk sinks and the number exceeds the one there before exactly when the counters were known or nothing on disk could be lost |
| Sequence.OneCounterMoves | internal/dht/publisher.go:57-78 | this salt's counter goes up by one, all others stay as memory or, when it is empty and readable, the file has them, and all are written |
| Sequence.StrictlyIncreasing | internal/dht/publisher.go:40-78 | over every safe run of increments, failed writes, crashes and restarts the numbers of a salt strictly increase, above the disk before and at most the disk after |
| Sequence.SafeExactly | internal/dht/publisher.go:40-78 | a run is safe exactly when, wherever it is cut and whichever salt comes next, no number handed out was on disk at any earlier point |
| Sequence.UnreadRepeats | internal/dht/publisher.go:60-64 | without the read, 1 is handed out twice: to the salt incremented, or to another whose counter was overwritten |
| Dht.MessageInjective | internal/dht/publisher.go:92-105 | a signature binds salt, sequence number and value |
| Dht.MessageForms | internal/dht/publisher.go:92-105 | salt, sequence number and value are signed in the form of the examples in BEP 44 |
| Dht.Node.Store | internal/dht/publisher.go:118-121 | an honest node takes a put exactly when it is small, well signed and newer than what it holds |
| Dht.Publisher.Put | internal/dht/publisher.go:96-123 | counters, node and error of one put, for every file and network failure, the lost answer of a node that took it included |
| Dht.PutFails | internal/dht/publisher.go:96-123 | the one cause of each error; a manifest over 700 bytes alone leaves the counters as they were |
| Dht.PutArrives | internal/dht/publisher.go:96-123 | with safe counters a put that arrives is taken under a newer number, answered or not; otherwise the node keeps what it held |
| Dht.NeverRejected | internal/dht/publisher.go:40-42 | over every safe run of puts, failures, crashes and restarts such a node rejects no delivered put |
| Dht.NewClient | internal/dht/client.go:35-45 | the allowlist decodes exactly when every entry is a 32-byte key, entry by entry |
| Dht.Get | internal/dht/client.go:51-93 | the first acceptable reply in key order, else the last error |
| Dht.AskedMeans | internal/dht/client.go:47-50 | a record is returned exactly when some reply is signed by its trusted key under this salt and decodes, and it is the first such |
| Dht.GetIsAuthentic | internal/dht/client.go:22-31 | whatever a node answers, a returned record is one an allowlisted publisher put for this model |
| Discovery.PublishToDht | internal/pull/dht.go:94-154 | result, state file and what every node holds, for every key, file and network failure, nodes possibly repeated |
| Discovery.BroadcastStores | internal/pull/dht.go:138-150 | success means that node holds this key holder's signed record of exactly these identifiers |
| Discovery.BroadcastSpares | internal/pull/dht.go:140-150 | a node that was not tried holds what it held |
| Discovery.StoredExactly | internal/pull/dht.go:138-150 | with safe counters and nodes holding no newer number, success is reported exactly for the first node with a written counter and an answered put, and exactly the nodes some try got to hold the record under a newer number |
| Discovery.RecordIsFaithful | internal/pull/dht.go:105-138 | infohash and digest survive the hexadecimal layer; canonical bytes are embedded exactly when at most 700 |
| Discovery.DiscoverViaDht | internal/pull/dht.go:44-87 | the first node whose record stands up at the wanted revision, else the last error |
| Discovery.PublishThenDiscover | internal/pull/dht.go:38-154 | a stored record is discovered with the same infohash, digest, revision and size, and the canonical bytes exactly when at most 700, unless another acceptable answer comes first |
| Discovery.DiscoveredIsAuthentic | internal/pull/dht.go:38-43 | whatever the nodes answer, a discovered entry is a record an allowlisted publisher put for this model at this revision |
| Delivery.DiscoveredDigest | internal/dht/record.go:94-99 | discovered manifest bytes hash to the discovered digest |
| Delivery.DiscoveredPullDelivers | docs/explanation/trust-model.md:49-72 | whatever nodes, origins and peers do, a completed swarm pull holds exactly the files the trusted publishers pinned |
| Ref.RoundTrip | internal/ref/ref.go:34-116 | parsing the canonical form gives the reference back exactly for valid references |
| Ref.ParseExactly | internal/ref/ref.go:33-61 | a text parses to a reference exactly when that is valid and the text spells it, with either scheme, the default revision and the empty path left out or not |
| Ref.ParseIsCanonical | internal/ref/ref.go:34-61 | whatever is parsed is valid, and its canonical form parses to the same |
| Ref.ModelIdOf | internal/ref/ref.go:90-104 | the id of a valid owner and repo is valid and splits back into them |
| Index.Index.Add | internal/index/index.go:87-100 | adds a valid entry unless another manifest is listed; keeps the index valid and never replaces a digest |
| Index.Index.Remove | internal/index/index.go:77-83 | removes exactly that entry and says whether it was there |
| Index.Parsed | internal/index/index.go:104-125 | only valid entries under their own key remain |
| Index.ParsedOneByOne | internal/index/index.go:102-124 | each entry of a document is kept or dropped by itself |
| Index.WinnerIsFirst | internal/index/index.go:147-150 | the winning entry is that of the earliest origin holding one |
| Index.Fetch | internal/index/index.go:151-199 | every model gets the earliest origin's entry, one conflict warning per later disagreeing origin and one warning per dropped entry; the merge fails exactly when there are origins and all failed |
| Index.ConflictsAreLosers | internal/index/index.go:184-190 | conflict warnings for a model are as many as the origins whose valid entry differs from the winner's digest |
| Index.MergeDocument | internal/index/index.go:184-193 | the result does not depend on the order of map iteration |
| Hub.ListTree | internal/hf/repo.go:64-111 | the files of all pages, sorted by path, none lost or added |
| Hub.CollectedExactly | internal/hf/repo.go:70-108 | the listing has the files of all pages up to the first without a next one, and fails exactly when there is none or one is unreadable |
| Hub.FilesOfExactly | internal/hf/repo.go:91-99 | each file is kept with its path, size and digest as often as it is listed, and nothing but files |
| Hub.FilterPathExactly | internal/pull/pull.go:177-184 | asking for one file gives the first with that path, and nothing exactly when there is none |
| Hub.ListingIsStrict | internal/hf/repo.go:109-110 | a sorted listing is strictly sorted exactly when no path repeats |
| Store.Store.Publish | internal/pull/pull.go:400-473 | the store after each write in order, the signature included, stopped by the first failing one; a failed or refused index entry and a missing signature do not fail the publication |
| Store.PublishEnds | internal/pull/pull.go:400-473 | it succeeds exactly for a valid model id whose directory rebuilds the torrent when no write that counts fails, and the one cause of each error |
| Store.PublishWrites | internal/pull/pull.go:410-451 | the files written when it ended, byte by byte, and no other: the canonical manifest as copy and pointer, the signature, the rebuilt torrent |
| Store.Store.PublishLocalIndex | internal/pull/pull.go:475-495 | the entry is added to what can be read of the index, a refused one changes nothing |
| Store.Store.Remove | internal/store/store.go:63-120 | torrent, manifest copy, directory and index entry go, whichever of these deletions fail; the summary says what went, and only a failing directory is an error |
| Store.RemoveDeletes | internal/store/store.go:63-120 | the torrent and the copy of the manifest pointed at, the directory and the entry go unless that fails, nothing else, and each is reported exactly when it went |
| Store.RemoveRefuses | internal/store/store.go:63-75 | refused exactly for what is no model id or not there, without a change |
| Store.PublishReadsBack | internal/pull/pull.go:410-472 | a complete publication leaves pointer, copy, signature if any, and torrent, and reports the manifest's size and addresses |
| Store.PublishStays | internal/pull/pull.go:418-425 | publication writes to no other model's directory and to no file the store does not know |
| StoreInvariant.PublishExactly | internal/pull/pull.go:400-495 | a publication stopped at any write ends in a consistent store (manifests under their own digest, pointers with their copies, entries leading to a stored manifest with their infohash, torrents under their own infohash) exactly when the pointer it writes is of the manifest's own model or, if it writes none, the old one is in order |
| StoreInvariant.RemoveExactly | internal/store/store.go:60-120 | a removal with any deletions failing keeps the store consistent exactly when nothing that leads to the deleted copy stays |
| StoreInvariant.StepExactly | internal/store/store.go:60-120 | one publication, removal or change of files keeps the store consistent exactly when it is harmless in that sense |
| StoreInvariant.RunExactly | internal/pull/pull.go:399-495 | a run is consistent throughout exactly when each of its steps is harmless |
| StoreInvariant.StoppedRemovals | internal/store/store.go:104-118 | after any listed publication, a removal that cannot save the index succeeds and leaves a dangling entry, one that cannot clear the directory a dangling pointer |
| StoreInvariant.RemoveIsolated | internal/store/store.go:60-120 | whatever fails, removing one model leaves another's directory and listed digest alone; its copy goes exactly when the digests are equal, its torrent exactly when the infohashes are |
| StoreInvariant.CopySurvives | internal/store/store.go:93-101 | in a consistent store another model's copy always survives |
| Examples.SharedTorrent | internal/store/store.go:86-92 | two owners publish one file under one repo name; removing the one's model takes the other's torrent |
| Examples.SharedCopy | internal/store/store.go:93-101 | a manifest published under a second model as well, which pullP2P allows; removing that model takes the copy of the first |
| StoreInvariant.RemoveUndoesPublish | internal/store/store.go:60-120 | a complete removal leaves nothing of a publication but its signature, so nothing exactly when there was none to write, and says what went |
| Examples.SignatureStays | internal/pull/pull.go:426-429 | published with a key and removed, the model leaves its signature behind |
| StoreInvariant.WriteExactly | internal/pull/pull.go:475-495 | one file written anywhere keeps the store consistent exactly when its content fits there |
| StoreInvariant.PublishLists | internal/pull/pull.go:446-495 | the manifest's infohash, digest, revision and total size are listed exactly for a whole repo with a valid entry and no other digest listed; all other entries stay |
| Layout.ValidLandsInside | internal/manifest/manifest.go:68-106 | a path the manifest accepts lands in the model directory, under that path |
| Layout.NamedLandsInside | internal/manifest/builder.go:102-114 | a torrent's files land in the directory of the owner's model with the torrent's root name |
| Layout.PartPlace | internal/hf/download.go:50-51 | a part file lies beside its file and is nothing the store relies on |
| Layout.PlacesNamed | internal/store/store.go:122-175 | the copy, the signature, the torrent and the index are the files the store names for them |
| Layout.PlacesApart | internal/store/store.go:122-175 | no two clean paths are the same place |
| Layout.LandsClean | internal/pull/pull.go:362-364 | wherever a path lands, no slash and no dot name is left |
| Pull.CheckCache | internal/pull/pull.go:186-204 | a hit with m exactly when the pointer reads as m, m is of the wanted revision and every file it lists is there with its size and digest; corrupt exactly when one is not |
| Pull.CacheExactly | internal/pull/pull.go:186-204 | the same of the store's state, with a miss exactly without a pointer at the revision |
| Examples.ChangedFile | internal/pull/pull.go:196-203 | a file with other bytes of the same size is corrupt, and the pull is not answered from the cache |
| Pull.HitCoversExactly | internal/pull/pull.go:144-156 | a hit says that the wanted files are there exactly when its manifest lists them all |
| Examples.PartialCache | internal/pull/pull.go:144-156 | after a pull of one file, a whole-repo pull is answered with one file and the size of all |
| Pull.FetchedDigest | internal/pull/pull.go:367-377 | a fetched file with a published digest has it on disk, except after a short rewrite |
| Pull.KeptExactly | internal/pull/pull.go:367-374 | a file is left as it is, whatever the server answers, exactly when it is there with its published size and digest |
| Pull.DownloadAll | internal/pull/pull.go:362-384 | keeps matching files, fetches the others in order to wherever their paths land, stops at the first failure |
| Isolation.DownloadsApartExactly | internal/pull/pull.go:362-379 | whatever the servers answer, nothing outside the model directory changes, exactly when every path stays inside or its file is in place |
| Examples.EscapingPath | internal/pull/pull.go:362-364 | a listed path through the parent directory overwrites another model's file, before it is refused |
| Pull.PullHttp | internal/pull/pull.go:361-397 | the store it leaves, stopped anywhere, and exactly how it ends: the error of the downloads, of creation, of the first file without its published digest, or of publication, else success; what is published lists the Hub's files position by position, agrees with every published digest, and is built from the directory |
| PullOutcome.WholeListingPulls | internal/pull/pull.go:361-397 | a plain listing in order, served whole to whatever part files there are, is on disk as listed and published when the id is valid and the writes that count succeed |
| PullOutcome.HubPullSucceeds | internal/pull/pull.go:98-175 | so a pull from such a Hub succeeds, from the cache or afresh |
| Pull.OidsOnDisk | internal/pull/pull.go:390-395 | every file with a published digest has that size and digest on disk |
| Pull.FetchManifest | internal/pull/pull.go:331-357 | the manifest the first origin serves with the pinned digest, infohash and revision; none exactly when no origin does |
| Pull.PullP2p | internal/pull/pull.go:209-318 | store and result of a swarm pull for every entry, origin, root name, arriving file and failing write |
| Isolation.ArrivalsApartExactly | internal/pull/pull.go:266-288 | arriving files leave everything outside the model directory alone exactly when all they bring elsewhere was there before |
| Isolation.PlainArrivals | internal/engine/engine.go:24-28 | a torrent fills the directory of the model with its root name, and no other; with another name nothing reaches the pulled model |
| Examples.ForeignRootName | internal/pull/pull.go:266-267 | a torrent named like another repo overwrites that model's file |
| Pull.SwarmPublishes | internal/pull/pull.go:235-304 | it reaches publication only with files verified in the model directory against the manifest, which is the pinned and properly signed one or the embedded one; otherwise at most the arrived files are left |
| PullOutcome.SwarmEnds | internal/pull/pull.go:235-304 | with a manifest to work with, it publishes exactly when every file it lists was transferred intact, and succeeds exactly when the id is valid, the torrent can be rebuilt and the writes that count succeed |
| PullOutcome.NothingOffered | internal/pull/pull.go:235-264 | without one it fails and changes nothing |
| PullOutcome.PublishedIsSigned | internal/pull/pull.go:575-605 | a fetched manifest that is published has the pinned digest, infohash and revision, and a signature that verifies under a listed key; without an allowlist, no signature or one that verifies |
| PullOutcome.SignedPullSucceeds | internal/pull/pull.go:241-304 | what a publisher created, an origin serves and a listed key signed is pulled whenever its files arrive |
| Examples.UnsignedRefused | internal/pull/pull.go:584-588 | one unsigned manifest, pulled without an allowlist and refused with one |
| Pull.SwarmOidsExactly | docs/explanation/trust-model.md:13-29 | after it every published digest is on disk exactly when the manifest lists those files so, or does not list them and they are there |
| Examples.SwarmIgnoresHub | internal/pull/pull.go:297-304 | a successful swarm pull of the right model and revision that misses a published digest |
| Pull.Run | internal/pull/pull.go:98-175 | exactly how a pull ends: unresolved, no such file, a bad id; answered from a reusable cache without a write; else as the swarm when it is tried and succeeds, without fallback when that is disabled, else as the pull over HTTP; and the store after each |
| Isolation.RunApart | internal/pull/pull.go:98-175 | whatever a pull tries, no other model's directory changes when every path and every arriving file stays inside |
| Pull.CachedAnswers | internal/pull/pull.go:144-156 | after a whole-repo HTTP pull the cache answers with the same identifiers and size |
| Pull.PullTwice | internal/pull/pull.go:97-204 | pulling again from an unchanged Hub writes nothing and returns the same result in cache mode |
| Pull.SwarmPullCached | internal/pull/pull.go:241-250 | after a swarm pull the cache answers exactly when the manifest carries the wanted revision |
| PullInvariant.DownloadExactly | internal/pull/pull.go:362-384 | one download keeps the store consistent exactly when it leaves what was there or a content that fits where its path lands |
| PullInvariant.ListingExactly | internal/pull/pull.go:362-384 | whatever the servers answer, the downloads keep it exactly when no path lands where the store looks, for files without a digest there |
| PullInvariant.PlainNoTelling | internal/manifest/manifest.go:68-106 | among paths a manifest accepts, exactly the pointer's name is such a place |
| Examples.RespelledPointer | internal/pull/pull.go:362-364 | another spelling of the pointer's name breaks the store for some server |
| PullInvariant.HttpExactly | internal/pull/pull.go:361-397 | a pull over HTTP, stopped anywhere, keeps the store consistent exactly when it writes the pointer or the downloads left a good one, if its files land on no other place the store looks, as they do once it publishes |
| PullInvariant.HttpKeeps | internal/pull/pull.go:361-397 | it always does when no file lands where the store looks |
| PullInvariant.ArrivalsExactly | internal/pull/pull.go:266-288 | arriving files keep the store consistent throughout exactly when each fits where it lands |
| PullInvariant.SwarmExactly | internal/pull/pull.go:209-318 | a swarm pull whose files land on no place the store looks but its own pointer keeps it exactly when it writes a pointer of the pulled model or, writing none, leaves a good one |
| PullInvariant.OrdinarySwarmExactly | internal/pull/pull.go:235-304 | when no file arrives where the store looks, exactly a written pointer of another model breaks it |
| PullInvariant.PlainNoTellingArrivals | internal/manifest/builder.go:102-114 | a plain torrent is such exactly when it carries no file named like the pointer |
| PullInvariant.RunKeeps | internal/pull/pull.go:98-175 | a whole pull keeps it when no file lands where the store looks and the swarm's manifest is of the pulled model |
| Examples.EmbeddedUnchecked | internal/pull/pull.go:235-250 | a pull with an embedded manifest of another revision or owner succeeds exactly when the repo name is the same; then another revision misses the cache, and another owner leaves the store inconsistent |
| Pull.EmbeddedIsPinned | internal/pull/pull.go:241-250 | embedded bytes with the pinned digest are the pinned manifest |
| Pull.SwarmDelivers | internal/pull/pull.go:297-304 | a completed swarm pull through an entry pinning a publisher's manifest holds the publisher's files |
| SwarmWait.Wait | internal/pull/pull.go:290-317 | ends within (total + 1) * (grace + period), whichever is taken when a tick and the end are both ready; gives up only when the sampled count stood still for longer than grace |
| Queue.PullQueue.Enqueue | internal/daemon/pull.go:63-79 | a queued job under its id at the end of the order, with a snapshot of it |
| Queue.PullQueue.Start | internal/daemon/pull.go:88-91 | only this job's status becomes running |
| Queue.PullQueue.Finish | internal/daemon/pull.go:104-118 | the job's outcome is set and counted, nothing else changes |
| Queue.PullQueue.RecordPullResult | internal/daemon/metrics.go:52-59 | one outcome counter goes up by one |
| Queue.PullQueue.List | internal/daemon/pull.go:131-139 | every job once, in order |
| QueueSafety.StepKeeps | internal/daemon/pull.go:63-118 | every atomic step of every goroutine, handler and command keeps the invariant |
| QueueSafety.QueueIsSafe | internal/daemon/pull.go:38-49 | under every interleaving at most one job runs; with the mutex free the order lists each job once and the counters are the numbers of jobs with each outcome |
| QueueSafety.StatusesOnlyAdvance | internal/daemon/pull.go:84-118 | no job is lost, none goes back, outcomes stay |
| QueueSafety.OutcomesAreTrue | internal/daemon/pull.go:104-118 | under every interleaving a job has succeeded only when its pull returned without an error, and failed only when it returned with one |
| QueueSafety.OnePullAtATime | internal/daemon/daemon.go:24-36 | while the daemon has not returned at most one pull works on the store, among all commands and jobs |
| QueueSafety.ReturnAdmitsAnother | internal/daemon/daemon.go:77-154 | after a serving daemon returns, two pulls can come to work on the store at once exactly when some job is running, waiting or being added |
| QueueSafety.QueuedJobOutlives | internal/daemon/pull.go:97-102 | a job that is only queued when it returns is pulled beside a command |
| QueueSafety.ReadersSee | internal/daemon/pull.go:121-139 | whatever happens meanwhile, list and snapshot read one consistent book: every job once, at most one running, counters exact |
| QueueSafety.SnapshotsSee | internal/daemon/pull.go:121-129 | snapshot knows exactly the jobs list shows, one that is running is the one being pulled, and a later one never goes back |
| QueueSafety.LaterJobFirst | internal/daemon/pull.go:84-91 | the later of two jobs can be pulled while the earlier is queued |
| QueueSafety.StatsReadersSee | internal/daemon/metrics.go:61-72 | the copied counters do not change meanwhile and lack at most the one outcome being counted |
| QueueSafety.PullsTotal | internal/daemon/metrics.go:41 | the unlabelled total is the number of counted jobs exactly when no outcome was counted twice |
| QueueSafety.TwoPullsReportedAsOne | internal/daemon/metrics.go:41 | two jobs succeed and the total says 1 |
| QueueSafety.SectionsAreMethods | internal/daemon/pull.go:63-118 | the interleaved steps of each critical section, adding, marking and finishing, amount to the method that implements it |

## Left out

- HTTP, UDP, torrent client and DHT node internals: libraries; their behaviour enters as the parameters and assumptions above.
- Command line, progress, daemon HTTP handlers, Prometheus text, Ollama import, key files, platform directories: plumbing with nothing of this kind to prove.
- File-system paths: links, case folding and directories in the way of files (such a write fails) are not modelled; the directory of a repo named "." or ".." is taken to be one like any other.
- Bencode.ParseValue: reads the strict grammar of BEP 3; how lenient the library decoder is with malformed integers is not modelled.
- Record.DecodeRecord: unknown keys are skipped and the last of repeated keys counts, as the struct decoding does; the order of keys is not enforced.
- Sequence.StrictlyIncreasing: assumes fewer increments than would overflow an int64 and one live publisher per state file.
- Dht.NeverRejected: considers one publisher's items on a node; items of other keys live under other targets.
- Index.Fetch: the order of warnings and the text of errors are not modelled.
- QueueSafety.ReturnAdmitsAnother: handlers still reading a request when the daemon returns are taken not to enqueue it afterwards; a process that exits with the daemon takes its jobs with it.
- PullInvariant.ListingExactly: a file with a published digest that lands where the store looks may fit there or not; PullInvariant.DownloadExactly says which for each download, and the listing as a whole is characterised without such files.
- PullInvariant.RunKeeps: a sufficient condition for the whole pull; the exact ones are stated for its parts.
- Pull.PullTwice: for repos without a file named like the manifest pointer; single-file pulls overwrite the pointer, so nothing is claimed after them.
- Queue.PullQueue.Enqueue: ids are random in the code and taken to be fresh in the interleaved model; timestamps and error texts of jobs are omitted.
- The lock's time-outs, liveness of queued jobs, and the seeding engines.

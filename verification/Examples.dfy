/** Concrete inputs on which a promise one might expect fails. */
module Examples {
  import opened Text
  import opened Hashing
  import opened Manifest
  import opened Builder
  import opened Hub
  import opened Layout
  import opened Store
  import opened StoreInvariant
  import opened Pull
  import opened Isolation
  import opened PullInvariant
  import opened PullOutcome
  import Download
  import Index
  import Ref

  // ---- A repo of one file of one byte ----

  function OneFile(h: Hashes): seq<File> {
    [File("f", 1, FileDigest(h, "x"))]
  }

  function OneFileInfo(h: Hashes, model: Bytes): Info {
    Info(TorrentName(model), PIECE_LENGTH, PieceHashes(h, Pieces("x", PIECE_LENGTH)), FileInfos(OneFile(h)))
  }

  function OneFileManifest(h: Hashes, model: Bytes, revision: Bytes): Manifest {
    Manifest(SCHEMA, model, revision, 0, PIECE_LENGTH, InfoHash(h, OneFileInfo(h, model)), OneFile(h))
  }

  lemma {:induction false} OneFileListed(h: Hashes, model: Bytes, revision: Bytes, dir: Dir)
    requires model != "" && revision != "" && "f" in dir && dir["f"] == "x"
    ensures var m := OneFileManifest(h, model, revision);
      Valid(m) && Verified(h, m, dir) && AllSized(m.files, dir) && Joined(m.files, dir) == "x"
  {
    var (m, entries) := (OneFileManifest(h, model, revision), OneFile(h));
    assert Split("f", '/') == ["f"];
    assert GoodEntry(entries[0], dir);
    ListedContentValid(h, m, entries, dir);
    assert entries[1..] == [] && Joined(entries[1..], dir) == "";
  }

  /** The one-file manifest is good against every directory with that file. */
  lemma OneFileOk(h: Hashes, model: Bytes, revision: Bytes, dir: Dir)
    requires model != "" && revision != "" && "f" in dir && dir["f"] == "x"
    ensures var m := OneFileManifest(h, model, revision);
      Valid(m) && Verified(h, m, dir) && Torrent(h, m, dir).Some?
  {
    var m := OneFileManifest(h, model, revision);
    OneFileListed(h, model, revision, dir);
    ConcatenationOf(m.files, dir);
    assert InfoOf(h, m, dir) == Some(OneFileInfo(h, model));
  }

  lemma OneFilePublishes(h: Hashes, json: Json, s: State, id: Bytes, model: Bytes, revision: Bytes, w: Writes)
    requires Ref.ValidModelId(id) && model != "" && revision != ""
    requires "f" in DirOf(s, id) && DirOf(s, id)["f"] == "x"
    requires w.failAt == 0
    ensures PublishOutcome(h, json, s, id, OneFileManifest(h, model, revision), true, 0, w).1.Ok?
  {
    var m := OneFileManifest(h, model, revision);
    OneFileOk(h, model, revision, DirOf(s, id)[MODEL_MANIFEST := json.encode(m)]);
  }

  // ---- A torrent two models share ----

  /** Two owners publish the same file under the same repo name; removing the
      one's model takes the other's torrent. */
  lemma SharedTorrent(h: Hashes, json: Json, root: Path, a: Ref.Ref, b: Ref.Ref, revision: Bytes)
    requires json.Inverts() && Ref.Valid(a) && Ref.Valid(b) && revision != ""
    requires a.owner != b.owner && a.repo == b.repo
    ensures var (ia, ib) := (Ref.Id(a), Ref.Id(b));
      var (ma, mb) := (OneFileManifest(h, ia, revision), OneFileManifest(h, ib, revision));
      var s := EmptyStore(root).(dirs := map[ia := map["f" := "x"], ib := map["f" := "x"]]);
      var (first, r1) := PublishOutcome(h, json, s, ia, ma, true, 0, NO_FAILURE);
      var (both, r2) := PublishOutcome(h, json, first, ib, mb, true, 0, NO_FAILURE);
      var (left, r3) := RemoveOutcome(h, json, both, ia, NO_FAULTS);
      && r1.Ok? && r2.Ok? && r3.Ok?
      && Pointed(json, left, ib) == Some(mb) && mb.infoHash in both.torrents && mb.infoHash !in left.torrents
  {
    var (ia, ib) := (Ref.Id(a), Ref.Id(b));
    Ref.ModelIdOf(a);
    Ref.ModelIdOf(b);
    assert ia != ib && TorrentName(ia) == TorrentName(ib);
    var s := EmptyStore(root).(dirs := map[ia := map["f" := "x"], ib := map["f" := "x"]]);
    BothPublished(h, json, s, ia, ib, revision);
  }

  lemma BothPublished(h: Hashes, json: Json, s: State, ia: Bytes, ib: Bytes, revision: Bytes)
    requires json.Inverts() && revision != "" && Ref.ValidModelId(ia) && Ref.ValidModelId(ib)
    requires ia != ib && TorrentName(ia) == TorrentName(ib)
    requires DirOf(s, ia) == DirOf(s, ib) == map["f" := "x"]
    ensures var (ma, mb) := (OneFileManifest(h, ia, revision), OneFileManifest(h, ib, revision));
      var (first, r1) := PublishOutcome(h, json, s, ia, ma, true, 0, NO_FAILURE);
      var (both, r2) := PublishOutcome(h, json, first, ib, mb, true, 0, NO_FAILURE);
      var (left, r3) := RemoveOutcome(h, json, both, ia, NO_FAULTS);
      && r1.Ok? && r2.Ok? && r3.Ok?
      && Pointed(json, left, ib) == Some(mb) && mb.infoHash in both.torrents && mb.infoHash !in left.torrents
  {
    var (ma, mb) := (OneFileManifest(h, ia, revision), OneFileManifest(h, ib, revision));
    OneFilePublishes(h, json, s, ia, ia, revision, NO_FAILURE);
    var first := PublishOutcome(h, json, s, ia, ma, true, 0, NO_FAILURE).0;
    PublishStays(h, json, s, ia, ma, true, 0, NO_FAILURE);
    OtherDirKept(s, first, ia, ib);
    OneFilePublishes(h, json, first, ib, ib, revision, NO_FAILURE);
    OneFileOk(h, ia, revision, DirOf(s, ia));
    OneFileOk(h, ib, revision, DirOf(s, ib));
    PublishReadsBack(h, json, s, ia, ma, true, 0, NO_FAILURE);
    PublishReadsBack(h, json, first, ib, mb, true, 0, NO_FAILURE);
    var both := PublishOutcome(h, json, first, ib, mb, true, 0, NO_FAILURE).0;
    PublishStays(h, json, first, ib, mb, true, 0, NO_FAILURE);
    OtherDirKept(first, both, ib, ia);
    RemoveIsolated(h, json, both, ia, ib, NO_FAULTS);
  }

  // ---- A manifest copy two models share ----

  /** One manifest published under its own model and, as a swarm pull may, under
      another; removing the other takes the copy its own pointer leads to. */
  lemma SharedCopy(h: Hashes, json: Json, s: State, other: Bytes, own: Bytes, revision: Bytes)
    requires json.Inverts() && revision != "" && Ref.ValidModelId(other) && Ref.ValidModelId(own)
    requires other != own && DirOf(s, other) == DirOf(s, own) == map["f" := "x"]
    ensures var m := OneFileManifest(h, own, revision);
      var (first, r1) := PublishOutcome(h, json, s, own, m, true, 0, NO_FAILURE);
      var (both, r2) := PublishOutcome(h, json, first, other, m, true, 0, NO_FAILURE);
      var (left, r3) := RemoveOutcome(h, json, both, other, NO_FAULTS);
      && r1.Ok? && r2.Ok? && r3.Ok?
      && Pointed(json, left, own) == Some(m)
      && Digest(h, json, m) in both.manifests && Digest(h, json, m) !in left.manifests
  {
    var m := OneFileManifest(h, own, revision);
    OneFilePublishes(h, json, s, own, own, revision, NO_FAILURE);
    OneFileOk(h, own, revision, DirOf(s, own));
    var first := PublishOutcome(h, json, s, own, m, true, 0, NO_FAILURE).0;
    PublishReadsBack(h, json, s, own, m, true, 0, NO_FAILURE);
    PublishStays(h, json, s, own, m, true, 0, NO_FAILURE);
    OtherDirKept(s, first, own, other);
    OneFilePublishes(h, json, first, other, own, revision, NO_FAILURE);
    PublishReadsBack(h, json, first, other, m, true, 0, NO_FAILURE);
    var both := PublishOutcome(h, json, first, other, m, true, 0, NO_FAILURE).0;
    PublishStays(h, json, first, other, m, true, 0, NO_FAILURE);
    OtherDirKept(first, both, other, own);
    RemoveIsolated(h, json, both, other, own, NO_FAULTS);
  }

  lemma OtherDirKept(s: State, t: State, id: Bytes, other: Bytes)
    requires t.dirs - {id} == s.dirs - {id} && other != id
    ensures DirOf(t, other) == DirOf(s, other) && (other in t.dirs <==> other in s.dirs)
  {
    assert other in s.dirs ==> other in s.dirs - {id};
    assert other in t.dirs ==> other in t.dirs - {id};
  }

  // ---- A signature that stays ----

  /** With a publisher key, the signature outlives the model. */
  lemma SignatureStays(h: Hashes, json: Json, root: Path, id: Bytes, revision: Bytes, signature: Bytes)
    requires json.Inverts() && revision != "" && Ref.ValidModelId(id)
    ensures var m := OneFileManifest(h, id, revision);
      var s := EmptyStore(root).(dirs := map[id := map["f" := "x"]]);
      var (t, r1) := PublishOutcome(h, json, s, id, m, true, 0, Writes(0, Some(signature)));
      var (u, r2) := RemoveOutcome(h, json, t, id, NO_FAULTS);
      && r1.Ok? && r2.Ok?
      && id !in u.dirs && Digest(h, json, m) !in u.manifests && m.infoHash !in u.torrents
      && u.signatures == map[Digest(h, json, m) := signature]
  {
    var m := OneFileManifest(h, id, revision);
    var s := EmptyStore(root).(dirs := map[id := map["f" := "x"]]);
    var w := Writes(0, Some(signature));
    OneFilePublishes(h, json, s, id, id, revision, w);
    OneFileOk(h, id, revision, DirOf(s, id));
    RemoveUndoesPublish(h, json, s, id, m, true, 0, w);
  }

  // ---- Paths that land elsewhere ----

  lemma PlainF()
    ensures ValidPath("f")
  {
    assert Split("f", '/') == ["f"];
  }

  /** A file of the listing that overwrites one of another model. */
  lemma EscapingPath(h: Hashes, s: State, a: Ref.Ref, b: Ref.Ref)
    requires Ref.Valid(a) && Ref.Valid(b) && a.owner == b.owner && a.repo != b.repo && ValidSegment(b.repo)
    ensures var f := HubFile("../" + b.repo + ['/'] + "f", 1, "");
      var t := Fetched(h, s, Ref.Id(a), [f], _ => Afresh("y"));
      !ValidPath(f.path) && ContentAt(t, InModel(Ref.Id(b), "f")) == Some("y")
  {
    var f := HubFile("../" + b.repo + ['/'] + "f", 1, "");
    Ref.ModelIdOf(a);
    PlainF();
    ClimbsOver(s.root, Ref.Id(a), b.repo, "f");
    UpIsInvalid(b.repo + ['/'] + "f");
    assert f.path == "../" + (b.repo + ['/'] + "f");
    OneFetched(h, s, Ref.Id(a), f, _ => Afresh("y"));
    AfreshLands(h, s, Ref.Id(a), f, "y");
  }

  lemma UpIsInvalid(p: Bytes)
    ensures !ValidPath("../" + p)
  {
    SplitFirst("..", p);
    assert "../" + p == ".." + ['/'] + p;
    BadSegment("../" + p, Split("../" + p, '/'), 0);
  }

  lemma {:induction false} BadSegment(p: Bytes, segments: seq<Bytes>, i: nat)
    requires segments == Split(p, '/') && i < |segments| && !ValidSegment(segments[i])
    ensures !ValidPath(p)
  {}

  /** Another spelling of the pointer's name passes for an ordinary file and
      breaks the store for some server. */
  lemma RespelledPointer(h: Hashes, json: Json, root: Path, id: Bytes, inputs: set<Bytes>)
    returns (downloads: Downloads)
    requires json.Inverts() && CollisionFree(h.sha256, inputs) && Ref.ValidModelId(id)
    ensures var files := [HubFile("./" + MODEL_MANIFEST, 1, "")];
      && NoPointerClash(files)
      && !Inv(h, json, Fetched(h, EmptyStore(root), id, files, downloads), inputs)
  {
    var files := [HubFile("./" + MODEL_MANIFEST, 1, "")];
    PointerSpelled(root, id);
    assert |files[0].path| == |MODEL_MANIFEST| + 2;
    EmptyConsistent(h, json, root, inputs);
    downloads := Breaks(h, json, EmptyStore(root), id, files, 0, inputs);
  }

  lemma PlainPointer()
    ensures ValidPath(MODEL_MANIFEST)
  {
    PlainName(MODEL_MANIFEST);
  }

  lemma PlainName(p: Bytes)
    requires ValidSegment(p) && |p| <= MAX_PATH
    requires forall i :: 0 <= i < |p| ==> ' ' <= p[i] <= 'z' && p[i] !in {'/', ':', '\\'}
    ensures ValidPath(p)
  {
    assert '/' !in p && IndexOf(p, '/') == |p|;
    assert Split(p, '/') == [p];
  }

  lemma PointerSpelled(root: Path, id: Bytes)
    requires Ref.ValidModelId(id)
    ensures Landing(root, id, "./" + MODEL_MANIFEST) == InModel(id, MODEL_MANIFEST)
  {
    PlainPointer();
    DotSlash(root, id, MODEL_MANIFEST);
    ValidLandsInside(root, id, MODEL_MANIFEST);
  }

  /** Where the one file of such a torrent is written. */
  lemma ForeignLands(s: State, a: Ref.Ref, b: Ref.Ref, swarm: Swarm)
    requires Ref.Valid(a) && Ref.Valid(b) && a.owner == b.owner && ValidSegment(b.repo)
    requires swarm.name == b.repo && swarm.arrived == [Arrival("f", "y")]
    ensures WithArrived(s, Ref.Id(a), swarm) == SetAt(s, InModel(Ref.Id(b), "f"), Some("y"))
  {
    Ref.ModelIdOf(a);
    PlainF();
    NamedLandsInside(s.root, Ref.Id(a), b.repo, "f");
    OneDelivered(s, Ref.Id(a), b.repo, Arrival("f", "y"));
  }

  /** A torrent whose root name is another repo overwrites that model's file. */
  lemma ForeignRootName(s: State, a: Ref.Ref, b: Ref.Ref, swarm: Swarm)
    requires Ref.Valid(a) && Ref.Valid(b) && a.owner == b.owner && a.repo != b.repo && ValidSegment(b.repo)
    requires swarm.name == b.repo && swarm.arrived == [Arrival("f", "y")]
    requires DirOf(s, Ref.Id(b)) == map["f" := "x"]
    ensures var t := WithArrived(s, Ref.Id(a), swarm);
      && ContentAt(t, InModel(Ref.Id(b), "f")) == Some("y")
      && DirOf(t, Ref.Id(a)) == DirOf(s, Ref.Id(a)) && !SameOutside(s, t, Ref.Id(a))
  {
    var (ia, ib) := (Ref.Id(a), Ref.Id(b));
    Ref.ModelIdOf(a);
    Ref.ModelIdOf(b);
    ForeignLands(s, a, b, swarm);
    SetReadsBack(s, InModel(ib, "f"), Some("y"), InModel(ib, "f"));
    assert ContentAt(s, InModel(ib, "f")) == Some("x");
  }

  // ---- An embedded manifest nobody compares with the request ----

  /** A pull of a model at a revision through a record that embeds the
      manifest of another model or revision; its torrent has the root name of
      that model, and its file arrives. */
  function EmbeddingSwarm(h: Hashes, json: Json, id: Bytes, revision: Bytes, m: Manifest): Swarm {
    Swarm(Some(Index.Entry(id, m.infoHash, Digest(h, json, m), revision, 1, 0)), json.encode(m), [], NoSidecar,
          TorrentName(m.model), [Arrival("f", "x")], true)
  }

  /** It succeeds exactly when the repo names are equal. Then, if the manifest
      is of another revision, the next pull misses the cache, and if it is of
      another owner's model, the store is left inconsistent. */
  lemma EmbeddedUnchecked(h: Hashes, json: Json, verify: (Bytes, Bytes, Bytes) -> bool, allowed: seq<Bytes>,
                          root: Path, id: Bytes, revision: Bytes, otherModel: Bytes, otherRevision: Bytes)
    requires json.Inverts() && Ref.ValidModelId(id) && Ref.ValidModelId(otherModel) && otherRevision != ""
    requires ValidSegment(TorrentName(otherModel))
    requires json.encode(OneFileManifest(h, otherModel, otherRevision)) != ""
    ensures var m := OneFileManifest(h, otherModel, otherRevision);
      var (t, r) := SwarmOutcome(h, json, verify, allowed, EmptyStore(root), id, revision,
                                 EmbeddingSwarm(h, json, id, revision, m), 0, NO_FAILURE);
      && (r.Ok? <==> TorrentName(otherModel) == TorrentName(id))
      && (r.Ok? && otherRevision != revision ==> CacheLookup(h, json, t, id, revision) == Miss)
      && (r.Ok? ==> (Inv(h, json, t, {json.encode(m)}) <==> otherModel == id))
  {
    var m := OneFileManifest(h, otherModel, otherRevision);
    var s := EmptyStore(root);
    var swarm := EmbeddingSwarm(h, json, id, revision, m);
    OneFileOk(h, otherModel, otherRevision, map["f" := "x"]);
    assert json.decode(json.encode(m)) == Some(m);
    PlainF();
    PlainArrivals(s, id, swarm);
    if TorrentName(otherModel) == TorrentName(id) {
      EmbeddedArrives(h, json, verify, allowed, root, id, revision, otherModel, otherRevision);
    } else {
      assert !Matches(h, m.files[0], DirOf(s, id));
    }
  }

  lemma EmbeddedPublished(h: Hashes, json: Json, verify: (Bytes, Bytes, Bytes) -> bool, allowed: seq<Bytes>,
                          root: Path, id: Bytes, revision: Bytes, m: Manifest, otherModel: Bytes, otherRevision: Bytes)
    requires json.Inverts() && Ref.ValidModelId(id) && Ref.ValidModelId(otherModel) && otherRevision != ""
    requires TorrentName(otherModel) == TorrentName(id) && ValidSegment(TorrentName(id))
    requires m == OneFileManifest(h, otherModel, otherRevision) && json.encode(m) != ""
    ensures var swarm := EmbeddingSwarm(h, json, id, revision, m);
      && SwarmManifest(h, json, verify, allowed, revision, swarm) == Some(m)
      && Arrives(h, EmptyStore(root), id, swarm, m)
      && SwarmOutcome(h, json, verify, allowed, EmptyStore(root), id, revision, swarm, 0, NO_FAILURE).1.Ok?
  {
    var swarm := EmbeddingSwarm(h, json, id, revision, m);
    var got := WithArrived(EmptyStore(root), id, swarm);
    OneArrives(root, id, swarm);
    OneFileOk(h, otherModel, otherRevision, DirOf(got, id));
    assert json.decode(json.encode(m)) == Some(m);
    OneFilePublishes(h, json, got, id, otherModel, otherRevision, NO_FAILURE);
  }

  lemma EmbeddedArrives(h: Hashes, json: Json, verify: (Bytes, Bytes, Bytes) -> bool, allowed: seq<Bytes>,
                        root: Path, id: Bytes, revision: Bytes, otherModel: Bytes, otherRevision: Bytes)
    requires json.Inverts() && Ref.ValidModelId(id) && Ref.ValidModelId(otherModel) && otherRevision != ""
    requires TorrentName(otherModel) == TorrentName(id) && ValidSegment(TorrentName(id))
    requires json.encode(OneFileManifest(h, otherModel, otherRevision)) != ""
    ensures var m := OneFileManifest(h, otherModel, otherRevision);
      var (t, r) := SwarmOutcome(h, json, verify, allowed, EmptyStore(root), id, revision,
                                 EmbeddingSwarm(h, json, id, revision, m), 0, NO_FAILURE);
      && r.Ok?
      && (otherRevision != revision ==> CacheLookup(h, json, t, id, revision) == Miss)
      && (Inv(h, json, t, {json.encode(m)}) <==> otherModel == id)
  {
    var m := OneFileManifest(h, otherModel, otherRevision);
    var s := EmptyStore(root);
    var swarm := EmbeddingSwarm(h, json, id, revision, m);
    OneArrives(root, id, swarm);
    EmbeddedPublished(h, json, verify, allowed, root, id, revision, m, otherModel, otherRevision);
    assert m.files[0].path != MODEL_MANIFEST;
    SwarmPullCached(h, json, verify, allowed, s, id, revision, swarm, 0, NO_FAILURE);
    EmptyConsistent(h, json, root, {json.encode(m)});
    OrdinarySwarmExactly(h, json, verify, allowed, s, id, revision, swarm, 0, NO_FAILURE, {json.encode(m)});
  }

  lemma OneArrives(root: Path, id: Bytes, swarm: Swarm)
    requires Ref.ValidModelId(id) && ValidSegment(TorrentName(id))
    requires swarm.name == TorrentName(id) && swarm.arrived == [Arrival("f", "x")]
    ensures ContentAt(WithArrived(EmptyStore(root), id, swarm), InModel(id, "f")) == Some("x")
    ensures NoTellingArrivals(root, id, swarm)
  {
    PlainF();
    NamedLandsInside(root, id, swarm.name, "f");
    assert id == Cut(id, '/').0 + ['/'] + Cut(id, '/').1;
    OneDelivered(EmptyStore(root), id, swarm.name, Arrival("f", "x"));
    SetReadsBack(EmptyStore(root), InModel(id, "f"), Some("x"), InModel(id, "f"));
  }

  /** A swarm pull of the very model at the very revision that leaves a file
      without the digest the Hub publishes for it. */
  lemma SwarmIgnoresHub(h: Hashes, json: Json, verify: (Bytes, Bytes, Bytes) -> bool, allowed: seq<Bytes>,
                        root: Path, id: Bytes, revision: Bytes)
    requires json.Inverts() && Ref.ValidModelId(id) && revision != "" && ValidSegment(TorrentName(id))
    requires json.encode(OneFileManifest(h, id, revision)) != "" && CollisionFree(h.sha256, {"x", "y"})
    ensures var m := OneFileManifest(h, id, revision);
      var f := HubFile("f", 1, FileDigest(h, "y"));
      var (t, r) := SwarmOutcome(h, json, verify, allowed, EmptyStore(root), id, revision,
                                 EmbeddingSwarm(h, json, id, revision, m), 0, NO_FAILURE);
      && r.Ok? && Landing(root, id, f.path) == InModel(id, "f")
      && ContentAt(t, InModel(id, "f")) == Some("x") && !HasDigest(h, Some("x"), f)
  {
    var m := OneFileManifest(h, id, revision);
    var swarm := EmbeddingSwarm(h, json, id, revision, m);
    PlainF();
    ValidLandsInside(root, id, "f");
    EmbeddedPublished(h, json, verify, allowed, root, id, revision, m, id, revision);
    OneArrives(root, id, swarm);
    SwarmPublishes(h, json, verify, allowed, EmptyStore(root), id, revision, swarm, 0, NO_FAILURE);
    if FileDigest(h, "x") == FileDigest(h, "y") {
      HexInjective(h.sha256("x"), h.sha256("y"));
    }
  }

  // ---- A manifest nobody signed ----

  /** The pinned manifest of the very model, served without a signature. */
  function UnsignedSwarm(h: Hashes, json: Json, id: Bytes, m: Manifest): Swarm {
    Swarm(Some(Index.Entry(id, m.infoHash, Digest(h, json, m), m.revision, 1, 0)), "", [Some(json.encode(m))],
          NoSidecar, TorrentName(id), [Arrival("f", "x")], true)
  }

  /** It is pulled without an allowlist, and refused with one. */
  lemma {:induction false} UnsignedRefused(h: Hashes, json: Json, verify: (Bytes, Bytes, Bytes) -> bool, key: Bytes,
                                           root: Path, id: Bytes, revision: Bytes)
    requires json.Inverts() && Ref.ValidModelId(id) && revision != "" && ValidSegment(TorrentName(id))
    ensures var swarm := UnsignedSwarm(h, json, id, OneFileManifest(h, id, revision));
      var s := EmptyStore(root);
      && SwarmOutcome(h, json, verify, [], s, id, revision, swarm, 0, NO_FAILURE).1.Ok?
      && SwarmOutcome(h, json, verify, [key], s, id, revision, swarm, 0, NO_FAILURE) == (s, Err(SwarmFailed))
  {
    var m := OneFileManifest(h, id, revision);
    var (s, swarm) := (EmptyStore(root), UnsignedSwarm(h, json, id, m));
    var got := WithArrived(s, id, swarm);
    OneArrives(root, id, swarm);
    OneFileOk(h, id, revision, DirOf(got, id));
    assert json.decode(json.encode(m)) == Some(m);
    assert IsPinned(h, json, swarm.entry.value, revision, swarm.bodies[0], m);
    assert Offers(h, json, verify, [], revision, swarm, m);
    OfferedExactly(h, json, verify, [], revision, swarm, m);
    OneFilePublishes(h, json, got, id, id, revision, NO_FAILURE);
    NothingOffered(h, json, verify, [key], s, id, revision, swarm, 0, NO_FAILURE);
  }

  // ---- A cache that knows less than is asked ----

  /** A file with other bytes of the same size is not answered from the cache. */
  lemma {:induction false} ChangedFile(h: Hashes, json: Json, root: Path, ref: Ref.Ref, repo: Repo)
    requires json.Inverts() && Ref.Valid(ref) && repo.revision != "" && CollisionFree(h.sha256, {"x", "y"})
    ensures var id := Ref.Id(ref);
      var m := OneFileManifest(h, id, repo.revision);
      var s := EmptyStore(root).(dirs := map[id := map["f" := "y", MODEL_MANIFEST := json.encode(m)]]);
      CacheLookup(h, json, s, id, repo.revision) == Corrupt && !Answered(h, json, s, ref, Some(repo))
  {
    var id := Ref.Id(ref);
    var m := OneFileManifest(h, id, repo.revision);
    var s := EmptyStore(root).(dirs := map[id := map["f" := "y", MODEL_MANIFEST := json.encode(m)]]);
    OneFileOk(h, id, repo.revision, map["f" := "x"]);
    assert json.decode(json.encode(m)) == Some(m);
    assert PointsAt(json, s, id, m);
    if FileDigest(h, "x") == FileDigest(h, "y") {
      HexInjective(h.sha256("x"), h.sha256("y"));
    }
    assert !Intact(h, s, id, m.files[0]);
    CacheExactly(h, json, s, id, repo.revision, m);
  }

  /** After a pull of one file, a pull of the whole repo is answered from the
      cache, with one file and the size of two. */
  lemma PartialCache(h: Hashes, json: Json, root: Path, ref: Ref.Ref, revision: Bytes, g: HubFile)
    requires json.Inverts() && Ref.Valid(ref) && ref.path == "" && revision != "" && g.path != "f"
    requires g.path != MODEL_MANIFEST
    ensures var id := Ref.Id(ref);
      var m := OneFileManifest(h, id, revision);
      var s := EmptyStore(root).(dirs := map[id := map["f" := "x"]]);
      var (t, r) := PublishOutcome(h, json, s, id, m, false, 0, NO_FAILURE);
      var repo := Repo(revision, [HubFile("f", 1, ""), g]);
      && r.Ok? && Answered(h, json, t, ref, Some(repo))
      && CacheResult(h, json, id, revision, m, repo.files).files == 1
      && CacheResult(h, json, id, revision, m, repo.files).size == 1 + g.size
      && !Present(t, id, repo.files)
  {
    var id := Ref.Id(ref);
    var m := OneFileManifest(h, id, revision);
    var s := EmptyStore(root).(dirs := map[id := map["f" := "x"]]);
    var repo := Repo(revision, [HubFile("f", 1, ""), g]);
    Ref.ModelIdOf(ref);
    OneFileOk(h, id, revision, map["f" := "x"][MODEL_MANIFEST := json.encode(m)]);
    PublishReadsBack(h, json, s, id, m, false, 0, NO_FAILURE);
    assert repo.files[1..] == [g] && [g][1..] == [] && SizeOf([g]) == g.size;
    assert repo.files[1] == g;
  }
}

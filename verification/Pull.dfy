/** One pull: the cache, the swarm, the Hub, and publication. */
module Pull {
  import opened Text
  import opened Hashing
  import opened Manifest
  import opened Builder
  import opened Hub
  import opened Layout
  import opened Store
  import Download
  import Index
  import Ref

  datatype Mode = Cache | P2p | Http

  datatype PullResult = PullResult(
    model: Bytes,
    revision: Bytes,
    mode: Mode,
    files: nat,
    size: int,
    infoHash: Bytes,
    manifestSha256: Bytes)

  datatype PullError =
    | Unresolved | NoSuchFile | BadModel | NoFallback | SwarmFailed
    | DownloadFailed(index: nat, why: Download.Error)
    | NotCreated(reason: CreateError)
    | OidMismatch(index: nat)
    | NotPublished(cause: PublishError)

  // ---- The cache ----

  datatype CacheState = Miss | Corrupt | Hit(m: Manifest)

  /** The local manifest, when it pins the wanted revision and its files verify. */
  function CacheLookup(h: Hashes, json: Json, s: State, id: Bytes, revision: Bytes): CacheState {
    var m := Pointed(json, s, id);
    if m.None? || m.value.revision != revision then Miss
    else if Verified(h, m.value, DirOf(s, id)) then Hit(m.value) else Corrupt
  }

  /** The pointer of the model directory reads as m. */
  predicate PointsAt(json: Json, s: State, id: Bytes, m: Manifest) {
    var pointer := ContentAt(s, InModel(id, MODEL_MANIFEST));
    pointer.Some? && Parse(json, pointer.value) == Some(m)
  }

  /** A listed file is in the model directory, with its size and digest. */
  predicate Intact(h: Hashes, s: State, id: Bytes, f: File) {
    var content := ContentAt(s, InModel(id, f.path));
    content.Some? && |content.value| == f.size && Hex(h.sha256(content.value)) == f.sha256
  }

  predicate AllIntact(h: Hashes, s: State, id: Bytes, m: Manifest) {
    forall i :: 0 <= i < |m.files| ==> Intact(h, s, id, m.files[i])
  }

  /** m may answer the request: the model directory points at it, it is of the wanted
      revision, and every file it lists is intact. */
  predicate Reusable(h: Hashes, json: Json, s: State, id: Bytes, revision: Bytes, m: Manifest) {
    PointsAt(json, s, id, m) && m.revision == revision && AllIntact(h, s, id, m)
  }

  /** The cache answers with a manifest exactly when it is reusable, takes the
      files for corrupt exactly when one of them is not intact, and has
      nothing to say without a pointer at the revision. */
  lemma CacheExactly(h: Hashes, json: Json, s: State, id: Bytes, revision: Bytes, m: Manifest)
    ensures CacheLookup(h, json, s, id, revision) == Hit(m) <==> Reusable(h, json, s, id, revision, m)
    ensures PointsAt(json, s, id, m) ==>
      && (CacheLookup(h, json, s, id, revision) == Corrupt <==> m.revision == revision && !AllIntact(h, s, id, m))
      && (CacheLookup(h, json, s, id, revision) == Miss <==> m.revision != revision)
    ensures Pointed(json, s, id).None? ==> CacheLookup(h, json, s, id, revision) == Miss
  {
    VerifiedIsIntact(h, s, id, m);
  }

  lemma VerifiedIsIntact(h: Hashes, s: State, id: Bytes, m: Manifest)
    ensures Verified(h, m, DirOf(s, id)) <==> AllIntact(h, s, id, m)
  {
    forall i | 0 <= i < |m.files|
      ensures Matches(h, m.files[i], DirOf(s, id)) <==> Intact(h, s, id, m.files[i])
    {
    }
  }

  method CheckCache(h: Hashes, json: Json, st: Store, id: Bytes, revision: Bytes) returns (c: CacheState)
    ensures c == CacheLookup(h, json, st.Current(), id, revision)
    ensures forall m :: c == Hit(m) <==> Reusable(h, json, st.Current(), id, revision, m)
    ensures c == Corrupt <==>
      exists m :: PointsAt(json, st.Current(), id, m) && m.revision == revision && !AllIntact(h, st.Current(), id, m)
  {
    ghost var s := st.Current();
    forall m {
      CacheExactly(h, json, s, id, revision, m);
    }
    var dir := if id in st.dirs then st.dirs[id] else map[];
    var m := if MODEL_MANIFEST in dir then Parse(json, dir[MODEL_MANIFEST]) else None;
    if m.None? || m.value.revision != revision {
      return Miss;
    }
    var err := VerifyDir(h, m.value, dir);
    return if err.None? then Hit(m.value) else Corrupt;
  }

  // ---- Downloads from the Hub ----

  /** The exchanges met when downloading the k-th file. */
  type Downloads = nat -> seq<Download.Exchange>

  /** The part file and the file itself, wherever the path puts them. */
  function SlotAt(s: State, id: Bytes, p: Bytes): Download.Slot {
    Download.Slot(ContentAt(s, PartLanding(s.root, id, p)), ContentAt(s, Landing(s.root, id, p)))
  }

  function WithSlot(s: State, id: Bytes, p: Bytes, slot: Download.Slot): State {
    SetAt(SetAt(s, PartLanding(s.root, id, p), slot.part), Landing(s.root, id, p), slot.dst)
  }

  /** A file with this size and digest. */
  predicate HasDigest(h: Hashes, content: Option<Bytes>, f: HubFile) {
    content.Some? && |content.value| == f.size && FileDigest(h, content.value) == f.oid
  }

  /** An LFS file that already matches its published digest is kept. */
  predicate Kept(h: Hashes, s: State, id: Bytes, f: HubFile) {
    f.oid != "" && HasDigest(h, ContentAt(s, Landing(s.root, id, f.path)), f)
  }

  function FetchFile(h: Hashes, s: State, id: Bytes, f: HubFile,
                     xs: seq<Download.Exchange>): (State, Option<Download.Error>)
  {
    if Kept(h, s, id, f) then (s, None) else
      var out := Download.Fetch(h, SlotAt(s, id, f.path), xs, f.oid);
      (WithSlot(s, id, f.path, out.slot), if out.result.Err? then Some(out.result.error) else None)
  }

  /** The oids the Hub publishes are those of m, file by file. */
  predicate OidsMatch(files: seq<HubFile>, m: Manifest) {
    |files| == |m.files| && forall i :: 0 <= i < |files| && files[i].oid != "" ==> m.files[i].sha256 == files[i].oid
  }

  /** What a pull over HTTP publishes: a manifest built from the directory,
      position by position the Hub's listing, strictly sorted, agreeing with
      every published digest. */
  predicate FaithfulToHub(h: Hashes, m: Manifest, files: seq<HubFile>, dir: Dir) {
    && BuiltFrom(h, m, Entries(files), dir)
    && StrictlySorted(m.files)
    && (forall i :: 0 <= i < |files| ==> m.files[i].path == files[i].path && m.files[i].size == files[i].size)
    && OidsMatch(files, m)
  }

  /** Every file with a published digest has that digest on disk. */
  lemma OidsOnDisk(h: Hashes, m: Manifest, files: seq<HubFile>, dir: Dir)
    requires FaithfulToHub(h, m, files, dir)
    ensures forall i :: 0 <= i < |files| && files[i].oid != "" ==>
      files[i].path in dir && |dir[files[i].path]| == files[i].size && FileDigest(h, dir[files[i].path]) == files[i].oid
  {
    forall i | 0 <= i < |files| && files[i].oid != ""
      ensures files[i].path in dir && |dir[files[i].path]| == files[i].size
      ensures FileDigest(h, dir[files[i].path]) == files[i].oid
    {
      assert Matches(h, m.files[i], dir);
    }
  }

  /** Every path is one a manifest may list. */
  predicate AllPlain(files: seq<HubFile>) {
    forall i :: 0 <= i < |files| ==> ValidPath(files[i].path)
  }

  predicate NoPointerClash(files: seq<HubFile>) {
    forall i :: 0 <= i < |files| ==> files[i].path != MODEL_MANIFEST
  }

  lemma StillMatches(h: Hashes, m: Manifest, files: seq<HubFile>, dir: Dir, pointer: Bytes)
    requires FaithfulToHub(h, m, files, dir)
    requires NoPointerClash(files)
    ensures var after := dir[MODEL_MANIFEST := pointer];
      && AllSized(m.files, dir) && AllSized(m.files, after)
      && forall i :: 0 <= i < |m.files| ==>
        Matches(h, m.files[i], after) && after[m.files[i].path] == dir[m.files[i].path]
  {
    var after := dir[MODEL_MANIFEST := pointer];
    forall i | 0 <= i < |m.files|
      ensures Matches(h, m.files[i], dir) && Matches(h, m.files[i], after)
      ensures after[m.files[i].path] == dir[m.files[i].path]
    {
      assert Matches(h, m.files[i], dir) && m.files[i].path == files[i].path;
    }
  }

  /** Writing the pointer does not disturb a manifest that does not list it. */
  lemma PointerHarmless(h: Hashes, m: Manifest, files: seq<HubFile>, dir: Dir, pointer: Bytes)
    requires FaithfulToHub(h, m, files, dir)
    requires NoPointerClash(files)
    ensures FaithfulToHub(h, m, files, dir[MODEL_MANIFEST := pointer])
  {
    var after := dir[MODEL_MANIFEST := pointer];
    StillMatches(h, m, files, dir, pointer);
    SameInfo(h, m, dir, after);
  }

  lemma SameInfo(h: Hashes, m: Manifest, d1: Dir, d2: Dir)
    requires ValidContent(m) && AllSized(m.files, d1) && AllSized(m.files, d2)
    requires forall i :: 0 <= i < |m.files| ==> d1[m.files[i].path] == d2[m.files[i].path]
    ensures InfoOf(h, m, d1) == InfoOf(h, m, d2)
  {
    ConcatenationOf(m.files, d1);
    ConcatenationOf(m.files, d2);
    SameJoined(m.files, d1, d2);
  }

  lemma {:induction false} SameJoined(files: seq<File>, d1: Dir, d2: Dir)
    requires AllSized(files, d1) && AllSized(files, d2)
    requires forall i :: 0 <= i < |files| ==> d1[files[i].path] == d2[files[i].path]
    ensures Joined(files, d1) == Joined(files, d2)
  {
    if files != [] {
      SameJoined(files[1..], d1, d2);
    }
  }

  /** A file is left as it is, whatever the server answers, exactly when it is
      there with its published size and digest; any other is asked for. */
  lemma {:induction false} KeptExactly(h: Hashes, s: State, id: Bytes, f: HubFile)
    ensures (forall xs :: FetchFile(h, s, id, f, xs) == (s, None)) <==>
      var there := ContentAt(s, Landing(s.root, id, f.path));
      f.oid != "" && there.Some? && |there.value| == f.size && Hex(h.sha256(there.value)) == f.oid
  {
    if !Kept(h, s, id, f) {
      assert FetchFile(h, s, id, f, [Download.Unreachable(Download.OpenFails)]).1 == Some(Download.Io);
    }
  }

  /** A slot is read back as it was written. */
  lemma SlotReadsBack(s: State, id: Bytes, p: Bytes, slot: Download.Slot)
    ensures SlotAt(WithSlot(s, id, p, slot), id, p) == slot
  {
    var (place, part) := (Landing(s.root, id, p), PartLanding(s.root, id, p));
    PartElsewhere(s.root, Land(Home(s.root, id), p));
    SetReadsBack(s, part, slot.part, part);
    SetReadsBack(SetAt(s, part, slot.part), place, slot.dst, part);
    SetReadsBack(SetAt(s, part, slot.part), place, slot.dst, place);
  }

  lemma {:induction false} FetchedSlot(h: Hashes, s: State, id: Bytes, f: HubFile, xs: seq<Download.Exchange>)
    ensures ContentAt(FetchFile(h, s, id, f, xs).0, Landing(s.root, id, f.path)) ==
      if Kept(h, s, id, f) then ContentAt(s, Landing(s.root, id, f.path))
      else Download.Fetch(h, SlotAt(s, id, f.path), xs, f.oid).slot.dst
  {
    if !Kept(h, s, id, f) {
      SlotReadsBack(s, id, f.path, Download.Fetch(h, SlotAt(s, id, f.path), xs, f.oid).slot);
    }
  }

  /** A fetched file with a published digest has that digest on disk, unless
      a full body was shorter than the part file it overwrote. */
  lemma {:induction false} FetchedDigest(h: Hashes, s: State, id: Bytes, f: HubFile, xs: seq<Download.Exchange>)
    requires f.oid != "" && FetchFile(h, s, id, f, xs).1.None?
    requires var out := Download.Fetch(h, SlotAt(s, id, f.path), xs, f.oid);
      out.slot.dst.Some? ==> CollisionFree(h.sha256, {out.fed, out.slot.dst.value})
    ensures var after := ContentAt(FetchFile(h, s, id, f, xs).0, Landing(s.root, id, f.path));
      && after.Some?
      && (FileDigest(h, after.value) == f.oid <==>
          Kept(h, s, id, f) || !Download.ShortRewrite(SlotAt(s, id, f.path), xs))
  {
    if !Kept(h, s, id, f) {
      Download.CheckedDigest(h, SlotAt(s, id, f.path), xs, f.oid);
    }
    FetchedSlot(h, s, id, f, xs);
  }

  /** The store after fetching the files from the k-th on, and the error that stopped it. */
  function FetchFrom(h: Hashes, s: State, id: Bytes, files: seq<HubFile>, downloads: Downloads, k: nat)
    : (r: (State, Option<PullError>))
    requires k <= |files|
    ensures r.1.Some? ==> r.1.value.DownloadFailed? && k <= r.1.value.index < |files|
    decreases |files| - k
  {
    if k == |files| then (s, None) else
      var (after, why) := FetchFile(h, s, id, files[k], downloads(k));
      if why.Some? then (after, Some(DownloadFailed(k, why.value)))
      else FetchFrom(h, after, id, files, downloads, k + 1)
  }

  /** The store after the downloads. */
  function Fetched(h: Hashes, s: State, id: Bytes, files: seq<HubFile>, downloads: Downloads): State {
    FetchFrom(h, s, id, files, downloads, 0).0
  }

  lemma OneFetched(h: Hashes, s: State, id: Bytes, f: HubFile, downloads: Downloads)
    ensures Fetched(h, s, id, [f], downloads) == FetchFile(h, s, id, f, downloads(0)).0
  {
    var (after, why) := FetchFile(h, s, id, f, downloads(0));
    assert FetchFrom(h, after, id, [f], downloads, 1) == (after, None);
  }

  /** Downloads one file to wherever its path lands, unless it is there already. */
  method DownloadOne(h: Hashes, st: Store, id: Bytes, f: HubFile, xs: seq<Download.Exchange>)
    returns (err: Option<Download.Error>)
    modifies st
    ensures (st.Current(), err) == FetchFile(h, old(st.Current()), id, f, xs)
  {
    var (place, part) := (Landing(st.root, id, f.path), PartLanding(st.root, id, f.path));
    var dst := st.Content(place);
    if f.oid != "" && HasDigest(h, dst, f) {
      return None;
    }
    var out := Download.Fetch(h, Download.Slot(st.Content(part), dst), xs, f.oid);
    st.Write(part, out.slot.part);
    st.Write(place, out.slot.dst);
    return if out.result.Err? then Some(out.result.error) else None;
  }

  /** Downloads every file of the listing, stopping at the first failure. */
  method DownloadAll(h: Hashes, st: Store, id: Bytes, files: seq<HubFile>, downloads: Downloads)
    returns (err: Option<PullError>)
    modifies st
    ensures (st.Current(), err) == FetchFrom(h, old(st.Current()), id, files, downloads, 0)
  {
    ghost var end := FetchFrom(h, st.Current(), id, files, downloads, 0);
    for k := 0 to |files|
      invariant FetchFrom(h, st.Current(), id, files, downloads, k) == end
    {
      var why := DownloadOne(h, st, id, files[k], downloads(k));
      if why.Some? {
        return Some(DownloadFailed(k, why.value));
      }
    }
    return None;
  }

  predicate CompletedAs(h: Hashes, json: Json, id: Bytes, revision: Bytes, mode: Mode, m: Manifest, r: PullResult) {
    r == PullResult(id, revision, mode, |m.files|, TotalSize(m.files), m.infoHash, Digest(h, json, m))
  }

  /** How a pull that reached publication ends. */
  function FinishOutcome(h: Hashes, json: Json, s: State, id: Bytes, revision: Bytes, m: Manifest, mode: Mode,
                         whole: bool, now: int, w: Writes): (State, Result<PullResult, PullError>)
  {
    var (t, p) := PublishOutcome(h, json, s, id, m, whole, now, w);
    (t, if p.Err? then Err(NotPublished(p.error))
        else Ok(PullResult(id, revision, mode, p.value.files, p.value.size, p.value.infoHash, p.value.manifestSha256)))
  }

  lemma FinishReadsBack(h: Hashes, json: Json, s: State, id: Bytes, revision: Bytes, m: Manifest, mode: Mode,
                        whole: bool, now: int, w: Writes)
    requires json.Inverts() && Valid(m)
    ensures var (t, r) := FinishOutcome(h, json, s, id, revision, m, mode, whole, now, w);
      && (r.Ok? ==>
            && CompletedAs(h, json, id, revision, mode, m, r.value)
            && Pointed(json, t, id) == Some(m)
            && DirOf(t, id) == DirOf(s, id)[MODEL_MANIFEST := json.encode(m)])
      && t.root == s.root && t.dirs - {id} == s.dirs - {id} && t.others == s.others
  {
    PublishStays(h, json, s, id, m, whole, now, w);
    if PublishOutcome(h, json, s, id, m, whole, now, w).1.Ok? {
      PublishReadsBack(h, json, s, id, m, whole, now, w);
    }
  }

  method Finish(h: Hashes, json: Json, st: Store, id: Bytes, revision: Bytes, m: Manifest, mode: Mode,
                whole: bool, now: int, w: Writes)
    returns (r: Result<PullResult, PullError>)
    modifies st
    ensures (st.Current(), r) == FinishOutcome(h, json, old(st.Current()), id, revision, m, mode, whole, now, w)
  {
    var p := st.Publish(h, json, id, m, whole, now, w);
    if p.Err? {
      return Err(NotPublished(p.error));
    }
    return Ok(PullResult(id, revision, mode, p.value.files, p.value.size, p.value.infoHash, p.value.manifestSha256));
  }

  /** The first published digest the manifest does not have. */
  method CheckOids(files: seq<HubFile>, m: Manifest) returns (bad: Option<nat>)
    requires |m.files| == |files|
    ensures bad.None? <==> OidsMatch(files, m)
    ensures bad.Some? ==>
      && bad.value < |files| && files[bad.value].oid != "" && m.files[bad.value].sha256 != files[bad.value].oid
      && forall j :: 0 <= j < bad.value && files[j].oid != "" ==> m.files[j].sha256 == files[j].oid
  {
    for i := 0 to |files|
      invariant forall j :: 0 <= j < i && files[j].oid != "" ==> m.files[j].sha256 == files[j].oid
    {
      if files[i].oid != "" && m.files[i].sha256 != files[i].oid {
        return Some(i);
      }
    }
    return None;
  }

  /** Builds the manifest of the model directory, checks the published
      digests, publishes. */
  method BuildAndPublish(h: Hashes, json: Json, st: Store, id: Bytes, revision: Bytes, files: seq<HubFile>,
                         whole: bool, now: int, w: Writes)
    returns (r: Result<PullResult, PullError>, m: Option<Manifest>)
    requires json.Inverts()
    modifies st
    ensures m.Some? ==> Valid(m.value) && m.value.revision == revision && m.value.model == id && AllPlain(files)
    ensures Reached(r) ==> m.Some? && FaithfulToHub(h, m.value, files, DirOf(old(st.Current()), id))
    ensures Reached(r) ==>
      (st.Current(), r) == FinishOutcome(h, json, old(st.Current()), id, revision, m.value, Http, whole, now, w)
    ensures !Reached(r) ==> st.Current() == old(st.Current())
    ensures BuildEnds(h, id, revision, files, DirOf(old(st.Current()), id), r)
  {
    m := None;
    var dir := if id in st.dirs then st.dirs[id] else map[];
    var created := Create(h, now, id, revision, Entries(files), dir);
    if created.Err? {
      return Err(NotCreated(created.error)), None;
    }
    m := Some(created.value);
    CreatedPlain(id, revision, files, dir);
    var bad := CheckOids(files, m.value);
    BadIsMiss(h, m.value, files, dir, bad);
    if bad.Some? {
      EndsAtMiss(h, id, revision, files, dir, bad.value);
      return Err(OidMismatch(bad.value)), m;
    }
    assert FaithfulToHub(h, m.value, files, dir);
    r := Finish(h, json, st, id, revision, m.value, Http, whole, now, w);
  }

  /** The file does not have its published digest. */
  predicate Misses(h: Hashes, f: HubFile, dir: Dir) {
    f.oid != "" && !(f.path in dir && Hex(h.sha256(dir[f.path])) == f.oid)
  }

  predicate FirstMiss(h: Hashes, files: seq<HubFile>, dir: Dir, i: nat) {
    i < |files| && Misses(h, files[i], dir) && forall j :: 0 <= j < i ==> !Misses(h, files[j], dir)
  }

  predicate NoneMisses(h: Hashes, files: seq<HubFile>, dir: Dir) {
    forall i :: 0 <= i < |files| ==> !Misses(h, files[i], dir)
  }

  /** How building and publishing ends, told from the directory it found: an
      error of creation exactly when that cannot succeed, the first file that
      misses its published digest, else publication. */
  ghost predicate BuildEnds(h: Hashes, id: Bytes, revision: Bytes, files: seq<HubFile>, dir: Dir,
                            r: Result<PullResult, PullError>) {
    var creatable := Creatable(id, revision, Entries(files), dir);
    && (r.Err? && r.error.NotCreated? <==> !creatable)
    && (forall i: nat :: r == Err(OidMismatch(i)) <==> creatable && FirstMiss(h, files, dir, i))
    && (Reached(r) <==> creatable && NoneMisses(h, files, dir))
  }

  lemma {:induction false} CreatedPlain(id: Bytes, revision: Bytes, files: seq<HubFile>, dir: Dir)
    requires Creatable(id, revision, Entries(files), dir)
    ensures AllPlain(files)
  {
    assert forall i :: 0 <= i < |files| ==>
      GoodEntry(Entries(files)[i], dir) && Entries(files)[i].path == files[i].path;
  }

  /** The digests a created manifest lists are those of the files. */
  lemma {:induction false} ListedMisses(h: Hashes, m: Manifest, files: seq<HubFile>, dir: Dir, i: nat)
    requires BuiltFrom(h, m, Entries(files), dir) && i < |files|
    ensures Misses(h, files[i], dir) <==> files[i].oid != "" && m.files[i].sha256 != files[i].oid
  {
    assert Matches(h, m.files[i], dir) && Entries(files)[i].path == files[i].path;
  }

  /** The first digest the manifest does not have is that of the first file that misses it. */
  lemma {:induction false} BadIsMiss(h: Hashes, m: Manifest, files: seq<HubFile>, dir: Dir, bad: Option<nat>)
    requires BuiltFrom(h, m, Entries(files), dir)
    requires bad.None? <==> OidsMatch(files, m)
    requires bad.Some? ==>
      && bad.value < |files| && files[bad.value].oid != "" && m.files[bad.value].sha256 != files[bad.value].oid
      && forall j :: 0 <= j < bad.value && files[j].oid != "" ==> m.files[j].sha256 == files[j].oid
    ensures if bad.None? then NoneMisses(h, files, dir) else FirstMiss(h, files, dir, bad.value)
  {
    forall i: nat | i < |files|
      ensures Misses(h, files[i], dir) <==> files[i].oid != "" && m.files[i].sha256 != files[i].oid
    {
      ListedMisses(h, m, files, dir, i);
    }
  }

  lemma {:induction false} EndsAtMiss(h: Hashes, id: Bytes, revision: Bytes, files: seq<HubFile>, dir: Dir, i: nat)
    requires Creatable(id, revision, Entries(files), dir) && FirstMiss(h, files, dir, i)
    ensures BuildEnds(h, id, revision, files, dir, Err(OidMismatch(i)))
  {}

  /** The pull got as far as publishing a manifest. */
  predicate Reached(r: Result<PullResult, PullError>) {
    r.Ok? || r.error.NotPublished?
  }

  /** The store after a pull over HTTP that published m, or stopped before that. */
  function AfterHttp(h: Hashes, json: Json, s: State, id: Bytes, files: seq<HubFile>, downloads: Downloads,
                     published: Option<Manifest>, whole: bool, now: int, w: Writes): State
  {
    var fetched := Fetched(h, s, id, files, downloads);
    if published.None? then fetched
    else PublishOutcome(h, json, fetched, id, published.value, whole, now, w).0
  }

  /** The listing is one a manifest can have, and its files are on disk with
      their sizes and published digests. */
  predicate Ready(h: Hashes, revision: Bytes, files: seq<HubFile>, dir: Dir) {
    && revision != "" && files != [] && AllPlain(files)
    && (forall i :: 0 < i < |files| ==> Less(files[i - 1].path, files[i].path))
    && forall i :: 0 <= i < |files| ==>
         && files[i].path in dir && |dir[files[i].path]| == files[i].size
         && (files[i].oid == "" || Hex(h.sha256(dir[files[i].path])) == files[i].oid)
  }

  lemma {:induction false} ReadyBuilds(h: Hashes, id: Bytes, revision: Bytes, files: seq<HubFile>, dir: Dir)
    requires Ready(h, revision, files, dir) && id != ""
    ensures Creatable(id, revision, Entries(files), dir) && NoneMisses(h, files, dir)
  {
    forall i | 0 <= i < |files|
      ensures GoodEntry(Entries(files)[i], dir)
    {
      assert Entries(files)[i] == File(files[i].path, files[i].size, "");
    }
  }

  /** With no file on the pointer, what was built is published whenever the
      model id is valid and the writes that count succeed. */
  lemma {:induction false} BuiltPublishes(h: Hashes, json: Json, s: State, id: Bytes, m: Manifest,
                                          files: seq<HubFile>, whole: bool, now: int, w: Writes)
    requires FaithfulToHub(h, m, files, DirOf(s, id)) && NoPointerClash(files)
    ensures PublishOutcome(h, json, s, id, m, whole, now, w).1.Ok?
       <==> Ref.ValidModelId(id) && w.failAt !in {1, 2, 3}
  {
    PublishEnds(h, json, s, id, m, whole, now, w);
    PointerHarmless(h, m, files, DirOf(s, id), json.encode(m));
  }

  /** How a pull over HTTP ends: with the error that stopped the downloads,
      else as building and publishing does; and success needs no more than a
      valid id and working writes once the files are there. */
  ghost predicate HttpEnds(h: Hashes, s: State, id: Bytes, revision: Bytes, files: seq<HubFile>,
                           downloads: Downloads, w: Writes, r: Result<PullResult, PullError>) {
    var (fetched, err) := FetchFrom(h, s, id, files, downloads, 0);
    var dir := DirOf(fetched, id);
    var writable := Ref.ValidModelId(id) && w.failAt !in {1, 2, 3};
    if err.Some? then r == Err(err.value)
    else
      && BuildEnds(h, id, revision, files, dir, r)
      && (NoPointerClash(files) ==> (r.Ok? <==> Reached(r) && writable))
      && (Ready(h, revision, files, dir) && NoPointerClash(files) && writable ==> r.Ok?)
  }

  lemma ValidIdNotEmpty(id: Bytes)
    requires Ref.ValidModelId(id)
    ensures id != ""
  {}

  /** Downloads, then builds and publishes. */
  method PullHttp(h: Hashes, json: Json, st: Store, id: Bytes, revision: Bytes, files: seq<HubFile>,
                  downloads: Downloads, whole: bool, now: int, w: Writes)
    returns (r: Result<PullResult, PullError>, m: Option<Manifest>)
    requires json.Inverts()
    modifies st
    ensures m.Some? ==> Valid(m.value) && m.value.revision == revision && m.value.model == id && AllPlain(files)
    ensures r.Ok? ==> m.Some? && CompletedAs(h, json, id, revision, Http, m.value, r.value)
    ensures r.Ok? ==> Pointed(json, st.Current(), id) == m
    ensures Reached(r) ==>
      && m.Some?
      && FaithfulToHub(h, m.value, files, DirOf(Fetched(h, old(st.Current()), id, files, downloads), id))
    ensures r.Ok? && NoPointerClash(files) ==> FaithfulToHub(h, m.value, files, DirOf(st.Current(), id))
    ensures st.Current() == AfterHttp(h, json, old(st.Current()), id, files, downloads,
                                      if Reached(r) then m else None, whole, now, w)
    ensures HttpEnds(h, old(st.Current()), id, revision, files, downloads, w, r)
  {
    var err := DownloadAll(h, st, id, files, downloads);
    if err.Some? {
      return Err(err.value), None;
    }
    ghost var fetched := st.Current();
    r, m := BuildAndPublish(h, json, st, id, revision, files, whole, now, w);
    if Reached(r) {
      FinishReadsBack(h, json, fetched, id, revision, m.value, Http, whole, now, w);
      if NoPointerClash(files) {
        PointerHarmless(h, m.value, files, DirOf(fetched, id), json.encode(m.value));
        BuiltPublishes(h, json, fetched, id, m.value, files, whole, now, w);
      }
    }
    if Ready(h, revision, files, DirOf(fetched, id)) && Ref.ValidModelId(id) {
      ValidIdNotEmpty(id);
      ReadyBuilds(h, id, revision, files, DirOf(fetched, id));
    }
  }

  // ---- The swarm ----

  /** The manifest is the one the entry pins. */
  predicate Pinned(h: Hashes, json: Json, e: Index.Entry, revision: Bytes, m: Manifest) {
    Digest(h, json, m) == e.manifestSha256 && m.infoHash == e.infoHash && m.revision == revision
  }

  predicate Serves(h: Hashes, json: Json, e: Index.Entry, revision: Bytes, body: Option<Bytes>) {
    && body.Some? && Parse(json, body.value).Some?
    && Pinned(h, json, e, revision, Parse(json, body.value).value)
  }

  /** The pinned manifest as the first origin that has it serves it. */
  function FirstServed(h: Hashes, json: Json, e: Index.Entry, revision: Bytes,
                       bodies: seq<Option<Bytes>>): Option<Manifest>
  {
    if bodies == [] then None
    else if Serves(h, json, e, revision, bodies[0]) then Parse(json, bodies[0].value)
    else FirstServed(h, json, e, revision, bodies[1..])
  }

  /** Takes the pinned manifest from the first origin that serves it. */
  method FetchManifest(h: Hashes, json: Json, e: Index.Entry, revision: Bytes, bodies: seq<Option<Bytes>>)
    returns (m: Option<Manifest>)
    ensures m == FirstServed(h, json, e, revision, bodies)
    ensures m.None? <==> forall k :: 0 <= k < |bodies| ==> !Serves(h, json, e, revision, bodies[k])
    ensures m.Some? ==> Valid(m.value) && Pinned(h, json, e, revision, m.value)
    ensures m.Some? ==> exists k ::
      && 0 <= k < |bodies| && Serves(h, json, e, revision, bodies[k])
      && Parse(json, bodies[k].value) == m
      && forall j :: 0 <= j < k ==> !Serves(h, json, e, revision, bodies[j])
  {
    for k := 0 to |bodies|
      invariant forall j :: 0 <= j < k ==> !Serves(h, json, e, revision, bodies[j])
      invariant FirstServed(h, json, e, revision, bodies) == FirstServed(h, json, e, revision, bodies[k..])
    {
      if bodies[k].Some? {
        var parsed := Parse(json, bodies[k].value);
        if parsed.Some? && Pinned(h, json, e, revision, parsed.value) {
          return parsed;
        }
      }
    }
    return None;
  }

  /** The signature next to a manifest, as the origins serve it. */
  datatype Sidecar = NoSidecar | BadSidecar | Sidecar(publicKey: Bytes, signature: Bytes)

  /** An empty allowlist takes any valid signature or none; otherwise a
      listed signer is required. */
  predicate SignatureOk(json: Json, verify: (Bytes, Bytes, Bytes) -> bool, allowed: seq<Bytes>, m: Manifest,
                        sidecar: Sidecar) {
    match sidecar
    case NoSidecar => allowed == []
    case BadSidecar => false
    case Sidecar(key, sig) => verify(key, json.encode(m), sig) && (allowed == [] || key in allowed)
  }

  /** What discovery, the origins and the peers contribute: the entry and the
      embedded manifest if found, the served bodies and sidecar, the root
      name of the torrent, the files that arrive, in order, and whether the
      transfer completes. */
  datatype Swarm = Swarm(
    entry: Option<Index.Entry>,
    embedded: Bytes,
    bodies: seq<Option<Bytes>>,
    sidecar: Sidecar,
    name: Bytes,
    arrived: seq<Arrival>,
    complete: bool)

  /** A file of the torrent, by its path below the torrent's root name. */
  datatype Arrival = Arrival(path: Bytes, content: Bytes)

  /** The manifest a swarm pull works with: the embedded one, or the pinned
      one when an origin serves it and its signature will do. */
  function SwarmManifest(h: Hashes, json: Json, verify: (Bytes, Bytes, Bytes) -> bool, allowed: seq<Bytes>,
                         revision: Bytes, swarm: Swarm): (m: Option<Manifest>)
  {
    if swarm.entry.None? || swarm.entry.value.revision != revision then None
    else if swarm.embedded != "" then Parse(json, swarm.embedded)
    else
      var m := FirstServed(h, json, swarm.entry.value, revision, swarm.bodies);
      if m.Some? && SignatureOk(json, verify, allowed, m.value, swarm.sidecar) then m else None
  }

  /** The engine works in the owner's directory: files land below the root name of the torrent. */
  function ArrivalPlace(root: Path, id: Bytes, name: Bytes, path: Bytes): Place {
    PlaceOf(root, Land(OwnerHome(root, id), name + ['/'] + path))
  }

  function Deliver(s: State, id: Bytes, name: Bytes, arrived: seq<Arrival>): (t: State)
    ensures t.root == s.root
    decreases |arrived|
  {
    if arrived == [] then s else
      var place := ArrivalPlace(s.root, id, name, arrived[0].path);
      Deliver(SetAt(s, place, Some(arrived[0].content)), id, name, arrived[1..])
  }

  lemma {:induction false} OneDelivered(s: State, id: Bytes, name: Bytes, a: Arrival)
    ensures Deliver(s, id, name, [a]) == SetAt(s, ArrivalPlace(s.root, id, name, a.path), Some(a.content))
  {
    assert [a][1..] == [];
  }

  function WithArrived(s: State, id: Bytes, swarm: Swarm): State {
    Deliver(s, id, swarm.name, swarm.arrived)
  }

  /** The transfer completes and all its files verify. */
  predicate Arrives(h: Hashes, s: State, id: Bytes, swarm: Swarm, m: Manifest) {
    swarm.complete && Verified(h, m, DirOf(WithArrived(s, id, swarm), id))
  }

  /** A pull from the swarm: nothing without a manifest, the arrived files
      without a completed and verified transfer, else publication. */
  function SwarmOutcome(h: Hashes, json: Json, verify: (Bytes, Bytes, Bytes) -> bool, allowed: seq<Bytes>, s: State,
                        id: Bytes, revision: Bytes, swarm: Swarm, now: int, w: Writes)
    : (State, Result<PullResult, PullError>)
  {
    var m := SwarmManifest(h, json, verify, allowed, revision, swarm);
    if m.None? then (s, Err(SwarmFailed)) else
      var got := WithArrived(s, id, swarm);
      if !Arrives(h, s, id, swarm, m.value) then (got, Err(SwarmFailed))
      else FinishOutcome(h, json, got, id, revision, m.value, P2p, true, now, w)
  }

  /** What a swarm pull published was checked against the manifest, and the
      manifest against the entry. */
  predicate CheckedSwarm(h: Hashes, json: Json, swarm: Swarm, revision: Bytes, m: Manifest, dir: Dir) {
    && swarm.entry.Some? && swarm.entry.value.revision == revision
    && (swarm.embedded != "" ==> Parse(json, swarm.embedded) == Some(m))
    && (swarm.embedded == "" ==> Pinned(h, json, swarm.entry.value, revision, m))
    && Verified(h, m, dir)
  }

  predicate SignedSwarm(json: Json, verify: (Bytes, Bytes, Bytes) -> bool, allowed: seq<Bytes>, swarm: Swarm,
                        m: Manifest) {
    swarm.embedded == "" ==> SignatureOk(json, verify, allowed, m, swarm.sidecar)
  }

  lemma {:induction false} ServedIsPinned(h: Hashes, json: Json, e: Index.Entry, revision: Bytes,
                                          bodies: seq<Option<Bytes>>)
    ensures var m := FirstServed(h, json, e, revision, bodies);
      m.Some? ==> Valid(m.value) && Pinned(h, json, e, revision, m.value)
  {
    if bodies != [] && !Serves(h, json, e, revision, bodies[0]) {
      ServedIsPinned(h, json, e, revision, bodies[1..]);
    }
  }

  /** A swarm pull succeeds only with a pinned and signed, or an embedded,
      manifest against which every file was verified, and leaves them all;
      one that fails before publishing leaves at most the files that arrived. */
  lemma SwarmPublishes(h: Hashes, json: Json, verify: (Bytes, Bytes, Bytes) -> bool, allowed: seq<Bytes>, s: State,
                       id: Bytes, revision: Bytes, swarm: Swarm, now: int, w: Writes)
    requires json.Inverts()
    ensures var (t, r) := SwarmOutcome(h, json, verify, allowed, s, id, revision, swarm, now, w);
      var m := SwarmManifest(h, json, verify, allowed, revision, swarm);
      && (Reached(r) ==>
            && m.Some? && Valid(m.value)
            && CheckedSwarm(h, json, swarm, revision, m.value, DirOf(WithArrived(s, id, swarm), id))
            && SignedSwarm(json, verify, allowed, swarm, m.value))
      && (r.Ok? ==>
            && CompletedAs(h, json, id, revision, P2p, m.value, r.value)
            && Pointed(json, t, id) == m
            && DirOf(t, id) == DirOf(WithArrived(s, id, swarm), id)[MODEL_MANIFEST := json.encode(m.value)])
      && (!Reached(r) ==> t == if m.None? then s else WithArrived(s, id, swarm))
  {
    var m := SwarmManifest(h, json, verify, allowed, revision, swarm);
    if m.Some? {
      if swarm.embedded == "" {
        ServedIsPinned(h, json, swarm.entry.value, revision, swarm.bodies);
      }
      var got := WithArrived(s, id, swarm);
      FinishReadsBack(h, json, got, id, revision, m.value, P2p, true, now, w);
    }
  }

  /** What the engine writes. */
  method Receive(st: Store, id: Bytes, name: Bytes, arrived: seq<Arrival>)
    modifies st
    ensures st.Current() == Deliver(old(st.Current()), id, name, arrived)
  {
    ghost var end := Deliver(st.Current(), id, name, arrived);
    for k := 0 to |arrived|
      invariant Deliver(st.Current(), id, name, arrived[k..]) == end
    {
      assert arrived[k..][1..] == arrived[k + 1..];
      st.Write(ArrivalPlace(st.root, id, name, arrived[k].path), Some(arrived[k].content));
    }
  }

  method PullP2p(h: Hashes, json: Json, verify: (Bytes, Bytes, Bytes) -> bool, allowed: seq<Bytes>, st: Store,
                 id: Bytes, revision: Bytes, swarm: Swarm, now: int, w: Writes)
    returns (r: Result<PullResult, PullError>, m: Option<Manifest>)
    modifies st
    ensures (st.Current(), r) == SwarmOutcome(h, json, verify, allowed, old(st.Current()), id, revision, swarm, now,
                                              w)
    ensures m == SwarmManifest(h, json, verify, allowed, revision, swarm)
  {
    m := None;
    if swarm.entry.None? || swarm.entry.value.revision != revision {
      return Err(SwarmFailed), None;
    }
    if swarm.embedded != "" {
      m := Parse(json, swarm.embedded);
    } else {
      m := FetchManifest(h, json, swarm.entry.value, revision, swarm.bodies);
      if m.Some? && !SignatureOk(json, verify, allowed, m.value, swarm.sidecar) {
        m := None;
      }
    }
    if m.None? {
      return Err(SwarmFailed), None;
    }
    Receive(st, id, swarm.name, swarm.arrived);
    if !swarm.complete {
      return Err(SwarmFailed), m;
    }
    var err := VerifyDir(h, m.value, if id in st.dirs then st.dirs[id] else map[]);
    if err.Some? {
      return Err(SwarmFailed), m;
    }
    r := Finish(h, json, st, id, revision, m.value, P2p, true, now, w);
  }

  // ---- A whole pull ----

  datatype Repo = Repo(revision: Bytes, files: seq<HubFile>)

  datatype Options = Options(httpOnly: bool, noHttpFallback: bool, allowed: seq<Bytes>)

  function SizeOf(files: seq<HubFile>): int {
    if files == [] then 0 else files[0].size + SizeOf(files[1..])
  }

  function Wanted(repo: Repo, path: Bytes): seq<HubFile> {
    if path == "" then repo.files else FilterPath(repo.files, path)
  }

  function CacheResult(h: Hashes, json: Json, id: Bytes, revision: Bytes, m: Manifest,
                       files: seq<HubFile>): PullResult {
    PullResult(id, revision, Cache, |m.files|, SizeOf(files), m.infoHash, Digest(h, json, m))
  }

  /** A whole-repo HTTP pull leaves the store ready to answer from the cache. */
  predicate CachedFor(h: Hashes, json: Json, s: State, id: Bytes, repo: Repo, m: Manifest, r: PullResult) {
    && FaithfulToHub(h, m, repo.files, DirOf(s, id))
    && Pointed(json, s, id) == Some(m)
    && m.revision == repo.revision
    && CompletedAs(h, json, id, repo.revision, Http, m, r)
  }

  lemma {:induction false} SameTotal(files: seq<HubFile>, listed: seq<File>)
    requires |listed| == |files| && forall i :: 0 <= i < |files| ==> listed[i].size == files[i].size
    ensures TotalSize(listed) == SizeOf(files)
  {
    if files != [] {
      SameTotal(files[1..], listed[1..]);
    }
  }

  lemma CachedAnswers(h: Hashes, json: Json, s: State, id: Bytes, repo: Repo, m: Manifest, r: PullResult)
    requires CachedFor(h, json, s, id, repo, m, r)
    ensures CacheLookup(h, json, s, id, repo.revision) == Hit(m)
    ensures CacheResult(h, json, id, repo.revision, m, repo.files) == r.(mode := Cache)
  {
    SameTotal(repo.files, m.files);
  }

  /** A completed swarm pull is answered from the cache next time exactly when
      its manifest carries the wanted revision; an embedded one need not. */
  lemma SwarmPullCached(h: Hashes, json: Json, verify: (Bytes, Bytes, Bytes) -> bool, allowed: seq<Bytes>, s: State,
                        id: Bytes, revision: Bytes, swarm: Swarm, now: int, w: Writes)
    requires json.Inverts()
    requires SwarmOutcome(h, json, verify, allowed, s, id, revision, swarm, now, w).1.Ok?
    requires var m := SwarmManifest(h, json, verify, allowed, revision, swarm).value;
      forall i :: 0 <= i < |m.files| ==> m.files[i].path != MODEL_MANIFEST
    ensures var m := SwarmManifest(h, json, verify, allowed, revision, swarm).value;
      CacheLookup(h, json, SwarmOutcome(h, json, verify, allowed, s, id, revision, swarm, now, w).0, id, revision)
      == if m.revision == revision then Hit(m) else Miss
  {
    var m := SwarmManifest(h, json, verify, allowed, revision, swarm).value;
    SwarmPublishes(h, json, verify, allowed, s, id, revision, swarm, now, w);
    PointerUnlisted(h, m, DirOf(WithArrived(s, id, swarm), id), json.encode(m));
  }

  lemma PointerUnlisted(h: Hashes, m: Manifest, dir: Dir, pointer: Bytes)
    requires Verified(h, m, dir) && forall i :: 0 <= i < |m.files| ==> m.files[i].path != MODEL_MANIFEST
    ensures Verified(h, m, dir[MODEL_MANIFEST := pointer])
  {
    forall i | 0 <= i < |m.files|
      ensures Matches(h, m.files[i], dir[MODEL_MANIFEST := pointer])
    {
      assert Matches(h, m.files[i], dir);
    }
  }

  predicate Lists(m: Manifest, p: Bytes) {
    exists i :: 0 <= i < |m.files| && m.files[i].path == p
  }

  predicate ListsAs(m: Manifest, f: HubFile) {
    exists i :: 0 <= i < |m.files| && m.files[i] == File(f.path, f.size, f.oid)
  }

  /** What decides whether a Hub file has its published digest after a swarm
      pull: the manifest for a file it lists, what was there or arrived for another. */
  predicate AgreesWithHub(h: Hashes, got: State, id: Bytes, m: Manifest, f: HubFile) {
    if Lists(m, f.path) then ListsAs(m, f) else HasDigest(h, ContentAt(got, Landing(got.root, id, f.path)), f)
  }

  /** Every wanted file is in the model directory. */
  predicate Present(s: State, id: Bytes, wanted: seq<HubFile>) {
    forall i :: 0 <= i < |wanted| ==> wanted[i].path in DirOf(s, id)
  }

  predicate ListsAll(m: Manifest, wanted: seq<HubFile>) {
    forall i :: 0 <= i < |wanted| ==> Lists(m, wanted[i].path)
  }

  function ListedPaths(m: Manifest): set<Bytes> {
    set i | 0 <= i < |m.files| :: m.files[i].path
  }

  /** A cache hit says that the wanted files are there exactly when the
      manifest it found lists them all; it may be one of fewer files. */
  lemma HitCoversExactly(h: Hashes, json: Json, s: State, id: Bytes, revision: Bytes, m: Manifest,
                         wanted: seq<HubFile>)
    requires CacheLookup(h, json, s, id, revision) == Hit(m) && NoPointerClash(wanted)
    ensures (forall t :: CacheLookup(h, json, t, id, revision) == Hit(m) ==> Present(t, id, wanted))
       <==> ListsAll(m, wanted)
  {
    if ListsAll(m, wanted) {
      forall t | CacheLookup(h, json, t, id, revision) == Hit(m)
        ensures Present(t, id, wanted)
      {
        forall i | 0 <= i < |wanted|
          ensures wanted[i].path in DirOf(t, id)
        {
          var j :| 0 <= j < |m.files| && m.files[j].path == wanted[i].path;
          assert Matches(h, m.files[j], DirOf(t, id));
        }
      }
    } else {
      var t := BareHit(h, json, s, id, revision, m);
      var i :| 0 <= i < |wanted| && !Lists(m, wanted[i].path);
      assert wanted[i].path !in DirOf(t, id);
    }
  }

  /** The same hit with nothing else in the directory. */
  lemma BareHit(h: Hashes, json: Json, s: State, id: Bytes, revision: Bytes, m: Manifest) returns (t: State)
    requires CacheLookup(h, json, s, id, revision) == Hit(m)
    ensures CacheLookup(h, json, t, id, revision) == Hit(m)
    ensures DirOf(t, id).Keys <= ListedPaths(m) + {MODEL_MANIFEST}
  {
    var dir := Only(DirOf(s, id), ListedPaths(m) + {MODEL_MANIFEST});
    t := s.(dirs := s.dirs[id := dir]);
    assert Pointed(json, t, id) == Pointed(json, s, id);
    forall i | 0 <= i < |m.files|
      ensures Matches(h, m.files[i], dir)
    {
      assert Matches(h, m.files[i], DirOf(s, id)) && m.files[i].path in ListedPaths(m);
    }
  }

  /** A file of the repo: it lands in the model directory, and not as the pointer. */
  predicate OwnFile(root: Path, id: Bytes, f: HubFile) {
    Inside(Landing(root, id, f.path), id) && !Telling(Landing(root, id, f.path))
  }

  lemma PublishedFile(h: Hashes, json: Json, verify: (Bytes, Bytes, Bytes) -> bool, allowed: seq<Bytes>, s: State,
                      id: Bytes, revision: Bytes, swarm: Swarm, now: int, w: Writes, f: HubFile)
    requires json.Inverts() && f.oid != "" && OwnFile(s.root, id, f)
    requires SwarmOutcome(h, json, verify, allowed, s, id, revision, swarm, now, w).1.Ok?
    ensures var t := SwarmOutcome(h, json, verify, allowed, s, id, revision, swarm, now, w).0;
      var m := SwarmManifest(h, json, verify, allowed, revision, swarm).value;
      HasDigest(h, ContentAt(t, Landing(s.root, id, f.path)), f)
      <==> AgreesWithHub(h, WithArrived(s, id, swarm), id, m, f)
  {
    var t := SwarmOutcome(h, json, verify, allowed, s, id, revision, swarm, now, w).0;
    var m := SwarmManifest(h, json, verify, allowed, revision, swarm).value;
    var got := WithArrived(s, id, swarm);
    SwarmPublishes(h, json, verify, allowed, s, id, revision, swarm, now, w);
    var place := Landing(s.root, id, f.path);
    assert ContentAt(t, place) == ContentAt(got, place);
    if i :| 0 <= i < |m.files| && m.files[i].path == f.path {
      assert Matches(h, m.files[i], DirOf(got, id)) && ValidFile(m.files[i]);
      ListedLands(s, id, m, f, i);
      ListedOnce(m, f, i);
    }
  }

  lemma ListedLands(s: State, id: Bytes, m: Manifest, f: HubFile, i: nat)
    requires Valid(m) && i < |m.files| && m.files[i].path == f.path && Inside(Landing(s.root, id, f.path), id)
    ensures Landing(s.root, id, f.path) == InModel(id, f.path)
  {
    assert ValidFile(m.files[i]);
    WalkPlain(Home(s.root, id), Split(f.path, '/'));
    JoinSplit(f.path, '/');
    PlainPlace(s.root, id, Split(f.path, '/'));
  }

  /** In a valid manifest a path is listed once. */
  lemma ListedOnce(m: Manifest, f: HubFile, i: nat)
    requires Valid(m) && i < |m.files| && m.files[i].path == f.path
    ensures ListsAs(m, f) <==> m.files[i].size == f.size && m.files[i].sha256 == f.oid
  {
    forall j | 0 <= j < |m.files| && m.files[j].path == f.path
      ensures j == i
    {
      if j != i {
        SortedApart(m.files, if j < i then j else i, if j < i then i else j);
      }
    }
    assert m.files[i] == File(f.path, m.files[i].size, m.files[i].sha256);
  }

  lemma {:induction false} SortedApart(files: seq<File>, i: nat, j: nat)
    requires StrictlySorted(files) && i < j < |files|
    ensures Less(files[i].path, files[j].path) && files[i].path != files[j].path
    decreases j - i
  {
    if i + 1 < j {
      SortedApart(files, i, j - 1);
      LessTransitive(files[i].path, files[j - 1].path, files[j].path);
    }
    LessTotal(files[i].path, files[j].path);
  }

  /** After a successful swarm pull every published digest is on disk exactly
      when the manifest lists those files with that size and digest, or does
      not list them and they were there or arrived so. */
  lemma SwarmOidsExactly(h: Hashes, json: Json, verify: (Bytes, Bytes, Bytes) -> bool, allowed: seq<Bytes>, s: State,
                         id: Bytes, revision: Bytes, swarm: Swarm, now: int, w: Writes, files: seq<HubFile>)
    requires json.Inverts() && forall i :: 0 <= i < |files| ==> OwnFile(s.root, id, files[i])
    requires SwarmOutcome(h, json, verify, allowed, s, id, revision, swarm, now, w).1.Ok?
    ensures var t := SwarmOutcome(h, json, verify, allowed, s, id, revision, swarm, now, w).0;
      var m := SwarmManifest(h, json, verify, allowed, revision, swarm).value;
      (forall i :: 0 <= i < |files| && files[i].oid != "" ==>
         HasDigest(h, ContentAt(t, Landing(s.root, id, files[i].path)), files[i]))
      <==> forall i :: 0 <= i < |files| && files[i].oid != "" ==>
             AgreesWithHub(h, WithArrived(s, id, swarm), id, m, files[i])
  {
    forall i | 0 <= i < |files| && files[i].oid != ""
      ensures var t := SwarmOutcome(h, json, verify, allowed, s, id, revision, swarm, now, w).0;
        var m := SwarmManifest(h, json, verify, allowed, revision, swarm).value;
        HasDigest(h, ContentAt(t, Landing(s.root, id, files[i].path)), files[i])
        <==> AgreesWithHub(h, WithArrived(s, id, swarm), id, m, files[i])
    {
      PublishedFile(h, json, verify, allowed, s, id, revision, swarm, now, w, files[i]);
    }
  }

  /** The swarm is tried, and before the Hub. */
  predicate TriesSwarm(ref: Ref.Ref, opts: Options) {
    !opts.httpOnly && ref.path == ""
  }

  /** The Hub has what is asked for. */
  predicate Resolves(ref: Ref.Ref, hub: Option<Repo>) {
    hub.Some? && (ref.path == "" || Wanted(hub.value, ref.path) != []) && Ref.ValidModelId(Ref.Id(ref))
  }

  /** The cache answers this request. */
  predicate Answered(h: Hashes, json: Json, s: State, ref: Ref.Ref, hub: Option<Repo>) {
    Resolves(ref, hub) && CacheLookup(h, json, s, Ref.Id(ref), hub.value.revision).Hit?
  }

  /** The store after a pull that the cache did not answer: the swarm's
      doing, and the Hub's when it gets its turn. */
  function AfterRun(h: Hashes, json: Json, verify: (Bytes, Bytes, Bytes) -> bool, s: State, ref: Ref.Ref, repo: Repo,
                    opts: Options, swarm: Swarm, downloads: Downloads, published: Option<Manifest>, now: int,
                    swarmWrites: Writes, hubWrites: Writes): State
  {
    var id := Ref.Id(ref);
    if TriesSwarm(ref, opts) then
      var (t, r) := SwarmOutcome(h, json, verify, opts.allowed, s, id, repo.revision, swarm, now, swarmWrites);
      if r.Ok? || opts.noHttpFallback then t
      else AfterHttp(h, json, t, id, Wanted(repo, ref.path), downloads, published, ref.path == "", now, hubWrites)
    else AfterHttp(h, json, s, id, Wanted(repo, ref.path), downloads, published, ref.path == "", now, hubWrites)
  }

  /** The manifest the pull published from the Hub, if it came to that. */
  function HubPublished(r: Result<PullResult, PullError>, m: Option<Manifest>): Option<Manifest> {
    if Reached(r) && !(r.Ok? && r.value.mode == P2p) then m else None
  }

  /** How a pull that the cache does not answer ends: as the swarm does when it
      is tried and succeeds, without a fallback when that is not wanted, else
      as the pull over HTTP. */
  ghost predicate FreshEnds(h: Hashes, json: Json, verify: (Bytes, Bytes, Bytes) -> bool, s: State, ref: Ref.Ref,
                            repo: Repo, opts: Options, swarm: Swarm, downloads: Downloads, now: int,
                            swarmWrites: Writes, hubWrites: Writes, r: Result<PullResult, PullError>) {
    var (id, files) := (Ref.Id(ref), Wanted(repo, ref.path));
    if opts.httpOnly || ref.path != "" then HttpEnds(h, s, id, repo.revision, files, downloads, hubWrites, r)
    else
      var (t, first) := SwarmOutcome(h, json, verify, opts.allowed, s, id, repo.revision, swarm, now, swarmWrites);
      if first.Ok? then r == first
      else if opts.noHttpFallback then r == Err(NoFallback)
      else HttpEnds(h, t, id, repo.revision, files, downloads, hubWrites, r)
  }

  /** How a whole pull ends: what cannot be resolved is an error of its own,
      what the cache may answer is answered from it, else it is pulled. */
  ghost predicate RunEnds(h: Hashes, json: Json, verify: (Bytes, Bytes, Bytes) -> bool, s: State, ref: Ref.Ref,
                          hub: Option<Repo>, opts: Options, swarm: Swarm, downloads: Downloads, now: int,
                          swarmWrites: Writes, hubWrites: Writes, r: Result<PullResult, PullError>) {
    if hub.None? then r == Err(Unresolved)
    else if ref.path != "" && (forall i :: 0 <= i < |hub.value.files| ==> hub.value.files[i].path != ref.path) then
      r == Err(NoSuchFile)
    else if !Ref.ValidModelId(Ref.Id(ref)) then r == Err(BadModel)
    else if m :| Reusable(h, json, s, Ref.Id(ref), hub.value.revision, m) then
      r == Ok(CacheResult(h, json, Ref.Id(ref), hub.value.revision, m, Wanted(hub.value, ref.path)))
    else FreshEnds(h, json, verify, s, ref, hub.value, opts, swarm, downloads, now, swarmWrites, hubWrites, r)
  }

  /** What a successful pull has left, whichever way it went. */
  predicate Delivered(h: Hashes, json: Json, verify: (Bytes, Bytes, Bytes) -> bool, s: State, t: State, ref: Ref.Ref,
                      repo: Repo, opts: Options, swarm: Swarm, m: Manifest, r: PullResult) {
    var id := Ref.Id(ref);
    && Pointed(json, t, id) == Some(m)
    && (r.mode == P2p ==>
          && CheckedSwarm(h, json, swarm, repo.revision, m, DirOf(WithArrived(s, id, swarm), id))
          && SignedSwarm(json, verify, opts.allowed, swarm, m))
    && (r.mode == Http && ref.path == "" && NoPointerClash(repo.files) ==> CachedFor(h, json, t, id, repo, m, r))
  }

  /** The manifest the Hub's files were built into. */
  predicate OfHub(ref: Ref.Ref, repo: Repo, m: Option<Manifest>) {
    && AllPlain(Wanted(repo, ref.path))
    && m.Some? && Valid(m.value) && m.value.model == Ref.Id(ref) && m.value.revision == repo.revision
  }

  /** The pull when the cache has no answer: the swarm, if it is to be tried, then the Hub. */
  method PullFresh(h: Hashes, json: Json, verify: (Bytes, Bytes, Bytes) -> bool, st: Store, ref: Ref.Ref, repo: Repo,
                   opts: Options, swarm: Swarm, downloads: Downloads, now: int, swarmWrites: Writes, hubWrites: Writes)
    returns (r: Result<PullResult, PullError>, m: Option<Manifest>)
    requires json.Inverts()
    modifies st
    ensures FreshEnds(h, json, verify, old(st.Current()), ref, repo, opts, swarm, downloads, now, swarmWrites,
                      hubWrites, r)
    ensures st.Current() == AfterRun(h, json, verify, old(st.Current()), ref, repo, opts, swarm, downloads,
                                     HubPublished(r, m), now, swarmWrites, hubWrites)
    ensures r.Ok? ==>
      && m.Some? && r.value.mode != Cache
      && Delivered(h, json, verify, old(st.Current()), st.Current(), ref, repo, opts, swarm, m.value, r.value)
    ensures Reached(r) && !(r.Ok? && r.value.mode != Http) ==> OfHub(ref, repo, m)
  {
    var id := Ref.Id(ref);
    if !opts.httpOnly && ref.path == "" {
      SwarmPublishes(h, json, verify, opts.allowed, st.Current(), id, repo.revision, swarm, now, swarmWrites);
      r, m := PullP2p(h, json, verify, opts.allowed, st, id, repo.revision, swarm, now, swarmWrites);
      if r.Ok? {
        return r, m;
      }
      if opts.noHttpFallback {
        return Err(NoFallback), None;
      }
    }
    r, m := PullHttp(h, json, st, id, repo.revision, Wanted(repo, ref.path), downloads, ref.path == "", now,
                     hubWrites);
  }

  method Run(h: Hashes, json: Json, verify: (Bytes, Bytes, Bytes) -> bool, st: Store, ref: Ref.Ref, hub: Option<Repo>,
             opts: Options, swarm: Swarm, downloads: Downloads, now: int, swarmWrites: Writes, hubWrites: Writes)
    returns (r: Result<PullResult, PullError>, m: Option<Manifest>)
    requires json.Inverts()
    modifies st
    ensures RunEnds(h, json, verify, old(st.Current()), ref, hub, opts, swarm, downloads, now, swarmWrites, hubWrites,
                    r)
    ensures Answered(h, json, old(st.Current()), ref, hub) ==>
      && m.Some? && Reusable(h, json, old(st.Current()), Ref.Id(ref), hub.value.revision, m.value)
      && r == Ok(CacheResult(h, json, Ref.Id(ref), hub.value.revision, m.value, Wanted(hub.value, ref.path)))
      && st.Current() == old(st.Current())
    ensures !Resolves(ref, hub) ==> r.Err? && st.Current() == old(st.Current())
    ensures Resolves(ref, hub) && !Answered(h, json, old(st.Current()), ref, hub) ==>
      st.Current() == AfterRun(h, json, verify, old(st.Current()), ref, hub.value, opts, swarm, downloads,
                               HubPublished(r, m), now, swarmWrites, hubWrites)
    ensures r.Ok? ==>
      && m.Some? && Resolves(ref, hub)
      && Delivered(h, json, verify, old(st.Current()), st.Current(), ref, hub.value, opts, swarm, m.value, r.value)
    ensures r.Ok? ==> (r.value.mode == Cache <==> Answered(h, json, old(st.Current()), ref, hub))
    ensures Reached(r) && !(r.Ok? && r.value.mode != Http) ==> Resolves(ref, hub) && OfHub(ref, hub.value, m)
  {
    var id := Ref.Id(ref);
    if hub.None? {
      return Err(Unresolved), None;
    }
    var files := Wanted(hub.value, ref.path);
    FilterPathExactly(hub.value.files, ref.path);
    if ref.path != "" && files == [] {
      return Err(NoSuchFile), None;
    }
    if !Ref.ValidModelId(id) {
      return Err(BadModel), None;
    }
    var cached := CheckCache(h, json, st, id, hub.value.revision);
    if cached.Hit? {
      return Ok(CacheResult(h, json, id, hub.value.revision, cached.m, files)), Some(cached.m);
    }
    r, m := PullFresh(h, json, verify, st, ref, hub.value, opts, swarm, downloads, now, swarmWrites, hubWrites);
  }

  /** After a whole-repo pull over HTTP, pulling again from an unchanged Hub
      writes nothing and answers the same, from the cache. */
  method PullTwice(h: Hashes, json: Json, verify: (Bytes, Bytes, Bytes) -> bool, st: Store, ref: Ref.Ref, repo: Repo,
                   opts: Options, swarm1: Swarm, downloads1: Downloads, swarm2: Swarm, downloads2: Downloads,
                   t1: int, t2: int)
    returns (r1: Result<PullResult, PullError>, r2: Result<PullResult, PullError>, between: State)
    requires json.Inverts() && ref.path == "" && NoPointerClash(repo.files)
    modifies st
    ensures r1.Ok? && r1.value.mode == Http ==>
      r2 == Ok(r1.value.(mode := Cache)) && st.Current() == between
  {
    var m1, m2;
    r1, m1 := Run(h, json, verify, st, ref, Some(repo), opts, swarm1, downloads1, t1, NO_FAILURE, NO_FAILURE);
    between := st.Current();
    if r1.Ok? && r1.value.mode == Http {
      CachedAnswers(h, json, between, Ref.Id(ref), repo, m1.value, r1.value);
    }
    r2, m2 := Run(h, json, verify, st, ref, Some(repo), opts, swarm2, downloads2, t2, NO_FAILURE, NO_FAILURE);
  }

  // ---- The pinned digest, from the publisher's disk to the puller's ----

  /** An embedded manifest with the pinned digest is the pinned manifest. */
  lemma EmbeddedIsPinned(h: Hashes, json: Json, m0: Manifest, embedded: Bytes)
    requires json.Inverts() && Valid(m0)
    requires h.sha256(embedded) == h.sha256(json.encode(m0))
    requires CollisionFree(h.sha256, {embedded, json.encode(m0)})
    ensures Parse(json, embedded) == Some(m0)
  {
    assert embedded == json.encode(m0);
    assert json.decode(json.encode(m0)) == Some(m0);
  }

  /** A swarm pull through an entry that pins a publisher's manifest delivers
      the publisher's files. */
  lemma SwarmDelivers(h: Hashes, json: Json, swarm: Swarm, revision: Bytes, m: Manifest, dir: Dir,
                      m0: Manifest, entries: seq<File>, d0: Dir)
    requires json.Inverts() && Valid(m) && BuiltFrom(h, m0, entries, d0)
    requires CheckedSwarm(h, json, swarm, revision, m, dir)
    requires swarm.entry.value.manifestSha256 == Digest(h, json, m0)
    requires swarm.embedded != "" ==> Hex(h.sha256(swarm.embedded)) == swarm.entry.value.manifestSha256
    requires CollisionFree(h.sha256, {swarm.embedded, json.encode(m0), json.encode(m)})
    requires CollisionFree(h.sha256, Contents(m0, d0) + Contents(m0, dir))
    ensures m == m0 && SameFiles(m0, d0, dir)
  {
    if swarm.embedded != "" {
      HexInjective(h.sha256(swarm.embedded), h.sha256(json.encode(m0)));
      EmbeddedIsPinned(h, json, m0, swarm.embedded);
    }
    PinnedDigestDetermines(h, json, m0, d0, m, dir);
  }
}

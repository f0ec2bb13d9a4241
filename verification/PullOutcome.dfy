/** How a pull ends, told from what the cache, the swarm and the Hub offer. */
module PullOutcome {
  import opened Text
  import opened Hashing
  import opened Manifest
  import opened Builder
  import opened Infohash
  import opened Hub
  import opened Layout
  import opened Store
  import opened Pull
  import opened Isolation
  import Download
  import Index
  import Ref

  // ---- The manifest of a swarm pull ----

  /** The body is m, and m is what the entry pins. */
  predicate IsPinned(h: Hashes, json: Json, e: Index.Entry, revision: Bytes, body: Option<Bytes>, m: Manifest) {
    && body.Some? && Parse(json, body.value) == Some(m)
    && Hex(h.sha256(json.encode(m))) == e.manifestSha256 && m.infoHash == e.infoHash && m.revision == revision
  }

  /** m is served by the first origin that serves anything pinned. */
  ghost predicate FirstPinned(h: Hashes, json: Json, e: Index.Entry, revision: Bytes, bodies: seq<Option<Bytes>>,
                              m: Manifest) {
    exists k :: 0 <= k < |bodies| && IsPinned(h, json, e, revision, bodies[k], m)
      && forall j, other :: 0 <= j < k ==> !IsPinned(h, json, e, revision, bodies[j], other)
  }

  lemma {:induction false} FirstServedExactly(h: Hashes, json: Json, e: Index.Entry, revision: Bytes,
                                              bodies: seq<Option<Bytes>>, m: Manifest)
    ensures FirstServed(h, json, e, revision, bodies) == Some(m) <==> FirstPinned(h, json, e, revision, bodies, m)
  {
    if bodies != [] {
      var rest := bodies[1..];
      FirstServedExactly(h, json, e, revision, rest, m);
      if Serves(h, json, e, revision, bodies[0]) {
        assert IsPinned(h, json, e, revision, bodies[0], Parse(json, bodies[0].value).value);
        if FirstServed(h, json, e, revision, bodies) == Some(m) {
          assert IsPinned(h, json, e, revision, bodies[0], m);
        }
      } else {
        assert forall other :: !IsPinned(h, json, e, revision, bodies[0], other);
        LaterPinned(h, json, e, revision, bodies, m);
      }
    }
  }

  lemma {:induction false} LaterPinned(h: Hashes, json: Json, e: Index.Entry, revision: Bytes,
                                       bodies: seq<Option<Bytes>>, m: Manifest)
    requires bodies != [] && forall other :: !IsPinned(h, json, e, revision, bodies[0], other)
    ensures FirstPinned(h, json, e, revision, bodies, m) <==> FirstPinned(h, json, e, revision, bodies[1..], m)
  {
    var rest := bodies[1..];
    if FirstPinned(h, json, e, revision, bodies, m) {
      var k :| 0 <= k < |bodies| && IsPinned(h, json, e, revision, bodies[k], m)
        && forall j, other :: 0 <= j < k ==> !IsPinned(h, json, e, revision, bodies[j], other);
      assert rest[k - 1] == bodies[k];
      assert forall j :: 0 <= j < k - 1 ==> rest[j] == bodies[j + 1];
    }
    if FirstPinned(h, json, e, revision, rest, m) {
      var k :| 0 <= k < |rest| && IsPinned(h, json, e, revision, rest[k], m)
        && forall j, other :: 0 <= j < k ==> !IsPinned(h, json, e, revision, rest[j], other);
      assert bodies[k + 1] == rest[k];
      assert forall j :: 0 < j < k + 1 ==> bodies[j] == rest[j - 1];
    }
  }

  /** The sidecar is a signature of m that verifies. */
  predicate SignedBy(json: Json, verify: (Bytes, Bytes, Bytes) -> bool, m: Manifest, sidecar: Sidecar) {
    sidecar.Sidecar? && verify(sidecar.publicKey, json.encode(m), sidecar.signature)
  }

  /** What the pull demands of a fetched manifest: with an allowlist the
      signature of a listed key; without one, no signature or a good one. */
  predicate SignedAsWanted(json: Json, verify: (Bytes, Bytes, Bytes) -> bool, allowed: seq<Bytes>, m: Manifest,
                           sidecar: Sidecar) {
    if allowed != [] then SignedBy(json, verify, m, sidecar) && sidecar.publicKey in allowed
    else sidecar.NoSidecar? || SignedBy(json, verify, m, sidecar)
  }

  /** The swarm pull has m to work with: an entry at the revision, and m either
      embedded in the record or served as pinned and signed as wanted. */
  ghost predicate Offers(h: Hashes, json: Json, verify: (Bytes, Bytes, Bytes) -> bool, allowed: seq<Bytes>,
                         revision: Bytes, swarm: Swarm, m: Manifest) {
    && swarm.entry.Some? && swarm.entry.value.revision == revision
    && if swarm.embedded != "" then Parse(json, swarm.embedded) == Some(m)
       else
         && FirstPinned(h, json, swarm.entry.value, revision, swarm.bodies, m)
         && SignedAsWanted(json, verify, allowed, m, swarm.sidecar)
  }

  lemma {:induction false} OfferedExactly(h: Hashes, json: Json, verify: (Bytes, Bytes, Bytes) -> bool,
                                          allowed: seq<Bytes>, revision: Bytes, swarm: Swarm, m: Manifest)
    ensures SwarmManifest(h, json, verify, allowed, revision, swarm) == Some(m)
       <==> Offers(h, json, verify, allowed, revision, swarm, m)
  {
    if swarm.entry.Some? && swarm.embedded == "" {
      FirstServedExactly(h, json, swarm.entry.value, revision, swarm.bodies, m);
    }
  }

  /** The transfer is complete and every listed file is intact in the model directory. */
  predicate Transferred(h: Hashes, s: State, id: Bytes, swarm: Swarm, m: Manifest) {
    swarm.complete && AllIntact(h, WithArrived(s, id, swarm), id, m)
  }

  /** The manifest's torrent can be rebuilt next to its pointer. */
  predicate Seedable(h: Hashes, json: Json, s: State, id: Bytes, m: Manifest) {
    Rebuilds(h, m, DirOf(s, id)[MODEL_MANIFEST := json.encode(m)])
  }

  /** A swarm pull with a manifest ends in publication exactly when its files
      were transferred, and in success exactly when moreover the id is valid,
      the torrent can be rebuilt and the writes that count succeed. */
  lemma {:induction false} SwarmEnds(h: Hashes, json: Json, verify: (Bytes, Bytes, Bytes) -> bool,
                                     allowed: seq<Bytes>, s: State, id: Bytes, revision: Bytes, swarm: Swarm,
                                     now: int, w: Writes, m: Manifest)
    requires Offers(h, json, verify, allowed, revision, swarm, m)
    ensures var (t, r) := SwarmOutcome(h, json, verify, allowed, s, id, revision, swarm, now, w);
      var got := WithArrived(s, id, swarm);
      && (Reached(r) <==> Transferred(h, s, id, swarm, m))
      && (r.Ok? <==> Transferred(h, s, id, swarm, m) && Ref.ValidModelId(id) && Seedable(h, json, got, id, m)
                     && w.failAt !in {1, 2, 3})
      && (!Reached(r) ==> r == Err(SwarmFailed) && t == got)
  {
    OfferedExactly(h, json, verify, allowed, revision, swarm, m);
    var got := WithArrived(s, id, swarm);
    VerifiedIsIntact(h, got, id, m);
    OfferedValid(h, json, verify, allowed, revision, swarm, m);
    PublishEnds(h, json, got, id, m, true, now, w);
  }

  lemma {:induction false} OfferedValid(h: Hashes, json: Json, verify: (Bytes, Bytes, Bytes) -> bool,
                                        allowed: seq<Bytes>, revision: Bytes, swarm: Swarm, m: Manifest)
    requires Offers(h, json, verify, allowed, revision, swarm, m)
    ensures Valid(m)
  {}

  /** Without a manifest it fails, and leaves the store as it was. */
  lemma {:induction false} NothingOffered(h: Hashes, json: Json, verify: (Bytes, Bytes, Bytes) -> bool,
                                          allowed: seq<Bytes>, s: State, id: Bytes, revision: Bytes, swarm: Swarm,
                                          now: int, w: Writes)
    requires forall m :: !Offers(h, json, verify, allowed, revision, swarm, m)
    ensures SwarmOutcome(h, json, verify, allowed, s, id, revision, swarm, now, w) == (s, Err(SwarmFailed))
  {
    var found := SwarmManifest(h, json, verify, allowed, revision, swarm);
    if found.Some? {
      OfferedExactly(h, json, verify, allowed, revision, swarm, found.value);
    }
  }

  /** So a fetched manifest is published only with the signature of a listed
      key, when keys are listed, and never with a bad one. */
  lemma {:induction false} PublishedIsSigned(h: Hashes, json: Json, verify: (Bytes, Bytes, Bytes) -> bool,
                                             allowed: seq<Bytes>, s: State, id: Bytes, revision: Bytes,
                                             swarm: Swarm, now: int, w: Writes)
    returns (m: Manifest)
    requires swarm.embedded == ""
    requires Reached(SwarmOutcome(h, json, verify, allowed, s, id, revision, swarm, now, w).1)
    ensures Offers(h, json, verify, allowed, revision, swarm, m) && Transferred(h, s, id, swarm, m)
    ensures allowed != [] ==>
      && swarm.sidecar.Sidecar? && swarm.sidecar.publicKey in allowed
      && verify(swarm.sidecar.publicKey, json.encode(m), swarm.sidecar.signature)
    ensures allowed == [] ==>
      || swarm.sidecar == NoSidecar
      || (swarm.sidecar.Sidecar? && verify(swarm.sidecar.publicKey, json.encode(m), swarm.sidecar.signature))
  {
    m := SwarmManifest(h, json, verify, allowed, revision, swarm).value;
    OfferedExactly(h, json, verify, allowed, revision, swarm, m);
    SwarmEnds(h, json, verify, allowed, s, id, revision, swarm, now, w, m);
  }

  /** And what a publisher created, some origin serves and a listed key signed
      is pulled whenever its files arrive, the id is valid and the writes
      that count succeed. */
  lemma {:induction false} SignedPullSucceeds(h: Hashes, json: Json, verify: (Bytes, Bytes, Bytes) -> bool,
                                              allowed: seq<Bytes>, s: State, id: Bytes, revision: Bytes,
                                              swarm: Swarm, now: int, w: Writes, m: Manifest, entries: seq<File>,
                                              d0: Dir)
    requires Offers(h, json, verify, allowed, revision, swarm, m) && Transferred(h, s, id, swarm, m)
    requires Ref.ValidModelId(id) && w.failAt !in {1, 2, 3}
    requires BuiltFrom(h, m, entries, d0) && forall i :: 0 <= i < |m.files| ==> m.files[i].path != MODEL_MANIFEST
    requires var d := DirOf(WithArrived(s, id, swarm), id)[MODEL_MANIFEST := json.encode(m)];
      && CollisionFree(h.sha256, Contents(m, d0) + Contents(m, d))
      && CollisionFree(h.sha1, Sha1Inputs(h, m, d0) + Sha1Inputs(h, m, d))
    ensures SwarmOutcome(h, json, verify, allowed, s, id, revision, swarm, now, w).1.Ok?
  {
    var got := WithArrived(s, id, swarm);
    VerifiedIsIntact(h, got, id, m);
    PointerUnlisted(h, m, DirOf(got, id), json.encode(m));
    ChecksAgree(h, m, entries, d0, DirOf(got, id)[MODEL_MANIFEST := json.encode(m)]);
    SwarmEnds(h, json, verify, allowed, s, id, revision, swarm, now, w, m);
  }

  // ---- A Hub that serves everything whole ----

  /** The server's first answer to the i-th request is all of this content, or
      what the part file lacks of it. */
  predicate ServesAll(s: State, id: Bytes, f: HubFile, content: Bytes, xs: seq<Download.Exchange>) {
    var part := SlotAt(s, id, f.path).PartBytes();
    && part <= content && xs != [] && Download.Clean(xs[0])
    && xs[0].body == if xs[0].status == 206 then content[|part|..] else content
  }

  /** content is what the Hub lists. */
  predicate AsListed(h: Hashes, f: HubFile, content: Bytes) {
    |content| == f.size && (f.oid == "" || Hex(h.sha256(content)) == f.oid)
  }

  predicate OnDisk(h: Hashes, s: State, id: Bytes, f: HubFile) {
    var content := ContentAt(s, InModel(id, f.path));
    content.Some? && AsListed(h, f, content.value)
  }

  lemma {:induction false} WholeFetched(h: Hashes, slot: Download.Slot, content: Bytes, xs: seq<Download.Exchange>,
                                        want: Bytes)
    requires slot.PartBytes() <= content && xs != [] && Download.Clean(xs[0])
    requires xs[0].body == if xs[0].status == 206 then content[|slot.PartBytes()|..] else content
    requires want == "" || want == FileDigest(h, content)
    ensures Download.Fetch(h, slot, xs, want).result.Ok?
    ensures Download.Fetch(h, slot, xs, want).slot == Download.Slot(None, Some(content))
  {
    Download.CleanFirst(h, content, slot, xs, want);
  }

  /** One file: it is there afterwards, and only its own two places changed. */
  lemma {:induction false} WholeFile(h: Hashes, s: State, id: Bytes, f: HubFile, content: Bytes,
                                     xs: seq<Download.Exchange>)
    requires Ref.ValidModelId(id) && ValidPath(f.path)
    requires AsListed(h, f, content) && ServesAll(s, id, f, content, xs)
    ensures var (t, err) := FetchFile(h, s, id, f, xs);
      && err.None? && OnDisk(h, t, id, f) && t.root == s.root
      && forall p :: p != f.path && p != f.path + PART ==> ContentAt(t, InModel(id, p)) == ContentAt(s, InModel(id, p))
  {
    ValidLandsInside(s.root, id, f.path);
    PartPlace(s.root, Land(Home(s.root, id), f.path));
    if !Kept(h, s, id, f) {
      WholeFetched(h, SlotAt(s, id, f.path), content, xs, f.oid);
      Landed(s, id, f.path, content);
    }
  }

  lemma {:induction false} Landed(s: State, id: Bytes, p: Bytes, content: Bytes)
    requires Landing(s.root, id, p) == InModel(id, p) && PartLanding(s.root, id, p) == InModel(id, p + PART)
    ensures var t := WithSlot(s, id, p, Download.Slot(None, Some(content)));
      && t.root == s.root && ContentAt(t, InModel(id, p)) == Some(content)
      && forall other :: other != p && other != p + PART ==>
           ContentAt(t, InModel(id, other)) == ContentAt(s, InModel(id, other))
  {
    SlotReadsBack(s, id, p, Download.Slot(None, Some(content)));
    OnlyItsPlaces(s, id, p, Download.Slot(None, Some(content)));
  }

  lemma {:induction false} OnlyItsPlaces(s: State, id: Bytes, p: Bytes, slot: Download.Slot)
    requires Landing(s.root, id, p) == InModel(id, p) && PartLanding(s.root, id, p) == InModel(id, p + PART)
    ensures forall other :: other != p && other != p + PART ==>
      ContentAt(WithSlot(s, id, p, slot), InModel(id, other)) == ContentAt(s, InModel(id, other))
  {
    forall other | other != p && other != p + PART
      ensures ContentAt(WithSlot(s, id, p, slot), InModel(id, other)) == ContentAt(s, InModel(id, other))
    {
      SetReadsBack(s, InModel(id, p + PART), slot.part, InModel(id, other));
      SetReadsBack(SetAt(s, InModel(id, p + PART), slot.part), InModel(id, p), slot.dst, InModel(id, other));
    }
  }

  /** The Hub's files are as listed, and served whole, given the part files found. */
  predicate ServesListing(h: Hashes, s: State, id: Bytes, files: seq<HubFile>, contents: seq<Bytes>,
                          downloads: Downloads) {
    && |contents| == |files|
    && forall i :: 0 <= i < |files| ==>
         AsListed(h, files[i], contents[i]) && ServesAll(s, id, files[i], contents[i], downloads(i))
  }

  predicate Ascending(files: seq<HubFile>) {
    forall i, j :: 0 <= i < j < |files| ==> Less(files[i].path, files[j].path)
  }

  /** Neither a later file nor its part file is at an earlier file's place. */
  lemma {:induction false} LaterElsewhere(a: Bytes, b: Bytes)
    requires Less(a, b)
    ensures a != b && a != b + PART && a + PART != b + PART
  {
    LessTotal(a, b);
    PartAfter(b);
    LessTransitive(a, b, b + PART);
    LessTotal(a, b + PART);
    if a + PART == b + PART {
      SameSuffix(a, b, PART);
    }
  }

  lemma SameSuffix(a: Bytes, b: Bytes, c: Bytes)
    requires a + c == b + c
    ensures a == b
  {
    assert |a| == |b| && (a + c)[..|a|] == a && (b + c)[..|b|] == b;
  }

  lemma {:induction false} PartAfter(b: Bytes)
    ensures Less(b, b + PART)
  {
    assert (b + PART)[..|b|] == b[..|b|];
    assert PartsAt(b, b + PART, |b|);
    LessExactly(b, b + PART);
  }

  /** What is found at the k-th file is what was found at the start, for this
      file and all later ones; those before are there. */
  predicate UpTo(h: Hashes, s: State, t: State, id: Bytes, files: seq<HubFile>, k: nat) {
    && k <= |files| && t.root == s.root
    && (forall i :: 0 <= i < k ==> OnDisk(h, t, id, files[i]))
    && (forall i :: k <= i < |files| ==>
          ContentAt(t, InModel(id, files[i].path + PART)) == ContentAt(s, InModel(id, files[i].path + PART)))
  }

  lemma {:induction false} OneFileOn(h: Hashes, s: State, t: State, id: Bytes, files: seq<HubFile>,
                                     contents: seq<Bytes>, downloads: Downloads, k: nat)
    requires Ref.ValidModelId(id) && AllPlain(files) && Ascending(files)
    requires ServesListing(h, s, id, files, contents, downloads) && k < |files| && UpTo(h, s, t, id, files, k)
    ensures var (u, err) := FetchFile(h, t, id, files[k], downloads(k));
      err.None? && UpTo(h, s, u, id, files, k + 1)
  {
    var f := files[k];
    assert AsListed(h, f, contents[k]) && ServesAll(s, id, f, contents[k], downloads(k));
    ValidLandsInside(s.root, id, f.path);
    PartPlace(s.root, Land(Home(s.root, id), f.path));
    WholeFile(h, t, id, f, contents[k], downloads(k));
    StillUpTo(h, s, t, FetchFile(h, t, id, f, downloads(k)).0, id, files, k);
  }

  /** A change of the k-th file's own places alone disturbs no other. */
  lemma {:induction false} StillUpTo(h: Hashes, s: State, t: State, u: State, id: Bytes, files: seq<HubFile>, k: nat)
    requires k < |files| && Ascending(files) && UpTo(h, s, t, id, files, k)
    requires u.root == t.root && OnDisk(h, u, id, files[k])
    requires forall p :: p != files[k].path && p != files[k].path + PART ==>
      ContentAt(u, InModel(id, p)) == ContentAt(t, InModel(id, p))
    ensures UpTo(h, s, u, id, files, k + 1)
  {
    forall i | 0 <= i < k
      ensures OnDisk(h, u, id, files[i])
    {
      LaterElsewhere(files[i].path, files[k].path);
      assert OnDisk(h, t, id, files[i]);
    }
    forall i | k < i < |files|
      ensures ContentAt(u, InModel(id, files[i].path + PART)) == ContentAt(s, InModel(id, files[i].path + PART))
    {
      LaterElsewhere(files[k].path, files[i].path);
    }
  }

  lemma {:induction false} AllFilesOn(h: Hashes, s: State, t: State, id: Bytes, files: seq<HubFile>,
                                      contents: seq<Bytes>, downloads: Downloads, k: nat)
    requires Ref.ValidModelId(id) && AllPlain(files) && Ascending(files)
    requires ServesListing(h, s, id, files, contents, downloads) && UpTo(h, s, t, id, files, k)
    ensures var (u, err) := FetchFrom(h, t, id, files, downloads, k);
      err.None? && UpTo(h, s, u, id, files, |files|)
    decreases |files| - k
  {
    if k < |files| {
      OneFileOn(h, s, t, id, files, contents, downloads, k);
      GoesOn(h, t, id, files, downloads, k);
      AllFilesOn(h, s, FetchFile(h, t, id, files[k], downloads(k)).0, id, files, contents, downloads, k + 1);
    }
  }

  /** A plain listing in order, without the pointer's name, served whole is
      pulled: whatever was there before but part files of something else, the
      files end up as listed and are published, when the id is valid and the
      writes that count succeed. */
  lemma {:induction false} WholeListingPulls(h: Hashes, s: State, id: Bytes, revision: Bytes, files: seq<HubFile>,
                                             contents: seq<Bytes>, downloads: Downloads, w: Writes,
                                             r: Result<PullResult, PullError>)
    requires Ref.ValidModelId(id) && revision != "" && files != []
    requires AllPlain(files) && Ascending(files) && NoPointerClash(files)
    requires ServesListing(h, s, id, files, contents, downloads) && w.failAt !in {1, 2, 3}
    requires HttpEnds(h, s, id, revision, files, downloads, w, r)
    ensures r.Ok?
    ensures forall i :: 0 <= i < |files| ==> OnDisk(h, Fetched(h, s, id, files, downloads), id, files[i])
  {
    AllFilesOn(h, s, s, id, files, contents, downloads, 0);
    var t := Fetched(h, s, id, files, downloads);
    forall i | 0 <= i < |files|
      ensures files[i].path in DirOf(t, id) && AsListed(h, files[i], DirOf(t, id)[files[i].path])
    {
      assert OnDisk(h, t, id, files[i]);
    }
    assert Ready(h, revision, files, DirOf(t, id));
  }

  /** So a pull from such a Hub alone succeeds, from the cache or afresh. */
  lemma {:induction false} HubPullSucceeds(h: Hashes, json: Json, verify: (Bytes, Bytes, Bytes) -> bool, s: State,
                                           ref: Ref.Ref, repo: Repo, opts: Options, swarm: Swarm,
                                           contents: seq<Bytes>, downloads: Downloads, now: int,
                                           swarmWrites: Writes, w: Writes, r: Result<PullResult, PullError>)
    requires Ref.Valid(ref) && ref.path == "" && opts.httpOnly && repo.revision != "" && repo.files != []
    requires AllPlain(repo.files) && Ascending(repo.files) && NoPointerClash(repo.files)
    requires ServesListing(h, s, Ref.Id(ref), repo.files, contents, downloads) && w.failAt !in {1, 2, 3}
    requires RunEnds(h, json, verify, s, ref, Some(repo), opts, swarm, downloads, now, swarmWrites, w, r)
    ensures r.Ok?
  {
    Ref.ModelIdOf(ref);
    if forall m :: !Reusable(h, json, s, Ref.Id(ref), repo.revision, m) {
      WholeListingPulls(h, s, Ref.Id(ref), repo.revision, repo.files, contents, downloads, w, r);
    }
  }
}

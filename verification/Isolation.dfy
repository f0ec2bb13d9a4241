/** When a pull leaves everything outside the directory of its model alone. */
module Isolation {
  import opened Text
  import opened Hashing
  import opened Manifest
  import opened Builder
  import opened Hub
  import opened Layout
  import opened Store
  import opened Pull
  import Download
  import Ref

  /** No file outside the directory of this model has changed. */
  ghost predicate SameOutside(s: State, t: State, id: Bytes) {
    t.root == s.root && forall place :: !Inside(place, id) ==> ContentAt(t, place) == ContentAt(s, place)
  }

  lemma SameAt<K, V>(a: map<K, V>, b: map<K, V>)
    requires forall k :: At(a, k) == At(b, k)
    ensures a == b
  {
    forall k
      ensures (k in a <==> k in b) && (k in a ==> a[k] == b[k])
    {
      assert At(a, k) == At(b, k);
    }
  }

  lemma OtherDirSame(s: State, t: State, id: Bytes, other: Bytes)
    requires SameOutside(s, t, id) && other != id
    ensures DirOf(t, other) == DirOf(s, other)
  {
    forall p
      ensures At(DirOf(t, other), p) == At(DirOf(s, other), p)
    {
      assert ContentAt(t, InModel(other, p)) == ContentAt(s, InModel(other, p));
    }
    SameAt(DirOf(t, other), DirOf(s, other));
  }

  lemma SamePinned(s: State, t: State, id: Bytes)
    requires SameOutside(s, t, id)
    ensures t.manifests == s.manifests && t.signatures == s.signatures && t.torrents == s.torrents
  {
    forall d
      ensures At(t.manifests, d) == At(s.manifests, d)
      ensures At(t.signatures, d) == At(s.signatures, d)
      ensures At(t.torrents, d) == At(s.torrents, d)
    {
      assert ContentAt(t, Copy(d)) == ContentAt(s, Copy(d));
      assert ContentAt(t, Signature(d)) == ContentAt(s, Signature(d));
      assert ContentAt(t, TorrentFile(d)) == ContentAt(s, TorrentFile(d));
    }
    SameAt(t.manifests, s.manifests);
    SameAt(t.signatures, s.signatures);
    SameAt(t.torrents, s.torrents);
  }

  /** So no other model's directory, manifest copy, signature, torrent, nor the index. */
  lemma OutsideMeans(s: State, t: State, id: Bytes)
    requires SameOutside(s, t, id)
    ensures forall other :: other != id ==> DirOf(t, other) == DirOf(s, other)
    ensures t.manifests == s.manifests && t.signatures == s.signatures && t.torrents == s.torrents
    ensures t.index == s.index && t.others == s.others
  {
    forall other | other != id
      ensures DirOf(t, other) == DirOf(s, other)
    {
      OtherDirSame(s, t, id, other);
    }
    SamePinned(s, t, id);
    assert ContentAt(t, IndexFile) == ContentAt(s, IndexFile);
    forall at
      ensures At(t.others, at) == At(s.others, at)
    {
      assert ContentAt(t, Other(at)) == ContentAt(s, Other(at));
    }
    SameAt(t.others, s.others);
  }

  lemma SetInside(s: State, t: State, id: Bytes, place: Place, content: Option<Bytes>)
    requires SameOutside(s, t, id) && Inside(place, id)
    ensures SameOutside(s, SetAt(t, place, content), id)
  {
    forall other | !Inside(other, id)
      ensures ContentAt(SetAt(t, place, content), other) == ContentAt(s, other)
    {
      SetReadsBack(t, place, content, other);
    }
  }

  // ---- Downloads ----

  /** The file lands in the model directory, or it is already where it lands. */
  predicate Confined(h: Hashes, s: State, id: Bytes, f: HubFile) {
    Inside(Landing(s.root, id, f.path), id) || Kept(h, s, id, f)
  }

  ghost predicate HasPreimage(h: Hashes, oid: Bytes) {
    exists c :: FileDigest(h, c) == oid
  }

  /** The Hub's digests are digests of something. */
  ghost predicate RealDigests(h: Hashes, files: seq<HubFile>) {
    forall i :: 0 <= i < |files| && files[i].oid != "" ==> HasPreimage(h, files[i].oid)
  }

  /** What is outside is kept or fetched the same as in the beginning. */
  lemma KeptOutside(h: Hashes, s: State, t: State, id: Bytes, f: HubFile)
    requires SameOutside(s, t, id) && !Inside(Landing(s.root, id, f.path), id)
    ensures Kept(h, t, id, f) <==> Kept(h, s, id, f)
  {}

  lemma ConfinedStep(h: Hashes, s: State, t: State, id: Bytes, f: HubFile, xs: seq<Download.Exchange>)
    requires SameOutside(s, t, id) && Confined(h, s, id, f)
    ensures SameOutside(s, FetchFile(h, t, id, f, xs).0, id)
  {
    if !Inside(Landing(s.root, id, f.path), id) {
      KeptOutside(h, s, t, id, f);
    } else if !Kept(h, t, id, f) {
      var slot := Download.Fetch(h, SlotAt(t, id, f.path), xs, f.oid).slot;
      var (place, part) := (Landing(s.root, id, f.path), PartLanding(s.root, id, f.path));
      PartPlace(s.root, Land(Home(s.root, id), f.path));
      SetInside(s, t, id, part, slot.part);
      SetInside(s, SetAt(t, part, slot.part), id, place, slot.dst);
    }
  }

  lemma {:induction false} ConfinedDownloads(h: Hashes, s: State, t: State, id: Bytes, files: seq<HubFile>,
                                             downloads: Downloads, k: nat)
    requires k <= |files| && SameOutside(s, t, id)
    requires forall i :: k <= i < |files| ==> Confined(h, s, id, files[i])
    ensures SameOutside(s, FetchFrom(h, t, id, files, downloads, k).0, id)
    decreases |files| - k
  {
    if k < |files| {
      ConfinedStep(h, s, t, id, files[k], downloads(k));
      var (after, why) := FetchFile(h, t, id, files[k], downloads(k));
      if why.None? {
        ConfinedDownloads(h, s, after, id, files, downloads, k + 1);
      }
    }
  }

  /** A body the published digest, if any, is the digest of. */
  ghost function FittingBody(h: Hashes, f: HubFile): (body: Bytes)
    ensures HasPreimage(h, f.oid) ==> FileDigest(h, body) == f.oid
  {
    if HasPreimage(h, f.oid) then var c :| FileDigest(h, c) == f.oid; c else ""
  }

  /** One complete answer. */
  function Complete(body: Bytes): seq<Download.Exchange> {
    [Download.Response(200, body, true, Download.NoFault)]
  }

  /** A whole body with the right digest is taken. */
  lemma CompleteSucceeds(h: Hashes, t: State, id: Bytes, f: HubFile, body: Bytes)
    requires f.oid != "" ==> FileDigest(h, body) == f.oid
    ensures FetchFile(h, t, id, f, Complete(body)).1.None?
  {
    var slot := SlotAt(t, id, f.path);
    assert slot.PartBytes()[..0] + body == body;
  }

  lemma GoesOn(h: Hashes, t: State, id: Bytes, files: seq<HubFile>, downloads: Downloads, k: nat)
    requires k < |files| && FetchFile(h, t, id, files[k], downloads(k)).1.None?
    ensures var after := FetchFile(h, t, id, files[k], downloads(k)).0;
      FetchFrom(h, t, id, files, downloads, k) == FetchFrom(h, after, id, files, downloads, k + 1)
  {}

  /** The first n files are confined. */
  predicate AllConfined(h: Hashes, s: State, id: Bytes, files: seq<HubFile>, n: nat)
    requires n <= |files|
  {
    forall j :: 0 <= j < n ==> Confined(h, s, id, files[j])
  }

  /** The first n files are sent whole and as published. */
  ghost predicate ServesWell(h: Hashes, files: seq<HubFile>, downloads: Downloads, n: nat)
    requires n <= |files|
  {
    forall j :: 0 <= j < n ==> downloads(j) == Complete(FittingBody(h, files[j]))
  }

  /** Whoever sends the first n files whole and as published gets the store to t. */
  ghost predicate Gets(h: Hashes, s: State, t: State, id: Bytes, files: seq<HubFile>, n: nat)
    requires n <= |files|
  {
    forall downloads: Downloads :: ServesWell(h, files, downloads, n) ==>
      FetchFrom(h, s, id, files, downloads, 0) == FetchFrom(h, t, id, files, downloads, n)
  }

  lemma GetsFurther(h: Hashes, s: State, t: State, id: Bytes, files: seq<HubFile>, n: nat)
    requires n < |files| && RealDigests(h, files) && Gets(h, s, t, id, files, n)
    ensures var f := files[n];
      Gets(h, s, FetchFile(h, t, id, f, Complete(FittingBody(h, f))).0, id, files, n + 1)
  {
    var f := files[n];
    CompleteSucceeds(h, t, id, f, FittingBody(h, f));
    forall downloads: Downloads | ServesWell(h, files, downloads, n + 1)
      ensures FetchFrom(h, s, id, files, downloads, 0)
           == FetchFrom(h, FetchFile(h, t, id, f, Complete(FittingBody(h, f))).0, id, files, downloads, n + 1)
    {
      assert ServesWell(h, files, downloads, n);
      GoesOn(h, t, id, files, downloads, n);
    }
  }

  lemma NextApart(h: Hashes, s: State, t: State, id: Bytes, files: seq<HubFile>, n: nat) returns (u: State)
    requires n < |files| && RealDigests(h, files) && Gets(h, s, t, id, files, n)
    requires SameOutside(s, t, id) && Confined(h, s, id, files[n])
    ensures Gets(h, s, u, id, files, n + 1) && SameOutside(s, u, id)
  {
    var xs := Complete(FittingBody(h, files[n]));
    u := FetchFile(h, t, id, files[n], xs).0;
    GetsFurther(h, s, t, id, files, n);
    ConfinedStep(h, s, t, id, files[n], xs);
  }

  lemma {:induction false} GetsApart(h: Hashes, s: State, id: Bytes, files: seq<HubFile>, n: nat) returns (t: State)
    requires n <= |files| && RealDigests(h, files) && AllConfined(h, s, id, files, n)
    ensures Gets(h, s, t, id, files, n) && SameOutside(s, t, id)
  {
    if n == 0 {
      t := s;
    } else {
      var u := GetsApart(h, s, id, files, n - 1);
      t := NextApart(h, s, u, id, files, n - 1);
    }
  }

  /** No file can be opened. */
  const CLOSED := [Download.Unreachable(Download.OpenFails)]

  /** The server that answers well until the n-th file, and then like this. */
  ghost function Until(h: Hashes, files: seq<HubFile>, n: nat, last: seq<Download.Exchange>): (downloads: Downloads)
    requires n < |files|
    ensures ServesWell(h, files, downloads, n) && downloads(n) == last
    ensures forall k :: k > n ==> downloads(k) == CLOSED
  {
    (k: nat) => if k < n then Complete(FittingBody(h, files[k])) else if k == n then last else CLOSED
  }

  /** Files that cannot be opened change no content. */
  lemma {:induction false} ClosedStays(h: Hashes, t: State, id: Bytes, files: seq<HubFile>, downloads: Downloads,
                                       k: nat, place: Place)
    requires k <= |files| && forall j :: j >= k ==> downloads(j) == CLOSED
    ensures ContentAt(FetchFrom(h, t, id, files, downloads, k).0, place) == ContentAt(t, place)
    decreases |files| - k
  {
    if k < |files| {
      if Kept(h, t, id, files[k]) {
        ClosedStays(h, t, id, files, downloads, k + 1, place);
      } else {
        SameSlot(t, id, files[k].path, place);
      }
    }
  }

  lemma SameSlot(t: State, id: Bytes, p: Bytes, place: Place)
    ensures ContentAt(WithSlot(t, id, p, SlotAt(t, id, p)), place) == ContentAt(t, place)
  {
    var (at, part, slot) := (Landing(t.root, id, p), PartLanding(t.root, id, p), SlotAt(t, id, p));
    SetReadsBack(t, part, slot.part, place);
    SetReadsBack(SetAt(t, part, slot.part), at, slot.dst, place);
  }

  /** An answer that is cut short leaves what arrived in the part file. */
  lemma CutShort(h: Hashes, t: State, id: Bytes, f: HubFile, body: Bytes)
    requires !Kept(h, t, id, f) && |SlotAt(t, id, f.path).PartBytes()| <= |body|
    ensures var (after, why) := FetchFile(h, t, id, f, [Download.Response(200, body, false, Download.NoFault)]);
      why.Some? && ContentAt(after, PartLanding(t.root, id, f.path)) == Some(body)
  {
    var slot := SlotAt(t, id, f.path);
    var xs := [Download.Response(200, body, false, Download.NoFault)];
    assert Download.WriteAt(slot.PartBytes(), 0, body) == body;
    SlotReadsBack(t, id, f.path, Download.Fetch(h, slot, xs, f.oid).slot);
  }

  /** The first file that is not confined has a part file outside, and some
      server gets something into it. */
  lemma Escapes(h: Hashes, s: State, id: Bytes, files: seq<HubFile>, i: nat) returns (downloads: Downloads)
    requires i < |files| && RealDigests(h, files) && !Confined(h, s, id, files[i])
    requires AllConfined(h, s, id, files, i)
    ensures !SameOutside(s, Fetched(h, s, id, files, downloads), id)
  {
    var part := PartLanding(s.root, id, files[i].path);
    var long := SlotAt(s, id, files[i].path).PartBytes() + "x";
    downloads := Until(h, files, i, [Download.Response(200, long, false, Download.NoFault)]);
    var u := GetsApart(h, s, id, files, i);
    assert Fetched(h, s, id, files, downloads) == FetchFrom(h, u, id, files, downloads, i).0;
    PartPlace(s.root, Land(Home(s.root, id), files[i].path));
    assert !Inside(part, id) && ContentAt(u, part) == ContentAt(s, part);
    KeptOutside(h, s, u, id, files[i]);
    CutShort(h, u, id, files[i], long);
    assert ContentAt(Fetched(h, s, id, files, downloads), part) == Some(long);
    assert |long| == |SlotAt(s, id, files[i].path).PartBytes()| + 1;
  }

  /** Whatever the servers answer, the downloads leave everything outside the
      model directory alone, exactly when every path stays inside or its file
      is already in place. */
  lemma DownloadsApartExactly(h: Hashes, s: State, id: Bytes, files: seq<HubFile>)
    requires RealDigests(h, files)
    ensures (forall downloads: Downloads :: SameOutside(s, Fetched(h, s, id, files, downloads), id))
       <==> AllConfined(h, s, id, files, |files|)
  {
    if AllConfined(h, s, id, files, |files|) {
      forall downloads: Downloads
        ensures SameOutside(s, Fetched(h, s, id, files, downloads), id)
      {
        ConfinedDownloads(h, s, s, id, files, downloads, 0);
      }
    } else {
      var i := FirstLoose(h, s, id, files, 0);
      var downloads := Escapes(h, s, id, files, i);
    }
  }

  lemma FirstLoose(h: Hashes, s: State, id: Bytes, files: seq<HubFile>, k: nat) returns (i: nat)
    requires k <= |files| && AllConfined(h, s, id, files, k) && !AllConfined(h, s, id, files, |files|)
    ensures i < |files| && !Confined(h, s, id, files[i]) && AllConfined(h, s, id, files, i)
    decreases |files| - k
  {
    i := k;
    if Confined(h, s, id, files[k]) {
      i := FirstLoose(h, s, id, files, k + 1);
    }
  }

  /** What a manifest accepts as paths stays inside. */
  lemma PlainConfined(h: Hashes, s: State, id: Bytes, files: seq<HubFile>)
    requires Ref.ValidModelId(id) && AllPlain(files)
    ensures AllConfined(h, s, id, files, |files|)
  {
    forall i | 0 <= i < |files|
      ensures Confined(h, s, id, files[i])
    {
      ValidLandsInside(s.root, id, files[i].path);
    }
  }

  // ---- Arrivals from the swarm ----

  /** What the arrivals leave at a place: the content of the last one there. */
  function Brought(root: Path, id: Bytes, name: Bytes, arrived: seq<Arrival>, place: Place): Option<Bytes>
    decreases |arrived|
  {
    if arrived == [] then None else
      var later := Brought(root, id, name, arrived[1..], place);
      if later.Some? then later
      else if ArrivalPlace(root, id, name, arrived[0].path) == place then Some(arrived[0].content) else None
  }

  lemma {:induction false} DeliveredAt(s: State, id: Bytes, name: Bytes, arrived: seq<Arrival>, place: Place)
    ensures Deliver(s, id, name, arrived).root == s.root
    ensures var brought := Brought(s.root, id, name, arrived, place);
      ContentAt(Deliver(s, id, name, arrived), place) == if brought.Some? then brought else ContentAt(s, place)
    decreases |arrived|
  {
    if arrived != [] {
      var first := ArrivalPlace(s.root, id, name, arrived[0].path);
      var t := SetAt(s, first, Some(arrived[0].content));
      DeliveredAt(t, id, name, arrived[1..], place);
      SetReadsBack(s, first, Some(arrived[0].content), place);
    }
  }

  /** Arriving files leave everything outside the model directory alone
      exactly when all they bring elsewhere was there before. */
  lemma {:induction false} ArrivalsApartExactly(s: State, id: Bytes, swarm: Swarm)
    ensures SameOutside(s, WithArrived(s, id, swarm), id)
       <==> forall place ::
              !Inside(place, id) && Brought(s.root, id, swarm.name, swarm.arrived, place).Some? ==>
                Brought(s.root, id, swarm.name, swarm.arrived, place) == ContentAt(s, place)
  {
    var t := WithArrived(s, id, swarm);
    DeliveredAt(s, id, swarm.name, swarm.arrived, IndexFile);
    forall place
      ensures var brought := Brought(s.root, id, swarm.name, swarm.arrived, place);
        ContentAt(t, place) == if brought.Some? then brought else ContentAt(s, place)
    {
      DeliveredAt(s, id, swarm.name, swarm.arrived, place);
    }
  }

  /** A torrent with plain names, of several files. */
  predicate PlainTorrent(swarm: Swarm) {
    && ValidSegment(swarm.name) && '/' !in swarm.name
    && forall i :: 0 <= i < |swarm.arrived| ==> ValidPath(swarm.arrived[i].path)
  }

  /** The model whose directory the torrent fills. */
  function Filled(id: Bytes, swarm: Swarm): Bytes {
    Cut(id, '/').0 + ['/'] + swarm.name
  }

  lemma {:induction false} PlainBrings(root: Path, id: Bytes, swarm: Swarm, place: Place)
    requires Cut(id, '/').2 && PlainTorrent(swarm)
    ensures Brought(root, id, swarm.name, swarm.arrived, place).Some? ==> Inside(place, Filled(id, swarm))
    ensures swarm.arrived != [] ==>
      Brought(root, id, swarm.name, swarm.arrived, InModel(Filled(id, swarm), swarm.arrived[0].path)).Some?
    decreases |swarm.arrived|
  {
    if swarm.arrived != [] {
      var rest := swarm.(arrived := swarm.arrived[1..]);
      NamedLandsInside(root, id, swarm.name, swarm.arrived[0].path);
      PlainBrings(root, id, rest, place);
    }
  }

  /** A plain torrent fills the directory of the model with its root name, so
      when it is not the repo's, nothing arrives in the model directory. */
  lemma PlainArrivals(s: State, id: Bytes, swarm: Swarm)
    requires Cut(id, '/').2 && PlainTorrent(swarm)
    ensures SameOutside(s, WithArrived(s, id, swarm), Filled(id, swarm))
    ensures Filled(id, swarm) == id <==> swarm.name == TorrentName(id)
    ensures swarm.name != TorrentName(id) ==> DirOf(WithArrived(s, id, swarm), id) == DirOf(s, id)
  {
    DeliveredAt(s, id, swarm.name, swarm.arrived, IndexFile);
    forall place | !Inside(place, Filled(id, swarm))
      ensures ContentAt(WithArrived(s, id, swarm), place) == ContentAt(s, place)
    {
      PlainBrings(s.root, id, swarm, place);
      DeliveredAt(s, id, swarm.name, swarm.arrived, place);
    }
    OutsideMeans(s, WithArrived(s, id, swarm), Filled(id, swarm));
    CutAppend(Cut(id, '/').0, '/', swarm.name);
  }

  // ---- A whole pull ----

  /** No other model's directory and no unknown file has changed. */
  ghost predicate Apart(s: State, t: State, id: Bytes) {
    && t.root == s.root && t.others == s.others
    && forall other :: other != id ==> DirOf(t, other) == DirOf(s, other)
  }

  lemma PublishApart(h: Hashes, json: Json, s: State, t: State, id: Bytes, m: Manifest, whole: bool, now: int,
                     w: Writes)
    requires Apart(s, t, id)
    ensures Apart(s, PublishOutcome(h, json, t, id, m, whole, now, w).0, id)
  {
    PublishStays(h, json, t, id, m, whole, now, w);
    var u := PublishOutcome(h, json, t, id, m, whole, now, w).0;
    forall other | other != id
      ensures DirOf(u, other) == DirOf(t, other)
    {
      assert other in u.dirs <==> other in u.dirs - {id};
      assert other in t.dirs <==> other in t.dirs - {id};
      assert other in u.dirs ==> (u.dirs - {id})[other] == u.dirs[other];
    }
  }

  /** A pull, whatever it tries and wherever it stops, touches no other
      model's directory when every path it may fetch stays inside and
      everything that arrives does. */
  lemma RunApart(h: Hashes, json: Json, verify: (Bytes, Bytes, Bytes) -> bool, s: State, ref: Ref.Ref, repo: Repo,
                 opts: Options, swarm: Swarm, downloads: Downloads, published: Option<Manifest>, now: int,
                 swarmWrites: Writes, hubWrites: Writes)
    requires var (id, files) := (Ref.Id(ref), Wanted(repo, ref.path));
      && (forall i :: 0 <= i < |files| ==> Inside(Landing(s.root, id, files[i].path), id))
      && (forall i :: 0 <= i < |swarm.arrived| ==>
            Inside(ArrivalPlace(s.root, id, swarm.name, swarm.arrived[i].path), id))
    ensures Apart(s, AfterRun(h, json, verify, s, ref, repo, opts, swarm, downloads, published, now, swarmWrites,
                              hubWrites), Ref.Id(ref))
  {
    var (id, files) := (Ref.Id(ref), Wanted(repo, ref.path));
    if TriesSwarm(ref, opts) {
      var t := SwarmOutcome(h, json, verify, opts.allowed, s, id, repo.revision, swarm, now, swarmWrites).0;
      SwarmApart(h, json, verify, opts.allowed, s, id, repo.revision, swarm, now, swarmWrites);
      HttpApart(h, json, s, t, id, files, downloads, published, ref.path == "", now, hubWrites);
    } else {
      HttpApart(h, json, s, s, id, files, downloads, published, ref.path == "", now, hubWrites);
    }
  }

  lemma SwarmApart(h: Hashes, json: Json, verify: (Bytes, Bytes, Bytes) -> bool, allowed: seq<Bytes>, s: State,
                   id: Bytes, revision: Bytes, swarm: Swarm, now: int, w: Writes)
    requires forall i :: 0 <= i < |swarm.arrived| ==>
      Inside(ArrivalPlace(s.root, id, swarm.name, swarm.arrived[i].path), id)
    ensures Apart(s, SwarmOutcome(h, json, verify, allowed, s, id, revision, swarm, now, w).0, id)
  {
    var m := SwarmManifest(h, json, verify, allowed, revision, swarm);
    if m.Some? {
      var got := WithArrived(s, id, swarm);
      InsideArrivals(s, s, id, swarm.name, swarm.arrived);
      OutsideMeans(s, got, id);
      PublishApart(h, json, s, got, id, m.value, true, now, w);
    }
  }

  lemma {:induction false} InsideArrivals(s: State, t: State, id: Bytes, name: Bytes, arrived: seq<Arrival>)
    requires SameOutside(s, t, id)
    requires forall i :: 0 <= i < |arrived| ==> Inside(ArrivalPlace(s.root, id, name, arrived[i].path), id)
    ensures SameOutside(s, Deliver(t, id, name, arrived), id)
    decreases |arrived|
  {
    if arrived != [] {
      var place := ArrivalPlace(s.root, id, name, arrived[0].path);
      SetInside(s, t, id, place, Some(arrived[0].content));
      InsideArrivals(s, SetAt(t, place, Some(arrived[0].content)), id, name, arrived[1..]);
    }
  }

  lemma HttpApart(h: Hashes, json: Json, s: State, t: State, id: Bytes, files: seq<HubFile>, downloads: Downloads,
                  published: Option<Manifest>, whole: bool, now: int, w: Writes)
    requires Apart(s, t, id)
    requires forall i :: 0 <= i < |files| ==> Inside(Landing(s.root, id, files[i].path), id)
    ensures Apart(s, AfterHttp(h, json, t, id, files, downloads, published, whole, now, w), id)
  {
    var fetched := Fetched(h, t, id, files, downloads);
    ConfinedDownloads(h, t, t, id, files, downloads, 0);
    OutsideMeans(t, fetched, id);
    if published.Some? {
      PublishApart(h, json, s, fetched, id, published.value, whole, now, w);
    }
  }
}

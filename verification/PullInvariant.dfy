/** What pulls do to the invariant of the store. */
module PullInvariant {
  import opened Text
  import opened Hashing
  import opened Manifest
  import opened Builder
  import opened Hub
  import opened Layout
  import opened Store
  import opened StoreInvariant
  import opened Pull
  import opened Isolation
  import Bencode
  import Download
  import Index
  import Ref

  // ---- One download ----

  /** What a download leaves where its path lands: the same as before, unless it succeeds. */
  lemma LandsOrStays(h: Hashes, s: State, id: Bytes, f: HubFile, xs: seq<Download.Exchange>)
    ensures var (after, why) := FetchFile(h, s, id, f, xs);
      var place := Landing(s.root, id, f.path);
      && (why.Some? ==> ContentAt(after, place) == ContentAt(s, place))
      && (why.None? ==> ContentAt(after, place).Some?)
  {
    FetchedSlot(h, s, id, f, xs);
    Download.DestinationOnlyOnSuccess(h, SlotAt(s, id, f.path), xs, f.oid);
  }

  /** Writing the part file and then the file. */
  lemma SlotExactly(h: Hashes, json: Json, s: State, id: Bytes, p: Bytes, slot: Download.Slot, inputs: set<Bytes>)
    requires CollisionFree(h.sha256, inputs) && Inv(h, json, s, inputs)
    requires slot.dst.Some? || slot.dst == ContentAt(s, Landing(s.root, id, p))
    ensures Inv(h, json, WithSlot(s, id, p, slot), inputs)
       <==> slot.dst == ContentAt(s, Landing(s.root, id, p))
            || Fits(h, json, s, Landing(s.root, id, p), slot.dst.value, inputs)
  {
    var (place, part) := (Landing(s.root, id, p), PartLanding(s.root, id, p));
    PartPlace(s.root, Land(Home(s.root, id), p));
    PartElsewhere(s.root, Land(Home(s.root, id), p));
    var t := SetAt(s, part, slot.part);
    QuietWrite(h, json, s, part, slot.part, inputs);
    SetReadsBack(s, part, slot.part, place);
    SameCopies(s, part, slot.part);
    if slot.dst == ContentAt(s, place) {
      SameWrite(h, json, t, place, inputs);
    } else {
      WriteExactly(h, json, t, place, slot.dst.value, inputs);
      SameFits(h, json, s, t, place, slot.dst.value, inputs);
    }
  }

  lemma SameCopies(s: State, place: Place, content: Option<Bytes>)
    requires !Telling(place)
    ensures SetAt(s, place, content).manifests == s.manifests
  {}

  lemma SameFits(h: Hashes, json: Json, s: State, t: State, place: Place, content: Bytes, inputs: set<Bytes>)
    requires t.manifests == s.manifests
    ensures Fits(h, json, t, place, content, inputs) <==> Fits(h, json, s, place, content, inputs)
  {}

  /** One download keeps the invariant exactly when it leaves what was there
      or a content that fits where its path lands. */
  lemma DownloadExactly(h: Hashes, json: Json, s: State, id: Bytes, f: HubFile, xs: seq<Download.Exchange>,
                        inputs: set<Bytes>)
    requires CollisionFree(h.sha256, inputs) && Inv(h, json, s, inputs)
    ensures var after := FetchFile(h, s, id, f, xs).0;
      var place := Landing(s.root, id, f.path);
      Inv(h, json, after, inputs) <==>
        || ContentAt(after, place) == ContentAt(s, place)
        || (ContentAt(after, place).Some? && Fits(h, json, s, place, ContentAt(after, place).value, inputs))
  {
    FetchedSlot(h, s, id, f, xs);
    if !Kept(h, s, id, f) {
      Download.DestinationOnlyOnSuccess(h, SlotAt(s, id, f.path), xs, f.oid);
      SlotExactly(h, json, s, id, f.path, Download.Fetch(h, SlotAt(s, id, f.path), xs, f.oid).slot, inputs);
    }
  }

  // ---- All downloads ----

  /** None of the first n files lands on a place the store relies on. */
  predicate NoTelling(root: Path, id: Bytes, files: seq<HubFile>, n: nat)
    requires n <= |files|
  {
    forall i :: 0 <= i < n ==> !Telling(Landing(root, id, files[i].path))
  }

  /** Paths a manifest accepts, and none of them the pointer's, land on no such place. */
  lemma PlainNoTelling(root: Path, id: Bytes, files: seq<HubFile>)
    requires Ref.ValidModelId(id) && AllPlain(files)
    ensures NoTelling(root, id, files, |files|) <==> NoPointerClash(files)
  {
    forall i | 0 <= i < |files|
      ensures Landing(root, id, files[i].path) == InModel(id, files[i].path)
    {
      ValidLandsInside(root, id, files[i].path);
    }
  }

  lemma QuietDownload(h: Hashes, json: Json, s: State, id: Bytes, f: HubFile, xs: seq<Download.Exchange>,
                      inputs: set<Bytes>)
    requires CollisionFree(h.sha256, inputs) && Inv(h, json, s, inputs)
    requires !Telling(Landing(s.root, id, f.path))
    ensures Inv(h, json, FetchFile(h, s, id, f, xs).0, inputs)
  {
    DownloadExactly(h, json, s, id, f, xs, inputs);
    LandsOrStays(h, s, id, f, xs);
  }

  lemma {:induction false} QuietDownloads(h: Hashes, json: Json, s: State, id: Bytes, files: seq<HubFile>,
                                          downloads: Downloads, k: nat, inputs: set<Bytes>)
    requires CollisionFree(h.sha256, inputs) && Inv(h, json, s, inputs)
    requires k <= |files| && NoTelling(s.root, id, files, |files|)
    ensures Inv(h, json, FetchFrom(h, s, id, files, downloads, k).0, inputs)
    decreases |files| - k
  {
    if k < |files| {
      QuietDownload(h, json, s, id, files[k], downloads(k), inputs);
      var (after, why) := FetchFile(h, s, id, files[k], downloads(k));
      SameRootFetched(h, s, id, files[k], downloads(k));
      if why.None? {
        QuietDownloads(h, json, after, id, files, downloads, k + 1, inputs);
      }
    }
  }

  lemma SameRootFetched(h: Hashes, s: State, id: Bytes, f: HubFile, xs: seq<Download.Exchange>)
    ensures FetchFile(h, s, id, f, xs).0.root == s.root
  {}

  // ---- Some content fits nowhere the store looks ----

  lemma {:induction false} LongerThanAll(texts: set<Bytes>) returns (c: Bytes)
    ensures c !in texts && forall x :: x in texts ==> |x| < |c|
    decreases |texts|
  {
    if texts == {} {
      c := "x";
    } else {
      var x :| x in texts;
      var d := LongerThanAll(texts - {x});
      c := if |x| < |d| then d else x + "x";
    }
  }

  lemma TorrentNotEmpty(h: Hashes, infoHash: Bytes)
    ensures !NamedTorrent(h, infoHash, "")
  {
    forall info
      ensures TorrentBytes(info) != ""
    {
      Bencode.PrintStarts(Bencode.Dict([Bencode.Entry("info", InfoValue(info))]));
    }
  }

  /** Two entries that cannot both lead to the one manifest they name. */
  lemma BadListing(json: Json, manifests: map<Bytes, Bytes>) returns (c: Bytes)
    requires json.Inverts()
    ensures !EntriesGood(json, manifests, json.decodeIndex(c))
  {
    var r := Ref.Ref("a", "b", "r", "");
    Ref.ModelIdOf(r);
    var digest := seq(64, _ => '0');
    var e0 := Index.Entry(Ref.Id(r), seq(40, _ => '0'), digest, "r", 0, 0);
    var e1 := e0.(infoHash := seq(40, _ => '1'));
    assert e0.infoHash[0] != e1.infoHash[0];
    assert !(EntryStored(json, manifests, e0.model, e0) && EntryStored(json, manifests, e0.model, e1));
    var e := if EntryStored(json, manifests, e0.model, e0) then e1 else e0;
    var entries := map[e.model := e];
    assert Index.ValidIndex(entries) && json.decodeIndex(json.encodeIndex(entries)) == Some(entries);
    c := json.encodeIndex(entries);
    var listing := json.decodeIndex(c);
    assert e.model in listing.value && listing.value[e.model] == e;
  }

  /** Wherever the store looks, some content does not fit. */
  lemma Misfit(h: Hashes, json: Json, s: State, place: Place, inputs: set<Bytes>) returns (c: Bytes)
    requires json.Inverts() && Telling(place)
    ensures !Fits(h, json, s, place, c, inputs)
  {
    match place
    case InModel(_, _) =>
      c := LongerThanAll(s.manifests.Values);
      assert forall d :: d in s.manifests ==> s.manifests[d] in s.manifests.Values;
    case Copy(_) => c := LongerThanAll(inputs);
    case TorrentFile(infoHash) =>
      TorrentNotEmpty(h, infoHash);
      c := "";
    case IndexFile => c := BadListing(json, s.manifests);
  }

  /** Starts over without the part file, then sends this. */
  function Afresh(body: Bytes): seq<Download.Exchange> {
    [Download.Response(416, "", true, Download.NoFault), Download.Response(200, body, true, Download.NoFault)]
  }

  lemma AfreshLands(h: Hashes, t: State, id: Bytes, f: HubFile, body: Bytes)
    requires f.oid == ""
    ensures ContentAt(FetchFile(h, t, id, f, Afresh(body)).0, Landing(t.root, id, f.path)) == Some(body)
  {
    var slot := SlotAt(t, id, f.path);
    var xs := Afresh(body);
    assert Download.WriteAt("", 0, body) == body;
    assert xs[1..] == [Download.Response(200, body, true, Download.NoFault)];
    FetchedSlot(h, t, id, f, xs);
  }

  lemma NextKeeping(h: Hashes, json: Json, s: State, t: State, id: Bytes, files: seq<HubFile>, n: nat,
                    inputs: set<Bytes>)
    returns (u: State)
    requires CollisionFree(h.sha256, inputs) && Inv(h, json, t, inputs)
    requires n < |files| && RealDigests(h, files) && Gets(h, s, t, id, files, n)
    requires !Telling(Landing(t.root, id, files[n].path))
    ensures Gets(h, s, u, id, files, n + 1) && u.root == t.root && Inv(h, json, u, inputs)
  {
    var xs := Complete(FittingBody(h, files[n]));
    u := FetchFile(h, t, id, files[n], xs).0;
    GetsFurther(h, s, t, id, files, n);
    QuietDownload(h, json, t, id, files[n], xs, inputs);
    SameRootFetched(h, t, id, files[n], xs);
  }

  lemma {:induction false} GetsKeeping(h: Hashes, json: Json, s: State, id: Bytes, files: seq<HubFile>, n: nat,
                                       inputs: set<Bytes>)
    returns (t: State)
    requires CollisionFree(h.sha256, inputs) && Inv(h, json, s, inputs)
    requires n <= |files| && RealDigests(h, files) && NoTelling(s.root, id, files, n)
    ensures Gets(h, s, t, id, files, n) && t.root == s.root && Inv(h, json, t, inputs)
  {
    if n == 0 {
      t := s;
    } else {
      var u := GetsKeeping(h, json, s, id, files, n - 1, inputs);
      t := NextKeeping(h, json, s, u, id, files, n - 1, inputs);
    }
  }

  /** A file without a published digest that lands where the store looks: some
      server breaks the store. */
  lemma Breaks(h: Hashes, json: Json, s: State, id: Bytes, files: seq<HubFile>, i: nat, inputs: set<Bytes>)
    returns (downloads: Downloads)
    requires json.Inverts() && CollisionFree(h.sha256, inputs) && Inv(h, json, s, inputs)
    requires i < |files| && RealDigests(h, files) && NoTelling(s.root, id, files, i)
    requires Telling(Landing(s.root, id, files[i].path)) && files[i].oid == ""
    ensures !Inv(h, json, Fetched(h, s, id, files, downloads), inputs)
  {
    var u := GetsKeeping(h, json, s, id, files, i, inputs);
    var place := Landing(s.root, id, files[i].path);
    var c := Misfit(h, json, u, place, inputs);
    if ContentAt(u, place) == Some(c) {
      SameWrite(h, json, u, place, inputs);
      WriteExactly(h, json, u, place, c, inputs);
    }
    downloads := Until(h, files, i, Afresh(c));
    assert Fetched(h, s, id, files, downloads) == FetchFrom(h, u, id, files, downloads, i).0;
    AfreshLands(h, u, id, files[i], c);
    DownloadExactly(h, json, u, id, files[i], Afresh(c), inputs);
    var broken := FetchFile(h, u, id, files[i], downloads(i)).0;
    LandsOrStays(h, u, id, files[i], Afresh(c));
    if FetchFile(h, u, id, files[i], downloads(i)).1.None? {
      GoesOn(h, u, id, files, downloads, i);
      ClosedKeeps(h, json, broken, id, files, downloads, i + 1, inputs);
    }
  }

  lemma {:induction false} ClosedKeeps(h: Hashes, json: Json, t: State, id: Bytes, files: seq<HubFile>,
                                       downloads: Downloads, k: nat, inputs: set<Bytes>)
    requires k <= |files| && forall j :: j >= k ==> downloads(j) == CLOSED
    ensures Inv(h, json, FetchFrom(h, t, id, files, downloads, k).0, inputs) <==> Inv(h, json, t, inputs)
  {
    var u := FetchFrom(h, t, id, files, downloads, k).0;
    forall place
      ensures ContentAt(u, place) == ContentAt(t, place)
    {
      ClosedStays(h, t, id, files, downloads, k, place);
    }
    SameEverywhere(h, json, t, u, inputs);
  }

  lemma SameEverywhere(h: Hashes, json: Json, s: State, t: State, inputs: set<Bytes>)
    requires forall place :: ContentAt(t, place) == ContentAt(s, place)
    ensures Inv(h, json, t, inputs) <==> Inv(h, json, s, inputs)
  {
    var like := t.(root := s.root);
    assert forall place :: ContentAt(like, place) == ContentAt(t, place);
    forall id
      ensures DirOf(t, id) == DirOf(s, id)
    {
      OtherDirSame(s, like, id + "x", id);
    }
    SamePinned(s, like, "");
    assert ContentAt(t, IndexFile) == ContentAt(s, IndexFile);
    if Inv(h, json, s, inputs) {
      SameInv(h, json, s, t, inputs);
    }
    if Inv(h, json, t, inputs) {
      SameInv(h, json, t, s, inputs);
    }
  }

  lemma SameInv(h: Hashes, json: Json, s: State, t: State, inputs: set<Bytes>)
    requires Inv(h, json, s, inputs)
    requires t.manifests == s.manifests && t.torrents == s.torrents && t.index == s.index
    requires forall id :: DirOf(t, id) == DirOf(s, id)
    ensures Inv(h, json, t, inputs)
  {
    forall id | MODEL_MANIFEST in DirOf(t, id)
      ensures PointerStored(h, json, t, id)
    {
      assert DirOf(t, id) == DirOf(s, id) && PointerStored(h, json, s, id);
    }
  }

  /** Whatever the servers answer, the downloads keep the store consistent
      exactly when no path lands where the store looks, if the files that do
      have no published digest; with one, what it is the digest of decides,
      as for any single download. */
  lemma ListingExactly(h: Hashes, json: Json, s: State, id: Bytes, files: seq<HubFile>, inputs: set<Bytes>)
    requires json.Inverts() && CollisionFree(h.sha256, inputs) && Inv(h, json, s, inputs)
    requires RealDigests(h, files)
    requires forall i :: 0 <= i < |files| && Telling(Landing(s.root, id, files[i].path)) ==> files[i].oid == ""
    ensures (forall downloads: Downloads :: Inv(h, json, Fetched(h, s, id, files, downloads), inputs))
       <==> NoTelling(s.root, id, files, |files|)
  {
    if NoTelling(s.root, id, files, |files|) {
      forall downloads: Downloads
        ensures Inv(h, json, Fetched(h, s, id, files, downloads), inputs)
      {
        QuietDownloads(h, json, s, id, files, downloads, 0, inputs);
      }
    } else {
      var i := FirstTelling(s.root, id, files, 0);
      var downloads := Breaks(h, json, s, id, files, i, inputs);
    }
  }

  lemma FirstTelling(root: Path, id: Bytes, files: seq<HubFile>, k: nat) returns (i: nat)
    requires k <= |files| && NoTelling(root, id, files, k) && !NoTelling(root, id, files, |files|)
    ensures i < |files| && Telling(Landing(root, id, files[i].path)) && NoTelling(root, id, files, i)
    decreases |files| - k
  {
    i := k;
    if !Telling(Landing(root, id, files[k].path)) {
      i := FirstTelling(root, id, files, k + 1);
    }
  }

  // ---- Files that may touch one model's pointer ----

  /** The store does not look there, or only for the pointer of this model. */
  predicate QuietElsewhere(place: Place, id: Bytes) {
    Telling(place) ==> place == InModel(id, MODEL_MANIFEST)
  }

  lemma WriteKeepsExcept(h: Hashes, json: Json, s: State, id: Bytes, place: Place, content: Option<Bytes>,
                         inputs: set<Bytes>)
    requires InvExcept(h, json, s, id, inputs) && QuietElsewhere(place, id)
    ensures InvExcept(h, json, SetAt(s, place, content), id, inputs)
  {
    var t := SetAt(s, place, content);
    forall other | other != id && MODEL_MANIFEST in DirOf(t, other)
      ensures PointerStored(h, json, t, other)
    {
      assert PointerStored(h, json, s, other);
      assert DirOf(t, other)[MODEL_MANIFEST] == DirOf(s, other)[MODEL_MANIFEST];
    }
    EntriesExtended(json, s, t);
  }

  lemma {:induction false} DownloadsKeepExcept(h: Hashes, json: Json, s: State, id: Bytes, files: seq<HubFile>,
                                               downloads: Downloads, k: nat, inputs: set<Bytes>)
    requires InvExcept(h, json, s, id, inputs) && k <= |files|
    requires forall i :: 0 <= i < |files| ==> QuietElsewhere(Landing(s.root, id, files[i].path), id)
    ensures InvExcept(h, json, FetchFrom(h, s, id, files, downloads, k).0, id, inputs)
    decreases |files| - k
  {
    if k < |files| {
      DownloadKeepsExcept(h, json, s, id, files[k], downloads(k), inputs);
      SameRootFetched(h, s, id, files[k], downloads(k));
      var (after, why) := FetchFile(h, s, id, files[k], downloads(k));
      if why.None? {
        DownloadsKeepExcept(h, json, after, id, files, downloads, k + 1, inputs);
      }
    }
  }

  lemma DownloadKeepsExcept(h: Hashes, json: Json, s: State, id: Bytes, f: HubFile, xs: seq<Download.Exchange>,
                            inputs: set<Bytes>)
    requires InvExcept(h, json, s, id, inputs) && QuietElsewhere(Landing(s.root, id, f.path), id)
    ensures InvExcept(h, json, FetchFile(h, s, id, f, xs).0, id, inputs)
  {
    if !Kept(h, s, id, f) {
      var (place, part) := (Landing(s.root, id, f.path), PartLanding(s.root, id, f.path));
      var slot := Download.Fetch(h, SlotAt(s, id, f.path), xs, f.oid).slot;
      PartPlace(s.root, Land(Home(s.root, id), f.path));
      WriteKeepsExcept(h, json, s, id, part, slot.part, inputs);
      WriteKeepsExcept(h, json, SetAt(s, part, slot.part), id, place, slot.dst, inputs);
    }
  }

  // ---- A pull over HTTP ----

  /** A pull over HTTP whose files land on no other place the store looks,
      as they do once it comes to publishing, keeps the invariant exactly
      when it gets to write the pointer or what the downloads left there is in
      order. */
  lemma HttpExactly(h: Hashes, json: Json, s: State, id: Bytes, files: seq<HubFile>, downloads: Downloads,
                    published: Option<Manifest>, whole: bool, now: int, w: Writes, inputs: set<Bytes>)
    requires json.Inverts() && CollisionFree(h.sha256, inputs) && Inv(h, json, s, inputs)
    requires published.Some? ==>
      Valid(published.value) && published.value.model == id && json.encode(published.value) in inputs
    requires forall i :: 0 <= i < |files| ==> QuietElsewhere(Landing(s.root, id, files[i].path), id)
    ensures var fetched := Fetched(h, s, id, files, downloads);
      var left := if published.Some? then SaveOutcome(h, json, fetched, id, published.value, w).0 else fetched;
      Inv(h, json, AfterHttp(h, json, s, id, files, downloads, published, whole, now, w), inputs)
      <==> (published.Some? && PointerWritten(id, w)) || PointerOk(h, json, left, id)
  {
    var fetched := Fetched(h, s, id, files, downloads);
    InvParts(h, json, s, id, inputs);
    DownloadsKeepExcept(h, json, s, id, files, downloads, 0, inputs);
    if published.Some? {
      PublishExactly(h, json, fetched, id, published.value, whole, now, w, inputs);
    } else {
      InvParts(h, json, fetched, id, inputs);
    }
  }

  /** It does in any case when no file lands where the store looks. */
  lemma HttpKeeps(h: Hashes, json: Json, s: State, id: Bytes, files: seq<HubFile>, downloads: Downloads,
                  published: Option<Manifest>, whole: bool, now: int, w: Writes, inputs: set<Bytes>)
    requires json.Inverts() && CollisionFree(h.sha256, inputs) && Inv(h, json, s, inputs)
    requires published.Some? ==>
      Valid(published.value) && published.value.model == id && json.encode(published.value) in inputs
    requires NoTelling(s.root, id, files, |files|)
    ensures Inv(h, json, AfterHttp(h, json, s, id, files, downloads, published, whole, now, w), inputs)
  {
    var fetched := Fetched(h, s, id, files, downloads);
    QuietDownloads(h, json, s, id, files, downloads, 0, inputs);
    if published.Some? {
      InvParts(h, json, fetched, id, inputs);
      PublishExactly(h, json, fetched, id, published.value, whole, now, w, inputs);
      if !PointerWritten(id, w) {
        SavedPointer(h, json, fetched, id, published.value, w, inputs);
      }
    }
  }

  /** A pointer that is not overwritten stays as good as it was. */
  lemma SavedPointer(h: Hashes, json: Json, s: State, id: Bytes, m: Manifest, w: Writes, inputs: set<Bytes>)
    requires CollisionFree(h.sha256, inputs) && InvExcept(h, json, s, id, inputs) && json.encode(m) in inputs
    requires PointerOk(h, json, s, id) && !PointerWritten(id, w)
    ensures PointerOk(h, json, SaveOutcome(h, json, s, id, m, w).0, id)
  {
    CopyKeepsExcept(h, json, s, id, m, inputs);
  }

  /** The listings that come to publishing are such. */
  lemma PlainQuiet(root: Path, id: Bytes, files: seq<HubFile>)
    requires Ref.ValidModelId(id) && AllPlain(files)
    ensures forall i :: 0 <= i < |files| ==> QuietElsewhere(Landing(root, id, files[i].path), id)
  {
    forall i | 0 <= i < |files|
      ensures QuietElsewhere(Landing(root, id, files[i].path), id)
    {
      ValidLandsInside(root, id, files[i].path);
    }
  }

  // ---- From the swarm ----

  /** Every arrival fits where it lands, in the store it finds. */
  ghost predicate AllFit(h: Hashes, json: Json, s: State, id: Bytes, name: Bytes, arrived: seq<Arrival>,
                         inputs: set<Bytes>)
    decreases |arrived|
  {
    arrived == [] ||
      var place := ArrivalPlace(s.root, id, name, arrived[0].path);
      && Fits(h, json, s, place, arrived[0].content, inputs)
      && AllFit(h, json, SetAt(s, place, Some(arrived[0].content)), id, name, arrived[1..], inputs)
  }

  /** The store is consistent after each arrival. */
  ghost predicate ConsistentThroughout(h: Hashes, json: Json, s: State, id: Bytes, name: Bytes,
                                       arrived: seq<Arrival>, inputs: set<Bytes>)
    decreases |arrived|
  {
    Inv(h, json, s, inputs) && (arrived == [] ||
      var place := ArrivalPlace(s.root, id, name, arrived[0].path);
      ConsistentThroughout(h, json, SetAt(s, place, Some(arrived[0].content)), id, name, arrived[1..], inputs))
  }

  /** Arriving files keep the store consistent throughout exactly when each fits where it lands. */
  lemma {:induction false} ArrivalsExactly(h: Hashes, json: Json, s: State, id: Bytes, name: Bytes,
                                           arrived: seq<Arrival>, inputs: set<Bytes>)
    requires CollisionFree(h.sha256, inputs) && Inv(h, json, s, inputs)
    ensures ConsistentThroughout(h, json, s, id, name, arrived, inputs)
       <==> AllFit(h, json, s, id, name, arrived, inputs)
    decreases |arrived|
  {
    if arrived != [] {
      var place := ArrivalPlace(s.root, id, name, arrived[0].path);
      WriteExactly(h, json, s, place, arrived[0].content, inputs);
      if Fits(h, json, s, place, arrived[0].content, inputs) {
        ArrivalsExactly(h, json, SetAt(s, place, Some(arrived[0].content)), id, name, arrived[1..], inputs);
      }
    }
  }

  /** No file arrives where the store looks, but for the pointer of the pulled model. */
  predicate QuietArrivals(root: Path, id: Bytes, swarm: Swarm) {
    forall i :: 0 <= i < |swarm.arrived| ==>
      QuietElsewhere(ArrivalPlace(root, id, swarm.name, swarm.arrived[i].path), id)
  }

  predicate NoTellingArrivals(root: Path, id: Bytes, swarm: Swarm) {
    forall i :: 0 <= i < |swarm.arrived| ==>
      !Telling(ArrivalPlace(root, id, swarm.name, swarm.arrived[i].path))
  }

  lemma {:induction false} ArrivalsKeepExcept(h: Hashes, json: Json, s: State, id: Bytes, swarm: Swarm,
                                              inputs: set<Bytes>)
    requires InvExcept(h, json, s, id, inputs) && QuietArrivals(s.root, id, swarm)
    ensures InvExcept(h, json, WithArrived(s, id, swarm), id, inputs)
    decreases |swarm.arrived|
  {
    if swarm.arrived != [] {
      var place := ArrivalPlace(s.root, id, swarm.name, swarm.arrived[0].path);
      var content := Some(swarm.arrived[0].content);
      WriteKeepsExcept(h, json, s, id, place, content, inputs);
      ArrivalsKeepExcept(h, json, SetAt(s, place, content), id, swarm.(arrived := swarm.arrived[1..]), inputs);
    }
  }

  lemma {:induction false} ArrivalsKeep(h: Hashes, json: Json, s: State, id: Bytes, swarm: Swarm, inputs: set<Bytes>)
    requires Inv(h, json, s, inputs) && NoTellingArrivals(s.root, id, swarm)
    ensures Inv(h, json, WithArrived(s, id, swarm), inputs) && WithArrived(s, id, swarm).root == s.root
    decreases |swarm.arrived|
  {
    if swarm.arrived != [] {
      var place := ArrivalPlace(s.root, id, swarm.name, swarm.arrived[0].path);
      var content := Some(swarm.arrived[0].content);
      QuietWrite(h, json, s, place, content, inputs);
      ArrivalsKeep(h, json, SetAt(s, place, content), id, swarm.(arrived := swarm.arrived[1..]), inputs);
    }
  }

  /** The pointer, if a swarm pull leaves one it did not write, leads to a stored copy. */
  predicate LeftPointerOk(h: Hashes, json: Json, s: State, id: Bytes, swarm: Swarm, m: Manifest, w: Writes) {
    var got := WithArrived(s, id, swarm);
    PointerOk(h, json, if Arrives(h, s, id, swarm, m) then SaveOutcome(h, json, got, id, m, w).0 else got, id)
  }

  /** A pull from the swarm whose files arrive on no other place the store
      looks keeps the invariant in exactly these cases: there is no manifest;
      it writes the pointer and the manifest is of the pulled model; or it
      does not, and the pointer it leaves is in order. */
  lemma SwarmExactly(h: Hashes, json: Json, verify: (Bytes, Bytes, Bytes) -> bool, allowed: seq<Bytes>, s: State,
                     id: Bytes, revision: Bytes, swarm: Swarm, now: int, w: Writes, inputs: set<Bytes>)
    requires json.Inverts() && CollisionFree(h.sha256, inputs) && Inv(h, json, s, inputs)
    requires var m := SwarmManifest(h, json, verify, allowed, revision, swarm);
      m.Some? ==> json.encode(m.value) in inputs
    requires QuietArrivals(s.root, id, swarm)
    ensures var m := SwarmManifest(h, json, verify, allowed, revision, swarm);
      Inv(h, json, SwarmOutcome(h, json, verify, allowed, s, id, revision, swarm, now, w).0, inputs)
      <==> (m.Some? ==>
              if Arrives(h, s, id, swarm, m.value) && PointerWritten(id, w) then m.value.model == id
              else LeftPointerOk(h, json, s, id, swarm, m.value, w))
  {
    var m := SwarmManifest(h, json, verify, allowed, revision, swarm);
    if m.Some? {
      var got := WithArrived(s, id, swarm);
      InvParts(h, json, s, id, inputs);
      ArrivalsKeepExcept(h, json, s, id, swarm, inputs);
      SwarmManifestValid(h, json, verify, allowed, revision, swarm);
      if Arrives(h, s, id, swarm, m.value) {
        PublishExactly(h, json, got, id, m.value, true, now, w, inputs);
      } else {
        InvParts(h, json, got, id, inputs);
      }
    }
  }

  lemma SwarmManifestValid(h: Hashes, json: Json, verify: (Bytes, Bytes, Bytes) -> bool, allowed: seq<Bytes>,
                           revision: Bytes, swarm: Swarm)
    ensures var m := SwarmManifest(h, json, verify, allowed, revision, swarm); m.Some? ==> Valid(m.value)
  {
    if swarm.entry.Some? {
      ServedIsPinned(h, json, swarm.entry.value, revision, swarm.bodies);
    }
  }

  /** When no file arrives where the store looks, only a manifest of another
      model breaks the invariant: exactly when its pointer is written. */
  lemma OrdinarySwarmExactly(h: Hashes, json: Json, verify: (Bytes, Bytes, Bytes) -> bool, allowed: seq<Bytes>,
                             s: State, id: Bytes, revision: Bytes, swarm: Swarm, now: int, w: Writes,
                             inputs: set<Bytes>)
    requires json.Inverts() && CollisionFree(h.sha256, inputs) && Inv(h, json, s, inputs)
    requires var m := SwarmManifest(h, json, verify, allowed, revision, swarm);
      m.Some? ==> json.encode(m.value) in inputs
    requires NoTellingArrivals(s.root, id, swarm)
    ensures var m := SwarmManifest(h, json, verify, allowed, revision, swarm);
      Inv(h, json, SwarmOutcome(h, json, verify, allowed, s, id, revision, swarm, now, w).0, inputs)
      <==> (m.Some? && Arrives(h, s, id, swarm, m.value) && PointerWritten(id, w) ==> m.value.model == id)
  {
    SwarmExactly(h, json, verify, allowed, s, id, revision, swarm, now, w, inputs);
    var m := SwarmManifest(h, json, verify, allowed, revision, swarm);
    if m.Some? {
      var got := WithArrived(s, id, swarm);
      ArrivalsKeep(h, json, s, id, swarm, inputs);
      InvParts(h, json, got, id, inputs);
      if !PointerWritten(id, w) {
        SavedPointer(h, json, got, id, m.value, w, inputs);
      }
    }
  }

  /** For a torrent with plain names it is enough that it carries no pointer, under whatever root name. */
  lemma PlainNoTellingArrivals(root: Path, id: Bytes, swarm: Swarm)
    requires Cut(id, '/').2 && PlainTorrent(swarm)
    ensures NoTellingArrivals(root, id, swarm)
       <==> forall i :: 0 <= i < |swarm.arrived| ==> swarm.arrived[i].path != MODEL_MANIFEST
  {
    forall i | 0 <= i < |swarm.arrived|
      ensures ArrivalPlace(root, id, swarm.name, swarm.arrived[i].path)
           == InModel(Filled(id, swarm), swarm.arrived[i].path)
    {
      NamedLandsInside(root, id, swarm.name, swarm.arrived[i].path);
    }
  }

  // ---- A whole pull ----

  /** A pull, whatever it tries and wherever it stops, keeps the invariant
      when neither the repo nor the swarm has a file that lands where the
      store looks and the swarm's manifest, if any, is of the pulled model. */
  lemma RunKeeps(h: Hashes, json: Json, verify: (Bytes, Bytes, Bytes) -> bool, s: State, ref: Ref.Ref, repo: Repo,
                 opts: Options, swarm: Swarm, downloads: Downloads, published: Option<Manifest>, now: int,
                 swarmWrites: Writes, hubWrites: Writes, inputs: set<Bytes>)
    requires json.Inverts() && CollisionFree(h.sha256, inputs) && Inv(h, json, s, inputs)
    requires published.Some? ==>
      Valid(published.value) && published.value.model == Ref.Id(ref) && json.encode(published.value) in inputs
    requires NoTelling(s.root, Ref.Id(ref), Wanted(repo, ref.path), |Wanted(repo, ref.path)|)
    requires NoTellingArrivals(s.root, Ref.Id(ref), swarm)
    requires var m := SwarmManifest(h, json, verify, opts.allowed, repo.revision, swarm);
      m.Some? ==> m.value.model == Ref.Id(ref) && json.encode(m.value) in inputs
    ensures var t := AfterRun(h, json, verify, s, ref, repo, opts, swarm, downloads, published, now, swarmWrites,
                              hubWrites);
      Inv(h, json, t, inputs)
  {
    var (id, files) := (Ref.Id(ref), Wanted(repo, ref.path));
    if TriesSwarm(ref, opts) {
      OrdinarySwarmExactly(h, json, verify, opts.allowed, s, id, repo.revision, swarm, now, swarmWrites, inputs);
      var t := SwarmOutcome(h, json, verify, opts.allowed, s, id, repo.revision, swarm, now, swarmWrites).0;
      SameRootSwarm(h, json, verify, opts.allowed, s, id, repo.revision, swarm, now, swarmWrites);
      HttpKeeps(h, json, t, id, files, downloads, published, ref.path == "", now, hubWrites, inputs);
    } else {
      HttpKeeps(h, json, s, id, files, downloads, published, ref.path == "", now, hubWrites, inputs);
    }
  }

  lemma SameRootSwarm(h: Hashes, json: Json, verify: (Bytes, Bytes, Bytes) -> bool, allowed: seq<Bytes>, s: State,
                      id: Bytes, revision: Bytes, swarm: Swarm, now: int, w: Writes)
    ensures SwarmOutcome(h, json, verify, allowed, s, id, revision, swarm, now, w).0.root == s.root
  {
    var m := SwarmManifest(h, json, verify, allowed, revision, swarm);
    DeliveredAt(s, id, swarm.name, swarm.arrived, IndexFile);
    if m.Some? {
      PublishStays(h, json, WithArrived(s, id, swarm), id, m.value, true, now, w);
    }
  }
}

/** The model store: published manifests, model directories with their
    pointers, torrents and the local index, under publication and removal. */
module Store {
  import opened Text
  import opened Hashing
  import opened Manifest
  import opened Builder
  import opened Layout
  import Index
  import Ref

  /** The files the store knows, below its root: model directories by model id,
      manifest copies and their signatures by digest, torrents by infohash, the
      index document; and all other files by path. */
  datatype State = State(
    root: Path,
    dirs: map<Bytes, Dir>,
    manifests: map<Bytes, Bytes>,
    signatures: map<Bytes, Bytes>,
    torrents: map<Bytes, Bytes>,
    index: Option<Bytes>,
    others: map<Path, Bytes>)

  function EmptyStore(root: Path): State {
    State(root, map[], map[], map[], map[], None, map[])
  }

  function DirOf(s: State, id: Bytes): Dir {
    if id in s.dirs then s.dirs[id] else map[]
  }

  /** The manifest a model directory points at, when it is readable. */
  function Pointed(json: Json, s: State, id: Bytes): Option<Manifest> {
    if MODEL_MANIFEST in DirOf(s, id) then Parse(json, DirOf(s, id)[MODEL_MANIFEST]) else None
  }

  // ---- One file ----

  function At<K, V>(files: map<K, V>, key: K): Option<V> {
    if key in files then Some(files[key]) else None
  }

  function Put<K, V>(files: map<K, V>, key: K, content: Option<V>): map<K, V> {
    if content.Some? then files[key := content.value] else files - {key}
  }

  function ContentAt(s: State, place: Place): Option<Bytes> {
    match place
    case InModel(id, path) => At(DirOf(s, id), path)
    case Copy(digest) => At(s.manifests, digest)
    case Signature(digest) => At(s.signatures, digest)
    case TorrentFile(infoHash) => At(s.torrents, infoHash)
    case IndexFile => s.index
    case Other(at) => At(s.others, at)
  }

  function SetAt(s: State, place: Place, content: Option<Bytes>): (t: State)
    ensures t.root == s.root
  {
    match place
    case InModel(id, path) => s.(dirs := s.dirs[id := Put(DirOf(s, id), path, content)])
    case Copy(digest) => s.(manifests := Put(s.manifests, digest, content))
    case Signature(digest) => s.(signatures := Put(s.signatures, digest, content))
    case TorrentFile(infoHash) => s.(torrents := Put(s.torrents, infoHash, content))
    case IndexFile => s.(index := content)
    case Other(at) => s.(others := Put(s.others, at, content))
  }

  /** One file is written, and no other. */
  lemma SetReadsBack(s: State, place: Place, content: Option<Bytes>, other: Place)
    ensures ContentAt(SetAt(s, place, content), other) == if other == place then content else ContentAt(s, other)
  {}

  // ---- Publication ----

  datatype PublishError = WriteFailed | InvalidModel | NotRebuilt | InvalidInfoHash

  /** What becomes of the writes of a publication: which of them fails, in
      their order (0 when none does), and the signature written next to the
      copy, if there is a publisher key and it can be. */
  datatype Writes = Writes(failAt: nat, signature: Option<Bytes>)

  const NO_FAILURE := Writes(0, None)

  datatype Published = Published(files: nat, size: int, infoHash: Bytes, manifestSha256: Bytes)

  function WithCopy(h: Hashes, json: Json, s: State, m: Manifest): State {
    s.(manifests := s.manifests[Digest(h, json, m) := json.encode(m)])
  }

  function WithPointer(json: Json, s: State, id: Bytes, m: Manifest): State {
    s.(dirs := s.dirs[id := DirOf(s, id)[MODEL_MANIFEST := json.encode(m)]])
  }

  function IndexEntry(id: Bytes, m: Manifest, msha: Bytes, size: int, now: int): Index.Entry {
    Index.Entry(id, m.infoHash, msha, m.revision, size, now)
  }

  /** The index document, when there is a readable one. */
  function Listing(json: Json, index: Option<Bytes>): Option<Index.Entries> {
    if index.Some? then json.decodeIndex(index.value) else None
  }

  function EntriesOf(json: Json, index: Option<Bytes>): (entries: Index.Entries)
    ensures Index.ValidIndex(entries)
  {
    var doc := Listing(json, index);
    if doc.Some? then Index.Parsed(doc.value) else map[]
  }

  /** The index with an entry added to what can be read of it; a refused entry changes nothing. */
  function IndexWith(json: Json, index: Option<Bytes>, e: Index.Entry): Option<Bytes> {
    var (added, err) := Index.AddOutcome(EntriesOf(json, index), e);
    if err.Some? then index else Some(json.encodeIndex(added))
  }

  function WithEntry(json: Json, s: State, e: Index.Entry): State {
    s.(index := IndexWith(json, s.index, e))
  }

  /** The signature next to the copy, when there is one to write. */
  function WithSignature(h: Hashes, json: Json, s: State, m: Manifest, signature: Option<Bytes>): State {
    if signature.Some? then s.(signatures := s.signatures[Digest(h, json, m) := signature.value]) else s
  }

  /** The copy, the pointer and the signature, in this order. */
  function SaveOutcome(h: Hashes, json: Json, s: State, id: Bytes, m: Manifest, w: Writes)
    : (State, Option<PublishError>)
  {
    if w.failAt == 1 then (s, Some(WriteFailed)) else
      var copied := WithCopy(h, json, s, m);
      if !Ref.ValidModelId(id) then (copied, Some(InvalidModel))
      else if w.failAt == 2 then (copied, Some(WriteFailed))
      else (WithSignature(h, json, WithPointer(json, copied, id, m), m, w.signature), None)
  }

  /** The torrent, rebuilt from the model directory. */
  function SeedOutcome(h: Hashes, s: State, id: Bytes, m: Manifest, w: Writes): (State, Option<PublishError>) {
    var torrent := Torrent(h, m, DirOf(s, id));
    if torrent.None? then (s, Some(NotRebuilt))
    else if !IsHex(m.infoHash, 40) then (s, Some(InvalidInfoHash))
    else if w.failAt == 3 then (s, Some(WriteFailed))
    else (s.(torrents := s.torrents[m.infoHash := torrent.value]), None)
  }

  /** The index entry of a whole repo; when it cannot be written the publication stands. */
  function CompleteOutcome(h: Hashes, json: Json, s: State, id: Bytes, m: Manifest, whole: bool, now: int,
                           w: Writes)
    : (State, Result<Published, PublishError>)
  {
    var (msha, size) := (Digest(h, json, m), TotalSize(m.files));
    (if whole && w.failAt != 4 then WithEntry(json, s, IndexEntry(id, m, msha, size, now)) else s,
     Ok(Published(|m.files|, size, m.infoHash, msha)))
  }

  /** Publication: the copy, the pointer, the signature, the torrent, then for
      whole repos the index entry, each only after the previous one is written. */
  function PublishOutcome(h: Hashes, json: Json, s: State, id: Bytes, m: Manifest, whole: bool, now: int,
                          w: Writes)
    : (State, Result<Published, PublishError>)
  {
    var (saved, err) := SaveOutcome(h, json, s, id, m, w);
    if err.Some? then (saved, Err(err.value)) else
      var (seeded, err) := SeedOutcome(h, saved, id, m, w);
      if err.Some? then (seeded, Err(err.value)) else CompleteOutcome(h, json, seeded, id, m, whole, now, w)
  }

  /** The torrent can be rebuilt: its metainfo hashes to the pinned infohash. */
  predicate Rebuilds(h: Hashes, m: Manifest, dir: Dir) {
    ValidContent(m) && InfoOf(h, m, dir).Some? && Hex(h.sha1(InfoBytes(InfoOf(h, m, dir).value))) == m.infoHash
  }

  /** A publication succeeds exactly for a valid model id whose directory
      rebuilds the manifest's torrent, when none of the three writes that count
      fails; each error has its one cause, and comes before what follows it. */
  lemma PublishEnds(h: Hashes, json: Json, s: State, id: Bytes, m: Manifest, whole: bool, now: int, w: Writes)
    requires Valid(m)
    ensures var r := PublishOutcome(h, json, s, id, m, whole, now, w).1;
      var rebuilt := Rebuilds(h, m, DirOf(s, id)[MODEL_MANIFEST := json.encode(m)]);
      && (r.Ok? <==> Ref.ValidModelId(id) && rebuilt && w.failAt !in {1, 2, 3})
      && (r == Err(InvalidModel) <==> !Ref.ValidModelId(id) && w.failAt != 1)
      && (r == Err(NotRebuilt) <==> Ref.ValidModelId(id) && !rebuilt && w.failAt !in {1, 2})
      && (r == Err(WriteFailed) <==>
            || w.failAt == 1 || (Ref.ValidModelId(id) && w.failAt == 2)
            || (Ref.ValidModelId(id) && rebuilt && w.failAt == 3))
      && r != Err(InvalidInfoHash)
  {
    SaveEnds(h, json, s, id, m, w);
    var (saved, err) := SaveOutcome(h, json, s, id, m, w);
    if err.None? {
      SeedEnds(h, saved, id, m, w);
    }
  }

  lemma SaveEnds(h: Hashes, json: Json, s: State, id: Bytes, m: Manifest, w: Writes)
    ensures var (t, err) := SaveOutcome(h, json, s, id, m, w);
      && err == (if w.failAt == 1 then Some(WriteFailed) else if !Ref.ValidModelId(id) then Some(InvalidModel)
                 else if w.failAt == 2 then Some(WriteFailed) else None)
      && (err.None? ==> DirOf(t, id) == DirOf(s, id)[MODEL_MANIFEST := json.encode(m)])
  {}

  lemma SeedEnds(h: Hashes, s: State, id: Bytes, m: Manifest, w: Writes)
    requires Valid(m)
    ensures SeedOutcome(h, s, id, m, w).1 ==
      if !Rebuilds(h, m, DirOf(s, id)) then Some(NotRebuilt) else if w.failAt == 3 then Some(WriteFailed) else None
  {}

  /** The store with the copy, if its write does not fail. */
  function Copied(h: Hashes, json: Json, s: State, m: Manifest, w: Writes): State {
    if w.failAt == 1 then s else s.(manifests := s.manifests[Hex(h.sha256(json.encode(m))) := json.encode(m)])
  }

  /** And then with the pointer, and the signature if there is one. */
  function Pointing(h: Hashes, json: Json, s: State, id: Bytes, m: Manifest, w: Writes): State {
    var d := Hex(h.sha256(json.encode(m)));
    s.(manifests := s.manifests[d := json.encode(m)],
       dirs := s.dirs[id := DirOf(s, id)[MODEL_MANIFEST := json.encode(m)]],
       signatures := if w.signature.Some? then s.signatures[d := w.signature.value] else s.signatures)
  }

  lemma SaveWrites(h: Hashes, json: Json, s: State, id: Bytes, m: Manifest, w: Writes)
    ensures var (t, err) := SaveOutcome(h, json, s, id, m, w);
      && (err.None? <==> Ref.ValidModelId(id) && w.failAt != 1 && w.failAt != 2)
      && t == if err.None? then Pointing(h, json, s, id, m, w) else Copied(h, json, s, m, w)
  {}

  lemma SeedWrites(h: Hashes, s: State, id: Bytes, m: Manifest, w: Writes)
    ensures var (t, err) := SeedOutcome(h, s, id, m, w);
      && (err.Some? ==> t == s)
      && (err.None? ==>
            && m.infoHash in t.torrents && t == s.(torrents := s.torrents[m.infoHash := t.torrents[m.infoHash]])
            && Some(t.torrents[m.infoHash]) == Torrent(h, m, DirOf(s, id)))
  {}

  /** The files a publication wrote when it ended, and no other: none before
      the copy, only it before the pointer, no torrent unless it succeeds, and
      no index entry but for whole repos. */
  lemma PublishWrites(h: Hashes, json: Json, s: State, id: Bytes, m: Manifest, whole: bool, now: int, w: Writes)
    ensures var (t, r) := PublishOutcome(h, json, s, id, m, whole, now, w);
      var saved := if Ref.ValidModelId(id) && w.failAt != 1 && w.failAt != 2 then Pointing(h, json, s, id, m, w)
                   else Copied(h, json, s, m, w);
      && (r.Err? ==> t == saved)
      && (r.Ok? ==>
            && m.infoHash in t.torrents
            && t == saved.(torrents := s.torrents[m.infoHash := t.torrents[m.infoHash]], index := t.index)
            && Some(t.torrents[m.infoHash]) == Torrent(h, m, DirOf(t, id))
            && (!whole || w.failAt == 4 ==> t.index == s.index))
  {
    SaveWrites(h, json, s, id, m, w);
    var (saved, err) := SaveOutcome(h, json, s, id, m, w);
    if err.None? {
      SeedWrites(h, saved, id, m, w);
      SavedKeepsRest(h, json, s, id, m, w);
      CompleteWrites(h, json, SeedOutcome(h, saved, id, m, w).0, id, m, whole, now, w);
    }
  }

  lemma SavedKeepsRest(h: Hashes, json: Json, s: State, id: Bytes, m: Manifest, w: Writes)
    ensures var t := Pointing(h, json, s, id, m, w); t.torrents == s.torrents && t.index == s.index
  {}

  lemma CompleteWrites(h: Hashes, json: Json, s: State, id: Bytes, m: Manifest, whole: bool, now: int, w: Writes)
    ensures var (t, r) := CompleteOutcome(h, json, s, id, m, whole, now, w);
      r.Ok? && t == s.(index := t.index) && (!whole || w.failAt == 4 ==> t == s)
  {}

  lemma SavedReadsBack(h: Hashes, json: Json, s: State, id: Bytes, m: Manifest, w: Writes)
    requires json.Inverts() && Valid(m)
    requires SaveOutcome(h, json, s, id, m, w).1.None?
    ensures var t := SaveOutcome(h, json, s, id, m, w).0;
      && Ref.ValidModelId(id)
      && id in t.dirs && t.dirs[id] == DirOf(s, id)[MODEL_MANIFEST := json.encode(m)]
      && Pointed(json, t, id) == Some(m)
      && Digest(h, json, m) in t.manifests
      && t.signatures == WithSignature(h, json, s, m, w.signature).signatures
  {
    assert json.decode(json.encode(m)) == Some(m);
  }

  lemma SavedKeepsIndex(h: Hashes, json: Json, s: State, id: Bytes, m: Manifest, w: Writes)
    ensures SaveOutcome(h, json, s, id, m, w).0.index == s.index
  {}

  lemma SeededKeeps(h: Hashes, s: State, id: Bytes, m: Manifest, w: Writes)
    requires SeedOutcome(h, s, id, m, w).1.None?
    ensures var t := SeedOutcome(h, s, id, m, w).0;
      t == s.(torrents := t.torrents) && m.infoHash in t.torrents
  {}

  /** Publication writes to no other model's directory and to no unknown file. */
  lemma PublishStays(h: Hashes, json: Json, s: State, id: Bytes, m: Manifest, whole: bool, now: int, w: Writes)
    ensures var t := PublishOutcome(h, json, s, id, m, whole, now, w).0;
      t.root == s.root && t.dirs - {id} == s.dirs - {id} && t.others == s.others
  {
    SaveStays(h, json, s, id, m, w);
    SeedStays(h, SaveOutcome(h, json, s, id, m, w).0, id, m, w);
  }

  lemma SaveStays(h: Hashes, json: Json, s: State, id: Bytes, m: Manifest, w: Writes)
    ensures var t := SaveOutcome(h, json, s, id, m, w).0;
      t.root == s.root && t.dirs - {id} == s.dirs - {id} && t.others == s.others
  {
    PointerStays(json, WithCopy(h, json, s, m), id, m);
  }

  lemma PointerStays(json: Json, s: State, id: Bytes, m: Manifest)
    ensures WithPointer(json, s, id, m).dirs - {id} == s.dirs - {id}
  {}

  lemma SeedStays(h: Hashes, s: State, id: Bytes, m: Manifest, w: Writes)
    ensures var t := SeedOutcome(h, s, id, m, w).0;
      t == s.(torrents := t.torrents)
  {}

  /** A complete publication can be read back. */
  lemma PublishReadsBack(h: Hashes, json: Json, s: State, id: Bytes, m: Manifest, whole: bool, now: int,
                         w: Writes)
    requires json.Inverts() && Valid(m)
    requires PublishOutcome(h, json, s, id, m, whole, now, w).1.Ok?
    ensures var (t, r) := PublishOutcome(h, json, s, id, m, whole, now, w);
      && Ref.ValidModelId(id)
      && id in t.dirs && t.dirs[id] == DirOf(s, id)[MODEL_MANIFEST := json.encode(m)]
      && Pointed(json, t, id) == Some(m)
      && m.infoHash in t.torrents && Digest(h, json, m) in t.manifests
      && t.signatures == WithSignature(h, json, s, m, w.signature).signatures
      && r.value == Published(|m.files|, TotalSize(m.files), m.infoHash, Digest(h, json, m))
  {
    SavedReadsBack(h, json, s, id, m, w);
    var saved := SaveOutcome(h, json, s, id, m, w).0;
    SeededKeeps(h, saved, id, m, w);
  }

  // ---- Removal ----

  datatype RemoveError = InvalidId | NotFound | DirNotRemoved

  datatype Summary = Summary(
    files: nat,
    size: int,
    dirRemoved: bool,
    torrentRemoved: bool,
    manifestRemoved: bool,
    indexEntryRemoved: bool)

  /** Which deletions fail: the torrent's and the copy's silently, the
      directory's with these names left in it, the index silently because it
      cannot be read or saved. A removal that stops half-way leaves the files
      as if all the deletions that follow had failed. */
  datatype RemoveFaults = RemoveFaults(
    torrentStays: bool,
    copyStays: bool,
    dirLeft: Option<set<Bytes>>,
    indexStays: bool)

  const NO_FAULTS := RemoveFaults(false, false, None, false)

  function Only(dir: Dir, names: set<Bytes>): Dir {
    map p | p in dir && p in names :: dir[p]
  }

  function TorrentsAfter(json: Json, s: State, id: Bytes, faults: RemoveFaults): map<Bytes, Bytes> {
    var m := Pointed(json, s, id);
    if m.Some? && !faults.torrentStays then s.torrents - {m.value.infoHash} else s.torrents
  }

  function CopiesAfter(h: Hashes, json: Json, s: State, id: Bytes, faults: RemoveFaults): map<Bytes, Bytes> {
    var m := Pointed(json, s, id);
    if m.Some? && !faults.copyStays then s.manifests - {Digest(h, json, m.value)} else s.manifests
  }

  function DirsAfter(s: State, id: Bytes, faults: RemoveFaults): map<Bytes, Dir> {
    if faults.dirLeft.Some? then s.dirs[id := Only(DirOf(s, id), faults.dirLeft.value)] else s.dirs - {id}
  }

  /** The index is reached only when the directory is gone. */
  predicate Unlists(json: Json, index: Option<Bytes>, id: Bytes, faults: RemoveFaults) {
    faults.dirLeft.None? && !faults.indexStays && id in EntriesOf(json, index)
  }

  function IndexAfter(json: Json, index: Option<Bytes>, id: Bytes, faults: RemoveFaults): Option<Bytes> {
    if Unlists(json, index, id, faults) then Some(json.encodeIndex(EntriesOf(json, index) - {id})) else index
  }

  /** Removal: the torrent and the copy the pointer leads to, the directory, the index entry. */
  function RemoveOutcome(h: Hashes, json: Json, s: State, id: Bytes, faults: RemoveFaults)
    : (State, Result<Summary, RemoveError>)
  {
    if !Ref.ValidModelId(id) then (s, Err(InvalidId))
    else if id !in s.dirs then (s, Err(NotFound))
    else
      var m := Pointed(json, s, id);
      (s.(dirs := DirsAfter(s, id, faults), manifests := CopiesAfter(h, json, s, id, faults),
          torrents := TorrentsAfter(json, s, id, faults), index := IndexAfter(json, s.index, id, faults)),
       if faults.dirLeft.Some? then Err(DirNotRemoved) else
         Ok(Summary(
              if m.Some? then |m.value.files| else 0,
              if m.Some? then TotalSize(m.value.files) else 0,
              true,
              m.Some? && m.value.infoHash in s.torrents && !faults.torrentStays,
              m.Some? && Digest(h, json, m.value) in s.manifests && !faults.copyStays,
              Unlists(json, s.index, id, faults))))
  }

  /** What a removal deletes, unless the deletion fails: the torrent and the
      copy its pointer names, the directory, the index entry; it touches
      nothing else, and reports each deletion exactly when it happened. */
  lemma RemoveDeletes(h: Hashes, json: Json, s: State, id: Bytes, faults: RemoveFaults)
    requires json.Inverts() && Ref.ValidModelId(id) && id in s.dirs
    ensures var (t, r) := RemoveOutcome(h, json, s, id, faults);
      var m := Pointed(json, s, id);
      && t == s.(dirs := t.dirs, manifests := t.manifests, torrents := t.torrents, index := t.index)
      && (forall d :: d in t.manifests <==>
            d in s.manifests && !(m.Some? && !faults.copyStays && d == Hex(h.sha256(json.encode(m.value)))))
      && (forall x :: x in t.torrents <==>
            x in s.torrents && !(m.Some? && !faults.torrentStays && x == m.value.infoHash))
      && (forall k :: k in t.dirs <==> k in s.dirs && !(k == id && faults.dirLeft.None?))
      && (r.Err? <==> faults.dirLeft.Some?)
      && (r.Ok? ==>
            && (r.value.torrentRemoved <==> t.torrents != s.torrents)
            && (r.value.manifestRemoved <==> t.manifests != s.manifests)
            && (r.value.dirRemoved <==> t.dirs != s.dirs)
            && (r.value.indexEntryRemoved <==> id in EntriesOf(json, s.index) && id !in EntriesOf(json, t.index))
            && (m.Some? ==> r.value.files == |m.value.files| && r.value.size == TotalSize(m.value.files))
            && (m.None? ==> r.value.files == 0 && r.value.size == 0))
  {
    IndexEntryGoes(json, s.index, id, faults);
    var m := Pointed(json, s, id);
    if m.Some? {
      KeyGoes(s.torrents, m.value.infoHash);
      KeyGoes(s.manifests, Digest(h, json, m.value));
    }
    KeyGoes(s.dirs, id);
  }

  /** It is refused exactly for an id that is none, and for a model that is not there; nothing changes then. */
  lemma RemoveRefuses(h: Hashes, json: Json, s: State, id: Bytes, faults: RemoveFaults)
    ensures var (t, r) := RemoveOutcome(h, json, s, id, faults);
      && (r == Err(InvalidId) <==> !Ref.ValidModelId(id))
      && (r == Err(NotFound) <==> Ref.ValidModelId(id) && id !in s.dirs)
      && (r == Err(DirNotRemoved) <==> Ref.ValidModelId(id) && id in s.dirs && faults.dirLeft.Some?)
      && (r == Err(InvalidId) || r == Err(NotFound) ==> t == s)
  {}

  lemma KeyGoes<K, V>(files: map<K, V>, key: K)
    ensures files - {key} != files <==> key in files
  {
    if key in files {
      assert key !in files - {key};
    } else {
      assert files - {key} == files;
    }
  }

  lemma IndexEntryGoes(json: Json, index: Option<Bytes>, id: Bytes, faults: RemoveFaults)
    requires json.Inverts()
    ensures var after := IndexAfter(json, index, id, faults);
      && (Unlists(json, index, id, faults) <==> id in EntriesOf(json, index) && id !in EntriesOf(json, after))
      && (Unlists(json, index, id, faults) ==> EntriesOf(json, after) == EntriesOf(json, index) - {id})
  {
    if Unlists(json, index, id, faults) {
      var left := EntriesOf(json, index) - {id};
      assert json.decodeIndex(json.encodeIndex(left)) == Some(left);
      assert Index.Parsed(left) == left;
    }
  }

  /** The store on disk; its methods write file by file. */
  class Store {
    const root: Path
    var dirs: map<Bytes, Dir>
    var manifests: map<Bytes, Bytes>
    var signatures: map<Bytes, Bytes>
    var torrents: map<Bytes, Bytes>
    var index: Option<Bytes>
    var others: map<Path, Bytes>

    function Current(): State
      reads this
    {
      State(root, dirs, manifests, signatures, torrents, index, others)
    }

    constructor (root: Path)
      ensures Current() == EmptyStore(root)
    {
      this.root := root;
      dirs, manifests, signatures, torrents, index, others := map[], map[], map[], map[], None, map[];
    }

    function Content(place: Place): Option<Bytes>
      reads this
    {
      ContentAt(Current(), place)
    }

    method Write(place: Place, content: Option<Bytes>)
      modifies this
      ensures Current() == SetAt(old(Current()), place, content)
    {
      match place {
        case InModel(id, path) =>
          var dir := if id in dirs then dirs[id] else map[];
          dirs := dirs[id := Put(dir, path, content)];
        case Copy(digest) => manifests := Put(manifests, digest, content);
        case Signature(digest) => signatures := Put(signatures, digest, content);
        case TorrentFile(infoHash) => torrents := Put(torrents, infoHash, content);
        case IndexFile => index := content;
        case Other(at) => others := Put(others, at, content);
      }
    }

    method Publish(h: Hashes, json: Json, id: Bytes, m: Manifest, whole: bool, now: int, w: Writes)
      returns (r: Result<Published, PublishError>)
      modifies this
      ensures (Current(), r) == PublishOutcome(h, json, old(Current()), id, m, whole, now, w)
    {
      var total := SumSizes(m.files);
      var err := SaveManifest(h, json, id, m, w);
      if err.Some? {
        return Err(err.value);
      }
      err := SaveTorrent(h, id, m, w);
      if err.Some? {
        return Err(err.value);
      }
      r := Complete(h, json, id, m, total, whole, now, w);
    }

    /** The last steps: the index entry of a whole repo, and the result. */
    method Complete(h: Hashes, json: Json, id: Bytes, m: Manifest, total: int, whole: bool, now: int, w: Writes)
      returns (r: Result<Published, PublishError>)
      requires total == TotalSize(m.files)
      modifies this`index
      ensures (Current(), r) == CompleteOutcome(h, json, old(Current()), id, m, whole, now, w)
    {
      var msha := Digest(h, json, m);
      if whole && w.failAt != 4 {
        PublishLocalIndex(json, IndexEntry(id, m, msha, total, now));
      }
      return Ok(Published(|m.files|, total, m.infoHash, msha));
    }

    method SaveManifest(h: Hashes, json: Json, id: Bytes, m: Manifest,
                        w: Writes) returns (err: Option<PublishError>)
      modifies this`manifests, this`dirs, this`signatures
      ensures (Current(), err) == SaveOutcome(h, json, old(Current()), id, m, w)
    {
      if w.failAt == 1 {
        return Some(WriteFailed);
      }
      manifests := manifests[Digest(h, json, m) := json.encode(m)];
      if !Ref.ValidModelId(id) {
        return Some(InvalidModel);
      }
      if w.failAt == 2 {
        return Some(WriteFailed);
      }
      var dir := if id in dirs then dirs[id] else map[];
      dirs := dirs[id := dir[MODEL_MANIFEST := json.encode(m)]];
      if w.signature.Some? {
        signatures := signatures[Digest(h, json, m) := w.signature.value];
      }
      return None;
    }

    method SaveTorrent(h: Hashes, id: Bytes, m: Manifest, w: Writes) returns (err: Option<PublishError>)
      modifies this`torrents
      ensures (Current(), err) == SeedOutcome(h, old(Current()), id, m, w)
    {
      var torrent := MetaInfoBytes(h, m, if id in dirs then dirs[id] else map[]);
      if torrent.None? {
        return Some(NotRebuilt);
      }
      if !IsHex(m.infoHash, 40) {
        return Some(InvalidInfoHash);
      }
      if w.failAt == 3 {
        return Some(WriteFailed);
      }
      torrents := torrents[m.infoHash := torrent.value];
      return None;
    }

    method PublishLocalIndex(json: Json, e: Index.Entry)
      modifies this`index
      ensures index == IndexWith(json, old(index), e)
    {
      var local := new Index.Index(EntriesOf(json, index));
      var err := local.Add(e);
      if err.None? {
        index := Some(json.encodeIndex(local.entries));
      }
    }

    method Remove(h: Hashes, json: Json, id: Bytes, faults: RemoveFaults) returns (r: Result<Summary, RemoveError>)
      modifies this
      ensures (Current(), r) == RemoveOutcome(h, json, old(Current()), id, faults)
    {
      if !Ref.ValidModelId(id) {
        return Err(InvalidId);
      }
      if id !in dirs {
        return Err(NotFound);
      }
      var m := if MODEL_MANIFEST in dirs[id] then Parse(json, dirs[id][MODEL_MANIFEST]) else None;
      var sum := Summary(0, 0, false, false, false, false);
      if m.Some? {
        sum := DeletePinned(m.value, Digest(h, json, m.value), faults);
      }
      if faults.dirLeft.Some? {
        dirs := dirs[id := Only(dirs[id], faults.dirLeft.value)];
        return Err(DirNotRemoved);
      }
      dirs := dirs - {id};
      sum := sum.(dirRemoved := true);
      var unlisted := DeleteEntry(json, id, faults.indexStays);
      return Ok(sum.(indexEntryRemoved := unlisted));
    }

    method DeleteEntry(json: Json, id: Bytes, stays: bool) returns (removed: bool)
      modifies this`index
      ensures removed <==> id in EntriesOf(json, old(index)) && !stays
      ensures index == if removed then Some(json.encodeIndex(EntriesOf(json, old(index)) - {id})) else old(index)
    {
      if stays {
        return false;
      }
      var ix := new Index.Index(EntriesOf(json, index));
      removed := ix.Remove(id);
      if removed {
        index := Some(json.encodeIndex(ix.entries));
      }
    }

    /** What is keyed by hashes: the torrent and the manifest copy. */
    method DeletePinned(m: Manifest, digest: Bytes, faults: RemoveFaults) returns (sum: Summary)
      modifies this`torrents, this`manifests
      ensures torrents == if faults.torrentStays then old(torrents) else old(torrents) - {m.infoHash}
      ensures manifests == if faults.copyStays then old(manifests) else old(manifests) - {digest}
      ensures sum == Summary(|m.files|, TotalSize(m.files), false,
                             m.infoHash in old(torrents) && !faults.torrentStays,
                             digest in old(manifests) && !faults.copyStays, false)
    {
      var total := SumSizes(m.files);
      var torrentRemoved := DeleteTorrent(m.infoHash, faults.torrentStays);
      var manifestRemoved := DeleteCopy(digest, faults.copyStays);
      return Summary(|m.files|, total, false, torrentRemoved, manifestRemoved, false);
    }

    method DeleteTorrent(infoHash: Bytes, stays: bool) returns (removed: bool)
      modifies this`torrents
      ensures torrents == if stays then old(torrents) else old(torrents) - {infoHash}
      ensures removed <==> infoHash in old(torrents) && !stays
    {
      removed := infoHash in torrents && !stays;
      if removed {
        torrents := torrents - {infoHash};
      }
    }

    method DeleteCopy(digest: Bytes, stays: bool) returns (removed: bool)
      modifies this`manifests
      ensures manifests == if stays then old(manifests) else old(manifests) - {digest}
      ensures removed <==> digest in old(manifests) && !stays
    {
      removed := digest in manifests && !stays;
      if removed {
        manifests := manifests - {digest};
      }
    }
  }

  method SumSizes(files: seq<File>) returns (total: int)
    ensures total == TotalSize(files)
  {
    total := 0;
    for k := 0 to |files|
      invariant total + TotalSize(files[k..]) == TotalSize(files)
    {
      total := total + files[k].size;
      assert files[k..][1..] == files[k + 1..];
    }
  }
}

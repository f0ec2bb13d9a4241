/** From files to pieces to infohash: the v1 metainfo of BEP 3 and the manifest bound to it. */
module Builder {
  import opened Text
  import opened Hashing
  import opened Manifest
  import Bencode

  // ---- Metainfo ----

  datatype FileInfo = FileInfo(path: seq<Bytes>, length: int)

  datatype Info = Info(name: Bytes, pieceLength: int, pieces: Bytes, files: seq<FileInfo>)

  /** The repo part of a model id. */
  function TorrentName(model: Bytes): Bytes {
    Cut(model, '/').1
  }

  function InfoOfFile(f: File): FileInfo {
    FileInfo(Split(f.path, '/'), f.size)
  }

  function FileInfos(files: seq<File>): (r: seq<FileInfo>)
    ensures |r| == |files|
    ensures forall i :: 0 <= i < |files| ==> r[i] == InfoOfFile(files[i])
  {
    if files == [] then [] else [InfoOfFile(files[0])] + FileInfos(files[1..])
  }

  predicate Readable(files: seq<FileInfo>) {
    forall i :: 0 <= i < |files| ==> files[i].path != [] && files[i].length >= 0
  }

  /** What the piece hasher reads: the first length bytes of each file, in
      order; nothing when a file is missing or too short. */
  function Concatenation(files: seq<FileInfo>, dir: Dir): Option<Bytes>
    requires Readable(files)
  {
    if files == [] then Some("") else
      var p := Join(files[0].path, '/');
      if p !in dir || |dir[p]| < files[0].length then None else
        var rest := Concatenation(files[1..], dir);
        if rest.None? then None else Some(dir[p][..files[0].length] + rest.value)
  }

  /** Fixed-size blocks, the last one possibly short. */
  function Pieces(s: Bytes, n: nat): (r: seq<Bytes>)
    requires n > 0
    decreases |s|
  {
    if s == "" then [] else if |s| <= n then [s] else [s[..n]] + Pieces(s[n..], n)
  }

  function PieceHashes(h: Hashes, pieces: seq<Bytes>): Bytes {
    if pieces == [] then "" else h.sha1(pieces[0]) + PieceHashes(h, pieces[1..])
  }

  /** The info dictionary of a manifest over the files of dir. */
  function InfoOf(h: Hashes, m: Manifest, dir: Dir): Option<Info>
    requires ValidContent(m)
  {
    var files := FileInfos(m.files);
    var data := Concatenation(files, dir);
    if data.None? then None
    else Some(Info(TorrentName(m.model), m.pieceLength,
                   PieceHashes(h, Pieces(data.value, m.pieceLength)), files))
  }

  function PathItems(path: seq<Bytes>): seq<Bencode.Value> {
    if path == [] then [] else [Bencode.Str(path[0])] + PathItems(path[1..])
  }

  function FileValue(f: FileInfo): Bencode.Value {
    Bencode.Dict([
      Bencode.Entry("length", Bencode.Int(f.length)),
      Bencode.Entry("path", Bencode.List(PathItems(f.path)))])
  }

  function FileValues(files: seq<FileInfo>): seq<Bencode.Value> {
    if files == [] then [] else [FileValue(files[0])] + FileValues(files[1..])
  }

  function InfoValue(info: Info): Bencode.Value {
    Bencode.Dict([
      Bencode.Entry("files", Bencode.List(FileValues(info.files))),
      Bencode.Entry("name", Bencode.Str(info.name)),
      Bencode.Entry("piece length", Bencode.Int(info.pieceLength)),
      Bencode.Entry("pieces", Bencode.Str(info.pieces))])
  }

  function InfoBytes(info: Info): Bytes {
    Bencode.Print(InfoValue(info))
  }

  function InfoHash(h: Hashes, info: Info): Bytes {
    Hex(h.sha1(InfoBytes(info)))
  }

  /** The file list of the info dictionary, appended file by file. */
  method ListFiles(files: seq<File>) returns (r: seq<FileInfo>)
    ensures r == FileInfos(files)
  {
    r := [];
    for k := 0 to |files|
      invariant r == FileInfos(files)[..k]
    {
      r := r + [InfoOfFile(files[k])];
    }
  }

  method BuildInfo(h: Hashes, m: Manifest, dir: Dir) returns (r: Option<Info>)
    ensures r == if ValidContent(m) then InfoOf(h, m, dir) else None
  {
    if !ValidContent(m) {
      return None;
    }
    var files := ListFiles(m.files);
    var data := Concatenation(files, dir);
    if data.None? {
      return None;
    }
    r := Some(Info(TorrentName(m.model), m.pieceLength,
                   PieceHashes(h, Pieces(data.value, m.pieceLength)), files));
  }

  // ---- Create and MetaInfoBytes ----

  datatype CreateError = BadEntry(index: nat) | BadContent

  predicate GoodEntry(e: File, dir: Dir) {
    ValidPath(e.path) && Sized(e, dir)
  }

  /** What Create demands of its arguments. */
  predicate Creatable(model: Bytes, revision: Bytes, entries: seq<File>, dir: Dir) {
    && model != "" && revision != ""
    && entries != []
    && (forall i :: 0 <= i < |entries| ==> GoodEntry(entries[i], dir))
    && StrictlySorted(entries)
  }

  /** m pins the files of dir: paths and sizes as listed, digests of the
      contents, and the infohash of the metainfo they give. */
  predicate BuiltFrom(h: Hashes, m: Manifest, entries: seq<File>, dir: Dir) {
    && Valid(m)
    && m.pieceLength == PIECE_LENGTH
    && |m.files| == |entries|
    && (forall i :: 0 <= i < |entries| ==>
          m.files[i].path == entries[i].path && m.files[i].size == entries[i].size)
    && Verified(h, m, dir)
    && InfoOf(h, m, dir).Some?
    && m.infoHash == InfoHash(h, InfoOf(h, m, dir).value)
  }

  method Create(h: Hashes, now: int, model: Bytes, revision: Bytes, entries: seq<File>, dir: Dir)
    returns (r: Result<Manifest, CreateError>)
    ensures r.Ok? <==> Creatable(model, revision, entries, dir)
    ensures r.Ok? ==>
      && BuiltFrom(h, r.value, entries, dir)
      && r.value.model == model && r.value.revision == revision && r.value.createdAt == now
    ensures r.Err? ==>
      match r.error
      case BadEntry(k) =>
        && k < |entries| && !GoodEntry(entries[k], dir)
        && forall i :: 0 <= i < k ==> GoodEntry(entries[i], dir)
      case BadContent => forall i :: 0 <= i < |entries| ==> GoodEntry(entries[i], dir)
  {
    var m := Manifest(SCHEMA, model, revision, now, PIECE_LENGTH, "", []);
    for k := 0 to |entries|
      invariant m == Manifest(SCHEMA, model, revision, now, PIECE_LENGTH, "", m.files)
      invariant |m.files| == k
      invariant forall i :: 0 <= i < k ==>
        && GoodEntry(entries[i], dir)
        && m.files[i] == File(entries[i].path, entries[i].size, FileDigest(h, dir[entries[i].path]))
    {
      var e := entries[k];
      if !GoodEntry(e, dir) {
        return Err(BadEntry(k));
      }
      m := m.(files := m.files + [File(e.path, e.size, FileDigest(h, dir[e.path]))]);
    }
    ListedContentValid(h, m, entries, dir);
    var info := BuildInfo(h, m, dir);
    if info.None? {
      return Err(BadContent);
    }
    ghost var unhashed := m;
    m := m.(infoHash := InfoHash(h, info.value));
    assert InfoOf(h, m, dir) == InfoOf(h, unhashed, dir);
    r := Ok(m);
  }

  /** m lists entries with the digests of their contents. */
  predicate Listed(h: Hashes, m: Manifest, entries: seq<File>, dir: Dir) {
    && m.schema == SCHEMA && m.pieceLength > 0
    && |m.files| == |entries|
    && forall i :: 0 <= i < |m.files| ==>
         && GoodEntry(entries[i], dir)
         && m.files[i] == File(entries[i].path, entries[i].size, FileDigest(h, dir[entries[i].path]))
  }

  /** With every entry listed and hashed, only the model, the revision and
      the order are left to check, and no file is missing or short. */
  lemma ListedContentValid(h: Hashes, m: Manifest, entries: seq<File>, dir: Dir)
    requires Listed(h, m, entries, dir)
    ensures ValidContent(m) <==> Creatable(m.model, m.revision, entries, dir)
    ensures ValidContent(m) ==> Verified(h, m, dir) && InfoOf(h, m, dir).Some?
  {
    forall i | 0 <= i < |m.files|
      ensures ValidFile(m.files[i]) && Matches(h, m.files[i], dir)
    {
      assert GoodEntry(entries[i], dir);
      NoEmptyPath();
    }
    SameOrder(m.files, entries);
    assert Creatable(m.model, m.revision, entries, dir) <==>
      m.model != "" && m.revision != "" && entries != [] && StrictlySorted(entries);
    if ValidContent(m) {
      ConcatenationOf(m.files, dir);
    }
  }

  lemma SameOrder(files: seq<File>, entries: seq<File>)
    requires |files| == |entries|
    requires forall i :: 0 <= i < |files| ==> files[i].path == entries[i].path
    ensures StrictlySorted(files) <==> StrictlySorted(entries)
  {
    if StrictlySorted(files) {
      forall i | 0 < i < |entries|
        ensures Less(entries[i - 1].path, entries[i].path)
      {
        assert Less(files[i - 1].path, files[i].path);
      }
    }
    if StrictlySorted(entries) {
      forall i | 0 < i < |files|
        ensures Less(files[i - 1].path, files[i].path)
      {
        assert Less(entries[i - 1].path, entries[i].path);
      }
    }
  }

  predicate AllSized(files: seq<File>, dir: Dir) {
    forall i :: 0 <= i < |files| ==> Sized(files[i], dir)
  }

  /** Contents of the listed files, one after the other. */
  function Joined(files: seq<File>, dir: Dir): Bytes
    requires AllSized(files, dir)
  {
    if files == [] then "" else
      assert Sized(files[0], dir);
      dir[files[0].path] + Joined(files[1..], dir)
  }

  /** With the listed sizes, the hasher reads exactly the file contents. */
  lemma {:induction false} ConcatenationOf(files: seq<File>, dir: Dir)
    requires AllSized(files, dir)
    ensures Readable(FileInfos(files))
    ensures Concatenation(FileInfos(files), dir) == Some(Joined(files, dir))
  {
    if files != [] {
      ConcatenationOf(files[1..], dir);
      JoinSplit(files[0].path, '/');
      assert FileInfos(files)[1..] == FileInfos(files[1..]);
      var s := dir[files[0].path];
      assert s[..|s|] == s;
    }
  }

  /** Renders the torrent file, refusing when the rebuilt infohash is not the pinned one. */
  method MetaInfoBytes(h: Hashes, m: Manifest, dir: Dir) returns (r: Option<Bytes>)
    ensures r == Torrent(h, m, dir)
  {
    var info := BuildInfo(h, m, dir);
    if info.None? || InfoHash(h, info.value) != m.infoHash {
      return None;
    }
    r := Some(TorrentBytes(info.value));
  }

  function TorrentBytes(info: Info): Bytes {
    Bencode.Print(Bencode.Dict([Bencode.Entry("info", InfoValue(info))]))
  }

  function Torrent(h: Hashes, m: Manifest, dir: Dir): Option<Bytes> {
    if !ValidContent(m) then None else
      var info := InfoOf(h, m, dir);
      if info.None? || InfoHash(h, info.value) != m.infoHash then None
      else Some(TorrentBytes(info.value))
  }
}

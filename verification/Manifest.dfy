/** The llmp2p/v1 manifest: what makes one valid, and the per-file directory check. */
module Manifest {
  import opened Text
  import opened Hashing
  import Index

  const SCHEMA := "llmp2p/v1"
  const PIECE_LENGTH := 4 * 1024 * 1024
  const MAX_PATH := 512

  /** One pinned artifact. */
  datatype File = File(path: Bytes, size: int, sha256: Bytes)

  datatype Manifest = Manifest(
    schema: Bytes,
    model: Bytes,
    revision: Bytes,
    createdAt: int,
    pieceLength: int,
    infoHash: Bytes,
    files: seq<File>)

  /** The regular files below one directory, keyed by slash path. */
  type Dir = map<Bytes, Bytes>

  predicate IsDriveLetter(c: char) {
    'A' <= c <= 'Z' || 'a' <= c <= 'z'
  }

  predicate ValidSegment(s: Bytes) {
    s != "" && s != "." && s != ".."
  }

  /** A plain relative slash path. */
  predicate ValidPath(p: Bytes) {
    && |p| <= MAX_PATH
    && !("/" <= p)
    && '\\' !in p
    && !(|p| >= 2 && p[1] == ':' && IsDriveLetter(p[0]))
    && (forall i :: 0 <= i < |p| ==> p[i] >= ' ' && p[i] as int != 0x7f)
    && (forall i :: 0 <= i < |Split(p, '/')| ==> ValidSegment(Split(p, '/')[i]))
  }

  predicate ValidFile(f: File) {
    f.path != "" && ValidPath(f.path) && f.size >= 0 && IsHex(f.sha256, 64)
  }

  /** Strictly increasing paths, so no path is listed twice. */
  predicate StrictlySorted(files: seq<File>) {
    forall i :: 0 < i < |files| ==> Less(files[i - 1].path, files[i].path)
  }

  /** Everything but the infohash, which is not known before the metainfo is built. */
  predicate ValidContent(m: Manifest) {
    && m.schema == SCHEMA
    && m.model != "" && m.revision != ""
    && m.pieceLength > 0
    && m.files != []
    && (forall i :: 0 <= i < |m.files| ==> ValidFile(m.files[i]))
    && StrictlySorted(m.files)
  }

  predicate Valid(m: Manifest) {
    ValidContent(m) && IsHex(m.infoHash, 40)
  }

  function TotalSize(files: seq<File>): int {
    if files == [] then 0 else files[0].size + TotalSize(files[1..])
  }

  /** The JSON texts of manifests and of index documents, idealised: writers,
      and readers that undo them on valid manifests and valid indexes. */
  datatype Json = Json(
    encode: Manifest -> Bytes,
    decode: Bytes -> Option<Manifest>,
    encodeIndex: Index.Entries -> Bytes,
    decodeIndex: Bytes -> Option<Index.Entries>)
  {
    ghost predicate Inverts() {
      && (forall m :: Valid(m) ==> decode(encode(m)) == Some(m))
      && (forall x :: Index.ValidIndex(x) ==> decodeIndex(encodeIndex(x)) == Some(x))
    }
  }

  /** Decodes and validates manifest bytes. */
  function Parse(json: Json, b: Bytes): (r: Option<Manifest>)
    ensures r.Some? ==> Valid(r.value)
  {
    var m := json.decode(b);
    if m.Some? && Valid(m.value) then m else None
  }

  /** The content address of a manifest. */
  function Digest(h: Hashes, json: Json, m: Manifest): Bytes {
    Hex(h.sha256(json.encode(m)))
  }

  function FileDigest(h: Hashes, content: Bytes): Bytes {
    Hex(h.sha256(content))
  }

  // ---- What is accepted ----

  /** No character is a control character or a backslash, and the path starts with no drive letter. */
  predicate PlainText(p: Bytes) {
    && (forall i :: 0 <= i < |p| ==> ' ' <= p[i] && p[i] as int != 127 && p[i] != '\\')
    && !(|p| >= 2 && p[1] == ':' && ('a' <= p[0] <= 'z' || 'A' <= p[0] <= 'Z'))
  }

  /** The segments of a path: its parts, none of them empty or a dot name. */
  predicate PlainNames(names: seq<Bytes>) {
    |names| > 0 && forall i :: 0 <= i < |names| ==> '/' !in names[i] && names[i] !in {"", ".", ".."}
  }

  /** The accepted paths are exactly the plain names joined by slashes, of
      plain text and at most 512 bytes. */
  lemma PathsExactly(p: Bytes)
    ensures ValidPath(p) <==> |p| <= 512 && PlainText(p) && exists names :: PlainNames(names) && Join(names, '/') == p
  {
    var names := Split(p, '/');
    JoinSplit(p, '/');
    SplitParts(p, '/');
    if ValidPath(p) {
      assert PlainNames(names);
    }
    if names :| PlainNames(names) && Join(names, '/') == p {
      SplitJoin(names, '/');
      assert names[0] != "" && names[0][0] != '/';
      FirstOfJoin(names, '/');
    }
  }

  lemma {:induction false} FirstOfJoin(names: seq<Bytes>, c: char)
    requires |names| > 0 && names[0] != ""
    ensures Join(names, c) != "" && Join(names, c)[0] == names[0][0]
  {}

  /** Listed like this a file can be fetched, placed and checked: its digest
      names 32 bytes in lower case, its size is one. */
  predicate Checkable(f: File) {
    && ValidPath(f.path) && f.size >= 0
    && Unhex(f.sha256).Some? && |Unhex(f.sha256).value| == 32 && Hex(Unhex(f.sha256).value) == f.sha256
  }

  /** Bytes are accepted exactly when they decode to a llmp2p/v1 manifest of
      some model and revision with at least one file, every one checkable, in
      ascending order of paths, and an infohash that names 20 bytes. */
  lemma ParseExactly(json: Json, b: Bytes, m: Manifest)
    ensures Parse(json, b) == Some(m) <==>
      && json.decode(b) == Some(m)
      && m.schema == "llmp2p/v1" && m.model != "" && m.revision != "" && m.pieceLength > 0 && m.files != []
      && (forall i :: 0 <= i < |m.files| ==> Checkable(m.files[i]))
      && (forall i :: 0 < i < |m.files| ==> Less(m.files[i - 1].path, m.files[i].path))
      && Unhex(m.infoHash).Some? && |Unhex(m.infoHash).value| == 20 && Hex(Unhex(m.infoHash).value) == m.infoHash
  {
    HexNames(m.infoHash, 20);
    forall i | 0 <= i < |m.files|
      ensures ValidFile(m.files[i]) <==> Checkable(m.files[i])
    {
      HexNames(m.files[i].sha256, 32);
      NoEmptyPath();
    }
  }

  lemma NoEmptyPath()
    ensures !ValidPath("")
  {
    var parts := Split("", '/');
    assert parts == [""] && !ValidSegment(parts[0]);
  }

  /** Lower-case digits, two for each of n bytes, and nothing else are what such bytes print as. */
  lemma {:induction false} HexNames(s: Bytes, n: nat)
    ensures IsHex(s, 2 * n) <==> Unhex(s).Some? && |Unhex(s).value| == n && Hex(Unhex(s).value) == s
  {
    if IsHex(s, 2 * n) {
      HexUnhex(s);
    }
  }

  // ---- The directory check ----

  datatype VerifyError = Missing(index: nat) | WrongSize(index: nat) | WrongDigest(index: nat)

  predicate Sized(f: File, dir: Dir) {
    f.path in dir && |dir[f.path]| == f.size
  }

  predicate Matches(h: Hashes, f: File, dir: Dir) {
    Sized(f, dir) && FileDigest(h, dir[f.path]) == f.sha256
  }

  /** Every listed file is there with the pinned size and digest. */
  predicate Verified(h: Hashes, m: Manifest, dir: Dir) {
    forall i :: 0 <= i < |m.files| ==> Matches(h, m.files[i], dir)
  }

  /** Stops at the first file that does not match, and says which and why. */
  method VerifyDir(h: Hashes, m: Manifest, dir: Dir) returns (err: Option<VerifyError>)
    ensures err.None? <==> Verified(h, m, dir)
    ensures err.Some? ==>
      var k := err.value.index;
      && k < |m.files|
      && (forall i :: 0 <= i < k ==> Matches(h, m.files[i], dir))
      && match err.value {
           case Missing(_) => m.files[k].path !in dir
           case WrongSize(_) => m.files[k].path in dir && !Sized(m.files[k], dir)
           case WrongDigest(_) => Sized(m.files[k], dir) && !Matches(h, m.files[k], dir)
         }
  {
    for k := 0 to |m.files|
      invariant forall i :: 0 <= i < k ==> Matches(h, m.files[i], dir)
    {
      var f := m.files[k];
      if f.path !in dir {
        return Some(Missing(k));
      }
      if |dir[f.path]| != f.size {
        return Some(WrongSize(k));
      }
      var got := FileDigest(h, dir[f.path]);
      if got != f.sha256 {
        return Some(WrongDigest(k));
      }
    }
    return None;
  }

  /** The file contents a directory check of m hashes. */
  function Contents(m: Manifest, dir: Dir): set<Bytes> {
    set i | 0 <= i < |m.files| && m.files[i].path in dir :: dir[m.files[i].path]
  }

  predicate SameFiles(m: Manifest, d0: Dir, d1: Dir) {
    forall i :: 0 <= i < |m.files| ==>
      var p := m.files[i].path;
      p in d0 && p in d1 && d0[p] == d1[p]
  }

  /** Two directories that pass the check against one manifest hold the same files. */
  lemma VerifiedDetermines(h: Hashes, m: Manifest, d0: Dir, d1: Dir)
    requires Verified(h, m, d0) && Verified(h, m, d1)
    requires CollisionFree(h.sha256, Contents(m, d0) + Contents(m, d1))
    ensures SameFiles(m, d0, d1)
  {
    forall i | 0 <= i < |m.files|
      ensures d0[m.files[i].path] == d1[m.files[i].path]
    {
      var f := m.files[i];
      assert Matches(h, f, d0) && Matches(h, f, d1);
      HexInjective(h.sha256(d0[f.path]), h.sha256(d1[f.path]));
      assert d0[f.path] in Contents(m, d0) && d1[f.path] in Contents(m, d1);
    }
  }

  /** The digest pins the manifest, so whoever verifies a directory against a
      manifest with the pinned digest holds the files it was made from. */
  lemma PinnedDigestDetermines(h: Hashes, json: Json, m0: Manifest, d0: Dir, m: Manifest, d: Dir)
    requires json.Inverts() && Valid(m0) && Valid(m)
    requires Digest(h, json, m) == Digest(h, json, m0)
    requires Verified(h, m0, d0) && Verified(h, m, d)
    requires CollisionFree(h.sha256, {json.encode(m0), json.encode(m)})
    requires CollisionFree(h.sha256, Contents(m0, d0) + Contents(m0, d))
    ensures m == m0 && SameFiles(m0, d0, d)
  {
    HexInjective(h.sha256(json.encode(m)), h.sha256(json.encode(m0)));
    assert json.decode(json.encode(m)) == Some(m) && json.decode(json.encode(m0)) == Some(m0);
    VerifiedDetermines(h, m0, d0, d);
  }
}

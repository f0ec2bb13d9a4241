/** The infohash and the manifest pin the same files: what the metainfo
    layout gives, and how the two integrity checks agree. */
module Infohash {
  import opened Text
  import opened Hashing
  import opened Manifest
  import opened Builder
  import Bencode

  // ---- Piece layout ----

  function Flatten(pieces: seq<Bytes>): Bytes {
    if pieces == [] then "" else pieces[0] + Flatten(pieces[1..])
  }

  lemma {:induction false} FlattenFirst(first: Bytes, rest: seq<Bytes>)
    ensures Flatten([first] + rest) == first + Flatten(rest)
  {
    assert ([first] + rest)[1..] == rest;
  }

  /** The pieces are the data, cut without loss. */
  lemma {:induction false} PiecesCover(s: Bytes, n: nat)
    requires n > 0
    ensures Flatten(Pieces(s, n)) == s
    decreases |s|
  {
    if |s| > n {
      var (first, rest) := (s[..n], s[n..]);
      PiecesCover(rest, n);
      FlattenFirst(first, Pieces(rest, n));
      assert s == first + rest;
    } else if s != "" {
      FlattenFirst(s, []);
    }
  }

  /** Every piece is full but the last, which is not empty; so there are
      ceil(|s| / n) of them, and their lengths sum to |s|. */
  lemma {:induction false} PieceLayout(s: Bytes, n: nat)
    requires n > 0
    ensures var k := |Pieces(s, n)|;
      && (k == 0 <==> s == "")
      && (s != "" ==> (k - 1) * n < |s| <= k * n && |Pieces(s, n)[k - 1]| == |s| - (k - 1) * n)
      && forall i :: 0 <= i < k - 1 ==> |Pieces(s, n)[i]| == n
    decreases |s|
  {
    if |s| > n {
      PieceLayout(s[n..], n);
      var k := |Pieces(s[n..], n)|;
      assert Pieces(s, n)[1..] == Pieces(s[n..], n);
      assert k * n == (k - 1) * n + n && (k + 1) * n == k * n + n;
    }
  }

  lemma {:induction false} PieceHashesLength(h: Hashes, pieces: seq<Bytes>)
    ensures |PieceHashes(h, pieces)| == 20 * |pieces|
  {
    if pieces != [] {
      PieceHashesLength(h, pieces[1..]);
    }
  }

  lemma {:induction false} PieceHashesInjective(h: Hashes, p: seq<Bytes>, q: seq<Bytes>, inputs: set<Bytes>)
    requires PieceHashes(h, p) == PieceHashes(h, q)
    requires forall x :: x in p || x in q ==> x in inputs
    requires CollisionFree(h.sha1, inputs)
    ensures p == q
  {
    PieceHashesLength(h, p);
    PieceHashesLength(h, q);
    if p != [] {
      assert PieceHashes(h, p)[..20] == h.sha1(p[0]) && PieceHashes(h, p)[20..] == PieceHashes(h, p[1..]);
      assert PieceHashes(h, q)[..20] == h.sha1(q[0]) && PieceHashes(h, q)[20..] == PieceHashes(h, q[1..]);
      PieceHashesInjective(h, p[1..], q[1..], inputs);
      assert p == [p[0]] + p[1..] && q == [q[0]] + q[1..];
    }
  }

  // ---- The info dictionary determines the file list ----

  lemma {:induction false} PathItemsInjective(p: seq<Bytes>, q: seq<Bytes>)
    requires PathItems(p) == PathItems(q)
    ensures p == q
  {
    if p != [] && q != [] {
      assert PathItems(p)[0] == PathItems(q)[0] && PathItems(p)[1..] == PathItems(q)[1..];
      PathItemsInjective(p[1..], q[1..]);
      assert p == [p[0]] + p[1..] && q == [q[0]] + q[1..];
    }
  }

  lemma {:induction false} FileValuesInjective(f: seq<FileInfo>, g: seq<FileInfo>)
    requires FileValues(f) == FileValues(g)
    ensures f == g
  {
    if f != [] && g != [] {
      assert FileValues(f)[0] == FileValues(g)[0] && FileValues(f)[1..] == FileValues(g)[1..];
      var (a, b) := (FileValue(f[0]).entries, FileValue(g[0]).entries);
      assert a[0] == b[0] && a[1] == b[1];
      PathItemsInjective(f[0].path, g[0].path);
      FileValuesInjective(f[1..], g[1..]);
      assert f == [f[0]] + f[1..] && g == [g[0]] + g[1..];
    }
  }

  lemma InfoBytesInjective(a: Info, b: Info)
    requires InfoBytes(a) == InfoBytes(b)
    ensures a == b
  {
    Bencode.PrintInjective(InfoValue(a), InfoValue(b));
    var (x, y) := (InfoValue(a).entries, InfoValue(b).entries);
    assert x[0] == y[0] && x[1] == y[1] && x[2] == y[2] && x[3] == y[3];
    FileValuesInjective(a.files, b.files);
  }

  // ---- The infohash determines the contents ----

  /** Same paths and sizes in the same order. */
  predicate SameListing(f: seq<File>, g: seq<File>) {
    && |f| == |g|
    && forall i :: 0 <= i < |f| ==> f[i].path == g[i].path && f[i].size == g[i].size
  }

  lemma {:induction false} ListingOfInfos(f: seq<File>, g: seq<File>)
    ensures FileInfos(f) == FileInfos(g) <==> SameListing(f, g)
  {
    if FileInfos(f) == FileInfos(g) {
      forall i | 0 <= i < |f|
        ensures f[i].path == g[i].path && f[i].size == g[i].size
      {
        assert FileInfos(f)[i] == InfoOfFile(f[i]) && FileInfos(g)[i] == InfoOfFile(g[i]);
        JoinSplit(f[i].path, '/');
        JoinSplit(g[i].path, '/');
      }
    }
    if SameListing(f, g) {
      assert forall i :: 0 <= i < |f| ==> FileInfos(f)[i] == FileInfos(g)[i];
    }
  }

  /** Every listed file has the same bytes in both directories. */
  predicate SameContents(files: seq<File>, d1: Dir, d2: Dir) {
    forall i :: 0 <= i < |files| ==>
      files[i].path in d1 && files[i].path in d2 && d1[files[i].path] == d2[files[i].path]
  }

  /** A concatenation determines its parts once their lengths are known. */
  lemma {:induction false} JoinedDetermines(f: seq<File>, d1: Dir, g: seq<File>, d2: Dir)
    requires SameListing(f, g) && AllSized(f, d1) && AllSized(g, d2)
    ensures Joined(f, d1) == Joined(g, d2) <==> SameContents(f, d1, d2)
  {
    if f != [] {
      assert Sized(f[0], d1) && Sized(g[0], d2);
      assert SameListing(f[1..], g[1..]);
      JoinedDetermines(f[1..], d1, g[1..], d2);
      var p := f[0].path;
      var (a, b) := (Joined(f, d1), Joined(g, d2));
      assert a[..|d1[p]|] == d1[p] && a[|d1[p]|..] == Joined(f[1..], d1);
      assert b[..|d2[p]|] == d2[p] && b[|d2[p]|..] == Joined(g[1..], d2);
      assert SameContents(f, d1, d2) <==> d1[p] == d2[p] && SameContents(f[1..], d1, d2) by {
        assert f == [f[0]] + f[1..];
      }
    }
  }

  /** What building the metainfo of m over dir feeds to sha1. */
  function Sha1Inputs(h: Hashes, m: Manifest, dir: Dir): set<Bytes> {
    if !ValidContent(m) || !AllSized(m.files, dir) then {} else
      ConcatenationOf(m.files, dir);
      {InfoBytes(InfoOf(h, m, dir).value)}
        + set p | p in Pieces(Joined(m.files, dir), m.pieceLength)
  }

  /** Metainfo agrees exactly when name, piece length, listing and contents do. */
  lemma InfoDetermines(h: Hashes, m1: Manifest, d1: Dir, m2: Manifest, d2: Dir)
    requires ValidContent(m1) && ValidContent(m2)
    requires AllSized(m1.files, d1) && AllSized(m2.files, d2)
    requires CollisionFree(h.sha1, Sha1Inputs(h, m1, d1) + Sha1Inputs(h, m2, d2))
    ensures InfoOf(h, m1, d1).Some? && InfoOf(h, m2, d2).Some?
    ensures InfoHash(h, InfoOf(h, m1, d1).value) == InfoHash(h, InfoOf(h, m2, d2).value) <==>
      && TorrentName(m1.model) == TorrentName(m2.model)
      && m1.pieceLength == m2.pieceLength
      && SameListing(m1.files, m2.files)
      && SameContents(m1.files, d1, d2)
  {
    ConcatenationOf(m1.files, d1);
    ConcatenationOf(m2.files, d2);
    ListingOfInfos(m1.files, m2.files);
    var (a, b) := (InfoOf(h, m1, d1).value, InfoOf(h, m2, d2).value);
    var (s, t) := (Joined(m1.files, d1), Joined(m2.files, d2));
    if SameListing(m1.files, m2.files) {
      JoinedDetermines(m1.files, d1, m2.files, d2);
    }
    if InfoHash(h, a) == InfoHash(h, b) {
      HexInjective(h.sha1(InfoBytes(a)), h.sha1(InfoBytes(b)));
      InfoBytesInjective(a, b);
      PieceHashesInjective(h, Pieces(s, m1.pieceLength), Pieces(t, m2.pieceLength),
                           Sha1Inputs(h, m1, d1) + Sha1Inputs(h, m2, d2));
      PiecesCover(s, m1.pieceLength);
      PiecesCover(t, m2.pieceLength);
    }
  }

  lemma VerifiedIsSized(h: Hashes, m: Manifest, dir: Dir)
    requires Verified(h, m, dir)
    ensures AllSized(m.files, dir)
  {
    forall i | 0 <= i < |m.files|
      ensures Sized(m.files[i], dir)
    {
      assert Matches(h, m.files[i], dir);
    }
  }

  /** Two manifests built by Create share an infohash exactly when the repo
      names, the listings and the contents agree: the owner, the revision and
      the time of creation do not matter, and nothing else can. */
  lemma InfohashDeterminesContent(h: Hashes, m1: Manifest, e1: seq<File>, d1: Dir,
                                  m2: Manifest, e2: seq<File>, d2: Dir)
    requires BuiltFrom(h, m1, e1, d1) && BuiltFrom(h, m2, e2, d2)
    requires CollisionFree(h.sha1, Sha1Inputs(h, m1, d1) + Sha1Inputs(h, m2, d2))
    ensures m1.infoHash == m2.infoHash <==>
      && TorrentName(m1.model) == TorrentName(m2.model)
      && SameListing(e1, e2)
      && SameContents(e1, d1, d2)
  {
    VerifiedIsSized(h, m1, d1);
    VerifiedIsSized(h, m2, d2);
    InfoDetermines(h, m1, d1, m2, d2);
    assert SameListing(m1.files, m2.files) <==> SameListing(e1, e2) by {
      assert SameListing(m1.files, e1) && SameListing(m2.files, e2);
    }
    assert forall i :: 0 <= i < |e1| ==> m1.files[i].path == e1[i].path;
  }

  /** For a manifest built by Create, the per-file check and the piece-level
      check accept the same directories, once the sizes are as listed. */
  lemma ChecksAgree(h: Hashes, m: Manifest, entries: seq<File>, d0: Dir, d: Dir)
    requires BuiltFrom(h, m, entries, d0)
    requires CollisionFree(h.sha256, Contents(m, d0) + Contents(m, d))
    requires CollisionFree(h.sha1, Sha1Inputs(h, m, d0) + Sha1Inputs(h, m, d))
    ensures Verified(h, m, d) <==> AllSized(m.files, d) && Torrent(h, m, d).Some?
  {
    VerifiedIsSized(h, m, d0);
    if Verified(h, m, d) {
      VerifiedIsSized(h, m, d);
      VerifiedDetermines(h, m, d0, d);
    }
    if AllSized(m.files, d) {
      RebuildsFromSame(h, m, d0, d);
      if SameContents(m.files, d0, d) {
        SameContentsVerify(h, m, d0, d);
      }
    }
  }

  /** A sized directory rebuilds to the pinned infohash exactly when it holds the same contents. */
  lemma RebuildsFromSame(h: Hashes, m: Manifest, d0: Dir, d: Dir)
    requires ValidContent(m) && AllSized(m.files, d0) && AllSized(m.files, d)
    requires InfoOf(h, m, d0).Some? && m.infoHash == InfoHash(h, InfoOf(h, m, d0).value)
    requires CollisionFree(h.sha1, Sha1Inputs(h, m, d0) + Sha1Inputs(h, m, d))
    ensures Torrent(h, m, d).Some? <==> SameContents(m.files, d0, d)
  {
    InfoDetermines(h, m, d0, m, d);
    assert SameListing(m.files, m.files);
  }

  lemma SameContentsVerify(h: Hashes, m: Manifest, d0: Dir, d: Dir)
    requires Verified(h, m, d0) && AllSized(m.files, d0) && AllSized(m.files, d)
    requires SameContents(m.files, d0, d)
    ensures Verified(h, m, d)
  {
    forall i | 0 <= i < |m.files|
      ensures Matches(h, m.files[i], d)
    {
      assert Matches(h, m.files[i], d0) && Sized(m.files[i], d);
    }
  }

  /** The number of pieces of a built manifest is its total size over the
      piece length, rounded up, and every one of them is hashed. */
  lemma PieceCount(h: Hashes, m: Manifest, entries: seq<File>, dir: Dir)
    requires BuiltFrom(h, m, entries, dir)
    ensures
      var k := |InfoOf(h, m, dir).value.pieces| / 20;
      && |InfoOf(h, m, dir).value.pieces| == 20 * k
      && (k - 1) * PIECE_LENGTH < TotalSize(m.files) <= k * PIECE_LENGTH
  {
    VerifiedIsSized(h, m, dir);
    ConcatenationOf(m.files, dir);
    JoinedLength(m.files, dir);
    HashedPieces(h, Joined(m.files, dir));
  }

  lemma {:induction false} HashedPieces(h: Hashes, s: Bytes)
    ensures var hashes := PieceHashes(h, Pieces(s, PIECE_LENGTH));
      var k := |hashes| / 20;
      |hashes| == 20 * k && (k - 1) * PIECE_LENGTH < |s| <= k * PIECE_LENGTH
  {
    PieceHashesLength(h, Pieces(s, PIECE_LENGTH));
    PieceLayout(s, PIECE_LENGTH);
  }

  lemma {:induction false} JoinedLength(files: seq<File>, dir: Dir)
    requires AllSized(files, dir)
    ensures |Joined(files, dir)| == TotalSize(files)
  {
    if files != [] {
      assert Sized(files[0], dir);
      JoinedLength(files[1..], dir);
    }
  }
}

/** What is in the info dictionary that is hashed, key by key and piece by piece, and in the torrent file around it. */
module Metainfo {
  import opened Text
  import opened Hashing
  import opened Manifest
  import opened Builder
  import opened Infohash
  import Bencode

  /** The j-th block of n bytes, the last one possibly short. */
  function Block(s: Bytes, n: nat, j: nat): Bytes
    requires j * n <= |s|
  {
    if j * n + n <= |s| then s[j * n..j * n + n] else s[j * n..]
  }

  lemma {:induction false} PieceAt(s: Bytes, n: nat, j: nat)
    requires n > 0 && j < |Pieces(s, n)|
    ensures j * n < |s| && Pieces(s, n)[j] == Block(s, n, j)
    decreases j
  {
    if |s| > n {
      assert Pieces(s, n) == [s[..n]] + Pieces(s[n..], n);
      if j > 0 {
        PieceAt(s[n..], n, j - 1);
        assert j * n == (j - 1) * n + n;
        BlockShifts(s, n, j);
      }
    }
  }

  lemma BlockShifts(s: Bytes, n: nat, j: nat)
    requires 0 < j && j * n <= |s| && n <= |s| && j * n == (j - 1) * n + n
    ensures Block(s[n..], n, j - 1) == Block(s, n, j)
  {}

  lemma {:induction false} HashAt(h: Hashes, pieces: seq<Bytes>, j: nat)
    requires j < |pieces|
    ensures |PieceHashes(h, pieces)| == 20 * |pieces|
    ensures PieceHashes(h, pieces)[20 * j..20 * j + 20] == h.sha1(pieces[j])
    decreases j
  {
    PieceHashesLength(h, pieces);
    if j > 0 {
      HashAt(h, pieces[1..], j - 1);
      var rest := PieceHashes(h, pieces[1..]);
      assert PieceHashes(h, pieces) == h.sha1(pieces[0]) + rest;
      assert (h.sha1(pieces[0]) + rest)[20 * j..20 * j + 20] == rest[20 * (j - 1)..20 * (j - 1) + 20];
    }
  }

  /** hashes is the sha1 of each block of data, in order. */
  predicate HashesOf(h: Hashes, hashes: Bytes, data: Bytes, n: nat)
    requires n > 0
  {
    var k := |hashes| / 20;
    && |hashes| == 20 * k && (k - 1) * n < |data| <= k * n
    && forall j: nat :: j < k ==> j * n <= |data| && hashes[20 * j..20 * j + 20] == h.sha1(Block(data, n, j))
  }

  lemma {:induction false} PiecesHashed(h: Hashes, data: Bytes, n: nat)
    requires n > 0
    ensures HashesOf(h, PieceHashes(h, Pieces(data, n)), data, n)
  {
    var pieces := Pieces(data, n);
    PieceLayout(data, n);
    PieceHashesLength(h, pieces);
    forall j: nat | j < |pieces|
      ensures j * n <= |data| && PieceHashes(h, pieces)[20 * j..20 * j + 20] == h.sha1(Block(data, n, j))
    {
      PieceAt(data, n, j);
      HashAt(h, pieces, j);
    }
  }

  /** The file's contents are the part of data between two offsets as far apart as its size. */
  predicate LaidAt(data: Bytes, from: nat, to: nat, f: File, dir: Dir) {
    f.path in dir && to == from + f.size && from <= to <= |data| && data[from..to] == dir[f.path]
  }

  /** data holds the contents of the files one after the other. */
  predicate Laid(data: Bytes, offsets: seq<nat>, files: seq<File>, dir: Dir) {
    && |offsets| == |files| + 1 && offsets[0] == 0 && offsets[|files|] == |data|
    && forall i, j :: 0 <= i < |files| && j == i + 1 ==> LaidAt(data, offsets[i], offsets[j], files[i], dir)
  }

  lemma {:induction false} ContentsLaid(files: seq<File>, dir: Dir) returns (offsets: seq<nat>)
    requires AllSized(files, dir)
    ensures Laid(Joined(files, dir), offsets, files, dir)
  {
    if files == [] {
      offsets := [0];
    } else {
      assert Sized(files[0], dir);
      var first := dir[files[0].path];
      var later := ContentsLaid(files[1..], dir);
      offsets := OneMoreLaid(first, Joined(files[1..], dir), later, files, dir);
    }
  }

  lemma OneMoreLaid(first: Bytes, rest: Bytes, later: seq<nat>, files: seq<File>, dir: Dir)
    returns (offsets: seq<nat>)
    requires files != [] && Sized(files[0], dir) && first == dir[files[0].path]
    requires Laid(rest, later, files[1..], dir)
    ensures Laid(first + rest, offsets, files, dir)
  {
    offsets := [0] + seq(|later|, i requires 0 <= i < |later| => later[i] + |first|);
    forall i, j | 0 <= i < |files| && j == i + 1
      ensures LaidAt(first + rest, offsets[i], offsets[j], files[i], dir)
    {
      if i > 0 {
        assert LaidAt(rest, later[i - 1], later[i], files[1..][i - 1], dir);
        Shifted(first, rest, later[i - 1], later[i], files[i], dir);
      } else {
        assert later[0] == 0 && (first + rest)[..|first|] == first;
      }
    }
  }

  lemma Shifted(first: Bytes, rest: Bytes, from: nat, to: nat, f: File, dir: Dir)
    requires LaidAt(rest, from, to, f, dir)
    ensures LaidAt(first + rest, from + |first|, to + |first|, f, dir)
  {
    assert (first + rest)[from + |first|..to + |first|] == rest[from..to];
  }

  /** The names are what lies between the slashes of the path. */
  predicate SegmentsOf(names: seq<Bytes>, path: Bytes) {
    && |names| > 0 && Join(names, '/') == path
    && forall j :: 0 <= j < |names| ==> '/' !in names[j]
  }

  /** items are those names, as strings. */
  predicate Names(items: seq<Bencode.Value>, names: seq<Bytes>) {
    |items| == |names| && forall j :: 0 <= j < |names| ==> items[j] == Bencode.Str(names[j])
  }

  lemma {:induction false} PathNames(path: seq<Bytes>)
    ensures Names(PathItems(path), path)
  {
    if path != [] {
      PathNames(path[1..]);
      assert PathItems(path) == [Bencode.Str(path[0])] + PathItems(path[1..]);
    }
  }

  /** The dictionary of one listed file: its length, and the segments of its path. */
  ghost predicate DescribesFile(v: Bencode.Value, f: File) {
    exists items, names ::
      && Names(items, names) && SegmentsOf(names, f.path)
      && v == Bencode.Dict([Bencode.Entry("length", Bencode.Int(f.size)), Bencode.Entry("path", Bencode.List(items))])
  }

  ghost predicate DescribeFiles(vs: seq<Bencode.Value>, files: seq<File>) {
    |vs| == |files| && forall i :: 0 <= i < |files| ==> DescribesFile(vs[i], files[i])
  }

  lemma OneDescribed(f: File)
    ensures DescribesFile(FileValue(InfoOfFile(f)), f)
  {
    var names := Split(f.path, '/');
    PathNames(names);
    JoinSplit(f.path, '/');
    SplitParts(f.path, '/');
    assert Names(PathItems(names), names) && SegmentsOf(names, f.path);
  }

  lemma {:induction false} AllDescribed(files: seq<File>)
    ensures DescribeFiles(FileValues(FileInfos(files)), files)
  {
    if files != [] {
      var vs := FileValues(FileInfos(files[1..]));
      AllDescribed(files[1..]);
      OneDescribed(files[0]);
      assert FileInfos(files)[1..] == FileInfos(files[1..]);
      assert FileValues(FileInfos(files)) == [FileValue(InfoOfFile(files[0]))] + vs;
      forall i | 0 <= i < |files|
        ensures DescribesFile(([FileValue(InfoOfFile(files[0]))] + vs)[i], files[i])
      {
        if i > 0 {
          assert files[1..][i - 1] == files[i] && DescribesFile(vs[i - 1], files[i]);
        }
      }
    }
  }

  /** The four keys of the dictionary and what is under them. */
  function InfoEntries(files: seq<Bencode.Value>, name: Bytes, pieceLength: int, pieces: Bytes): seq<Bencode.Entry> {
    [Bencode.Entry("files", Bencode.List(files)), Bencode.Entry("name", Bencode.Str(name)),
     Bencode.Entry("piece length", Bencode.Int(pieceLength)), Bencode.Entry("pieces", Bencode.Str(pieces))]
  }

  lemma KeysInOrder(files: seq<Bencode.Value>, name: Bytes, pieceLength: int, pieces: Bytes)
    ensures Bencode.KeysAscend(InfoEntries(files, name, pieceLength, pieces))
  {
    KeyNames();
    var entries := InfoEntries(files, name, pieceLength, pieces);
    assert entries[0].key == "files" && entries[1].key == "name";
    assert entries[2].key == "piece length" && entries[3].key == "pieces";
  }

  lemma KeyNames()
    ensures Less("files", "name") && Less("name", "piece length") && Less("piece length", "pieces")
  {
    assert "files"[0] == 'f' && "name"[0] == 'n' && "piece length"[0] == 'p';
    LessAfter("piece", " length", "s");
    assert "piece" + " length" == "piece length" && "piece" + "s" == "pieces";
  }

  lemma {:induction false} LessAfter(prefix: Bytes, a: Bytes, b: Bytes)
    requires a != "" && b != "" && a[0] < b[0]
    ensures Less(prefix + a, prefix + b)
  {
    if prefix == "" {
      assert "" + a == a && "" + b == b;
    } else {
      LessAfter(prefix[1..], a, b);
      assert (prefix + a)[1..] == prefix[1..] + a && (prefix + b)[1..] == prefix[1..] + b;
    }
  }

  /** A created manifest pins the sha1 of one bencoded dictionary: its name is
      the repo, its pieces are the hashes of the 4 MiB blocks of the listed
      files laid one after the other, its files list their lengths and path
      segments in order. The torrent file holds just this dictionary. */
  lemma InfoDictionary(h: Hashes, m: Manifest, entries: seq<File>, dir: Dir, owner: Bytes, repo: Bytes)
    returns (text: Bytes, files: seq<Bencode.Value>, hashes: Bytes, data: Bytes, offsets: seq<nat>)
    requires BuiltFrom(h, m, entries, dir)
    requires m.model == owner + "/" + repo && '/' !in owner
    ensures m.infoHash == Hex(h.sha1(text)) && Torrent(h, m, dir) == Some("d4:info" + text + "e")
    ensures var dict := InfoEntries(files, repo, 4194304, hashes);
      Bencode.ParseValue(text) == Bencode.Got(Bencode.Dict(dict), "") && Bencode.KeysAscend(dict)
    ensures DescribeFiles(files, m.files)
    ensures Laid(data, offsets, m.files, dir) && HashesOf(h, hashes, data, 4194304)
  {
    var info := InfoOf(h, m, dir).value;
    VerifiedIsSized(h, m, dir);
    ConcatenationOf(m.files, dir);
    text, files, hashes, data := InfoBytes(info), FileValues(info.files), info.pieces, Joined(m.files, dir);
    offsets := ContentsLaid(m.files, dir);
    PiecesHashed(h, data, PIECE_LENGTH);
    AllDescribed(m.files);
    CutAppend(owner, '/', repo);
    assert owner + "/" + repo == owner + ['/'] + repo;
    Bencode.ParsePrint(InfoValue(info), "");
    assert text + "" == text;
    KeysInOrder(files, repo, PIECE_LENGTH, hashes);
    TorrentAround(info);
  }

  lemma TorrentAround(info: Info)
    ensures TorrentBytes(info) == "d4:info" + InfoBytes(info) + "e"
  {
    var entries := [Bencode.Entry("info", InfoValue(info))];
    assert entries[1..] == [];
    assert Bencode.Decimal(4) == "4";
    assert Bencode.PrintEntries(entries) == "4:info" + InfoBytes(info);
  }
}

/** Where a path lands: the joining and cleaning of paths, and what the store
    keeps at the places below its root. */
module Layout {
  import opened Text
  import opened Hashing
  import Manifest

  const MODEL_MANIFEST := ".llmp2p-manifest.json"
  const PART := ".llmp2p.part"

  /** An absolute, clean path, segment by segment. */
  type Path = seq<Bytes>

  /** filepath.Clean: empty and "." segments vanish, ".." takes back the last
      one and nothing at the top. */
  function Walk(at: Path, segments: seq<Bytes>): Path
    decreases |segments|
  {
    if segments == [] then at else
      var (first, rest) := (segments[0], segments[1..]);
      if first == "" || first == "." then Walk(at, rest)
      else if first == ".." then Walk(if at == [] then [] else at[..|at| - 1], rest)
      else Walk(at + [first], rest)
  }

  /** filepath.Join of a clean path and a slash path. */
  function Land(at: Path, p: Bytes): Path {
    Walk(at, Split(p, '/'))
  }

  /** The directory of an owner, and of a model: owner, then repo. */
  function OwnerHome(root: Path, id: Bytes): Path {
    root + ["store", Cut(id, '/').0]
  }

  function Home(root: Path, id: Bytes): Path {
    OwnerHome(root, id) + [Cut(id, '/').1]
  }

  // ---- What is kept where ----

  /** The files the store knows; any other file is named by its path. */
  datatype Place =
    | InModel(id: Bytes, path: Bytes)
    | Copy(digest: Bytes)
    | Signature(digest: Bytes)
    | TorrentFile(infoHash: Bytes)
    | IndexFile
    | Other(at: Path)

  /** What precedes a suffix. */
  function Stem(name: Bytes, suffix: Bytes): Option<Bytes> {
    if |name| >= |suffix| && name[|name| - |suffix|..] == suffix then Some(name[..|name| - |suffix|]) else None
  }

  predicate IsStem(stem: Option<Bytes>, n: nat) {
    stem.Some? && IsHex(stem.value, n)
  }

  function PlaceOf(root: Path, at: Path): Place {
    if !(root <= at) then Other(at) else
      var rel := at[|root|..];
      if |rel| >= 4 && rel[0] == "store" then InModel(rel[1] + ['/'] + rel[2], Join(rel[3..], '/'))
      else if rel == ["index.json"] then IndexFile
      else if |rel| == 2 && rel[0] == "manifests" && IsStem(Stem(rel[1], ".json"), 64) then
        Copy(Stem(rel[1], ".json").value)
      else if |rel| == 2 && rel[0] == "manifests" && IsStem(Stem(rel[1], ".sig"), 64) then
        Signature(Stem(rel[1], ".sig").value)
      else if |rel| == 2 && rel[0] == "torrents" && IsStem(Stem(rel[1], ".torrent"), 40) then
        TorrentFile(Stem(rel[1], ".torrent").value)
      else Other(at)
  }

  /** The part file next to a file. */
  function PartOf(at: Path): Path {
    if at == [] then [PART] else at[..|at| - 1] + [at[|at| - 1] + PART]
  }

  /** Where the file p of a model lands. */
  function Landing(root: Path, id: Bytes, p: Bytes): Place {
    PlaceOf(root, Land(Home(root, id), p))
  }

  /** Where its part file lands. */
  function PartLanding(root: Path, id: Bytes, p: Bytes): Place {
    PlaceOf(root, PartOf(Land(Home(root, id), p)))
  }

  predicate Inside(place: Place, id: Bytes) {
    place.InModel? && place.id == id
  }

  /** A place whose content the rest of the store relies on. */
  predicate Telling(place: Place) {
    || place.Copy? || place.TorrentFile? || place.IndexFile?
    || (place.InModel? && place.path == MODEL_MANIFEST)
  }

  // ---- Places are files ----

  /** Which file each place is. */
  lemma PlacesNamed(root: Path, name: Bytes)
    ensures PlaceOf(root, root + ["index.json"]) == IndexFile
    ensures IsHex(name, 64) ==>
      && PlaceOf(root, root + ["manifests", name + ".json"]) == Copy(name)
      && PlaceOf(root, root + ["manifests", name + ".sig"]) == Signature(name)
    ensures IsHex(name, 40) ==> PlaceOf(root, root + ["torrents", name + ".torrent"]) == TorrentFile(name)
  {
    Below(root, ["index.json"]);
    Below(root, ["manifests", name + ".json"]);
    Below(root, ["manifests", name + ".sig"]);
    Below(root, ["torrents", name + ".torrent"]);
    StemOf(name, ".json");
    StemOf(name, ".torrent");
    StemOf(name, ".sig");
    NotJson(name);
  }

  lemma Below(root: Path, rel: Path)
    ensures root <= root + rel && (root + rel)[|root|..] == rel
  {}

  lemma StemOf(name: Bytes, suffix: Bytes)
    ensures Stem(name + suffix, suffix) == Some(name)
  {
    assert (name + suffix)[|name|..] == suffix && (name + suffix)[..|name|] == name;
  }

  lemma NotJson(name: Bytes)
    ensures Stem(name + ".sig", ".json").None?
  {
    var whole := name + ".sig";
    assert whole[|whole| - 1] == 'g';
    if |whole| >= 5 {
      assert whole[|whole| - 5..][4] == 'g';
    }
  }

  /** A name as it can occur in a clean path. */
  predicate CleanNames(at: Path) {
    forall i :: 0 <= i < |at| ==> '/' !in at[i]
  }

  /** Wherever a path lands from a clean one, it is clean: no slash and no dot name is left. */
  lemma LandsClean(at: Path, p: Bytes)
    requires CleanNames(at) && Plain(at)
    ensures CleanNames(Land(at, p)) && Plain(Land(at, p))
  {
    SplitParts(p, '/');
    WalkClean(at, Split(p, '/'));
  }

  lemma {:induction false} WalkClean(at: Path, segments: seq<Bytes>)
    requires CleanNames(at) && Plain(at) && CleanNames(segments)
    ensures CleanNames(Walk(at, segments)) && Plain(Walk(at, segments))
    decreases |segments|
  {
    if segments != [] {
      var (first, rest) := (segments[0], segments[1..]);
      if first == "" || first == "." {
        WalkClean(at, rest);
      } else if first == ".." {
        WalkClean(if at == [] then [] else at[..|at| - 1], rest);
      } else {
        WalkClean(at + [first], rest);
      }
    }
  }

  lemma StemBack(name: Bytes, suffix: Bytes)
    ensures Stem(name, suffix).Some? ==> name == Stem(name, suffix).value + suffix
  {}

  lemma {:induction false} JoinInjective(a: seq<Bytes>, b: seq<Bytes>)
    requires |a| > 0 && |b| > 0 && CleanNames(a) && CleanNames(b) && Join(a, '/') == Join(b, '/')
    ensures a == b
  {
    SplitJoin(a, '/');
    SplitJoin(b, '/');
  }

  lemma IdInjective(owner: Bytes, repo: Bytes, owner': Bytes, repo': Bytes)
    requires '/' !in owner && '/' !in owner' && owner + ['/'] + repo == owner' + ['/'] + repo'
    ensures owner == owner' && repo == repo'
  {
    CutAppend(owner, '/', repo);
    CutAppend(owner', '/', repo');
  }

  /** What a place of a model says about the path below the root. */
  lemma ModelRel(rel: Path, rel': Path)
    requires |rel| >= 4 && |rel'| >= 4 && rel[0] == rel'[0] && CleanNames(rel) && CleanNames(rel')
    requires rel[1] + ['/'] + rel[2] == rel'[1] + ['/'] + rel'[2] && Join(rel[3..], '/') == Join(rel'[3..], '/')
    ensures rel == rel'
  {
    IdInjective(rel[1], rel[2], rel'[1], rel'[2]);
    JoinInjective(rel[3..], rel'[3..]);
    assert rel == [rel[0], rel[1], rel[2]] + rel[3..] && rel' == [rel'[0], rel'[1], rel'[2]] + rel'[3..];
  }

  /** Below the root, a place other than a model's names its path. */
  lemma KeptRel(root: Path, rel: Path)
    ensures match PlaceOf(root, root + rel)
      case InModel(id, path) =>
        |rel| >= 4 && rel[0] == "store" && id == rel[1] + ['/'] + rel[2] && path == Join(rel[3..], '/')
      case Copy(digest) => rel == ["manifests", digest + ".json"]
      case Signature(digest) => rel == ["manifests", digest + ".sig"]
      case TorrentFile(infoHash) => rel == ["torrents", infoHash + ".torrent"]
      case IndexFile => rel == ["index.json"]
      case Other(at) => at == root + rel
  {
    Below(root, rel);
    if |rel| == 2 {
      PairNamed(rel);
    }
  }

  /** What precedes a suffix of the last of two names gives both back. */
  lemma PairNamed(rel: Path)
    requires |rel| == 2
    ensures forall suffix :: Stem(rel[1], suffix).Some? ==> rel == [rel[0], Stem(rel[1], suffix).value + suffix]
  {
    forall suffix | Stem(rel[1], suffix).Some?
      ensures rel == [rel[0], Stem(rel[1], suffix).value + suffix]
    {
      StemBack(rel[1], suffix);
    }
  }

  lemma BelowRoot(root: Path, at: Path)
    ensures !PlaceOf(root, at).Other? ==> root <= at && at == root + at[|root|..]
  {}

  /** No two files share a place, so what is written at one place is one file. */
  lemma PlacesApart(root: Path, a: Path, b: Path)
    requires CleanNames(a) && CleanNames(b) && PlaceOf(root, a) == PlaceOf(root, b)
    ensures a == b
  {
    if PlaceOf(root, a).Other? {
      OtherAt(root, a);
      OtherAt(root, b);
    } else {
      BelowRoot(root, a);
      BelowRoot(root, b);
      KeptRel(root, a[|root|..]);
      KeptRel(root, b[|root|..]);
      if PlaceOf(root, a).InModel? {
        ModelRel(a[|root|..], b[|root|..]);
      }
    }
  }

  // ---- Plain paths land where they say ----

  predicate Plain(segments: seq<Bytes>) {
    forall i :: 0 <= i < |segments| ==> Manifest.ValidSegment(segments[i])
  }

  lemma {:induction false} WalkPlain(at: Path, segments: seq<Bytes>)
    requires Plain(segments)
    ensures Walk(at, segments) == at + segments
    decreases |segments|
  {
    if segments != [] {
      WalkPlain(at + [segments[0]], segments[1..]);
      assert at + [segments[0]] + segments[1..] == at + segments;
    } else {
      assert at + segments == at;
    }
  }

  /** A model's home and what is plainly below it. */
  lemma {:induction false} PlaceInHome(root: Path, id: Bytes, segments: seq<Bytes>)
    requires Cut(id, '/').2 && segments != []
    ensures PlaceOf(root, Home(root, id) + segments) == InModel(id, Join(segments, '/'))
  {
    var (owner, repo, _) := Cut(id, '/');
    var at := Home(root, id) + segments;
    assert at == root + (["store", owner, repo] + segments);
    assert at[|root|..] == ["store", owner, repo] + segments;
    assert (["store", owner, repo] + segments)[3..] == segments;
    assert id == owner + ['/'] + repo;
  }

  /** Whatever the id, such a place is below some model and keeps its path. */
  lemma {:induction false} PlainPlace(root: Path, id: Bytes, segments: seq<Bytes>)
    requires segments != []
    ensures var place := PlaceOf(root, Home(root, id) + segments);
      place.InModel? && place.path == Join(segments, '/')
  {
    var (owner, repo, _) := Cut(id, '/');
    assert Home(root, id) + segments == root + (["store", owner, repo] + segments);
    assert (Home(root, id) + segments)[|root|..] == ["store", owner, repo] + segments;
    assert (["store", owner, repo] + segments)[3..] == segments;
  }

  /** What the manifest accepts as a path lands in the model directory, under that path. */
  lemma ValidLandsInside(root: Path, id: Bytes, p: Bytes)
    requires Cut(id, '/').2 && Manifest.ValidPath(p)
    ensures Landing(root, id, p) == InModel(id, p)
  {
    WalkPlain(Home(root, id), Split(p, '/'));
    PlaceInHome(root, id, Split(p, '/'));
    JoinSplit(p, '/');
  }

  lemma {:induction false} SplitFirst(first: Bytes, rest: Bytes)
    requires '/' !in first
    ensures Split(first + ['/'] + rest, '/') == [first] + Split(rest, '/')
  {
    IndexOfAppend(first, '/', rest);
    var whole := first + ['/'] + rest;
    assert whole[..|first|] == first && whole[|first| + 1..] == rest;
  }

  /** Files below an owner's directory under a plain name are those of the
      model with that repo name. */
  lemma NamedLandsInside(root: Path, id: Bytes, name: Bytes, p: Bytes)
    requires Cut(id, '/').2 && Plain([name]) && '/' !in name && Manifest.ValidPath(p)
    ensures PlaceOf(root, Land(OwnerHome(root, id), name + ['/'] + p)) == InModel(Cut(id, '/').0 + ['/'] + name, p)
  {
    var (owner, other) := (Cut(id, '/').0, Cut(id, '/').0 + ['/'] + name);
    SplitFirst(name, p);
    var segments := [name] + Split(p, '/');
    WalkPlain(OwnerHome(root, id), segments);
    CutAppend(owner, '/', name);
    assert OwnerHome(root, id) + segments == Home(root, other) + Split(p, '/');
    PlaceInHome(root, other, Split(p, '/'));
    JoinSplit(p, '/');
  }

  // ---- Other paths may not ----

  /** A path through the parent directory lands in another model of the owner. */
  lemma ClimbsOver(root: Path, id: Bytes, name: Bytes, p: Bytes)
    requires Cut(id, '/').2 && Plain([name]) && '/' !in name && Manifest.ValidPath(p)
    ensures Landing(root, id, "../" + name + ['/'] + p) == InModel(Cut(id, '/').0 + ['/'] + name, p)
  {
    assert "../" + name + ['/'] + p == "../" + (name + ['/'] + p);
    OneUp(root, id, name + ['/'] + p);
    NamedLandsInside(root, id, name, p);
  }

  lemma OneUp(root: Path, id: Bytes, p: Bytes)
    ensures Land(Home(root, id), "../" + p) == Land(OwnerHome(root, id), p)
  {
    SplitFirst("..", p);
    assert "../" + p == ".." + ['/'] + p;
    WalkFirst(Home(root, id), "..", Split(p, '/'));
    assert Home(root, id)[..|Home(root, id)| - 1] == OwnerHome(root, id);
  }

  lemma WalkFirst(at: Path, first: Bytes, rest: seq<Bytes>)
    ensures Walk(at, [first] + rest) ==
      if first == "" || first == "." then Walk(at, rest)
      else if first == ".." then Walk(if at == [] then [] else at[..|at| - 1], rest)
      else Walk(at + [first], rest)
  {
    assert ([first] + rest)[0] == first && ([first] + rest)[1..] == rest;
  }

  /** A leading "./" changes nothing about where a path lands. */
  lemma DotSlash(root: Path, id: Bytes, p: Bytes)
    ensures Landing(root, id, "./" + p) == Landing(root, id, p)
  {
    SplitFirst(".", p);
    assert "./" + p == "." + ['/'] + p;
    WalkFirst(Home(root, id), ".", Split(p, '/'));
  }

  // ---- Part files stay beside their files ----

  lemma {:induction false} JoinLast(parts: seq<Bytes>, c: char, suffix: Bytes)
    requires |parts| > 0
    ensures Join(parts[..|parts| - 1] + [parts[|parts| - 1] + suffix], c) == Join(parts, c) + suffix
  {
    var longer := parts[..|parts| - 1] + [parts[|parts| - 1] + suffix];
    if |parts| > 1 {
      JoinLast(parts[1..], c, suffix);
      assert longer[1..] == parts[1..][..|parts| - 2] + [parts[1..][|parts| - 2] + suffix];
      assert parts[0] + [c] + (Join(parts[1..], c) + suffix) == Join(parts, c) + suffix;
    }
  }

  /** A name ending like a part file is not one the store relies on. */
  lemma PartIsNoStem(name: Bytes, suffix: Bytes)
    requires 0 < |suffix| && suffix[|suffix| - 1] != 't'
    ensures Stem(name + PART, suffix).None?
  {
    var part := name + PART;
    assert part[|part| - 1] == PART[|PART| - 1] == 't';
    if |part| >= |suffix| {
      assert part[|part| - |suffix|..][|suffix| - 1] == part[|part| - 1];
    }
  }

  lemma PartIsNoTorrent(name: Bytes)
    ensures Stem(name + PART, ".torrent").None?
  {
    var part := name + PART;
    if |part| >= 8 {
      assert part[|part| - 8..][6] == part[|part| - 2] == PART[|PART| - 2] == 'r';
    }
  }

  /** The part file is in the same model, under the longer name, or it is a
      file the store does not know. */
  lemma PartPlace(root: Path, at: Path)
    ensures var (place, part) := (PlaceOf(root, at), PlaceOf(root, PartOf(at)));
      && (place.InModel? ==> part == InModel(place.id, place.path + PART))
      && (!place.InModel? ==> part.Other?)
      && !Telling(part)
  {
    var part := PartOf(at);
    if root <= part {
      var rel := part[|root|..];
      if at != [] && |root| < |at| {
        assert at[..|root|] == part[..|root|] == root;
        RelPart(root, at);
        PartOfRel(at[|root|..]);
      } else {
        assert |rel| <= 1;
        if |rel| == 1 {
          assert at == [] && rel == [PART];
        }
      }
    }
  }

  lemma PartDiffers(at: Path)
    ensures PartOf(at) != at
  {
    if at != [] {
      assert |PartOf(at)[|at| - 1]| == |at[|at| - 1]| + |PART|;
    }
  }

  lemma PartElsewhere(root: Path, at: Path)
    ensures PlaceOf(root, PartOf(at)) != PlaceOf(root, at)
  {
    var (place, part) := (PlaceOf(root, at), PlaceOf(root, PartOf(at)));
    PartPlace(root, at);
    if place.InModel? {
      assert |part.path| == |place.path| + |PART|;
    } else if place.Other? {
      PartDiffers(at);
      OtherAt(root, at);
      OtherAt(root, PartOf(at));
    }
  }

  lemma OtherAt(root: Path, at: Path)
    ensures var place := PlaceOf(root, at); place.Other? ==> place.at == at
  {}

  lemma RelPart(root: Path, at: Path)
    requires |root| < |at|
    ensures PartOf(at)[|root|..] == PartOf(at[|root|..])
  {}

  /** The same, below the root. */
  lemma PartOfRel(rel: Path)
    requires rel != []
    ensures var part := PartOf(rel);
      && |part| == |rel|
      && (|rel| >= 4 ==> part[..3] == rel[..3] && Join(part[3..], '/') == Join(rel[3..], '/') + PART)
      && part[|part| - 1] == rel[|rel| - 1] + PART
      && part != ["index.json"]
      && Stem(part[|part| - 1], ".json").None? && Stem(part[|part| - 1], ".sig").None?
      && Stem(part[|part| - 1], ".torrent").None?
      && (|rel| >= 4 ==> Join(part[3..], '/') != MODEL_MANIFEST)
  {
    var part := PartOf(rel);
    var last := rel[|rel| - 1];
    PartIsNoStem(last, ".json");
    PartIsNoStem(last, ".sig");
    PartIsNoTorrent(last);
    assert (last + PART)[|last + PART| - 1] == PART[|PART| - 1] == 't';
    if |rel| >= 4 {
      JoinLast(rel[3..], '/', PART);
      assert part[3..] == rel[3..][..|rel| - 4] + [rel[3..][|rel| - 4] + PART];
      PartIsNotPointer(Join(rel[3..], '/'));
    }
  }

  lemma PartIsNotPointer(p: Bytes)
    ensures p + PART != MODEL_MANIFEST
  {
    var part := p + PART;
    assert part[|part| - 1] == PART[|PART| - 1];
    assert MODEL_MANIFEST[|MODEL_MANIFEST| - 1] == 'n' && PART[|PART| - 1] == 't';
  }
}

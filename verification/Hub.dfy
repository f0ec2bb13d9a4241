/** The Hub's paginated file listing, sorted by path. */
module Hub {
  import opened Text
  import opened Manifest

  /** One artifact of a repo; oid is its published digest, empty for small files. */
  datatype HubFile = HubFile(path: Bytes, size: int, oid: Bytes)

  datatype TreeEntry = TreeEntry(isFile: bool, path: Bytes, size: int, oid: Bytes)

  /** One page of the listing, and whether it links to a next one. */
  datatype Page = Unreadable | Page(entries: seq<TreeEntry>, more: bool)

  function FilesOf(entries: seq<TreeEntry>): seq<HubFile> {
    if entries == [] then [] else
      FileOf(entries[0]) + FilesOf(entries[1..])
  }

  function FileOf(e: TreeEntry): seq<HubFile> {
    if e.isFile then [HubFile(e.path, e.size, e.oid)] else []
  }

  /** The files of all pages up to the first without a next one, in page order. */
  function Collected(pages: seq<Page>): Option<seq<HubFile>> {
    if pages == [] || pages[0].Unreadable? then None
    else if !pages[0].more then Some(FilesOf(pages[0].entries))
    else
      var rest := Collected(pages[1..]);
      if rest.None? then None else Some(FilesOf(pages[0].entries) + rest.value)
  }

  /** A listing that goes on from what was found before. */
  function Continued(found: seq<HubFile>, pages: seq<Page>): Option<seq<HubFile>> {
    var rest := Collected(pages);
    if rest.None? then None else Some(found + rest.value)
  }

  lemma OnePage(found: seq<HubFile>, pages: seq<Page>)
    requires pages != [] && pages[0].Page?
    ensures var now := found + FilesOf(pages[0].entries);
      Continued(found, pages) == if pages[0].more then Continued(now, pages[1..]) else Some(now)
  {
    if pages[0].more && Collected(pages[1..]).Some? {
      var rest := Collected(pages[1..]).value;
      assert found + (FilesOf(pages[0].entries) + rest) == found + FilesOf(pages[0].entries) + rest;
    }
  }

  /** The listing ends with page k: it is the first without a next one, and all up to it are readable. */
  predicate EndsAt(pages: seq<Page>, k: nat) {
    && k < |pages| && pages[k].Page? && !pages[k].more
    && forall j :: 0 <= j < k ==> pages[j].Page? && pages[j].more
  }

  /** All entries of readable pages, in order. */
  function Shown(pages: seq<Page>): seq<TreeEntry>
    requires forall j :: 0 <= j < |pages| ==> pages[j].Page?
  {
    if pages == [] then [] else pages[0].entries + Shown(pages[1..])
  }

  lemma {:induction false} FilesOfAppend(a: seq<TreeEntry>, b: seq<TreeEntry>)
    ensures FilesOf(a + b) == FilesOf(a) + FilesOf(b)
  {
    if a == [] {
      assert a + b == b;
    } else {
      FilesOfAppend(a[1..], b);
      assert (a + b)[0] == a[0] && (a + b)[1..] == a[1..] + b;
      Regrouped(FileOf(a[0]), FilesOf(a[1..]), FilesOf(b));
    }
  }

  lemma Regrouped(x: seq<HubFile>, y: seq<HubFile>, z: seq<HubFile>)
    ensures x + (y + z) == x + y + z
  {}

  /** The listing fails exactly when no page ends it; else it has the files of
      the pages up to that one, and of no other. */
  lemma {:induction false} CollectedExactly(pages: seq<Page>)
    ensures Collected(pages).Some? <==> exists k: nat :: EndsAt(pages, k)
    ensures forall k: nat :: EndsAt(pages, k) ==> Collected(pages) == Some(FilesOf(Shown(pages[..k + 1])))
  {
    if pages != [] && pages[0].Page? {
      if pages[0].more {
        CollectedExactly(pages[1..]);
        if k: nat :| EndsAt(pages[1..], k) {
          EndsLater(pages, k + 1);
        }
        forall k: nat | EndsAt(pages, k)
          ensures Collected(pages) == Some(FilesOf(Shown(pages[..k + 1])))
        {
          EndsLater(pages, k);
          assert pages[..k + 1][0] == pages[0] && pages[..k + 1][1..] == pages[1..][..k];
          FilesOfAppend(pages[0].entries, Shown(pages[1..][..k]));
        }
      } else {
        assert EndsAt(pages, 0);
        var entries := pages[0].entries;
        assert pages[..1] == [pages[0]] && pages[..1][1..] == [];
        assert entries + [] == entries;
      }
    }
  }

  lemma EndsLater(pages: seq<Page>, k: nat)
    requires pages != [] && pages[0].Page? && pages[0].more
    ensures EndsAt(pages, k) <==> k > 0 && EndsAt(pages[1..], k - 1)
  {
    if k > 0 && EndsAt(pages[1..], k - 1) {
      forall j | 0 <= j < k
        ensures pages[j].Page? && pages[j].more
      {
        assert j > 0 ==> pages[j] == pages[1..][j - 1];
      }
    }
    if EndsAt(pages, k) {
      assert forall j :: 0 <= j < k - 1 ==> pages[1..][j] == pages[j + 1];
    }
  }

  /** Where the listing has this file: an entry of type file with its path, size and digest. */
  function Positions(entries: seq<TreeEntry>, f: HubFile): set<nat> {
    set i: nat | i < |entries| && entries[i] == TreeEntry(true, f.path, f.size, f.oid)
  }

  lemma OnePosition(front: seq<TreeEntry>, last: TreeEntry, f: HubFile)
    ensures |Positions(front + [last], f)|
         == |Positions(front, f)| + if last == TreeEntry(true, f.path, f.size, f.oid) then 1 else 0
  {
    var n: nat := |front|;
    var found: set<nat> := if last == TreeEntry(true, f.path, f.size, f.oid) then {n} else {};
    forall i: nat
      ensures i in Positions(front + [last], f) <==> i in Positions(front, f) || i in found
    {
      assert i < n ==> (front + [last])[i] == front[i];
    }
    assert n !in Positions(front, f);
    assert Positions(front + [last], f) == Positions(front, f) + found;
  }

  /** Each file is kept as often as it is listed, and nothing but files is. */
  lemma {:induction false} FilesOfExactly(entries: seq<TreeEntry>, f: HubFile)
    ensures multiset(FilesOf(entries))[f] == |Positions(entries, f)|
  {
    if entries != [] {
      var (front, n) := (entries[..|entries| - 1], |entries| - 1);
      var last := entries[n];
      FilesOfExactly(front, f);
      assert entries == front + [last];
      FilesOfAppend(front, [last]);
      assert [last][1..] == [];
      OnePosition(front, last, f);
    }
  }

  predicate SortedByPath(files: seq<HubFile>) {
    forall i, j :: 0 <= i < j < |files| ==> !Less(files[j].path, files[i].path)
  }

  /** Puts f before the first file whose path is greater. */
  function Insert(f: HubFile, files: seq<HubFile>): (r: seq<HubFile>)
    ensures multiset(r) == multiset(files) + multiset{f}
  {
    if files == [] || Less(f.path, files[0].path) then [f] + files
    else
      assert files == [files[0]] + files[1..];
      [files[0]] + Insert(f, files[1..])
  }

  function Sort(files: seq<HubFile>): (r: seq<HubFile>)
    ensures multiset(r) == multiset(files)
  {
    if files == [] then [] else
      assert files == [files[0]] + files[1..];
      Insert(files[0], Sort(files[1..]))
  }

  lemma {:induction false} InsertSorted(f: HubFile, files: seq<HubFile>)
    requires SortedByPath(files)
    ensures SortedByPath(Insert(f, files))
  {
    var r := Insert(f, files);
    if files == [] {
    } else if Less(f.path, files[0].path) {
      forall j | 0 <= j < |files|
        ensures !Less(files[j].path, f.path)
      {
        if Less(files[j].path, f.path) {
          LessTransitive(files[j].path, f.path, files[0].path);
          LessTotal(files[j].path, files[0].path);
        }
      }
    } else {
      InsertSorted(f, files[1..]);
      forall x | x in r[1..]
        ensures !Less(x.path, files[0].path)
      {
        assert x in multiset(r[1..]) && multiset(r[1..]) == multiset(files[1..]) + multiset{f};
      }
    }
  }

  lemma {:induction false} SortSorts(files: seq<HubFile>)
    ensures SortedByPath(Sort(files))
  {
    if files != [] {
      SortSorts(files[1..]);
      InsertSorted(files[0], Sort(files[1..]));
    }
  }

  /** Follows the links, keeps the files, sorts them. */
  method ListTree(pages: seq<Page>) returns (files: Option<seq<HubFile>>)
    ensures files.Some? <==> Collected(pages).Some?
    ensures files.Some? ==>
      SortedByPath(files.value) && multiset(files.value) == multiset(Collected(pages).value)
  {
    var found: seq<HubFile> := [];
    var k := 0;
    assert pages[0..] == pages;
    assert Collected(pages).Some? ==> found + Collected(pages).value == Collected(pages).value;
    while true
      invariant 0 <= k <= |pages|
      invariant Collected(pages) == Continued(found, pages[k..])
      decreases |pages| - k
    {
      if k == |pages| || pages[k].Unreadable? {
        return None;
      }
      OnePage(found, pages[k..]);
      found := found + FilesOf(pages[k].entries);
      if !pages[k].more {
        SortSorts(found);
        return Some(Sort(found));
      }
      assert pages[k..][1..] == pages[k + 1..];
      k := k + 1;
    }
  }

  /** The first file with that path. */
  function FilterPath(files: seq<HubFile>, path: Bytes): seq<HubFile> {
    if files == [] then []
    else if files[0].path == path then [files[0]] else FilterPath(files[1..], path)
  }

  /** The i-th file has that path, and none before it. */
  predicate FirstWith(files: seq<HubFile>, path: Bytes, i: nat) {
    i < |files| && files[i].path == path && forall j :: 0 <= j < i ==> files[j].path != path
  }

  /** Asking for one file gives the first with that very path, and nothing exactly when there is none. */
  lemma {:induction false} FilterPathExactly(files: seq<HubFile>, path: Bytes)
    ensures FilterPath(files, path) == [] <==> forall i :: 0 <= i < |files| ==> files[i].path != path
    ensures forall i: nat :: FirstWith(files, path, i) ==> FilterPath(files, path) == [files[i]]
  {
    if files != [] && files[0].path != path {
      FilterPathExactly(files[1..], path);
      assert forall i :: 0 < i < |files| ==> files[i] == files[1..][i - 1];
      forall i: nat | FirstWith(files, path, i)
        ensures FilterPath(files, path) == [files[i]]
      {
        assert files[1..][i - 1] == files[i];
        assert forall j :: 0 <= j < i - 1 ==> files[1..][j] == files[j + 1];
        assert FirstWith(files[1..], path, i - 1);
      }
    }
  }

  function Entries(files: seq<HubFile>): (entries: seq<File>)
    ensures |entries| == |files|
    ensures forall i :: 0 <= i < |files| ==> entries[i] == File(files[i].path, files[i].size, "")
  {
    if files == [] then [] else [File(files[0].path, files[0].size, "")] + Entries(files[1..])
  }

  /** A sorted listing without repeated paths is in the order Create demands. */
  lemma {:induction false} ListingIsStrict(files: seq<HubFile>)
    requires SortedByPath(files)
    ensures StrictlySorted(Entries(files)) <==>
      forall i :: 0 < i < |files| ==> files[i - 1].path != files[i].path
  {
    forall i | 0 < i < |files|
      ensures Less(files[i - 1].path, files[i].path) <==> files[i - 1].path != files[i].path
    {
      LessTotal(files[i - 1].path, files[i].path);
    }
    if StrictlySorted(Entries(files)) {
      forall i | 0 < i < |files|
        ensures files[i - 1].path != files[i].path
      {
        assert Less(Entries(files)[i - 1].path, Entries(files)[i].path);
      }
    }
  }
}

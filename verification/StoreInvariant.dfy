/** What publications and removals, complete or stopped anywhere, keep true of
    the store, exactly when they do not, and what removing one model leaves alone. */
module StoreInvariant {
  import opened Text
  import opened Hashing
  import opened Manifest
  import opened Builder
  import opened Layout
  import opened Store
  import Index
  import Ref

  /** Every stored manifest sits under its own digest. */
  ghost predicate SelfNamed(h: Hashes, s: State, inputs: set<Bytes>) {
    forall d :: d in s.manifests ==> Hex(h.sha256(s.manifests[d])) == d && s.manifests[d] in inputs
  }

  /** A pointer's text is the canonical one of a manifest of that model whose
      content-addressed copy is stored. */
  predicate PointerGood(h: Hashes, json: Json, manifests: map<Bytes, Bytes>, id: Bytes, text: Bytes) {
    var m := Parse(json, text);
    && m.Some? && m.value.model == id
    && text == json.encode(m.value)
    && Digest(h, json, m.value) in manifests
    && manifests[Digest(h, json, m.value)] == text
  }

  /** The pointer of a model is there and good. */
  predicate PointerStored(h: Hashes, json: Json, s: State, id: Bytes) {
    MODEL_MANIFEST in DirOf(s, id) && PointerGood(h, json, s.manifests, id, DirOf(s, id)[MODEL_MANIFEST])
  }

  ghost predicate PointersStored(h: Hashes, json: Json, s: State) {
    forall id :: MODEL_MANIFEST in DirOf(s, id) ==> PointerStored(h, json, s, id)
  }

  /** An index entry leads to a stored manifest of its model with its infohash. */
  predicate EntryStored(json: Json, manifests: map<Bytes, Bytes>, k: Bytes, e: Index.Entry) {
    && Index.ValidEntry(e) && e.model == k
    && e.manifestSha256 in manifests
    && var m := Parse(json, manifests[e.manifestSha256]);
       m.Some? && m.value.infoHash == e.infoHash && m.value.model == k
  }

  predicate EntriesGood(json: Json, manifests: map<Bytes, Bytes>, listing: Option<Index.Entries>) {
    listing.Some? ==> forall k :: k in listing.value ==> EntryStored(json, manifests, k, listing.value[k])
  }

  predicate EntriesStored(json: Json, s: State) {
    EntriesGood(json, s.manifests, Listing(json, s.index))
  }

  /** A torrent file is named after the infohash of the info it carries. */
  ghost predicate NamedTorrent(h: Hashes, name: Bytes, content: Bytes) {
    exists info :: content == TorrentBytes(info) && InfoHash(h, info) == name
  }

  ghost predicate TorrentsNamed(h: Hashes, s: State) {
    forall t :: t in s.torrents ==> NamedTorrent(h, t, s.torrents[t])
  }

  ghost predicate Inv(h: Hashes, json: Json, s: State, inputs: set<Bytes>) {
    SelfNamed(h, s, inputs) && PointersStored(h, json, s) && EntriesStored(json, s) && TorrentsNamed(h, s)
  }

  /** The same, leaving aside the pointer of one model. */
  ghost predicate InvExcept(h: Hashes, json: Json, s: State, id: Bytes, inputs: set<Bytes>) {
    && SelfNamed(h, s, inputs) && EntriesStored(json, s) && TorrentsNamed(h, s)
    && forall other :: other != id && MODEL_MANIFEST in DirOf(s, other) ==> PointerStored(h, json, s, other)
  }

  predicate PointerOk(h: Hashes, json: Json, s: State, id: Bytes) {
    MODEL_MANIFEST in DirOf(s, id) ==> PointerStored(h, json, s, id)
  }

  lemma InvParts(h: Hashes, json: Json, s: State, id: Bytes, inputs: set<Bytes>)
    ensures Inv(h, json, s, inputs) <==> InvExcept(h, json, s, id, inputs) && PointerOk(h, json, s, id)
  {
    if InvExcept(h, json, s, id, inputs) && PointerOk(h, json, s, id) {
      forall other | MODEL_MANIFEST in DirOf(s, other)
        ensures PointerStored(h, json, s, other)
      {
        assert other == id || PointerStored(h, json, s, other);
      }
    }
  }

  // ---- Publication, whichever write fails ----

  /** t keeps the directories and the index of s, and all its manifest copies. */
  predicate Extends(s: State, t: State) {
    && t.dirs == s.dirs && t.index == s.index
    && forall d :: d in s.manifests ==> d in t.manifests && t.manifests[d] == s.manifests[d]
  }

  lemma ExtensionKeeps(h: Hashes, json: Json, s: State, t: State)
    requires Extends(s, t) && PointersStored(h, json, s) && EntriesStored(json, s)
    ensures PointersStored(h, json, t) && EntriesStored(json, t)
  {
    forall id | MODEL_MANIFEST in DirOf(t, id)
      ensures PointerStored(h, json, t, id)
    {
      assert DirOf(t, id) == DirOf(s, id) && PointerStored(h, json, s, id);
    }
    EntriesExtended(json, s, t);
  }

  lemma EntriesExtended(json: Json, s: State, t: State)
    requires t.index == s.index && EntriesStored(json, s)
    requires forall d :: d in s.manifests ==> d in t.manifests && t.manifests[d] == s.manifests[d]
    ensures EntriesStored(json, t)
  {}

  /** A self-named text is either new or the one that was there. */
  lemma CopyUnchanged(h: Hashes, s: State, digest: Bytes, content: Bytes, inputs: set<Bytes>)
    requires CollisionFree(h.sha256, inputs) && SelfNamed(h, s, inputs)
    requires Hex(h.sha256(content)) == digest && content in inputs
    ensures digest in s.manifests ==> s.manifests[digest] == content
  {
    if digest in s.manifests {
      assert s.manifests[digest] in inputs && Hex(h.sha256(s.manifests[digest])) == digest;
      HexInjective(h.sha256(s.manifests[digest]), h.sha256(content));
    }
  }

  /** So storing one adds to the copies at most. */
  lemma CopyAdded(h: Hashes, s: State, digest: Bytes, content: Bytes, inputs: set<Bytes>)
    requires CollisionFree(h.sha256, inputs) && SelfNamed(h, s, inputs)
    requires Hex(h.sha256(content)) == digest && content in inputs
    ensures var t := s.(manifests := s.manifests[digest := content]);
      Extends(s, t) && SelfNamed(h, t, inputs)
  {
    CopyUnchanged(h, s, digest, content, inputs);
  }

  lemma CopyExtends(h: Hashes, json: Json, s: State, m: Manifest, inputs: set<Bytes>)
    requires CollisionFree(h.sha256, inputs) && SelfNamed(h, s, inputs) && json.encode(m) in inputs
    ensures Extends(s, WithCopy(h, json, s, m)) && SelfNamed(h, WithCopy(h, json, s, m), inputs)
  {
    CopyAdded(h, s, Digest(h, json, m), json.encode(m), inputs);
  }

  lemma PointerExtended(h: Hashes, json: Json, before: map<Bytes, Bytes>, after: map<Bytes, Bytes>, id: Bytes,
                        text: Bytes)
    requires PointerGood(h, json, before, id, text)
    requires forall d :: d in before ==> d in after && after[d] == before[d]
    ensures PointerGood(h, json, after, id, text)
  {}

  lemma CopyKeepsExcept(h: Hashes, json: Json, s: State, id: Bytes, m: Manifest, inputs: set<Bytes>)
    requires CollisionFree(h.sha256, inputs)
    requires InvExcept(h, json, s, id, inputs) && json.encode(m) in inputs
    ensures InvExcept(h, json, WithCopy(h, json, s, m), id, inputs)
    ensures PointerOk(h, json, s, id) ==> PointerOk(h, json, WithCopy(h, json, s, m), id)
  {
    var t := WithCopy(h, json, s, m);
    CopyExtends(h, json, s, m, inputs);
    EntriesExtended(json, s, t);
    forall other | MODEL_MANIFEST in DirOf(s, other) && PointerStored(h, json, s, other)
      ensures DirOf(t, other) == DirOf(s, other) && PointerStored(h, json, t, other)
    {
      PointerExtended(h, json, s.manifests, t.manifests, other, DirOf(s, other)[MODEL_MANIFEST]);
    }
  }

  /** The pointer of a stored manifest is what it should be exactly when it is
      written under the manifest's own model. */
  lemma PointerWrittenOk(h: Hashes, json: Json, s: State, id: Bytes, m: Manifest, inputs: set<Bytes>)
    requires json.Inverts()
    requires InvExcept(h, json, s, id, inputs) && Valid(m) && HasCopy(h, json, s, m)
    ensures InvExcept(h, json, WithPointer(json, s, id, m), id, inputs)
    ensures PointerOk(h, json, WithPointer(json, s, id, m), id) <==> m.model == id
  {
    var t := WithPointer(json, s, id, m);
    assert json.decode(json.encode(m)) == Some(m);
    forall other | other != id && MODEL_MANIFEST in DirOf(t, other)
      ensures PointerStored(h, json, t, other)
    {
      assert DirOf(t, other) == DirOf(s, other) && PointerStored(h, json, s, other);
    }
    EntriesExtended(json, s, t);
  }

  lemma TorrentKeeps(h: Hashes, json: Json, s: State, m: Manifest, dir: Dir, inputs: set<Bytes>)
    requires Inv(h, json, s, inputs) && Torrent(h, m, dir).Some?
    ensures Inv(h, json, s.(torrents := s.torrents[m.infoHash := Torrent(h, m, dir).value]), inputs)
  {
    var t := s.(torrents := s.torrents[m.infoHash := Torrent(h, m, dir).value]);
    var info := InfoOf(h, m, dir).value;
    assert t.torrents[m.infoHash] == TorrentBytes(info) && InfoHash(h, info) == m.infoHash;
    ExtensionKeeps(h, json, s, t);
  }

  /** Also when the entry is refused. */
  lemma EntryKeeps(h: Hashes, json: Json, s: State, e: Index.Entry, inputs: set<Bytes>)
    requires json.Inverts() && Inv(h, json, s, inputs)
    requires e.manifestSha256 in s.manifests
    requires var m := Parse(json, s.manifests[e.manifestSha256]);
      m.Some? && m.value.infoHash == e.infoHash && m.value.model == e.model
    ensures Inv(h, json, WithEntry(json, s, e), inputs)
  {
    AddedGood(json, s.manifests, s.index, e);
    SamePointersOf(h, json, s, WithEntry(json, s, e));
  }

  /** The index with an entry reads back as the entries with it. */
  lemma WithReadsBack(json: Json, index: Option<Bytes>, e: Index.Entry)
    requires json.Inverts()
    ensures var (added, err) := Index.AddOutcome(EntriesOf(json, index), e);
      Listing(json, IndexWith(json, index, e)) == if err.Some? then Listing(json, index) else Some(added)
  {
    var (added, err) := Index.AddOutcome(EntriesOf(json, index), e);
    if err.None? {
      assert json.decodeIndex(json.encodeIndex(added)) == Some(added);
    }
  }

  lemma AddedGood(json: Json, manifests: map<Bytes, Bytes>, index: Option<Bytes>, e: Index.Entry)
    requires json.Inverts() && EntriesGood(json, manifests, Listing(json, index))
    requires Index.ValidEntry(e) ==> EntryStored(json, manifests, e.model, e)
    ensures EntriesGood(json, manifests, Listing(json, IndexWith(json, index, e)))
  {
    WithReadsBack(json, index, e);
    ParsedGood(json, manifests, index);
    if Index.ValidEntry(e) {
      OneMoreGood(json, manifests, EntriesOf(json, index), e);
    }
  }

  lemma OneMoreGood(json: Json, manifests: map<Bytes, Bytes>, entries: Index.Entries, e: Index.Entry)
    requires EntriesGood(json, manifests, Some(entries)) && EntryStored(json, manifests, e.model, e)
    ensures EntriesGood(json, manifests, Some(entries[e.model := e]))
  {}

  lemma ParsedGood(json: Json, manifests: map<Bytes, Bytes>, index: Option<Bytes>)
    requires EntriesGood(json, manifests, Listing(json, index))
    ensures EntriesGood(json, manifests, Some(EntriesOf(json, index)))
  {
    var (listing, entries) := (Listing(json, index), EntriesOf(json, index));
    forall k | k in entries
      ensures EntryStored(json, manifests, k, entries[k])
    {
      assert EntryStored(json, manifests, k, listing.value[k]);
    }
  }

  lemma SamePointersOf(h: Hashes, json: Json, s: State, t: State)
    requires t.dirs == s.dirs && t.manifests == s.manifests && PointersStored(h, json, s)
    ensures PointersStored(h, json, t)
  {
    forall id | MODEL_MANIFEST in DirOf(t, id)
      ensures PointerStored(h, json, t, id)
    {
      assert DirOf(t, id) == DirOf(s, id) && PointerStored(h, json, s, id);
    }
  }

  /** Nothing relies on signatures. */
  lemma SignatureKeeps(h: Hashes, json: Json, s: State, id: Bytes, m: Manifest, signature: Option<Bytes>,
                       inputs: set<Bytes>)
    requires InvExcept(h, json, s, id, inputs)
    ensures var t := WithSignature(h, json, s, m, signature);
      InvExcept(h, json, t, id, inputs) && (PointerOk(h, json, t, id) <==> PointerOk(h, json, s, id))
  {
    var t := WithSignature(h, json, s, m, signature);
    forall other
      ensures PointerOk(h, json, t, other) <==> PointerOk(h, json, s, other)
    {
      assert DirOf(t, other) == DirOf(s, other);
    }
    forall other | other != id && MODEL_MANIFEST in DirOf(t, other)
      ensures PointerStored(h, json, t, other)
    {
      assert PointerOk(h, json, t, other);
    }
    EntriesExtended(json, s, t);
  }

  predicate HasCopy(h: Hashes, json: Json, s: State, m: Manifest) {
    Digest(h, json, m) in s.manifests && s.manifests[Digest(h, json, m)] == json.encode(m)
  }

  /** The publication gets as far as writing the pointer. */
  predicate PointerWritten(id: Bytes, w: Writes) {
    Ref.ValidModelId(id) && w.failAt != 1 && w.failAt != 2
  }

  /** Whatever pointer was there before, the saved copy and pointer leave the
      invariant true exactly when the new pointer is under its own model, or,
      when it is not written, the old one is in order. */
  lemma SaveExactly(h: Hashes, json: Json, s: State, id: Bytes, m: Manifest, w: Writes, inputs: set<Bytes>)
    requires json.Inverts() && CollisionFree(h.sha256, inputs)
    requires InvExcept(h, json, s, id, inputs) && Valid(m) && json.encode(m) in inputs
    ensures var (saved, err) := SaveOutcome(h, json, s, id, m, w);
      && (err.None? <==> PointerWritten(id, w))
      && (err.None? ==> HasCopy(h, json, saved, m))
      && (Inv(h, json, saved, inputs)
          <==> if PointerWritten(id, w) then m.model == id else PointerOk(h, json, saved, id))
  {
    var saved := SaveOutcome(h, json, s, id, m, w).0;
    var copied := WithCopy(h, json, s, m);
    CopyKeepsExcept(h, json, s, id, m, inputs);
    PointerWrittenOk(h, json, copied, id, m, inputs);
    SignatureKeeps(h, json, WithPointer(json, copied, id, m), id, m, w.signature, inputs);
    InvParts(h, json, saved, id, inputs);
  }

  /** The torrent and the index entry change no pointer. */
  lemma SeedKeepsDirs(h: Hashes, json: Json, s: State, id: Bytes, m: Manifest, whole: bool, now: int, w: Writes)
    requires SaveOutcome(h, json, s, id, m, w).1.None?
    ensures var saved := SaveOutcome(h, json, s, id, m, w).0;
      PublishOutcome(h, json, s, id, m, whole, now, w).0.dirs == saved.dirs
  {
    SeedStays(h, SaveOutcome(h, json, s, id, m, w).0, id, m, w);
  }

  lemma SeedKeeps(h: Hashes, json: Json, saved: State, id: Bytes, m: Manifest, w: Writes, inputs: set<Bytes>)
    requires Inv(h, json, saved, inputs)
    ensures Inv(h, json, SeedOutcome(h, saved, id, m, w).0, inputs)
  {
    if SeedOutcome(h, saved, id, m, w).1.None? {
      TorrentKeeps(h, json, saved, m, DirOf(saved, id), inputs);
    }
  }

  lemma SavedPublishKeeps(h: Hashes, json: Json, s: State, id: Bytes, m: Manifest, whole: bool, now: int,
                          w: Writes, inputs: set<Bytes>)
    requires json.Inverts() && Valid(m) && m.model == id
    requires var (saved, err) := SaveOutcome(h, json, s, id, m, w);
      err.None? && Inv(h, json, saved, inputs) && HasCopy(h, json, saved, m)
    ensures Inv(h, json, PublishOutcome(h, json, s, id, m, whole, now, w).0, inputs)
  {
    var saved := SaveOutcome(h, json, s, id, m, w).0;
    SeedKeeps(h, json, saved, id, m, w, inputs);
    var (seeded, err) := SeedOutcome(h, saved, id, m, w);
    if err.None? {
      SeededKeeps(h, saved, id, m, w);
      assert json.decode(json.encode(m)) == Some(m);
      EntryKeeps(h, json, seeded, IndexEntry(id, m, Digest(h, json, m), TotalSize(m.files), now), inputs);
    }
  }

  /** A publication, complete or stopped at any write, and whatever pointer it
      found, ends with the invariant true in exactly these cases. */
  lemma PublishExactly(h: Hashes, json: Json, s: State, id: Bytes, m: Manifest, whole: bool, now: int,
                       w: Writes, inputs: set<Bytes>)
    requires json.Inverts() && CollisionFree(h.sha256, inputs)
    requires InvExcept(h, json, s, id, inputs) && Valid(m) && json.encode(m) in inputs
    ensures Inv(h, json, PublishOutcome(h, json, s, id, m, whole, now, w).0, inputs)
       <==> if PointerWritten(id, w) then m.model == id
            else PointerOk(h, json, SaveOutcome(h, json, s, id, m, w).0, id)
  {
    SaveExactly(h, json, s, id, m, w, inputs);
    var (saved, err) := SaveOutcome(h, json, s, id, m, w);
    if err.None? && m.model == id {
      SavedPublishKeeps(h, json, s, id, m, whole, now, w, inputs);
    } else if err.None? {
      WrongModelBreaks(h, json, s, id, m, whole, now, w, inputs);
    }
  }

  lemma WrongModelBreaks(h: Hashes, json: Json, s: State, id: Bytes, m: Manifest, whole: bool, now: int,
                         w: Writes, inputs: set<Bytes>)
    requires json.Inverts() && Valid(m) && m.model != id
    requires SaveOutcome(h, json, s, id, m, w).1.None?
    ensures !Inv(h, json, PublishOutcome(h, json, s, id, m, whole, now, w).0, inputs)
  {
    var t := PublishOutcome(h, json, s, id, m, whole, now, w).0;
    SavedReadsBack(h, json, s, id, m, w);
    SeedKeepsDirs(h, json, s, id, m, whole, now, w);
    assert DirOf(t, id) == DirOf(SaveOutcome(h, json, s, id, m, w).0, id);
    assert MODEL_MANIFEST in DirOf(t, id) && !PointerStored(h, json, t, id);
  }

  // ---- Removal, whichever deletion fails ----

  /** The copy that a removal deletes belongs to no other model. */
  lemma CopyNotShared(h: Hashes, json: Json, s: State, id: Bytes, d: Bytes)
    requires json.Inverts() && PointerStored(h, json, s, id)
    requires d in s.manifests
    requires var m := Parse(json, s.manifests[d]); m.Some? && m.value.model != id
    ensures d != Digest(h, json, Pointed(json, s, id).value)
  {
    var m := Pointed(json, s, id).value;
    assert json.decode(json.encode(m)) == Some(m);
  }

  predicate Removable(s: State, id: Bytes) {
    Ref.ValidModelId(id) && id in s.dirs
  }

  lemma OtherPointerKept(h: Hashes, json: Json, s: State, id: Bytes, faults: RemoveFaults, other: Bytes)
    requires json.Inverts() && PointersStored(h, json, s)
    requires Removable(s, id) && other != id && MODEL_MANIFEST in DirOf(s, other)
    ensures PointerStored(h, json, RemoveOutcome(h, json, s, id, faults).0, other)
  {
    var t := RemoveOutcome(h, json, s, id, faults).0;
    assert PointerStored(h, json, s, other) && DirOf(t, other) == DirOf(s, other);
    var m := Pointed(json, s, other).value;
    if MODEL_MANIFEST in DirOf(s, id) {
      assert json.decode(json.encode(m)) == Some(m);
      CopyNotShared(h, json, s, id, Digest(h, json, m));
    }
  }

  lemma OtherEntryKept(h: Hashes, json: Json, s: State, id: Bytes, faults: RemoveFaults, k: Bytes, e: Index.Entry)
    requires json.Inverts() && PointersStored(h, json, s)
    requires Removable(s, id) && k != id && EntryStored(json, s.manifests, k, e)
    ensures EntryStored(json, CopiesAfter(h, json, s, id, faults), k, e)
  {
    if MODEL_MANIFEST in DirOf(s, id) {
      assert PointerStored(h, json, s, id);
      CopyNotShared(h, json, s, id, e.manifestSha256);
    }
  }

  /** What a removal leaves listed was listed before. */
  lemma StillListed(json: Json, index: Option<Bytes>, id: Bytes, faults: RemoveFaults, k: Bytes)
    requires json.Inverts()
    ensures var (before, after) := (Listing(json, index), Listing(json, IndexAfter(json, index, id, faults)));
      after.Some? && k in after.value ==> before.Some? && k in before.value && before.value[k] == after.value[k]
  {
    if Unlists(json, index, id, faults) {
      var entries := EntriesOf(json, index) - {id};
      assert json.decodeIndex(json.encodeIndex(entries)) == Some(entries);
    }
  }

  lemma RemoveKeepsExcept(h: Hashes, json: Json, s: State, id: Bytes, faults: RemoveFaults, inputs: set<Bytes>)
    requires json.Inverts() && Inv(h, json, s, inputs) && Removable(s, id)
    ensures var t := RemoveOutcome(h, json, s, id, faults).0;
      && SelfNamed(h, t, inputs) && TorrentsNamed(h, t)
      && (forall other :: other != id && MODEL_MANIFEST in DirOf(t, other) ==> PointerStored(h, json, t, other))
  {
    var t := RemoveOutcome(h, json, s, id, faults).0;
    forall other | other != id && MODEL_MANIFEST in DirOf(t, other)
      ensures PointerStored(h, json, t, other)
    {
      OtherPointerKept(h, json, s, id, faults, other);
    }
  }

  lemma OtherEntriesKept(h: Hashes, json: Json, s: State, id: Bytes, faults: RemoveFaults, k: Bytes)
    requires json.Inverts() && PointersStored(h, json, s) && EntriesStored(json, s) && Removable(s, id) && k != id
    ensures var after := Listing(json, IndexAfter(json, s.index, id, faults));
      after.Some? && k in after.value ==> EntryStored(json, CopiesAfter(h, json, s, id, faults), k, after.value[k])
  {
    var after := Listing(json, IndexAfter(json, s.index, id, faults));
    StillListed(json, s.index, id, faults, k);
    if after.Some? && k in after.value {
      OtherEntryKept(h, json, s, id, faults, k, after.value[k]);
    }
  }

  /** The pointer of the model outlives its copy. */
  predicate PointerDangles(faults: RemoveFaults) {
    faults.dirLeft.Some? && MODEL_MANIFEST in faults.dirLeft.value
  }

  /** The index entry of the model outlives the copy it leads to. */
  predicate EntryDangles(json: Json, s: State, id: Bytes, digest: Bytes, faults: RemoveFaults) {
    (faults.dirLeft.Some? || faults.indexStays) && ListedDigest(json, s.index, id) == Some(digest)
  }

  /** The copy goes, and something that leads to it stays. */
  predicate RemovalDangles(h: Hashes, json: Json, s: State, id: Bytes, faults: RemoveFaults) {
    && Removable(s, id) && Pointed(json, s, id).Some? && !faults.copyStays
    && (|| PointerDangles(faults)
        || EntryDangles(json, s, id, Digest(h, json, Pointed(json, s, id).value), faults))
  }

  lemma RemovedPointer(h: Hashes, json: Json, s: State, id: Bytes, faults: RemoveFaults)
    requires json.Inverts() && PointersStored(h, json, s) && Removable(s, id)
    ensures PointerOk(h, json, RemoveOutcome(h, json, s, id, faults).0, id)
       <==> !(Pointed(json, s, id).Some? && !faults.copyStays && PointerDangles(faults))
  {
    var t := RemoveOutcome(h, json, s, id, faults).0;
    if MODEL_MANIFEST in DirOf(s, id) {
      assert PointerStored(h, json, s, id);
      if MODEL_MANIFEST in DirOf(t, id) {
        assert DirOf(t, id)[MODEL_MANIFEST] == DirOf(s, id)[MODEL_MANIFEST];
        assert Pointed(json, t, id) == Pointed(json, s, id);
      }
    }
  }

  /** An entry outlives the deletion of a copy exactly when it leads to another one. */
  lemma EntrySurvives(json: Json, manifests: map<Bytes, Bytes>, gone: Bytes, k: Bytes, e: Index.Entry)
    requires EntryStored(json, manifests, k, e)
    ensures EntryStored(json, manifests - {gone}, k, e) <==> e.manifestSha256 != gone
  {}

  lemma RemovedEntry(h: Hashes, json: Json, s: State, id: Bytes, faults: RemoveFaults)
    requires json.Inverts() && EntriesStored(json, s)
    ensures var after := Listing(json, IndexAfter(json, s.index, id, faults));
      (after.Some? && id in after.value ==> EntryStored(json, CopiesAfter(h, json, s, id, faults), id, after.value[id]))
      <==> !(Pointed(json, s, id).Some? && !faults.copyStays
             && EntryDangles(json, s, id, Digest(h, json, Pointed(json, s, id).value), faults))
  {
    var before := Listing(json, s.index);
    StillListed(json, s.index, id, faults, id);
    if before.Some? && id in before.value {
      EntryOfRemoved(json, s, id, faults);
      if Pointed(json, s, id).Some? {
        EntrySurvives(json, s.manifests, Digest(h, json, Pointed(json, s, id).value), id, before.value[id]);
      }
    }
  }

  lemma EntryOfRemoved(json: Json, s: State, id: Bytes, faults: RemoveFaults)
    requires json.Inverts() && EntriesStored(json, s)
    requires Listing(json, s.index).Some? && id in Listing(json, s.index).value
    ensures EntryStored(json, s.manifests, id, Listing(json, s.index).value[id])
    ensures ListedDigest(json, s.index, id) == Some(Listing(json, s.index).value[id].manifestSha256)
    ensures Unlists(json, s.index, id, faults) <==> faults.dirLeft.None? && !faults.indexStays
    ensures !Unlists(json, s.index, id, faults) ==> IndexAfter(json, s.index, id, faults) == s.index
    ensures Unlists(json, s.index, id, faults) ==>
      var after := Listing(json, IndexAfter(json, s.index, id, faults));
      after.Some? && id !in after.value
  {
    if Unlists(json, s.index, id, faults) {
      var entries := EntriesOf(json, s.index) - {id};
      assert json.decodeIndex(json.encodeIndex(entries)) == Some(entries);
    }
    var listing := Listing(json, s.index).value;
    assert EntryStored(json, s.manifests, id, listing[id]);
    assert id in Index.Parsed(listing) && Index.Parsed(listing)[id] == listing[id];
  }

  /** A removal, complete or with any of its deletions failing, keeps the
      invariant exactly when it leaves nothing that leads to the deleted copy. */
  lemma RemoveExactly(h: Hashes, json: Json, s: State, id: Bytes, faults: RemoveFaults, inputs: set<Bytes>)
    requires json.Inverts() && Inv(h, json, s, inputs)
    ensures Inv(h, json, RemoveOutcome(h, json, s, id, faults).0, inputs)
       <==> !RemovalDangles(h, json, s, id, faults)
  {
    if Removable(s, id) {
      var t := RemoveOutcome(h, json, s, id, faults).0;
      RemoveKeepsExcept(h, json, s, id, faults, inputs);
      RemovedPointer(h, json, s, id, faults);
      RemovedEntry(h, json, s, id, faults);
      InvParts(h, json, t, id, inputs);
      forall k | k != id
        ensures Listing(json, t.index).Some? && k in Listing(json, t.index).value ==>
          EntryStored(json, t.manifests, k, Listing(json, t.index).value[k])
      {
        OtherEntriesKept(h, json, s, id, faults, k);
      }
    }
  }

  // ---- One file, written by anyone ----

  /** The content is one the rest of the store can rely on at this place. */
  ghost predicate Fits(h: Hashes, json: Json, s: State, place: Place, content: Bytes, inputs: set<Bytes>) {
    match place
    case InModel(id, path) => path == MODEL_MANIFEST ==> PointerGood(h, json, s.manifests, id, content)
    case Copy(digest) => Hex(h.sha256(content)) == digest && content in inputs
    case Signature(_) => true
    case TorrentFile(infoHash) => NamedTorrent(h, infoHash, content)
    case IndexFile => EntriesGood(json, s.manifests, json.decodeIndex(content))
    case Other(_) => true
  }

  /** Writing one file keeps the invariant exactly when its content fits there. */
  lemma WriteExactly(h: Hashes, json: Json, s: State, place: Place, content: Bytes, inputs: set<Bytes>)
    requires CollisionFree(h.sha256, inputs) && Inv(h, json, s, inputs)
    ensures Inv(h, json, SetAt(s, place, Some(content)), inputs) <==> Fits(h, json, s, place, content, inputs)
  {
    match place
    case InModel(id, path) => ModelFileExactly(h, json, s, id, path, Some(content), inputs);
    case Copy(digest) =>
      if Fits(h, json, s, place, content, inputs) {
        CopyFits(h, json, s, digest, content, inputs);
      } else {
        assert SetAt(s, place, Some(content)).manifests[digest] == content;
      }
    case Signature(_) => SamePointersOf(h, json, s, SetAt(s, place, Some(content)));
    case TorrentFile(infoHash) => TorrentExactly(h, json, s, infoHash, content, inputs);
    case IndexFile => SamePointersOf(h, json, s, SetAt(s, place, Some(content)));
    case Other(_) => SamePointersOf(h, json, s, SetAt(s, place, Some(content)));
  }

  lemma ModelFileExactly(h: Hashes, json: Json, s: State, id: Bytes, path: Bytes, content: Option<Bytes>,
                         inputs: set<Bytes>)
    requires Inv(h, json, s, inputs)
    ensures Inv(h, json, SetAt(s, InModel(id, path), content), inputs) <==>
      (path == MODEL_MANIFEST && content.Some? ==> PointerGood(h, json, s.manifests, id, content.value))
  {
    var t := SetAt(s, InModel(id, path), content);
    forall other | MODEL_MANIFEST in DirOf(t, other) && (other != id || path != MODEL_MANIFEST)
      ensures PointerStored(h, json, t, other)
    {
      assert PointerStored(h, json, s, other);
      assert DirOf(t, other)[MODEL_MANIFEST] == DirOf(s, other)[MODEL_MANIFEST];
    }
    EntriesExtended(json, s, t);
    assert PointersStored(h, json, t) <==> PointerOk(h, json, t, id);
  }

  lemma CopyFits(h: Hashes, json: Json, s: State, digest: Bytes, content: Bytes, inputs: set<Bytes>)
    requires CollisionFree(h.sha256, inputs) && Inv(h, json, s, inputs)
    requires Hex(h.sha256(content)) == digest && content in inputs
    ensures Inv(h, json, SetAt(s, Copy(digest), Some(content)), inputs)
  {
    var t := SetAt(s, Copy(digest), Some(content));
    CopyAdded(h, s, digest, content, inputs);
    ExtensionKeeps(h, json, s, t);
  }

  lemma TorrentExactly(h: Hashes, json: Json, s: State, infoHash: Bytes, content: Bytes, inputs: set<Bytes>)
    requires Inv(h, json, s, inputs)
    ensures Inv(h, json, SetAt(s, TorrentFile(infoHash), Some(content)), inputs) <==> NamedTorrent(h, infoHash, content)
  {
    var t := SetAt(s, TorrentFile(infoHash), Some(content));
    ExtensionKeeps(h, json, s, t);
    assert t.torrents[infoHash] == content;
    assert forall x :: x in s.torrents ==> NamedTorrent(h, x, s.torrents[x]);
  }

  /** At most places anything fits, or nothing. */
  lemma QuietWrite(h: Hashes, json: Json, s: State, place: Place, content: Option<Bytes>, inputs: set<Bytes>)
    requires Inv(h, json, s, inputs) && !Telling(place)
    ensures Inv(h, json, SetAt(s, place, content), inputs)
  {
    if place.InModel? {
      ModelFileExactly(h, json, s, place.id, place.path, content, inputs);
    } else {
      SamePointersOf(h, json, s, SetAt(s, place, content));
    }
  }

  /** Writing back what was there changes nothing that counts. */
  lemma SameWrite(h: Hashes, json: Json, s: State, place: Place, inputs: set<Bytes>)
    requires Inv(h, json, s, inputs)
    ensures Inv(h, json, SetAt(s, place, ContentAt(s, place)), inputs)
  {
    if place.InModel? {
      var (id, path) := (place.id, place.path);
      if path == MODEL_MANIFEST && MODEL_MANIFEST in DirOf(s, id) {
        assert PointerStored(h, json, s, id);
      }
      ModelFileExactly(h, json, s, id, path, ContentAt(s, place), inputs);
    } else {
      PutSame(s, place);
    }
  }

  lemma PutSame(s: State, place: Place)
    requires !place.InModel?
    ensures SetAt(s, place, ContentAt(s, place)) == s
  {
    var t := SetAt(s, place, ContentAt(s, place));
    assert t.manifests == s.manifests && t.signatures == s.signatures && t.torrents == s.torrents;
    assert t.others == s.others;
  }

  // ---- Runs ----

  /** New model files next to an unchanged pointer; a publication, complete or
      stopped by the failure of one of its writes; a removal, likewise. */
  datatype Event =
    | Refresh(id: Bytes, files: Dir)
    | Publish(id: Bytes, m: Manifest, whole: bool, now: int, w: Writes)
    | Remove(id: Bytes, faults: RemoveFaults)

  function WithFiles(s: State, id: Bytes, files: Dir): State {
    var kept := if MODEL_MANIFEST in DirOf(s, id) then map[MODEL_MANIFEST := DirOf(s, id)[MODEL_MANIFEST]] else map[];
    s.(dirs := s.dirs[id := (files - {MODEL_MANIFEST}) + kept])
  }

  function Step(h: Hashes, json: Json, s: State, e: Event): State {
    match e
    case Refresh(id, files) => WithFiles(s, id, files)
    case Publish(id, m, whole, now, w) => PublishOutcome(h, json, s, id, m, whole, now, w).0
    case Remove(id, faults) => RemoveOutcome(h, json, s, id, faults).0
  }

  /** What is published is a valid manifest whose canonical text is among the
      inputs assumed not to collide. */
  predicate Admissible(json: Json, e: Event, inputs: set<Bytes>) {
    e.Publish? ==> Valid(e.m) && json.encode(e.m) in inputs
  }

  /** A pointer is written only under its own model; a removal leaves nothing
      that leads to the copy it deleted. */
  predicate Harmless(h: Hashes, json: Json, s: State, e: Event) {
    match e
    case Refresh(_, _) => true
    case Publish(id, m, _, _, w) => PointerWritten(id, w) ==> m.model == id
    case Remove(id, faults) => !RemovalDangles(h, json, s, id, faults)
  }

  predicate HarmlessRun(h: Hashes, json: Json, s: State, events: seq<Event>)
    decreases |events|
  {
    events == []
    || (Harmless(h, json, s, events[0]) && HarmlessRun(h, json, Step(h, json, s, events[0]), events[1..]))
  }

  lemma RefreshKeeps(h: Hashes, json: Json, s: State, id: Bytes, files: Dir, inputs: set<Bytes>)
    requires Inv(h, json, s, inputs)
    ensures Inv(h, json, WithFiles(s, id, files), inputs)
  {
    var t := WithFiles(s, id, files);
    SamePointers(h, json, s, t, inputs);
  }

  /** Only the pointer matters in a model directory. */
  lemma SamePointers(h: Hashes, json: Json, s: State, t: State, inputs: set<Bytes>)
    requires Inv(h, json, s, inputs) && t == s.(dirs := t.dirs)
    requires forall id :: MODEL_MANIFEST in DirOf(t, id) ==>
      MODEL_MANIFEST in DirOf(s, id) && DirOf(t, id)[MODEL_MANIFEST] == DirOf(s, id)[MODEL_MANIFEST]
    ensures Inv(h, json, t, inputs)
  {
    forall id | MODEL_MANIFEST in DirOf(t, id)
      ensures PointerStored(h, json, t, id)
    {
      assert PointerStored(h, json, s, id) && Pointed(json, t, id) == Pointed(json, s, id);
    }
    EntriesExtended(json, s, t);
  }

  // ---- Main results ----

  /** One step keeps the invariant exactly when it is harmless. */
  lemma StepExactly(h: Hashes, json: Json, s: State, e: Event, inputs: set<Bytes>)
    requires json.Inverts() && CollisionFree(h.sha256, inputs)
    requires Inv(h, json, s, inputs) && Admissible(json, e, inputs)
    ensures Inv(h, json, Step(h, json, s, e), inputs) <==> Harmless(h, json, s, e)
  {
    match e
    case Refresh(id, files) => RefreshKeeps(h, json, s, id, files, inputs);
    case Remove(id, faults) => RemoveExactly(h, json, s, id, faults, inputs);
    case Publish(id, m, whole, now, w) =>
      InvParts(h, json, s, id, inputs);
      PublishExactly(h, json, s, id, m, whole, now, w, inputs);
      CopyKeepsExcept(h, json, s, id, m, inputs);
  }

  /** Every state of the run is consistent. */
  ghost predicate Throughout(h: Hashes, json: Json, s: State, events: seq<Event>, inputs: set<Bytes>)
    decreases |events|
  {
    Inv(h, json, s, inputs)
    && (events == [] || Throughout(h, json, Step(h, json, s, events[0]), events[1..], inputs))
  }

  /** A run from a consistent store, an empty one for instance, is consistent
      throughout exactly when each of its steps is harmless. */
  lemma {:induction false} RunExactly(h: Hashes, json: Json, s: State, events: seq<Event>, inputs: set<Bytes>)
    requires json.Inverts() && CollisionFree(h.sha256, inputs) && Inv(h, json, s, inputs)
    requires forall i :: 0 <= i < |events| ==> Admissible(json, events[i], inputs)
    ensures Throughout(h, json, s, events, inputs) <==> HarmlessRun(h, json, s, events)
    decreases |events|
  {
    if events != [] {
      StepExactly(h, json, s, events[0], inputs);
      if Harmless(h, json, s, events[0]) {
        RunExactly(h, json, Step(h, json, s, events[0]), events[1..], inputs);
      }
    }
  }

  lemma EmptyConsistent(h: Hashes, json: Json, root: Path, inputs: set<Bytes>)
    ensures Inv(h, json, EmptyStore(root), inputs)
  {}

  /** The failing removals are real: after a publication that lists its
      digest, one that cannot save the index succeeds and leaves the entry,
      one that cannot clear the directory may leave the pointer. */
  lemma StoppedRemovals(h: Hashes, json: Json, s: State, id: Bytes, m: Manifest, now: int, w: Writes,
                        inputs: set<Bytes>)
    requires json.Inverts() && CollisionFree(h.sha256, inputs)
    requires Inv(h, json, s, inputs) && Valid(m) && m.model == id && json.encode(m) in inputs
    requires w.failAt != 4 && PublishOutcome(h, json, s, id, m, true, now, w).1.Ok?
    requires Listable(json, s.index, IndexEntry(id, m, Digest(h, json, m), TotalSize(m.files), now))
    ensures var t := PublishOutcome(h, json, s, id, m, true, now, w).0;
      var unsaved := RemoveFaults(false, false, None, true);
      var left := RemoveFaults(false, false, Some({MODEL_MANIFEST}), false);
      && Inv(h, json, t, inputs)
      && RemoveOutcome(h, json, t, id, unsaved).1.Ok?
      && !Inv(h, json, RemoveOutcome(h, json, t, id, unsaved).0, inputs)
      && RemoveOutcome(h, json, t, id, left).1 == Err(DirNotRemoved)
      && !Inv(h, json, RemoveOutcome(h, json, t, id, left).0, inputs)
  {
    var e := IndexEntry(id, m, Digest(h, json, m), TotalSize(m.files), now);
    StepExactly(h, json, s, Publish(id, m, true, now, w), inputs);
    PublishReadsBack(h, json, s, id, m, true, now, w);
    PublishLists(h, json, s, id, m, true, now, w, e);
    var t := PublishOutcome(h, json, s, id, m, true, now, w).0;
    RemoveExactly(h, json, t, id, RemoveFaults(false, false, None, true), inputs);
    RemoveExactly(h, json, t, id, RemoveFaults(false, false, Some({MODEL_MANIFEST}), false), inputs);
  }

  /** Removing one model, whatever fails, leaves another one's directory and
      listed digest alone; its manifest copy goes only when their digests are
      equal, its torrent only when their infohashes are. */
  lemma RemoveIsolated(h: Hashes, json: Json, s: State, a: Bytes, b: Bytes, faults: RemoveFaults)
    requires json.Inverts() && a != b && Removable(s, a) && Pointed(json, s, b).Some?
    ensures var t := RemoveOutcome(h, json, s, a, faults).0;
      && DirOf(t, b) == DirOf(s, b) && Pointed(json, t, b) == Pointed(json, s, b)
      && ListedDigest(json, t.index, b) == ListedDigest(json, s.index, b)
    ensures var (t, ma, mb) := (RemoveOutcome(h, json, s, a, faults).0, Pointed(json, s, a), Pointed(json, s, b).value);
      && (Digest(h, json, mb) in s.manifests ==>
            (Digest(h, json, mb) in t.manifests <==>
             faults.copyStays || ma.None? || Digest(h, json, ma.value) != Digest(h, json, mb)))
      && (mb.infoHash in s.torrents ==>
            (mb.infoHash in t.torrents <==> faults.torrentStays || ma.None? || ma.value.infoHash != mb.infoHash))
  {
    ListedKept(json, s.index, a, b, faults);
    var mb := Pointed(json, s, b).value;
    if Digest(h, json, mb) in s.manifests {
      CopyTaken(h, json, s, a, faults, Digest(h, json, mb));
    }
    if mb.infoHash in s.torrents {
      TorrentTaken(json, s, a, faults, mb.infoHash);
    }
  }

  lemma CopyTaken(h: Hashes, json: Json, s: State, a: Bytes, faults: RemoveFaults, d: Bytes)
    requires d in s.manifests
    ensures d in CopiesAfter(h, json, s, a, faults) <==>
      var ma := Pointed(json, s, a);
      faults.copyStays || ma.None? || Digest(h, json, ma.value) != d
  {}

  lemma TorrentTaken(json: Json, s: State, a: Bytes, faults: RemoveFaults, infoHash: Bytes)
    requires infoHash in s.torrents
    ensures infoHash in TorrentsAfter(json, s, a, faults) <==>
      var ma := Pointed(json, s, a);
      faults.torrentStays || ma.None? || ma.value.infoHash != infoHash
  {}

  lemma ListedKept(json: Json, index: Option<Bytes>, a: Bytes, b: Bytes, faults: RemoveFaults)
    requires json.Inverts() && a != b
    ensures ListedDigest(json, IndexAfter(json, index, a, faults), b) == ListedDigest(json, index, b)
  {
    if Unlists(json, index, a, faults) {
      var entries := EntriesOf(json, index) - {a};
      assert json.decodeIndex(json.encodeIndex(entries)) == Some(entries);
      ParsedValid(entries);
    }
  }

  /** In a consistent store no copy is shared, so another model's copy always survives. */
  lemma CopySurvives(h: Hashes, json: Json, s: State, a: Bytes, b: Bytes, faults: RemoveFaults, inputs: set<Bytes>)
    requires json.Inverts() && Inv(h, json, s, inputs)
    requires a != b && Removable(s, a) && Pointed(json, s, b).Some?
    ensures Digest(h, json, Pointed(json, s, b).value) in RemoveOutcome(h, json, s, a, faults).0.manifests
  {
    OtherPointerKept(h, json, s, a, faults, b);
    assert DirOf(RemoveOutcome(h, json, s, a, faults).0, b) == DirOf(s, b);
  }

  /** Publishing and then removing a model leaves nothing of the publication
      but the signature, so nothing exactly when there was none to write. */
  lemma RemoveUndoesPublish(h: Hashes, json: Json, s: State, id: Bytes, m: Manifest, whole: bool, now: int,
                            w: Writes)
    requires json.Inverts() && Valid(m)
    requires PublishOutcome(h, json, s, id, m, whole, now, w).1.Ok?
    ensures var t := PublishOutcome(h, json, s, id, m, whole, now, w).0;
      var (u, r) := RemoveOutcome(h, json, t, id, NO_FAULTS);
      && r.Ok? && r.value.torrentRemoved && r.value.manifestRemoved && r.value.dirRemoved
      && r.value.files == |m.files| && r.value.size == TotalSize(m.files)
      && id !in u.dirs && Digest(h, json, m) !in u.manifests && m.infoHash !in u.torrents
      && ListedDigest(json, u.index, id) == None
      && u.signatures == WithSignature(h, json, s, m, w.signature).signatures
      && (Digest(h, json, m) !in s.signatures ==> (Digest(h, json, m) in u.signatures <==> w.signature.Some?))
  {
    PublishReadsBack(h, json, s, id, m, whole, now, w);
    Unlisted(h, json, PublishOutcome(h, json, s, id, m, whole, now, w).0, id);
  }

  lemma Unlisted(h: Hashes, json: Json, s: State, id: Bytes)
    requires json.Inverts() && Removable(s, id)
    ensures ListedDigest(json, RemoveOutcome(h, json, s, id, NO_FAULTS).0.index, id) == None
  {
    var entries := EntriesOf(json, s.index) - {id};
    assert json.decodeIndex(json.encodeIndex(entries)) == Some(entries);
    ParsedValid(entries);
  }

  /** The digest the local index lists for a model. */
  function ListedDigest(json: Json, index: Option<Bytes>, id: Bytes): Option<Bytes> {
    if id in EntriesOf(json, index) then Some(EntriesOf(json, index)[id].manifestSha256) else None
  }

  /** The entry may be listed: it is valid and no other digest is listed. */
  predicate Listable(json: Json, index: Option<Bytes>, e: Index.Entry) {
    && Index.ValidEntry(e)
    && (ListedDigest(json, index, e.model).Some? ==> ListedDigest(json, index, e.model) == Some(e.manifestSha256))
  }

  lemma EntryListed(json: Json, index: Option<Bytes>, e: Index.Entry)
    requires json.Inverts()
    ensures var after := IndexWith(json, index, e);
      && ListedDigest(json, after, e.model)
           == (if Listable(json, index, e) then Some(e.manifestSha256) else ListedDigest(json, index, e.model))
      && forall other :: other != e.model ==> ListedDigest(json, after, other) == ListedDigest(json, index, other)
    ensures EntriesOf(json, IndexWith(json, index, e))
         == if Listable(json, index, e) then EntriesOf(json, index)[e.model := e] else EntriesOf(json, index)
  {
    var (added, err) := Index.AddOutcome(EntriesOf(json, index), e);
    WithReadsBack(json, index, e);
    if err.None? {
      ParsedValid(added);
    }
  }

  lemma ParsedValid(entries: Index.Entries)
    requires Index.ValidIndex(entries)
    ensures Index.Parsed(entries) == entries
  {}

  /** A complete publication lists its entry exactly when it is for the whole
      repo, the entry is valid and no other digest is listed yet: the
      manifest's infohash, digest, revision and total size. All other entries
      stay, and what was listed stays listed until the model is removed. */
  lemma PublishLists(h: Hashes, json: Json, s: State, id: Bytes, m: Manifest, whole: bool, now: int, w: Writes,
                     e: Index.Entry)
    requires json.Inverts()
    requires PublishOutcome(h, json, s, id, m, whole, now, w).1.Ok?
    requires e == Index.Entry(id, m.infoHash, Digest(h, json, m), m.revision, TotalSize(m.files), now)
    ensures var after := PublishOutcome(h, json, s, id, m, whole, now, w).0.index;
      EntriesOf(json, after) == if whole && w.failAt != 4 && Listable(json, s.index, e)
                                then EntriesOf(json, s.index)[id := e] else EntriesOf(json, s.index)
    ensures var after := PublishOutcome(h, json, s, id, m, whole, now, w).0.index;
      && ListedDigest(json, after, id)
           == (if whole && w.failAt != 4 && Listable(json, s.index, e) then Some(e.manifestSha256)
               else ListedDigest(json, s.index, id))
      && forall other :: other != id ==> ListedDigest(json, after, other) == ListedDigest(json, s.index, other)
  {
    SavedKeepsIndex(h, json, s, id, m, w);
    SeededKeeps(h, SaveOutcome(h, json, s, id, m, w).0, id, m, w);
    EntryListed(json, s.index, e);
  }
}

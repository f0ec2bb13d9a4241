/** The bootstrap index: valid entries, conflict-free additions, and the
    first-origin-wins merge. */
module Index {
  import opened Text
  import opened Hashing
  import Ref

  datatype Entry = Entry(
    model: Bytes,
    infoHash: Bytes,
    manifestSha256: Bytes,
    revision: Bytes,
    size: int,
    addedAt: int)

  type Entries = map<Bytes, Entry>

  predicate ValidEntry(e: Entry) {
    && Ref.ValidModelId(e.model)
    && IsHex(e.infoHash, 40)
    && IsHex(e.manifestSha256, 64)
    && Ref.ValidRevision(e.revision)
    && e.size >= 0
  }

  /** Every entry is valid and sits under its own model id. */
  predicate ValidIndex(entries: Entries) {
    forall m :: m in entries ==> ValidEntry(entries[m]) && entries[m].model == m
  }

  datatype AddError = Invalid | Conflict

  /** An entry may join or refresh, never replace another manifest. */
  function AddOutcome(entries: Entries, e: Entry): (Entries, Option<AddError>) {
    if !ValidEntry(e) then (entries, Some(Invalid))
    else if e.model in entries && entries[e.model].manifestSha256 != e.manifestSha256 then
      (entries, Some(Conflict))
    else (entries[e.model := e], None)
  }

  class Index {
    var entries: Entries

    constructor (entries: Entries)
      ensures this.entries == entries
    {
      this.entries := entries;
    }

    method Add(e: Entry) returns (err: Option<AddError>)
      modifies this
      ensures (entries, err) == AddOutcome(old(entries), e)
      ensures ValidIndex(old(entries)) ==> ValidIndex(entries)
      ensures forall m :: m in old(entries) ==>
        m in entries && entries[m].manifestSha256 == old(entries)[m].manifestSha256
    {
      if !ValidEntry(e) {
        return Some(Invalid);
      }
      if e.model in entries && entries[e.model].manifestSha256 != e.manifestSha256 {
        return Some(Conflict);
      }
      entries := entries[e.model := e];
      return None;
    }

    method Remove(model: Bytes) returns (found: bool)
      modifies this
      ensures found == (model in old(entries))
      ensures entries == old(entries) - {model}
    {
      if model !in entries {
        return false;
      }
      entries := entries - {model};
      return true;
    }
  }

  /** An index document as decoded: entries that are invalid or misfiled are dropped. */
  function Parsed(doc: Entries): (valid: Entries)
    ensures ValidIndex(valid)
  {
    map m | m in doc && ValidEntry(doc[m]) && doc[m].model == m :: doc[m]
  }

  /** A document is read entry by entry: each is kept or dropped by itself,
      whatever the others are. */
  lemma ParsedOneByOne(doc: Entries, m: Bytes, e: Entry)
    requires m !in doc
    ensures Parsed(doc[m := e]) == if ValidEntry(e) && e.model == m then Parsed(doc)[m := e] else Parsed(doc)
  {
    var more := doc[m := e];
    forall k
      ensures k in Parsed(more) <==> if k == m then ValidEntry(e) && e.model == m else k in Parsed(doc)
    {
      assert k != m && k in doc ==> more[k] == doc[k];
    }
  }

  // ---- Merging origins ----

  /** What one origin serves: nothing usable, or a document. */
  datatype Origin = Unusable | Document(entries: Entries)

  datatype Warning = Dropped(key: Bytes) | Conflicting(model: Bytes)

  predicate Holds(o: Origin, m: Bytes) {
    o.Document? && m in Parsed(o.entries)
  }

  function EntryAt(o: Origin, m: Bytes): Entry
    requires Holds(o, m)
  {
    Parsed(o.entries)[m]
  }

  /** The entry of the earliest origin that holds one for m. */
  function Winner(origins: seq<Origin>, m: Bytes): Option<Entry> {
    if origins == [] then None else
      var last := |origins| - 1;
      var before := Winner(origins[..last], m);
      if before.Some? then before
      else if Holds(origins[last], m) then Some(EntryAt(origins[last], m)) else None
  }

  predicate IsFirstHolder(origins: seq<Origin>, m: Bytes, w: nat) {
    && w < |origins| && Holds(origins[w], m)
    && forall i :: 0 <= i < w ==> !Holds(origins[i], m)
  }

  /** The winning entry is that of the first origin holding one. */
  lemma {:induction false} WinnerIsFirst(origins: seq<Origin>, m: Bytes) returns (first: Option<nat>)
    ensures match first
      case None => Winner(origins, m).None? && forall i :: 0 <= i < |origins| ==> !Holds(origins[i], m)
      case Some(w) => IsFirstHolder(origins, m, w) && Winner(origins, m) == Some(EntryAt(origins[w], m))
  {
    first := None;
    if origins != [] {
      var last := |origins| - 1;
      var before := origins[..last];
      first := WinnerIsFirst(before, m);
      match first {
        case Some(w) =>
          assert before[w] == origins[w] && forall i :: 0 <= i < w ==> origins[i] == before[i];
        case None =>
          assert forall i :: 0 <= i < last ==> origins[i] == before[i];
          if Holds(origins[last], m) {
            first := Some(last);
          }
      }
    }
  }

  lemma {:induction false} WinnerIsValid(origins: seq<Origin>, m: Bytes)
    requires Winner(origins, m).Some?
    ensures ValidEntry(Winner(origins, m).value) && Winner(origins, m).value.model == m
  {
    if Winner(origins[..|origins| - 1], m).Some? {
      WinnerIsValid(origins[..|origins| - 1], m);
    }
  }

  /** An origin disagrees with the entry that wins among the earlier ones. */
  predicate Disagrees(before: seq<Origin>, o: Origin, m: Bytes) {
    && Holds(o, m) && Winner(before, m).Some?
    && Winner(before, m).value.manifestSha256 != EntryAt(o, m).manifestSha256
  }

  /** How many origins disagree with an earlier winner for m. */
  function Conflicts(origins: seq<Origin>, m: Bytes): nat {
    if origins == [] then 0 else
      var last := |origins| - 1;
      Conflicts(origins[..last], m) + if Disagrees(origins[..last], origins[last], m) then 1 else 0
  }

  /** The origins that hold another manifest for m than the winner's. */
  function Losers(origins: seq<Origin>, m: Bytes): set<nat> {
    set i: nat | i < |origins| && Loses(origins, m, i)
  }

  predicate Loses(origins: seq<Origin>, m: Bytes, i: nat)
    requires i < |origins|
  {
    && Holds(origins[i], m) && Winner(origins, m).Some?
    && EntryAt(origins[i], m).manifestSha256 != Winner(origins, m).value.manifestSha256
  }

  function Unusables(origins: seq<Origin>): (n: nat)
    ensures n <= |origins|
    ensures n == |origins| <==> forall i :: 0 <= i < |origins| ==> origins[i].Unusable?
  {
    if origins == [] then 0 else
      var last := |origins| - 1;
      Unusables(origins[..last]) + if origins[last].Unusable? then 1 else 0
  }

  /** How many documents have an entry under this key that is dropped. */
  function Drops(origins: seq<Origin>, key: Bytes): nat {
    if origins == [] then 0 else
      var last := |origins| - 1;
      Drops(origins[..last], key) + if Dropping(origins[last], key) then 1 else 0
  }

  predicate Dropping(o: Origin, key: Bytes) {
    o.Document? && key in o.entries && key !in Parsed(o.entries)
  }

  /** The merge is right for one model: its entry, and its conflict warnings. */
  predicate MergedFor(origins: seq<Origin>, merged: Entries, warnings: multiset<Warning>, m: Bytes) {
    && Winner(origins, m) == (if m in merged then Some(merged[m]) else None)
    && warnings[Conflicting(m)] == Conflicts(origins, m)
  }

  /** What an origin adds for one model. */
  lemma {:induction false} OneMore(before: seq<Origin>, o: Origin, m: Bytes)
    ensures var all := before + [o];
      && Winner(all, m) == (
           if Winner(before, m).Some? then Winner(before, m)
           else if Holds(o, m) then Some(EntryAt(o, m)) else None)
      && Conflicts(all, m) == Conflicts(before, m) + if Disagrees(before, o, m) then 1 else 0
  {
    assert (before + [o])[..|before|] == before;
  }

  lemma LosersGrow(before: seq<Origin>, o: Origin, m: Bytes, i: nat)
    requires i <= |before|
    ensures Loses(before + [o], m, i) <==> if i < |before| then Loses(before, m, i) else Disagrees(before, o, m)
  {
    OneMore(before, o, m);
    var first := WinnerIsFirst(before, m);
    assert i < |before| ==> (before + [o])[i] == before[i];
  }

  lemma LosersOf(before: seq<Origin>, o: Origin, m: Bytes)
    ensures |Losers(before + [o], m)| == |Losers(before, m)| + if Disagrees(before, o, m) then 1 else 0
  {
    var n: nat := |before|;
    forall i: nat | i <= n
      ensures i in Losers(before + [o], m) <==> if i < n then i in Losers(before, m) else Disagrees(before, o, m)
    {
      LosersGrow(before, o, m, i);
    }
    var gained: set<nat> := if Disagrees(before, o, m) then {n} else {};
    assert n !in Losers(before, m);
    assert Losers(before + [o], m) == Losers(before, m) + gained;
  }

  /** There is one conflict for each such origin, and no other. */
  lemma {:induction false} ConflictsAreLosers(origins: seq<Origin>, m: Bytes)
    ensures Conflicts(origins, m) == |Losers(origins, m)|
  {
    if origins != [] {
      var before := origins[..|origins| - 1];
      assert origins == before + [origins[|origins| - 1]];
      ConflictsAreLosers(before, m);
      LosersOf(before, origins[|origins| - 1], m);
    }
  }

  /** The merge is right for every model, and so are the warnings for dropped entries. */
  ghost predicate MergedAll(origins: seq<Origin>, merged: Entries, warnings: multiset<Warning>) {
    && (forall m :: MergedFor(origins, merged, warnings, m))
    && forall key :: warnings[Dropped(key)] == Drops(origins, key)
  }

  /** One warning for each entry that is dropped. */
  function DroppedFrom(doc: Entries): (dropped: multiset<Warning>)
    ensures forall m :: dropped[Conflicting(m)] == 0
    ensures forall key :: dropped[Dropped(key)] == if Dropping(Document(doc), key) then 1 else 0
  {
    multiset(set key | key in doc && key !in Parsed(doc) :: Dropped(key))
  }

  lemma {:induction false} DropsMore(before: seq<Origin>, o: Origin, key: Bytes)
    ensures Drops(before + [o], key) == Drops(before, key) + if Dropping(o, key) then 1 else 0
  {
    assert (before + [o])[..|before|] == before;
  }

  lemma UnusableAddsNothing(before: seq<Origin>, merged: Entries, warnings: multiset<Warning>)
    requires MergedAll(before, merged, warnings)
    ensures MergedAll(before + [Unusable], merged, warnings)
  {
    forall m
      ensures MergedFor(before + [Unusable], merged, warnings, m)
    {
      assert MergedFor(before, merged, warnings, m);
      OneMore(before, Unusable, m);
    }
    forall key {
      DropsMore(before, Unusable, key);
    }
  }

  /** Merges the origins in order; the first one holding a model wins. */
  method Fetch(origins: seq<Origin>) returns (merged: Entries, warnings: multiset<Warning>, failed: nat, err: bool)
    ensures forall m :: MergedFor(origins, merged, warnings, m)
    ensures forall key :: warnings[Dropped(key)] == Drops(origins, key)
    ensures ValidIndex(merged)
    ensures failed == Unusables(origins)
    ensures err <==> origins != [] && forall i :: 0 <= i < |origins| ==> origins[i].Unusable?
  {
    merged, warnings, failed := map[], multiset{}, 0;
    for k := 0 to |origins|
      invariant MergedAll(origins[..k], merged, warnings)
      invariant failed == Unusables(origins[..k])
    {
      ghost var before := origins[..k];
      assert origins[..k + 1] == before + [origins[k]] && origins[..k + 1][..k] == before;
      match origins[k] {
        case Unusable =>
          failed := failed + 1;
          UnusableAddsNothing(before, merged, warnings);
        case Document(doc) =>
          merged, warnings := MergeDocument(before, doc, merged, warnings);
      }
    }
    assert origins[..|origins|] == origins;
    AllValid(origins, merged, warnings);
    err := failed == |origins| && |origins| > 0;
  }

  lemma AllValid(origins: seq<Origin>, merged: Entries, warnings: multiset<Warning>)
    requires MergedAll(origins, merged, warnings)
    ensures ValidIndex(merged)
  {
    forall m | m in merged
      ensures ValidEntry(merged[m]) && merged[m].model == m
    {
      assert MergedFor(origins, merged, warnings, m);
      WinnerIsValid(origins, m);
    }
  }

  /** The models in rest are still to be taken in from o, the others have been. */
  ghost predicate Merging(before: seq<Origin>, o: Origin, rest: set<Bytes>, merged: Entries,
                          warnings: multiset<Warning>)
  {
    && (forall m :: MergedFor(if m in rest then before else before + [o], merged, warnings, m))
    && forall key :: warnings[Dropped(key)] == Drops(before + [o], key)
  }

  lemma MergeStarts(before: seq<Origin>, doc: Entries, merged: Entries, warnings: multiset<Warning>)
    requires MergedAll(before, merged, warnings)
    ensures Merging(before, Document(doc), Parsed(doc).Keys, merged, warnings + DroppedFrom(doc))
  {
    forall m
      ensures MergedFor(if m in Parsed(doc) then before else before + [Document(doc)], merged,
                        warnings + DroppedFrom(doc), m)
    {
      assert MergedFor(before, merged, warnings, m);
      OneMore(before, Document(doc), m);
    }
    forall key {
      DropsMore(before, Document(doc), key);
    }
  }

  /** Takes in one more document, whatever order its entries come in. */
  method MergeDocument(ghost before: seq<Origin>, doc: Entries, merged: Entries, warnings: multiset<Warning>)
    returns (merged': Entries, warnings': multiset<Warning>)
    requires MergedAll(before, merged, warnings)
    ensures MergedAll(before + [Document(doc)], merged', warnings')
  {
    var parsed := Parsed(doc);
    merged', warnings' := merged, warnings + DroppedFrom(doc);
    MergeStarts(before, doc, merged, warnings);
    var rest := parsed.Keys;
    while rest != {}
      invariant rest <= parsed.Keys
      invariant Merging(before, Document(doc), rest, merged', warnings')
    {
      var m :| m in rest;
      ghost var was, had := merged', warnings';
      if m in merged' {
        if merged'[m].manifestSha256 != parsed[m].manifestSha256 {
          warnings' := warnings' + multiset{Conflicting(m)};
        }
      } else {
        merged' := merged'[m := parsed[m]];
      }
      MergeGoesOn(before, Document(doc), rest, m, was, had, merged', warnings');
      rest := rest - {m};
    }
  }

  lemma MergeGoesOn(before: seq<Origin>, o: Origin, rest: set<Bytes>, m: Bytes, was: Entries, had: multiset<Warning>,
                    now: Entries, has: multiset<Warning>)
    requires Merging(before, o, rest, was, had) && m in rest && Holds(o, m)
    requires now == if m in was then was else was[m := EntryAt(o, m)]
    requires has == if m in was && was[m].manifestSha256 != EntryAt(o, m).manifestSha256
                    then had + multiset{Conflicting(m)} else had
    ensures Merging(before, o, rest - {m}, now, has)
  {
    EntryMerged(before, o, m, was, had, now, has);
    forall k | k != m
      ensures MergedFor(if k in rest then before else before + [o], now, has, k)
    {
      Untouched(if k in rest then before else before + [o], m, was, had, now, has, k);
    }
  }

  /** Taking in the entry of the next origin settles its model. */
  lemma EntryMerged(before: seq<Origin>, o: Origin, m: Bytes, was: Entries, had: multiset<Warning>,
                    now: Entries, has: multiset<Warning>)
    requires Holds(o, m) && MergedFor(before, was, had, m)
    requires now == if m in was then was else was[m := EntryAt(o, m)]
    requires has == if m in was && was[m].manifestSha256 != EntryAt(o, m).manifestSha256
                    then had + multiset{Conflicting(m)} else had
    ensures MergedFor(before + [o], now, has, m)
  {
    OneMore(before, o, m);
  }

  lemma Untouched(origins: seq<Origin>, m: Bytes, was: Entries, had: multiset<Warning>,
                  now: Entries, has: multiset<Warning>, other: Bytes)
    requires other != m && MergedFor(origins, was, had, other)
    requires now == was || (m !in was && m in now && now == was[m := now[m]])
    requires has == had || has == had + multiset{Conflicting(m)}
    ensures MergedFor(origins, now, has, other)
  {}
}

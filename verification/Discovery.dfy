/** Publishing a model's record to the DHT and finding its swarm entry there. */
module Discovery {
  import opened Text
  import opened Hashing
  import opened Record
  import opened Sequence
  import opened Dht
  import Index

  // ---- Publication ----

  /** The record of a freshly published manifest: a pointer, with the
      canonical bytes when they fit. */
  function RecordFor(infoHash: Bytes, msha: Bytes, revision: Bytes, size: Int64, canonical: Bytes): Option<Record> {
    var (ih, sha) := (Unhex(infoHash), Unhex(msha));
    if ih.None? || |ih.value| != 20 || sha.None? || |sha.value| != 32 then None
    else Some(Record(ih.value, sha.value, revision, size,
                     if |canonical| > MAX_EMBEDDED_MANIFEST then "" else canonical))
  }

  /** The file and network behaviour met when trying one node. */
  datatype Try = Try(io: Io, link: Link)

  /** The node's stored item is this key holder's signed record for the model. */
  ghost predicate Stored(ed: Ed25519, h: Hashes, items: Items, key: Bytes, model: Bytes, rec: Record) {
    var t := Target(h, key, SaltFor(h, model));
    t in items && exists number :: items[t] == NewItem(ed, h, key, model, number, rec)
  }

  /** What the nodes hold; the same node may be listed twice. */
  function Holdings(nodes: seq<Node>): map<Node, Items>
    reads nodes
  {
    map n | n in nodes :: n.items
  }

  /** After trying nodes: the counters, what the nodes hold, and which one took the record. */
  datatype Sent<N> = Sent(seqs: Seqs, net: map<N, Items>, stored: Option<nat>)

  /** Tries the nodes from the k-th on until one takes the record. */
  function Broadcast<N(==)>(ed: Ed25519, h: Hashes, key: Bytes, s: Seqs, net: map<N, Items>, nodes: seq<N>,
                            tries: seq<Try>, model: Bytes, rec: Record, k: nat): Sent<N>
    requires k <= |nodes| == |tries| && forall n :: n in nodes ==> n in net
    decreases |nodes| - k
  {
    if k == |nodes| then Sent(s, net, None) else
      var (t, kept, err) := PutOutcome(ed, h, key, s, net[nodes[k]], model, rec, tries[k].io, tries[k].link);
      if err.None? then Sent(t, net[nodes[k] := kept], Some(k))
      else Broadcast(ed, h, key, t, net[nodes[k] := kept], nodes, tries, model, rec, k + 1)
  }

  /** Best effort: tries the nodes in order, with a fresh publisher over the
      state file, until one takes the record. */
  method PublishToDht(ed: Ed25519, h: Hashes, key: Option<Bytes>, file: StateFile, loadIo: Io,
                      nodes: seq<Node>, tries: seq<Try>, model: Bytes, infoHash: Bytes, msha: Bytes,
                      revision: Bytes, size: Int64, canonical: Bytes)
    returns (stored: Option<nat>)
    requires |tries| == |nodes|
    modifies file, nodes
    ensures var rec := RecordFor(infoHash, msha, revision, size, canonical);
      if key.None? || rec.None? then
        stored == None && file.content == old(file.content) && Holdings(nodes) == old(Holdings(nodes))
      else
        var s := Seqs(Load(old(file.content), loadIo), old(file.content));
        var sent := Broadcast(ed, h, key.value, s, old(Holdings(nodes)), nodes, tries, model, rec.value, 0);
        stored == sent.stored && file.content == sent.seqs.file && Holdings(nodes) == sent.net
  {
    if key.None? {
      return None;
    }
    var rec := RecordFor(infoHash, msha, revision, size, canonical);
    if rec.None? {
      return None;
    }
    var seqs := new SeqState(file, loadIo);
    var publisher := new Publisher(key.value, seqs);
    stored := TryNodes(ed, h, publisher, nodes, tries, model, rec.value);
  }

  method TryNodes(ed: Ed25519, h: Hashes, publisher: Publisher, nodes: seq<Node>, tries: seq<Try>, model: Bytes,
                  rec: Record)
    returns (stored: Option<nat>)
    requires |tries| == |nodes|
    modifies publisher.seqs, publisher.seqs.file, nodes
    ensures var sent := Broadcast(ed, h, publisher.key, old(publisher.seqs.State()), old(Holdings(nodes)), nodes,
                                  tries, model, rec, 0);
      Sent(publisher.seqs.State(), Holdings(nodes), stored) == sent
  {
    ghost var sent := Broadcast(ed, h, publisher.key, publisher.seqs.State(), Holdings(nodes), nodes, tries, model,
                                rec, 0);
    for k := 0 to |nodes|
      invariant Broadcast(ed, h, publisher.key, publisher.seqs.State(), Holdings(nodes), nodes, tries, model, rec, k)
             == sent
    {
      ghost var before := Holdings(nodes);
      var err := publisher.Put(ed, h, nodes[k], model, rec, tries[k].io, tries[k].link);
      assert Holdings(nodes) == before[nodes[k] := nodes[k].items];
      if err.None? {
        return Some(k);
      }
    }
    return None;
  }

  /** A record that was taken is stored at that node. */
  lemma {:induction false} BroadcastStores<N>(ed: Ed25519, h: Hashes, key: Bytes, s: Seqs, net: map<N, Items>,
                                              nodes: seq<N>, tries: seq<Try>, model: Bytes, rec: Record, k: nat)
    requires k <= |nodes| == |tries| && forall n :: n in nodes ==> n in net
    ensures var sent := Broadcast(ed, h, key, s, net, nodes, tries, model, rec, k);
      sent.stored.Some? ==>
        && k <= sent.stored.value < |nodes| && nodes[sent.stored.value] in sent.net
        && Stored(ed, h, sent.net[nodes[sent.stored.value]], key, model, rec)
    decreases |nodes| - k
  {
    if k < |nodes| {
      var (io, link) := (tries[k].io, tries[k].link);
      var (t, kept, err) := PutOutcome(ed, h, key, s, net[nodes[k]], model, rec, io, link);
      if err.None? {
        PutStores(ed, h, key, s, net[nodes[k]], model, rec, io, link);
      } else {
        BroadcastStores(ed, h, key, t, net[nodes[k] := kept], nodes, tries, model, rec, k + 1);
      }
    }
  }

  /** A node that is not tried holds what it held. */
  lemma {:induction false} BroadcastSpares<N>(ed: Ed25519, h: Hashes, key: Bytes, s: Seqs, net: map<N, Items>,
                                              nodes: seq<N>, tries: seq<Try>, model: Bytes, rec: Record, k: nat, n: N)
    requires k <= |nodes| == |tries| && n in net && forall m :: m in nodes ==> m in net
    requires var stored := Broadcast(ed, h, key, s, net, nodes, tries, model, rec, k).stored;
      forall i :: k <= i < |nodes| && (stored.Some? ==> i <= stored.value) ==> nodes[i] != n
    ensures var sent := Broadcast(ed, h, key, s, net, nodes, tries, model, rec, k);
      n in sent.net && sent.net[n] == net[n]
    decreases |nodes| - k
  {
    if k < |nodes| {
      var (t, kept, err) := PutOutcome(ed, h, key, s, net[nodes[k]], model, rec, tries[k].io, tries[k].link);
      if err.Some? {
        BroadcastStores(ed, h, key, t, net[nodes[k] := kept], nodes, tries, model, rec, k + 1);
        assert nodes[k] != n;
        BroadcastSpares(ed, h, key, t, net[nodes[k] := kept], nodes, tries, model, rec, k + 1, n);
      }
    }
  }

  /** The counter can be written and the put arrives. */
  predicate GoodTry(t: Try) {
    t.io.writable && t.link == Delivered
  }

  function FirstGood(tries: seq<Try>, k: nat): Option<nat>
    requires k <= |tries|
    decreases |tries| - k
  {
    if k == |tries| then None else if GoodTry(tries[k]) then Some(k) else FirstGood(tries, k + 1)
  }

  /** No try up to the first good one loses a counter. */
  predicate SafeTries(h: Hashes, s: Seqs, tries: seq<Try>, model: Bytes, k: nat)
    requires k <= |tries|
    decreases |tries| - k
  {
    k == |tries| || (
      && Safe(s, Increment(CounterKey(h, model), tries[k].io))
      && (GoodTry(tries[k]) || SafeTries(h, Next(s, CounterKey(h, model), tries[k].io).0, tries, model, k + 1)))
  }

  /** The i-th try is made and gets to this node. */
  predicate GotTo<N(==)>(nodes: seq<N>, tries: seq<Try>, k: nat, n: N, i: nat)
    requires k <= |nodes| == |tries|
  {
    && k <= i < |nodes| && nodes[i] == n && Arrives(tries[i].io, tries[i].link)
    && var good := FirstGood(tries, k);
       good.Some? ==> i <= good.value
  }

  /** The first try counts for its node, the later ones as they come. */
  lemma GotToNext<N>(nodes: seq<N>, tries: seq<Try>, k: nat, n: N, i: nat)
    requires k < |nodes| == |tries| && !GoodTry(tries[k])
    ensures GotTo(nodes, tries, k, n, i) <==>
      (i == k && nodes[k] == n && Arrives(tries[k].io, tries[k].link)) || GotTo(nodes, tries, k + 1, n, i)
  {
    FirstGoodFrom(tries, k + 1);
  }

  lemma {:induction false} FirstGoodFrom(tries: seq<Try>, k: nat)
    requires k <= |tries|
    ensures var good := FirstGood(tries, k); good.Some? ==> k <= good.value < |tries| && GoodTry(tries[good.value])
    decreases |tries| - k
  {
    if k < |tries| && !GoodTry(tries[k]) {
      FirstGoodFrom(tries, k + 1);
    }
  }

  /** A node that some try got to holds the record under a newer number; any other one what it held. */
  ghost predicate HoldsAsTried<N(!new)>(ed: Ed25519, h: Hashes, key: Bytes, before: Items, after: Items,
                                        nodes: seq<N>, tries: seq<Try>, model: Bytes, rec: Record, k: nat, n: N)
    requires k <= |nodes| == |tries|
  {
    if exists i :: GotTo(nodes, tries, k, n, i) then
      Newer(h, key, model, before, after) && Stored(ed, h, after, key, model, rec)
    else after == before
  }

  /** With safe counters and honest nodes that hold no newer number, success
      is reported exactly for the first node whose try is good, and after it
      exactly the nodes that some try got to hold the record, acknowledged or not. */
  lemma {:induction false} StoredExactly<N(!new)>(ed: Ed25519, h: Hashes, key: Bytes, s: Seqs, net: map<N, Items>,
                                                  nodes: seq<N>, tries: seq<Try>, model: Bytes, rec: Record, k: nat)
    requires k <= |nodes| == |tries| && forall n :: n in nodes ==> n in net
    requires ed.SignsFor(key) && |rec.manifest| <= MAX_EMBEDDED_MANIFEST && |Encode(rec)| <= VALUE_LIMIT
    requires Consistent(s) && Headroom(s, |nodes| - k) && SafeTries(h, s, tries, model, k)
    requires forall n :: n in nodes ==> NodeBehind(h, key, s, net[n], {model})
    ensures var sent := Broadcast(ed, h, key, s, net, nodes, tries, model, rec, k);
      && sent.stored == FirstGood(tries, k)
      && forall n :: n in net ==>
           n in sent.net && HoldsAsTried(ed, h, key, net[n], sent.net[n], nodes, tries, model, rec, k, n)
    decreases |nodes| - k
  {
    if k < |nodes| {
      var (io, link, counter) := (tries[k].io, tries[k].link, CounterKey(h, model));
      var (t, kept, err) := PutOutcome(ed, h, key, s, net[nodes[k]], model, rec, io, link);
      var next := net[nodes[k] := kept];
      PutKeeps(ed, h, key, s, net[nodes[k]], {model}, model, rec, io, link);
      PutSucceeds(ed, h, key, s, net[nodes[k]], model, rec, io, link);
      PutArrives(ed, h, key, s, net[nodes[k]], model, rec, io, link);
      if err.Some? {
        StepKeeps(s, Increment(counter, io), |nodes| - k - 1);
        AllStillBehind(h, key, s, t, net, nodes, k, kept, model);
        StoredExactly(ed, h, key, t, next, nodes, tries, model, rec, k + 1);
        var sent := Broadcast(ed, h, key, t, next, nodes, tries, model, rec, k + 1);
        forall n | n in net
          ensures n in sent.net && HoldsAsTried(ed, h, key, net[n], sent.net[n], nodes, tries, model, rec, k, n)
        {
          OneTryMore(ed, h, key, net[n], next[n], sent.net[n], nodes, tries, model, rec, k, n);
        }
      } else {
        forall n | n in net
          ensures HoldsAsTried(ed, h, key, net[n], next[n], nodes, tries, model, rec, k, n)
        {
          LastTry(ed, h, key, net[n], next[n], nodes, tries, model, rec, k, n);
        }
      }
    }
  }

  lemma AllStillBehind<N>(h: Hashes, key: Bytes, s: Seqs, t: Seqs, net: map<N, Items>, nodes: seq<N>, k: nat,
                          kept: Items, model: Bytes)
    requires k < |nodes| && forall n :: n in nodes ==> n in net
    requires forall n :: n in nodes ==> NodeBehind(h, key, s, net[n], {model})
    requires NodeBehind(h, key, t, kept, {model})
    requires OnDisk(t, CounterKey(h, model)) >= OnDisk(s, CounterKey(h, model))
    ensures forall n :: n in nodes ==> NodeBehind(h, key, t, net[nodes[k] := kept][n], {model})
  {
    forall n | n in nodes
      ensures NodeBehind(h, key, t, net[nodes[k] := kept][n], {model})
    {
      if n != nodes[k] {
        StillBehind(h, key, s, t, net[n], model);
      }
    }
  }

  lemma OneTryMore<N(!new)>(ed: Ed25519, h: Hashes, key: Bytes, before: Items, next: Items, after: Items,
                            nodes: seq<N>, tries: seq<Try>, model: Bytes, rec: Record, k: nat, n: N)
    requires k < |nodes| == |tries| && !GoodTry(tries[k])
    requires if nodes[k] == n && Arrives(tries[k].io, tries[k].link)
             then Newer(h, key, model, before, next) && Stored(ed, h, next, key, model, rec) else next == before
    requires HoldsAsTried(ed, h, key, next, after, nodes, tries, model, rec, k + 1, n)
    ensures HoldsAsTried(ed, h, key, before, after, nodes, tries, model, rec, k, n)
  {
    var later := k + 1;
    forall i
      ensures GotTo(nodes, tries, k, n, i) <==>
        (i == k && nodes[k] == n && Arrives(tries[k].io, tries[k].link)) || GotTo(nodes, tries, later, n, i)
    {
      GotToNext(nodes, tries, k, n, i);
    }
    if nodes[k] == n && Arrives(tries[k].io, tries[k].link) {
      assert GotTo(nodes, tries, k, n, k);
    } else if i: nat :| GotTo(nodes, tries, later, n, i) {
      assert GotTo(nodes, tries, k, n, i);
    }
  }

  lemma LastTry<N(!new)>(ed: Ed25519, h: Hashes, key: Bytes, before: Items, after: Items, nodes: seq<N>,
                         tries: seq<Try>, model: Bytes, rec: Record, k: nat, n: N)
    requires k < |nodes| == |tries| && GoodTry(tries[k])
    requires if nodes[k] == n then Newer(h, key, model, before, after) && Stored(ed, h, after, key, model, rec)
             else after == before
    ensures HoldsAsTried(ed, h, key, before, after, nodes, tries, model, rec, k, n)
  {
    if nodes[k] == n {
      assert GotTo(nodes, tries, k, n, k);
    }
  }

  lemma StillBehind(h: Hashes, key: Bytes, s: Seqs, t: Seqs, items: Items, model: Bytes)
    requires NodeBehind(h, key, s, items, {model})
    requires OnDisk(t, CounterKey(h, model)) >= OnDisk(s, CounterKey(h, model))
    ensures NodeBehind(h, key, t, items, {model})
  {}

  lemma PutSucceeds(ed: Ed25519, h: Hashes, key: Bytes, s: Seqs, items: Items, model: Bytes, rec: Record, io: Io,
                    link: Link)
    requires |rec.manifest| <= MAX_EMBEDDED_MANIFEST
    ensures var (t, _, err) := PutOutcome(ed, h, key, s, items, model, rec, io, link);
      && (err != Some(PutRejected) ==> (err.None? <==> GoodTry(Try(io, link))))
      && t == Next(s, CounterKey(h, model), io).0
  {}

  lemma PutStores(ed: Ed25519, h: Hashes, key: Bytes, s: Seqs, items: Items, model: Bytes, rec: Record, io: Io,
                  link: Link)
    requires PutOutcome(ed, h, key, s, items, model, rec, io, link).2.None?
    ensures Stored(ed, h, PutOutcome(ed, h, key, s, items, model, rec, io, link).1, key, model, rec)
  {
    var n := Next(s, CounterKey(h, model), io).1.value;
    var item := NewItem(ed, h, key, model, n, rec);
    assert NodePut(ed, h, items, item)[Target(h, key, SaltFor(h, model))] == item;
  }

  // ---- Discovery ----

  datatype Found = Found(entry: Index.Entry, manifest: Bytes)

  datatype DiscoverError = BadAllowlist | NoNode | NodeError(error: GetError) | OtherRevision(revision: Bytes)

  function EntryOf(model: Bytes, rec: Record): Index.Entry {
    Index.Entry(model, Hex(rec.infoHash), Hex(rec.manifestSha256), rec.revision, rec.size, 0)
  }

  /** What one node's replies amount to. */
  function Visit(ed: Ed25519, h: Hashes, keys: seq<Bytes>, replies: seq<Reply>, model: Bytes,
                 revision: Bytes): Result<Found, DiscoverError>
    requires |replies| == |keys|
  {
    var got := GetOutcome(ed, h, keys, replies, model);
    if got.Err? then Err(NodeError(got.error))
    else if got.value.revision != revision then Err(OtherRevision(got.value.revision))
    else Ok(Found(EntryOf(model, got.value), got.value.manifest))
  }

  predicate Answering(keys: seq<Bytes>, nodes: seq<seq<Reply>>) {
    forall i :: 0 <= i < |nodes| ==> |nodes[i]| == |keys|
  }

  /** The outcome after the first n nodes: the first find, else the last error. */
  function Visited(ed: Ed25519, h: Hashes, keys: seq<Bytes>, nodes: seq<seq<Reply>>, model: Bytes, revision: Bytes,
                   n: nat): Result<Found, DiscoverError>
    requires n <= |nodes| && Answering(keys, nodes)
  {
    if n == 0 then Err(NoNode) else
      var before := Visited(ed, h, keys, nodes, model, revision, n - 1);
      if before.Ok? then before else Visit(ed, h, keys, nodes[n - 1], model, revision)
  }

  lemma {:induction false} VisitedStays(ed: Ed25519, h: Hashes, keys: seq<Bytes>, nodes: seq<seq<Reply>>,
                                        model: Bytes, revision: Bytes, n: nat, m: nat)
    requires n <= m <= |nodes| && Answering(keys, nodes)
    requires Visited(ed, h, keys, nodes, model, revision, n).Ok?
    ensures Visited(ed, h, keys, nodes, model, revision, m) == Visited(ed, h, keys, nodes, model, revision, n)
    decreases m
  {
    if n < m {
      VisitedStays(ed, h, keys, nodes, model, revision, n, m - 1);
    }
  }

  method DiscoverViaDht(ed: Ed25519, h: Hashes, signers: seq<Bytes>, nodes: seq<seq<Reply>>, model: Bytes,
                        revision: Bytes)
    returns (r: Result<Found, DiscoverError>)
    requires Answering(signers, nodes)
    ensures (exists i :: 0 <= i < |signers| && KeyOf(signers[i]).None?) ==> r == Err(BadAllowlist)
    ensures forall keys :: AllowedKeys(signers, keys) ==> r == Visited(ed, h, keys, nodes, model, revision, |nodes|)
  {
    var client := NewClient(signers);
    if client.None? {
      return Err(BadAllowlist);
    }
    var keys := client.value;
    assert forall other :: AllowedKeys(signers, other) ==> other == keys;
    var lastErr := NoNode;
    for i := 0 to |nodes|
      invariant Visited(ed, h, keys, nodes, model, revision, i) == Err(lastErr)
    {
      assert |nodes[i]| == |keys|;
      var got := Get(ed, h, keys, nodes[i], model);
      if got.Err? {
        lastErr := NodeError(got.error);
      } else if got.value.revision != revision {
        lastErr := OtherRevision(got.value.revision);
      } else {
        VisitedStays(ed, h, keys, nodes, model, revision, i + 1, |nodes|);
        return Ok(Found(EntryOf(model, got.value), got.value.manifest));
      }
    }
    return Err(lastErr);
  }

  /** keys is the decoded allowlist. */
  predicate AllowedKeys(signers: seq<Bytes>, keys: seq<Bytes>) {
    |keys| == |signers| && forall i :: 0 <= i < |signers| ==> KeyOf(signers[i]) == Some(keys[i])
  }

  /** An honest node answers with what it holds. */
  function Answer(items: Items, target: Bytes): Reply {
    if target in items then
      var item := items[target];
      Value(item.key, Some(item.number), item.v, item.sig)
    else Empty
  }

  /** A stored record comes back from an honest node. */
  lemma StoredIsJudgedGood(ed: Ed25519, h: Hashes, items: Items, key: Bytes, model: Bytes, rec: Record)
    requires ed.SignsFor(key) && ValidRecord(h, rec)
    requires Stored(ed, h, items, key, model, rec)
    ensures Judge(ed, h, key, SaltFor(h, model), Answer(items, Target(h, key, SaltFor(h, model)))) == Ok(rec)
  {
    RoundTrip(h, rec);
    assert Encode(rec)[0] == 'd';
  }

  /** Publish, then discover: once an honest node holds the record of a
      manifest, whoever trusts the publisher and meets no other acceptable
      answer first finds the same infohash, digest, revision and size, and the
      canonical bytes exactly when they are at most 700. */
  lemma {:induction false} PublishThenDiscover(ed: Ed25519, h: Hashes, items: Items, key: Bytes, model: Bytes,
                                               infoHash: Bytes, revision: Bytes, size: Int64, canonical: Bytes,
                                               keys: seq<Bytes>, nodes: seq<seq<Reply>>, k: nat, n: nat)
    requires ed.SignsFor(key)
    requires IsHex(infoHash, 40) && revision != "" && canonical != ""
    requires var rec := RecordFor(infoHash, Hex(h.sha256(canonical)), revision, size, canonical);
      rec.Some? ==> Stored(ed, h, items, key, model, rec.value)
    requires Answering(keys, nodes) && n < |nodes| && k < |keys| && keys[k] == key
    requires nodes[n][k] == Answer(items, Target(h, key, SaltFor(h, model)))
    requires forall j :: 0 <= j < k ==> Judge(ed, h, keys[j], SaltFor(h, model), nodes[n][j]).Err?
    requires Visited(ed, h, keys, nodes, model, revision, n).Err?
    ensures Visited(ed, h, keys, nodes, model, revision, |nodes|)
         == Ok(Found(Index.Entry(model, infoHash, Hex(h.sha256(canonical)), revision, size, 0),
                     if |canonical| <= MAX_EMBEDDED_MANIFEST then canonical else ""))
  {
    var rec := RecordIsFaithful(h, model, infoHash, revision, size, canonical);
    StoredIsFound(ed, h, items, key, model, rec, keys, nodes, k, n);
  }

  /** The record of a manifest is valid and carries its identifiers through the hex layer and back. */
  lemma RecordIsFaithful(h: Hashes, model: Bytes, infoHash: Bytes, revision: Bytes, size: Int64, canonical: Bytes)
    returns (rec: Record)
    requires IsHex(infoHash, 40) && revision != "" && canonical != ""
    ensures RecordFor(infoHash, Hex(h.sha256(canonical)), revision, size, canonical) == Some(rec)
    ensures ValidRecord(h, rec)
    ensures EntryOf(model, rec) == Index.Entry(model, infoHash, Hex(h.sha256(canonical)), revision, size, 0)
    ensures rec.manifest == if |canonical| <= MAX_EMBEDDED_MANIFEST then canonical else ""
  {
    HexUnhex(infoHash);
    UnhexHex(h.sha256(canonical));
    rec := RecordFor(infoHash, Hex(h.sha256(canonical)), revision, size, canonical).value;
  }

  lemma {:induction false} StoredIsFound(ed: Ed25519, h: Hashes, items: Items, key: Bytes, model: Bytes, rec: Record,
                                         keys: seq<Bytes>, nodes: seq<seq<Reply>>, k: nat, n: nat)
    requires ed.SignsFor(key) && ValidRecord(h, rec)
    requires Stored(ed, h, items, key, model, rec)
    requires Answering(keys, nodes) && n < |nodes| && k < |keys| && keys[k] == key
    requires |nodes[n]| == |keys| && nodes[n][k] == Answer(items, Target(h, key, SaltFor(h, model)))
    requires forall j :: 0 <= j < k ==> Judge(ed, h, keys[j], SaltFor(h, model), nodes[n][j]).Err?
    requires Visited(ed, h, keys, nodes, model, rec.revision, n).Err?
    ensures Visited(ed, h, keys, nodes, model, rec.revision, |nodes|) == Ok(Found(EntryOf(model, rec), rec.manifest))
  {
    StoredIsJudgedGood(ed, h, items, key, model, rec);
    FirstGoodReply(ed, h, keys, nodes[n], model, rec, k);
    FirstFind(ed, h, keys, nodes, model, rec, n);
  }

  lemma FirstGoodReply(ed: Ed25519, h: Hashes, keys: seq<Bytes>, replies: seq<Reply>, model: Bytes, rec: Record,
                       k: nat)
    requires k < |keys| == |replies|
    requires Judge(ed, h, keys[k], SaltFor(h, model), replies[k]) == Ok(rec)
    requires forall j :: 0 <= j < k ==> Judge(ed, h, keys[j], SaltFor(h, model), replies[j]).Err?
    ensures GetOutcome(ed, h, keys, replies, model) == Ok(rec)
  {
    var salt := SaltFor(h, model);
    NoneBefore(ed, h, keys, replies, salt, k);
    AskedStays(ed, h, keys, replies, salt, k + 1, |keys|);
  }

  lemma {:induction false} FirstFind(ed: Ed25519, h: Hashes, keys: seq<Bytes>, nodes: seq<seq<Reply>>, model: Bytes,
                                     rec: Record, n: nat)
    requires Answering(keys, nodes) && n < |nodes|
    requires GetOutcome(ed, h, keys, nodes[n], model) == Ok(rec)
    requires Visited(ed, h, keys, nodes, model, rec.revision, n).Err?
    ensures Visited(ed, h, keys, nodes, model, rec.revision, |nodes|) == Ok(Found(EntryOf(model, rec), rec.manifest))
  {
    VisitedStays(ed, h, keys, nodes, model, rec.revision, n + 1, |nodes|);
  }

  lemma {:induction false} NoneBefore(ed: Ed25519, h: Hashes, keys: seq<Bytes>, replies: seq<Reply>, salt: Bytes,
                                      k: nat)
    requires k <= |keys| == |replies|
    requires forall j :: 0 <= j < k ==> Judge(ed, h, keys[j], salt, replies[j]).Err?
    ensures Asked(ed, h, keys, replies, salt, k).Err?
  {
    AskedMeans(ed, h, keys, replies, salt, k);
  }

  /** Whatever the nodes answer, a discovered entry is the record some
      allowlisted publisher put for this model at this revision. */
  lemma {:induction false} DiscoveredIsAuthentic(ed: Ed25519, h: Hashes, keys: seq<Bytes>, nodes: seq<seq<Reply>>,
                                                 model: Bytes, revision: Bytes, log: set<Signed>, n: nat)
    requires n <= |nodes| && Answering(keys, nodes)
    requires forall i :: 0 <= i < |nodes| ==> Unforged(ed, h, keys, nodes[i], log)
    requires CollisionFree(h.sha256, {model} + set p | p in log :: p.model)
    requires Visited(ed, h, keys, nodes, model, revision, n).Ok?
    ensures exists p ::
      && p in log && PutBy(p, keys, model, p.rec) && p.rec.revision == revision
      && Visited(ed, h, keys, nodes, model, revision, n).value == Found(EntryOf(model, p.rec), p.rec.manifest)
  {
    if Visited(ed, h, keys, nodes, model, revision, n - 1).Ok? {
      DiscoveredIsAuthentic(ed, h, keys, nodes, model, revision, log, n - 1);
    } else {
      GetIsAuthentic(ed, h, keys, nodes[n - 1], model, log);
      var rec := GetOutcome(ed, h, keys, nodes[n - 1], model).value;
      var p :| p in log && PutBy(p, keys, model, rec);
      assert PutBy(p, keys, model, p.rec);
    }
  }
}

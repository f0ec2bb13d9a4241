/** From a publisher's disk to a puller's, through nodes and peers nobody trusts. */
module Delivery {
  import opened Text
  import opened Hashing
  import opened Manifest
  import opened Builder
  import opened Dht
  import opened Discovery
  import opened Pull
  import Record
  import Index

  /** An embedded manifest that was discovered has the discovered digest. */
  lemma {:induction false} DiscoveredDigest(ed: Ed25519, h: Hashes, keys: seq<Bytes>, nodes: seq<seq<Reply>>,
                                            model: Bytes, revision: Bytes, n: nat)
    requires n <= |nodes| && Answering(keys, nodes)
    requires Visited(ed, h, keys, nodes, model, revision, n).Ok?
    ensures var found := Visited(ed, h, keys, nodes, model, revision, n).value;
      && found.entry.model == model && found.entry.revision == revision
      && (found.manifest != "" ==> Hex(h.sha256(found.manifest)) == found.entry.manifestSha256)
  {
    if Visited(ed, h, keys, nodes, model, revision, n - 1).Ok? {
      DiscoveredDigest(ed, h, keys, nodes, model, revision, n - 1);
    } else {
      var salt := SaltFor(h, model);
      AskedMeans(ed, h, keys, nodes[n - 1], salt, |keys|);
      var i :| 0 <= i < |keys|
        && Judge(ed, h, keys[i], salt, nodes[n - 1][i]) == GetOutcome(ed, h, keys, nodes[n - 1], model);
      Record.AcceptedIsValid(h, nodes[n - 1][i].v);
    }
  }

  /** Every record the trusted key holders put for this model at this
      revision names the manifest m0. */
  ghost predicate PublishersAgree(h: Hashes, json: Json, log: set<Signed>, keys: seq<Bytes>,
                                  model: Bytes, revision: Bytes, m0: Manifest) {
    forall p :: p in log && PutBy(p, keys, model, p.rec) && p.rec.revision == revision ==>
      p.rec.manifestSha256 == h.sha256(json.encode(m0))
  }

  /** If the trusted publishers put records of a manifest built from d0, then
      whatever the DHT nodes answer, whatever the origins serve and whatever
      the peers send, a completed swarm pull holds exactly the files of d0. */
  lemma {:induction false} DiscoveredPullDelivers(ed: Ed25519, h: Hashes, json: Json, keys: seq<Bytes>,
                                                  nodes: seq<seq<Reply>>, model: Bytes, revision: Bytes,
                                                  log: set<Signed>, m0: Manifest, entries: seq<File>, d0: Dir,
                                                  swarm: Swarm, m: Manifest, dir: Dir)
    requires json.Inverts() && Valid(m) && BuiltFrom(h, m0, entries, d0)
    requires Answering(keys, nodes) && forall i :: 0 <= i < |nodes| ==> Unforged(ed, h, keys, nodes[i], log)
    requires PublishersAgree(h, json, log, keys, model, revision, m0)
    requires var found := Visited(ed, h, keys, nodes, model, revision, |nodes|);
      found.Ok? && swarm.entry == Some(found.value.entry) && swarm.embedded == found.value.manifest
    requires CheckedSwarm(h, json, swarm, revision, m, dir)
    requires CollisionFree(h.sha256, {model} + set p | p in log :: p.model)
    requires CollisionFree(h.sha256, {swarm.embedded, json.encode(m0), json.encode(m)})
    requires CollisionFree(h.sha256, Contents(m0, d0) + Contents(m0, dir))
    ensures m == m0 && SameFiles(m0, d0, dir)
  {
    DiscoveredDigest(ed, h, keys, nodes, model, revision, |nodes|);
    var found := Visited(ed, h, keys, nodes, model, revision, |nodes|).value;
    DiscoveredIsAuthentic(ed, h, keys, nodes, model, revision, log, |nodes|);
    var p :| p in log && PutBy(p, keys, model, p.rec) && p.rec.revision == revision
      && found == Found(EntryOf(model, p.rec), p.rec.manifest);
    SwarmDelivers(h, json, swarm, revision, m, dir, m0, entries, d0);
  }
}

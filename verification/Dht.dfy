/** Signed mutable records: the publisher's put, the node that stores it, and
    the client that reads from nodes which may answer anything. */
module Dht {
  import opened Text
  import opened Hashing
  import opened Record
  import opened Sequence
  import Bencode

  const MAX_SALT := 64

  /** Idealised ed25519: a key holder's own signatures verify. */
  datatype Ed25519 = Ed25519(sign: (Bytes, Bytes) -> Bytes, verify: (Bytes, Bytes, Bytes) -> bool) {
    ghost predicate SignsFor(key: Bytes) {
      forall m :: verify(key, m, sign(key, m))
    }
  }

  function SaltFor(h: Hashes, model: Bytes): Bytes {
    h.sha256(model)
  }

  function Target(h: Hashes, key: Bytes, salt: Bytes): Bytes {
    h.sha1(key + salt)
  }

  /** What a signature covers: the salt when there is one, the sequence number, the value. */
  function Message(salt: Bytes, number: Int64, v: Bytes): Bytes {
    (if salt == "" then "" else Bencode.PrintStr("salt") + Bencode.PrintStr(salt)) + Numbered(number, v)
  }

  function Numbered(number: Int64, v: Bytes): Bytes {
    Bencode.PrintStr("seq") + (Bencode.Print(Bencode.Int(number)) + (Bencode.PrintStr("v") + v))
  }

  /** The signed buffers have the form of the examples in BEP 44, "test vectors". */
  lemma MessageForms(v: Bytes)
    ensures Message("foobar", 1, v) == "4:salt" + "6:foobar" + ("3:seq" + ("i1e" + ("1:v" + v)))
    ensures Message("", 1, v) == "3:seq" + ("i1e" + ("1:v" + v))
  {
    PrintedParts();
    assert "" + Numbered(1, v) == Numbered(1, v);
  }

  lemma PrintedParts()
    ensures Bencode.PrintStr("salt") == "4:salt" && Bencode.PrintStr("foobar") == "6:foobar"
    ensures Bencode.PrintStr("seq") == "3:seq" && Bencode.PrintStr("v") == "1:v"
    ensures Bencode.Print(Bencode.Int(1)) == "i1e"
  {
    assert Bencode.Decimal(4) == "4" && Bencode.Decimal(6) == "6" && Bencode.Decimal(3) == "3";
    assert Bencode.Decimal(1) == "1";
  }

  lemma SamePrefix(a: Bytes, x: Bytes, y: Bytes)
    requires a + x == a + y
    ensures x == y
  {
    assert (a + x)[|a|..] == x && (a + y)[|a|..] == y;
  }

  /** A signature binds salt, sequence number and value: none can be exchanged. */
  lemma MessageInjective(s1: Bytes, n1: Int64, v1: Bytes, s2: Bytes, n2: Int64, v2: Bytes)
    requires s1 != "" && s2 != ""
    requires Message(s1, n1, v1) == Message(s2, n2, v2)
    ensures s1 == s2 && n1 == n2 && v1 == v2
  {
    SaltedInjective(s1, Numbered(n1, v1), s2, Numbered(n2, v2));
    NumberedInjective(n1, v1, n2, v2);
  }

  lemma SaltedInjective(s1: Bytes, t1: Bytes, s2: Bytes, t2: Bytes)
    requires var tag := Bencode.PrintStr("salt");
      tag + Bencode.PrintStr(s1) + t1 == tag + Bencode.PrintStr(s2) + t2
    ensures s1 == s2 && t1 == t2
  {
    var tag := Bencode.PrintStr("salt");
    Regrouped(tag, Bencode.PrintStr(s1), t1);
    Regrouped(tag, Bencode.PrintStr(s2), t2);
    SamePrefix(tag, Bencode.PrintStr(s1) + t1, Bencode.PrintStr(s2) + t2);
    Bencode.ParseStrPrint(s1, t1);
    Bencode.ParseStrPrint(s2, t2);
  }

  lemma Regrouped(a: Bytes, b: Bytes, c: Bytes)
    ensures a + b + c == a + (b + c)
  {}

  lemma NumberedInjective(n1: Int64, v1: Bytes, n2: Int64, v2: Bytes)
    requires Numbered(n1, v1) == Numbered(n2, v2)
    ensures n1 == n2 && v1 == v2
  {
    var (i1, i2) := (Bencode.Int(n1), Bencode.Int(n2));
    var (r1, r2) := (Bencode.PrintStr("v") + v1, Bencode.PrintStr("v") + v2);
    SamePrefix(Bencode.PrintStr("seq"), Bencode.Print(i1) + r1, Bencode.Print(i2) + r2);
    Bencode.ParsePrint(i1, r1);
    Bencode.ParsePrint(i2, r2);
    SamePrefix(Bencode.PrintStr("v"), v1, v2);
  }

  // ---- A storing node ----

  datatype Item = Item(key: Bytes, salt: Bytes, number: Int64, v: Bytes, sig: Bytes)

  type Items = map<Bytes, Item>

  /** An honest node wants a small enough, well-signed item, newer than what it holds. */
  predicate NodeAccepts(ed: Ed25519, h: Hashes, items: Items, item: Item) {
    && |item.v| <= VALUE_LIMIT
    && |item.salt| <= MAX_SALT
    && ed.verify(item.key, Message(item.salt, item.number, item.v), item.sig)
    && var t := Target(h, item.key, item.salt);
       t in items ==> items[t].number < item.number
  }

  function NodePut(ed: Ed25519, h: Hashes, items: Items, item: Item): Items {
    if NodeAccepts(ed, h, items, item) then items[Target(h, item.key, item.salt) := item] else items
  }

  // ---- The publisher ----

  /** How far a put gets over the network: the node sends no token, the put
      never arrives, the node takes it but the answer never does, or all goes through. */
  datatype Link = NoToken | Lost | Unacknowledged | Delivered

  datatype PutError = OversizedManifest | SequenceState | NoWriteToken | PutLost | PutRejected

  function NewItem(ed: Ed25519, h: Hashes, key: Bytes, model: Bytes, number: Int64, rec: Record): Item {
    var salt := SaltFor(h, model);
    Item(key, salt, number, Encode(rec), ed.sign(key, Message(salt, number, Encode(rec))))
  }

  function CounterKey(h: Hashes, model: Bytes): Bytes {
    Hex(SaltFor(h, model))
  }

  /** One put: the counters and the node afterwards, and the error if any. */
  function PutOutcome(ed: Ed25519, h: Hashes, key: Bytes, s: Seqs, items: Items,
                      model: Bytes, rec: Record, io: Io, link: Link): (Seqs, Items, Option<PutError>)
  {
    if |rec.manifest| > MAX_EMBEDDED_MANIFEST then (s, items, Some(OversizedManifest)) else
      var (t, n) := Next(s, CounterKey(h, model), io);
      if n.None? then (t, items, Some(SequenceState)) else
        var item := NewItem(ed, h, key, model, n.value, rec);
        match link
        case NoToken => (t, items, Some(NoWriteToken))
        case Lost => (t, items, Some(PutLost))
        case Unacknowledged => (t, NodePut(ed, h, items, item), Some(PutLost))
        case Delivered =>
          (t, NodePut(ed, h, items, item),
           if NodeAccepts(ed, h, items, item) then None else Some(PutRejected))
  }

  /** Why a put fails: too large a manifest before anything else, then a
      counter that cannot be written, then the network, then the node. Only
      the first leaves the counters alone, and only a put that arrives can
      change the node. */
  lemma PutFails(ed: Ed25519, h: Hashes, key: Bytes, s: Seqs, items: Items, model: Bytes, rec: Record, io: Io,
                 link: Link)
    ensures var (t, kept, err) := PutOutcome(ed, h, key, s, items, model, rec, io, link);
      var n := Next(s, CounterKey(h, model), io).1;
      && (err == Some(OversizedManifest) <==> |rec.manifest| > 700)
      && (err == Some(SequenceState) <==> |rec.manifest| <= 700 && !io.writable)
      && (err == Some(NoWriteToken) <==> |rec.manifest| <= 700 && io.writable && link == NoToken)
      && (err == Some(PutLost) <==>
            |rec.manifest| <= 700 && io.writable && (link == Lost || link == Unacknowledged))
      && (err == Some(PutRejected) <==>
            && |rec.manifest| <= 700 && n.Some? && link == Delivered
            && !NodeAccepts(ed, h, items, NewItem(ed, h, key, model, n.value, rec)))
      && t == (if |rec.manifest| > 700 then s else Next(s, CounterKey(h, model), io).0)
      && (kept != items ==> |rec.manifest| <= 700 && io.writable && (link == Delivered || link == Unacknowledged))
  {}

  class Node {
    var items: Items

    constructor ()
      ensures items == map[]
    {
      items := map[];
    }

    method Store(ed: Ed25519, h: Hashes, item: Item) returns (ok: bool)
      modifies this
      ensures ok == NodeAccepts(ed, h, old(items), item)
      ensures items == NodePut(ed, h, old(items), item)
    {
      ok := NodeAccepts(ed, h, items, item);
      if ok {
        items := items[Target(h, item.key, item.salt) := item];
      }
    }
  }

  class Publisher {
    const key: Bytes
    const seqs: SeqState

    constructor (key: Bytes, seqs: SeqState)
      ensures this.key == key && this.seqs == seqs
    {
      this.key, this.seqs := key, seqs;
    }

    method Put(ed: Ed25519, h: Hashes, node: Node, model: Bytes, rec: Record, io: Io, link: Link)
      returns (err: Option<PutError>)
      modifies seqs, seqs.file, node
      ensures (seqs.State(), node.items, err)
           == PutOutcome(ed, h, key, old(seqs.State()), old(node.items), model, rec, io, link)
    {
      if |rec.manifest| > MAX_EMBEDDED_MANIFEST {
        return Some(OversizedManifest);
      }
      var n := seqs.Increment(CounterKey(h, model), io);
      if n.None? {
        return Some(SequenceState);
      }
      var item := NewItem(ed, h, key, model, n.value, rec);
      if link == NoToken {
        return Some(NoWriteToken);
      }
      if link == Lost {
        return Some(PutLost);
      }
      var ok := node.Store(ed, h, item);
      if link == Unacknowledged {
        return Some(PutLost);
      }
      return if ok then None else Some(PutRejected);
    }
  }

  // ---- Runs of one publisher against one node ----

  datatype Action = Reload(io: Io) | Publish(model: Bytes, rec: Record, io: Io, link: Link)

  function Act(ed: Ed25519, h: Hashes, key: Bytes, s: Seqs, items: Items, a: Action): (Seqs, Items,
               Option<PutError>) {
    match a
    case Reload(io) => (Step(s, Restart(io)).0, items, None)
    case Publish(model, rec, io, link) => PutOutcome(ed, h, key, s, items, model, rec, io, link)
  }

  predicate SafeAction(h: Hashes, s: Seqs, a: Action) {
    a.Publish? ==> Safe(s, Increment(CounterKey(h, a.model), a.io))
  }

  predicate SafeActions(ed: Ed25519, h: Hashes, key: Bytes, s: Seqs, items: Items, actions: seq<Action>)
    decreases |actions|
  {
    actions == [] || (
      && SafeAction(h, s, actions[0])
      && var (t, kept, _) := Act(ed, h, key, s, items, actions[0]);
         SafeActions(ed, h, key, t, kept, actions[1..]))
  }

  predicate NoneRejected(ed: Ed25519, h: Hashes, key: Bytes, s: Seqs, items: Items, actions: seq<Action>)
    decreases |actions|
  {
    actions == [] ||
      var (t, kept, err) := Act(ed, h, key, s, items, actions[0]);
      err != Some(PutRejected) && NoneRejected(ed, h, key, t, kept, actions[1..])
  }

  /** The node never holds a number above the one on the publisher's disk. */
  ghost predicate NodeBehind(h: Hashes, key: Bytes, s: Seqs, items: Items, models: set<Bytes>) {
    forall m :: m in models ==>
      var t := Target(h, key, SaltFor(h, m));
      t in items ==> items[t].number <= OnDisk(s, CounterKey(h, m))
  }

  /** Targets of these models do not collide. */
  ghost predicate DistinctTargets(h: Hashes, key: Bytes, models: set<Bytes>) {
    CollisionFree(h.sha1, set m | m in models :: key + SaltFor(h, m))
  }

  lemma SameTargetSameCounter(h: Hashes, key: Bytes, models: set<Bytes>, m1: Bytes, m2: Bytes)
    requires DistinctTargets(h, key, models) && m1 in models && m2 in models
    requires Target(h, key, SaltFor(h, m1)) == Target(h, key, SaltFor(h, m2))
    ensures CounterKey(h, m1) == CounterKey(h, m2)
  {
    assert key + SaltFor(h, m1) in (set m | m in models :: key + SaltFor(h, m));
    assert key + SaltFor(h, m2) in (set m | m in models :: key + SaltFor(h, m));
    SamePrefix(key, SaltFor(h, m1), SaltFor(h, m2));
  }

  predicate Publishable(a: Action, models: set<Bytes>) {
    a.Publish? ==> a.model in models && |Encode(a.rec)| <= VALUE_LIMIT
  }

  lemma ActKeeps(ed: Ed25519, h: Hashes, key: Bytes, s: Seqs, items: Items, models: set<Bytes>, a: Action, n: nat)
    requires ed.SignsFor(key) && DistinctTargets(h, key, models)
    requires Consistent(s) && Headroom(s, n + 1) && NodeBehind(h, key, s, items, models)
    requires SafeAction(h, s, a) && Publishable(a, models)
    ensures var (t, kept, err) := Act(ed, h, key, s, items, a);
      && err != Some(PutRejected)
      && Consistent(t) && Headroom(t, n) && NodeBehind(h, key, t, kept, models)
  {
    match a
    case Reload(io) => StepKeeps(s, Restart(io), n);
    case Publish(model, rec, io, link) =>
      if |rec.manifest| <= MAX_EMBEDDED_MANIFEST {
        StepKeeps(s, Increment(CounterKey(h, model), io), n);
        PutKeeps(ed, h, key, s, items, models, model, rec, io, link);
      }
  }

  /** A delivered put carries a number above all the node holds for its target. */
  lemma PutKeeps(ed: Ed25519, h: Hashes, key: Bytes, s: Seqs, items: Items, models: set<Bytes>,
                 model: Bytes, rec: Record, io: Io, link: Link)
    requires ed.SignsFor(key) && DistinctTargets(h, key, models) && model in models
    requires Consistent(s) && Headroom(s, 1) && NodeBehind(h, key, s, items, models)
    requires Safe(s, Increment(CounterKey(h, model), io))
    requires |rec.manifest| <= MAX_EMBEDDED_MANIFEST && |Encode(rec)| <= VALUE_LIMIT
    ensures var (t, kept, err) := PutOutcome(ed, h, key, s, items, model, rec, io, link);
      err != Some(PutRejected) && NodeBehind(h, key, t, kept, models)
  {
    var (t, kept, err) := PutOutcome(ed, h, key, s, items, model, rec, io, link);
    var counter := CounterKey(h, model);
    IncrementIssues(s, counter, io);
    StepKeeps(s, Increment(counter, io), 0);
    forall m | m in models && Target(h, key, SaltFor(h, m)) in kept
      ensures kept[Target(h, key, SaltFor(h, m))].number <= OnDisk(t, CounterKey(h, m))
    {
      if Target(h, key, SaltFor(h, m)) == Target(h, key, SaltFor(h, model)) {
        SameTargetSameCounter(h, key, models, m, model);
      }
      assert OnDisk(t, CounterKey(h, m)) >= OnDisk(s, CounterKey(h, m));
    }
  }

  /** The node gets the put, whether or not its answer comes back. */
  predicate Arrives(io: Io, link: Link) {
    io.writable && (link == Delivered || link == Unacknowledged)
  }

  /** The item for this model is a newer one than before. */
  predicate Newer(h: Hashes, key: Bytes, model: Bytes, before: Items, after: Items) {
    var t := Target(h, key, SaltFor(h, model));
    t in after && (t in before ==> before[t].number < after[t].number)
  }

  /** A put that arrives is taken, and only then does the node change. */
  lemma PutArrives(ed: Ed25519, h: Hashes, key: Bytes, s: Seqs, items: Items, model: Bytes, rec: Record, io: Io,
                   link: Link)
    requires ed.SignsFor(key)
    requires Consistent(s) && Headroom(s, 1) && NodeBehind(h, key, s, items, {model})
    requires Safe(s, Increment(CounterKey(h, model), io))
    requires |rec.manifest| <= MAX_EMBEDDED_MANIFEST && |Encode(rec)| <= VALUE_LIMIT
    ensures var kept := PutOutcome(ed, h, key, s, items, model, rec, io, link).1;
      if Arrives(io, link) then
        Newer(h, key, model, items, kept)
        && exists number :: kept[Target(h, key, SaltFor(h, model))] == NewItem(ed, h, key, model, number, rec)
      else kept == items
  {
    IncrementIssues(s, CounterKey(h, model), io);
    var n := Next(s, CounterKey(h, model), io).1;
    if Arrives(io, link) {
      var item := NewItem(ed, h, key, model, n.value, rec);
      assert model in {model};
      assert NodeAccepts(ed, h, items, item);
    }
  }

  /** Over every run of puts, failed writes, lost messages, crashes and
      restarts, a node that wants increasing numbers rejects no delivered put. */
  lemma {:induction false} NeverRejected(ed: Ed25519, h: Hashes, key: Bytes, s: Seqs, items: Items,
                                         models: set<Bytes>, actions: seq<Action>)
    requires ed.SignsFor(key) && DistinctTargets(h, key, models)
    requires Consistent(s) && Headroom(s, |actions|) && NodeBehind(h, key, s, items, models)
    requires SafeActions(ed, h, key, s, items, actions)
    requires forall i :: 0 <= i < |actions| ==> Publishable(actions[i], models)
    ensures NoneRejected(ed, h, key, s, items, actions)
    decreases |actions|
  {
    if actions != [] {
      ActKeeps(ed, h, key, s, items, models, actions[0], |actions| - 1);
      var (t, kept, _) := Act(ed, h, key, s, items, actions[0]);
      NeverRejected(ed, h, key, t, kept, models, actions[1..]);
    }
  }

  // ---- The client ----

  /** What a node says when asked for one target. */
  datatype Reply =
    | NoAnswer
    | Empty
    | Value(key: Bytes, number: Option<Int64>, v: Bytes, sig: Bytes)

  datatype GetError =
    | NoKeys | NotFound | Failed | EmptyReply | UntrustedKey | NoSequence | BadSignature
    | BadRecord(error: DecodeError)

  /** The verdict on one reply to a query under one trusted key. */
  function Judge(ed: Ed25519, h: Hashes, key: Bytes, salt: Bytes, reply: Reply): Result<Record, GetError> {
    match reply
    case NoAnswer => Err(Failed)
    case Empty => Err(EmptyReply)
    case Value(k, number, v, sig) =>
      if v == "" then Err(EmptyReply)
      else if k != key then Err(UntrustedKey)
      else if number.None? then Err(NoSequence)
      else if !ed.verify(k, Message(salt, number.value, v), sig) then Err(BadSignature)
      else
        var rec := DecodeRecord(h, v);
        if rec.Ok? then Ok(rec.value) else Err(BadRecord(rec.error))
  }

  const KEY_SIZE := 32

  /** Decodes the allowlist; one bad entry refuses all of it. */
  method NewClient(hexKeys: seq<Bytes>) returns (keys: Option<seq<Bytes>>)
    ensures keys.Some? <==> forall i :: 0 <= i < |hexKeys| ==> KeyOf(hexKeys[i]).Some?
    ensures keys.Some? ==>
      && |keys.value| == |hexKeys|
      && forall i :: 0 <= i < |hexKeys| ==> KeyOf(hexKeys[i]) == Some(keys.value[i])
  {
    var out: seq<Bytes> := [];
    for i := 0 to |hexKeys|
      invariant |out| == i && forall j :: 0 <= j < i ==> KeyOf(hexKeys[j]) == Some(out[j])
    {
      var key := KeyOf(hexKeys[i]);
      if key.None? {
        return None;
      }
      out := out + [key.value];
    }
    return Some(out);
  }

  function KeyOf(hexKey: Bytes): Option<Bytes> {
    var b := Unhex(hexKey);
    if b.Some? && |b.value| == KEY_SIZE then b else None
  }

  /** The outcome after the first n keys: the first good reply, else the last error. */
  function Asked(ed: Ed25519, h: Hashes, keys: seq<Bytes>, replies: seq<Reply>, salt: Bytes,
                 n: nat): Result<Record, GetError>
    requires n <= |keys| == |replies|
  {
    if n == 0 then Err(NotFound) else
      var before := Asked(ed, h, keys, replies, salt, n - 1);
      if before.Ok? then before else Judge(ed, h, keys[n - 1], salt, replies[n - 1])
  }

  lemma {:induction false} AskedStays(ed: Ed25519, h: Hashes, keys: seq<Bytes>, replies: seq<Reply>, salt: Bytes,
                                      n: nat, m: nat)
    requires n <= m <= |keys| == |replies|
    requires Asked(ed, h, keys, replies, salt, n).Ok?
    ensures Asked(ed, h, keys, replies, salt, m) == Asked(ed, h, keys, replies, salt, n)
    decreases m
  {
    if n < m {
      AskedStays(ed, h, keys, replies, salt, n, m - 1);
    }
  }

  function GetOutcome(ed: Ed25519, h: Hashes, keys: seq<Bytes>, replies: seq<Reply>, model: Bytes): Result<Record,
                      GetError>
    requires |keys| == |replies|
  {
    if keys == [] then Err(NoKeys) else Asked(ed, h, keys, replies, SaltFor(h, model), |keys|)
  }

  /** Asks one node under each trusted key in turn and takes the first reply that stands up. */
  method Get(ed: Ed25519, h: Hashes, keys: seq<Bytes>, replies: seq<Reply>, model: Bytes)
    returns (r: Result<Record, GetError>)
    requires |keys| == |replies|
    ensures r == GetOutcome(ed, h, keys, replies, model)
  {
    if keys == [] {
      return Err(NoKeys);
    }
    var salt := SaltFor(h, model);
    var lastErr := NotFound;
    for i := 0 to |keys|
      invariant Asked(ed, h, keys, replies, salt, i) == Err(lastErr)
    {
      var verdict := Judge(ed, h, keys[i], salt, replies[i]);
      if verdict.Ok? {
        AskedStays(ed, h, keys, replies, salt, i + 1, |keys|);
        return verdict;
      }
      lastErr := verdict.error;
    }
    return Err(lastErr);
  }

  /** The first acceptable reply among the first n, which decides; n when there is none. */
  lemma FirstReply(ed: Ed25519, h: Hashes, keys: seq<Bytes>, replies: seq<Reply>, salt: Bytes, n: nat)
    returns (i: nat)
    requires n <= |keys| == |replies|
    ensures i <= n && forall j :: 0 <= j < i ==> Judge(ed, h, keys[j], salt, replies[j]).Err?
    ensures i == n ==> Asked(ed, h, keys, replies, salt, n).Err?
    ensures i < n ==>
      Judge(ed, h, keys[i], salt, replies[i]).Ok?
      && Asked(ed, h, keys, replies, salt, n) == Judge(ed, h, keys[i], salt, replies[i])
  {
    i := FirstGoodAt(ed, h, keys, replies, salt, n);
    if i < n {
      AskedStays(ed, h, keys, replies, salt, i + 1, n);
    }
  }

  lemma {:induction false} FirstGoodAt(ed: Ed25519, h: Hashes, keys: seq<Bytes>, replies: seq<Reply>, salt: Bytes,
                                       n: nat)
    returns (i: nat)
    requires n <= |keys| == |replies|
    ensures i <= n && forall j :: 0 <= j < i ==> Judge(ed, h, keys[j], salt, replies[j]).Err?
    ensures Asked(ed, h, keys, replies, salt, i).Err?
    ensures i < n ==> Judge(ed, h, keys[i], salt, replies[i]).Ok?
  {
    if n == 0 {
      i := 0;
    } else {
      i := FirstGoodAt(ed, h, keys, replies, salt, n - 1);
      if i == n - 1 && Judge(ed, h, keys[i], salt, replies[i]).Err? {
        i := n;
      }
    }
  }

  /** A record is returned only for a reply signed under a trusted key and
      this model's salt, and the first such reply is the one returned. */
  lemma {:induction false} AskedMeans(ed: Ed25519, h: Hashes, keys: seq<Bytes>, replies: seq<Reply>, salt: Bytes,
                                      n: nat)
    requires n <= |keys| == |replies|
    ensures var r := Asked(ed, h, keys, replies, salt, n);
      r.Ok? <==> exists i :: 0 <= i < n && Judge(ed, h, keys[i], salt, replies[i]).Ok?
    ensures var r := Asked(ed, h, keys, replies, salt, n);
      r.Ok? ==> exists i ::
        && 0 <= i < n
        && Judge(ed, h, keys[i], salt, replies[i]) == r
        && forall j :: 0 <= j < i ==> Judge(ed, h, keys[j], salt, replies[j]).Err?
  {
    var i := FirstReply(ed, h, keys, replies, salt, n);
  }

  /** One put signed by a key holder. */
  datatype Signed = Signed(key: Bytes, model: Bytes, number: Int64, rec: Record)

  /** The holder of a key signed this salt, number and value in some put. */
  ghost predicate Covered(h: Hashes, log: set<Signed>, key: Bytes, salt: Bytes, number: Int64, v: Bytes) {
    exists p ::
      && p in log && p.key == key
      && Message(salt, number, v) == Message(SaltFor(h, p.model), p.number, Encode(p.rec))
  }

  /** Honest key holders: under a trusted key, a reply verifies only when the
      holder signed it. */
  ghost predicate Unforged(ed: Ed25519, h: Hashes, keys: seq<Bytes>, replies: seq<Reply>, log: set<Signed>) {
    forall key, reply, salt ::
      (&& key in keys && reply in replies && reply.Value? && reply.number.Some?
       && ed.verify(key, Message(salt, reply.number.value, reply.v), reply.sig)) ==>
      Covered(h, log, key, salt, reply.number.value, reply.v)
  }

  /** The put behind a signed and decoded value is the record's own put for this model. */
  lemma SignedRecord(h: Hashes, p: Signed, model: Bytes, number: Int64, v: Bytes)
    requires Message(SaltFor(h, model), number, v) == Message(SaltFor(h, p.model), p.number, Encode(p.rec))
    requires CollisionFree(h.sha256, {model, p.model})
    requires DecodeRecord(h, v).Ok?
    ensures p.model == model && DecodeRecord(h, v) == Ok(p.rec)
  {
    MessageInjective(SaltFor(h, model), number, v, SaltFor(h, p.model), p.number, Encode(p.rec));
    RoundTrip(h, p.rec);
  }

  /** This put is by a trusted key, for this model, of this record. */
  predicate PutBy(p: Signed, keys: seq<Bytes>, model: Bytes, rec: Record) {
    p.key in keys && p.model == model && p.rec == rec
  }

  /** Whatever the node answers, a returned record is one an allowlisted
      publisher put for this same model. */
  lemma GetIsAuthentic(ed: Ed25519, h: Hashes, keys: seq<Bytes>, replies: seq<Reply>, model: Bytes, log: set<Signed>)
    requires |keys| == |replies|
    requires Unforged(ed, h, keys, replies, log)
    requires CollisionFree(h.sha256, {model} + set p | p in log :: p.model)
    requires GetOutcome(ed, h, keys, replies, model).Ok?
    ensures exists p :: p in log && PutBy(p, keys, model, GetOutcome(ed, h, keys, replies, model).value)
  {
    var salt := SaltFor(h, model);
    AskedMeans(ed, h, keys, replies, salt, |keys|);
    var i :| 0 <= i < |keys| && Judge(ed, h, keys[i], salt, replies[i]) == GetOutcome(ed, h, keys, replies, model);
    var p := JudgedWasPut(ed, h, keys, replies, model, log, i);
    assert PutBy(p, keys, model, GetOutcome(ed, h, keys, replies, model).value);
  }

  lemma JudgedWasPut(ed: Ed25519, h: Hashes, keys: seq<Bytes>, replies: seq<Reply>, model: Bytes, log: set<Signed>,
                     i: nat)
    returns (p: Signed)
    requires |keys| == |replies| && i < |keys|
    requires Unforged(ed, h, keys, replies, log)
    requires CollisionFree(h.sha256, {model} + set p | p in log :: p.model)
    requires Judge(ed, h, keys[i], SaltFor(h, model), replies[i]).Ok?
    ensures p in log && PutBy(p, keys, model, Judge(ed, h, keys[i], SaltFor(h, model), replies[i]).value)
  {
    var (salt, reply) := (SaltFor(h, model), replies[i]);
    assert keys[i] in keys && reply in replies;
    assert Covered(h, log, keys[i], salt, reply.number.value, reply.v);
    p :| p in log && p.key == keys[i]
      && Message(salt, reply.number.value, reply.v) == Message(SaltFor(h, p.model), p.number, Encode(p.rec));
    assert p.model in (set q | q in log :: q.model);
    SignedRecord(h, p, model, reply.number.value, reply.v);
  }
}

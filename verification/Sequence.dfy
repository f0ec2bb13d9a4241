/** Persisted sequence counters: one per salt, incremented in memory and
    written to the state file before they are used. */
module Sequence {
  import opened Text
  import opened Record

  const MAX_SEQ: Int64 := 0x7fff_ffff_ffff_ffff
  const MIN_SEQ: Int64 := -0x8000_0000_0000_0000

  type Counters = map<Bytes, Int64>

  /** Whether the state file can be read and written this time; a failed
      write leaves it as it was. */
  datatype Io = Io(readable: bool, writable: bool)

  /** The counters in memory, and the ones in the state file when it holds any. */
  datatype Seqs = Seqs(memory: Counters, file: Option<Counters>)

  function At(c: Counters, key: Bytes): Int64 {
    if key in c then c[key] else 0
  }

  function OnDisk(s: Seqs, key: Bytes): Int64 {
    if s.file.Some? then At(s.file.value, key) else 0
  }

  /** Incrementing an int64 wraps around. */
  function Bump(c: Int64): Int64 {
    assert InInt64(c);
    if c == MAX_SEQ then MIN_SEQ else c + 1
  }

  function Load(file: Option<Counters>, io: Io): Counters {
    if io.readable && file.Some? then file.value else map[]
  }

  /** Empty counters are read again before use. */
  function Refreshed(s: Seqs, io: Io): Counters {
    if s.memory == map[] then Load(s.file, io) else s.memory
  }

  function Next(s: Seqs, key: Bytes, io: Io): (Seqs, Option<Int64>) {
    var before := Refreshed(s, io);
    var memory := before[key := Bump(At(before, key))];
    if io.writable then (Seqs(memory, Some(memory)), Some(memory[key]))
    else (Seqs(memory, s.file), None)
  }

  // ---- The counters as the publisher keeps them ----

  class StateFile {
    var content: Option<Counters>

    constructor (content: Option<Counters>)
      ensures this.content == content
    {
      this.content := content;
    }
  }

  class SeqState {
    const file: StateFile
    var seqs: Counters

    function State(): Seqs
      reads this, file
    {
      Seqs(seqs, file.content)
    }

    constructor (file: StateFile, io: Io)
      ensures this.file == file && State() == Seqs(Load(file.content, io), file.content)
    {
      this.file := file;
      this.seqs := Load(file.content, io);
    }

    method Increment(key: Bytes, io: Io) returns (n: Option<Int64>)
      modifies this, file
      ensures (State(), n) == Next(old(State()), key, io)
    {
      if seqs == map[] {
        if io.readable && file.content.Some? {
          seqs := file.content.value;
        }
      }
      seqs := seqs[key := Bump(if key in seqs then seqs[key] else 0)];
      if !io.writable {
        return None;
      }
      file.content := Some(seqs);
      return Some(seqs[key]);
    }
  }

  // ---- Runs: increments, failed writes, crashes and restarts ----

  datatype Event = Restart(io: Io) | Increment(key: Bytes, io: Io)

  datatype Issued = Issued(key: Bytes, number: Int64)

  function Step(s: Seqs, e: Event): (Seqs, seq<Issued>) {
    match e
    case Restart(io) => (Seqs(Load(s.file, io), s.file), [])
    case Increment(key, io) =>
      var (t, n) := Next(s, key, io);
      (t, if n.Some? then [Issued(key, n.value)] else [])
  }

  /** The final state and every sequence number handed out, in order. */
  function Run(s: Seqs, events: seq<Event>): (Seqs, seq<Issued>)
    decreases |events|
  {
    if events == [] then (s, []) else
      var (t, first) := Step(s, events[0]);
      var (end, rest) := Run(t, events[1..]);
      (end, first + rest)
  }

  /** Memory never lags behind the file, unless it is empty and due to be read again. */
  ghost predicate Consistent(s: Seqs) {
    s.memory == map[] || forall key :: At(s.memory, key) >= OnDisk(s, key)
  }

  /** No counter can overflow within n increments. */
  ghost predicate Headroom(s: Seqs, n: nat) {
    n <= MAX_SEQ && forall key :: At(s.memory, key) + n <= MAX_SEQ && OnDisk(s, key) + n <= MAX_SEQ
  }

  /** The step does not increment empty counters it failed to read. */
  predicate Informed(s: Seqs, e: Event) {
    e.Increment? ==> s.memory != map[] || e.io.readable
  }

  /** No counter on disk is above 0, except that a write that fails may leave
      this salt's at 1. */
  predicate NothingToLose(s: Seqs, key: Bytes, io: Io) {
    s.file.Some? ==>
      forall k :: k in s.file.value ==> s.file.value[k] <= if k == key && !io.writable then 1 else 0
  }

  predicate Safe(s: Seqs, e: Event) {
    Informed(s, e) || NothingToLose(s, e.key, e.io)
  }

  predicate SafeRun(s: Seqs, events: seq<Event>)
    decreases |events|
  {
    events == [] || (Safe(s, events[0]) && SafeRun(Step(s, events[0]).0, events[1..]))
  }

  /** What one increment should do: keep memory ahead of the file, lower no
      counter on disk, and hand out a number above the one there before. */
  ghost predicate KeepsPromise(s: Seqs, t: Seqs, key: Bytes, n: Option<Int64>) {
    && Consistent(t)
    && (forall k :: OnDisk(t, k) >= OnDisk(s, k))
    && (n.Some? ==> n.value > OnDisk(s, key))
  }

  /** A number is handed out exactly when the file is written, is the one on
      disk then, and a failed write leaves the disk alone; the promise is kept
      exactly when the step is safe. */
  lemma IncrementIssues(s: Seqs, key: Bytes, io: Io)
    requires Consistent(s) && Headroom(s, 1)
    ensures var (t, n) := Next(s, key, io);
      && (n.Some? <==> io.writable)
      && (n.Some? ==> n.value == OnDisk(t, key))
      && (n.None? ==> t.file == s.file)
      && (KeepsPromise(s, t, key, n) <==> Safe(s, Increment(key, io)))
  {
    if Safe(s, Increment(key, io)) {
      SafeKeepsPromise(s, key, io);
    } else {
      var k := UnsafeReissues(s, key, io);
      BreaksPromise(s, key, io, k);
    }
  }

  /** The counter an increment starts from: the one in memory, or, when memory
      is empty, the one on disk if it can be read. */
  function Known(s: Seqs, io: Io, k: Bytes): Int64 {
    if s.memory != map[] then At(s.memory, k) else if io.readable then OnDisk(s, k) else 0
  }

  /** This salt's counter goes up by one, from the largest number to the
      smallest; all others stay as they were known; what is in memory is what
      is written, and the new counter what is handed out, if it can be. */
  lemma OneCounterMoves(s: Seqs, key: Bytes, io: Io)
    ensures var (t, n) := Next(s, key, io);
      var c := Known(s, io, key);
      && At(t.memory, key) == (if c == 0x7fff_ffff_ffff_ffff then -0x8000_0000_0000_0000 else c + 1)
      && (forall k :: k != key ==> At(t.memory, k) == Known(s, io, k))
      && (if io.writable then t.file == Some(t.memory) && n == Some(At(t.memory, key)) else t.file == s.file && n.None?)
  {}

  lemma SafeKeepsPromise(s: Seqs, key: Bytes, io: Io)
    requires Consistent(s) && Headroom(s, 1) && Safe(s, Increment(key, io))
    ensures KeepsPromise(s, Next(s, key, io).0, key, Next(s, key, io).1)
  {
    var t := Next(s, key, io).0;
    forall k
      ensures OnDisk(t, k) >= OnDisk(s, k) && At(t.memory, k) >= OnDisk(t, k)
    {
      assert At(s.memory, k) + 1 <= MAX_SEQ && OnDisk(s, k) + 1 <= MAX_SEQ;
      assert Informed(s, Increment(key, io)) ==> At(Refreshed(s, io), k) >= OnDisk(s, k);
    }
  }

  lemma BreaksPromise(s: Seqs, key: Bytes, io: Io, k: Bytes)
    requires !Safe(s, Increment(key, io)) && At(s.file.value, k) > if k == key && !io.writable then 1 else 0
    ensures !KeepsPromise(s, Next(s, key, io).0, key, Next(s, key, io).1)
  {
    var t := Next(s, key, io).0;
    assert t.memory == map[key := 1];
    assert OnDisk(t, k) < OnDisk(s, k) || At(t.memory, k) < OnDisk(t, k) || (k == key && io.writable);
  }

  const GOOD := Io(true, true)

  /** After an unsafe increment some salt is given a number that was already
      on disk: by this increment, or by the next one with a working file. */
  lemma UnsafeReissues(s: Seqs, key: Bytes, io: Io) returns (k: Bytes)
    requires !Safe(s, Increment(key, io)) && Headroom(s, 1)
    ensures s.file.Some? && At(s.file.value, k) > if k == key && !io.writable then 1 else 0
    ensures var (t, n) := Next(s, key, io);
      || (n.Some? && n.value <= OnDisk(s, key))
      || Next(t, k, GOOD).1.value <= OnDisk(s, k)
  {
    k :| k in s.file.value && s.file.value[k] > if k == key && !io.writable then 1 else 0;
    assert Next(s, key, io).0.memory == map[key := 1];
  }

  lemma StepKeeps(s: Seqs, e: Event, n: nat)
    requires Consistent(s) && Headroom(s, n + 1) && Safe(s, e)
    ensures var t := Step(s, e).0;
      && Consistent(t) && Headroom(t, n)
      && forall key :: OnDisk(t, key) >= OnDisk(s, key)
  {
    if e.Increment? {
      SafeKeepsPromise(s, e.key, e.io);
    }
    var t := Step(s, e).0;
    forall key
      ensures At(t.memory, key) + n <= MAX_SEQ && OnDisk(t, key) + n <= MAX_SEQ
    {
      assert At(s.memory, key) + n + 1 <= MAX_SEQ && OnDisk(s, key) + n + 1 <= MAX_SEQ;
    }
  }

  /** The numbers of each salt strictly increase. */
  predicate Increasing(issued: seq<Issued>) {
    forall i, j :: 0 <= i < j < |issued| && issued[i].key == issued[j].key ==>
      issued[i].number < issued[j].number
  }

  /** Every number lies above what was on disk before and at most at what is on disk after. */
  predicate Between(s: Seqs, issued: seq<Issued>, end: Seqs) {
    forall i :: 0 <= i < |issued| ==>
      OnDisk(s, issued[i].key) < issued[i].number <= OnDisk(end, issued[i].key)
  }

  /** In every run the numbers handed out for a salt strictly increase, stay
      above what was on disk at the start, and never exceed the disk at the end. */
  lemma {:induction false} StrictlyIncreasing(s: Seqs, events: seq<Event>)
    requires Consistent(s) && Headroom(s, |events|) && SafeRun(s, events)
    ensures var (end, issued) := Run(s, events);
      && Increasing(issued) && Between(s, issued, end)
      && forall key :: OnDisk(end, key) >= OnDisk(s, key)
    decreases |events|
  {
    if events != [] {
      var e := events[0];
      var (t, first) := Step(s, e);
      StepKeeps(s, e, |events| - 1);
      StrictlyIncreasing(t, events[1..]);
      var (end, rest) := Run(t, events[1..]);
      if first != [] {
        IncrementIssues(s, e.key, e.io);
        assert OnDisk(end, e.key) >= OnDisk(t, e.key);
        Prepended(s, first[0], t, rest, end);
      } else {
        assert first + rest == rest;
        StillBetween(s, t, rest, end);
      }
    }
  }

  lemma StillBetween(s: Seqs, t: Seqs, rest: seq<Issued>, end: Seqs)
    requires Between(t, rest, end) && forall key :: OnDisk(t, key) >= OnDisk(s, key)
    ensures Between(s, rest, end)
  {
    forall i | 0 <= i < |rest|
      ensures OnDisk(s, rest[i].key) < rest[i].number <= OnDisk(end, rest[i].key)
    {
      assert OnDisk(t, rest[i].key) >= OnDisk(s, rest[i].key);
    }
  }

  lemma Prepended(s: Seqs, x: Issued, t: Seqs, rest: seq<Issued>, end: Seqs)
    requires Increasing(rest) && Between(t, rest, end)
    requires OnDisk(s, x.key) < x.number == OnDisk(t, x.key) <= OnDisk(end, x.key)
    requires forall key :: OnDisk(t, key) >= OnDisk(s, key)
    ensures Increasing([x] + rest) && Between(s, [x] + rest, end)
  {
    var all := [x] + rest;
    forall i | 0 <= i < |all|
      ensures OnDisk(s, all[i].key) < all[i].number <= OnDisk(end, all[i].key)
    {
      if i > 0 {
        assert all[i] == rest[i - 1] && OnDisk(t, all[i].key) >= OnDisk(s, all[i].key);
      }
    }
    forall i, j | 0 <= i < j < |all| && all[i].key == all[j].key
      ensures all[i].number < all[j].number
    {
      assert all[j] == rest[j - 1];
      if i > 0 {
        assert all[i] == rest[i - 1];
      }
    }
  }

  // ---- Exactly which runs keep every number new ----

  /** Each number is above what is on disk now for its salt. */
  predicate Above(s: Seqs, issued: seq<Issued>) {
    forall i :: 0 <= i < |issued| ==> issued[i].number > OnDisk(s, issued[i].key)
  }

  /** No number handed out was on disk, or below what was, at any earlier point of the run. */
  predicate Unused(s: Seqs, events: seq<Event>)
    decreases |events|
  {
    events == [] || (Above(s, Run(s, events).1) && Unused(Step(s, events[0]).0, events[1..]))
  }

  lemma {:induction false} SafeIsUnused(s: Seqs, events: seq<Event>)
    requires Consistent(s) && Headroom(s, |events|) && SafeRun(s, events)
    ensures Unused(s, events)
    decreases |events|
  {
    if events != [] {
      StrictlyIncreasing(s, events);
      StepKeeps(s, events[0], |events| - 1);
      SafeIsUnused(Step(s, events[0]).0, events[1..]);
    }
  }

  /** The run cut after n events and continued by one increment with a working file. */
  function CutShort(events: seq<Event>, n: nat, key: Bytes): (r: seq<Event>)
    requires n <= |events|
    ensures |r| == n + 1
  {
    events[..n] + [Increment(key, GOOD)]
  }

  lemma CutShortNext(events: seq<Event>, n: nat, key: Bytes)
    requires 0 < n <= |events|
    ensures CutShort(events, n, key)[0] == events[0]
    ensures CutShort(events, n, key)[1..] == CutShort(events[1..], n - 1, key)
  {
    assert events[..n][1..] == events[1..][..n - 1];
  }

  lemma {:induction false} SafeCutShort(s: Seqs, events: seq<Event>, n: nat, key: Bytes)
    requires SafeRun(s, events) && n <= |events|
    ensures SafeRun(s, CutShort(events, n, key))
    decreases |events|
  {
    if n == 0 {
      assert CutShort(events, n, key) == [Increment(key, GOOD)];
    } else {
      CutShortNext(events, n, key);
      SafeCutShort(Step(s, events[0]).0, events[1..], n - 1, key);
    }
  }

  lemma {:induction false} TwoSteps(s: Seqs, e: Event, k: Bytes)
    ensures Run(s, [e, Increment(k, GOOD)]).1 == Step(s, e).1 + [Issued(k, Next(Step(s, e).0, k, GOOD).1.value)]
  {
    var (t, i) := (Step(s, e).0, Increment(k, GOOD));
    var last := [Issued(k, Next(t, k, GOOD).1.value)];
    assert [e, i][1..] == [i] && [i][1..] == [];
    assert Run(t, [i]).1 == last + [] == last;
  }

  /** An unsafe step: the run cut after it already shows a used number. */
  lemma UnsafeShows(s: Seqs, events: seq<Event>) returns (key: Bytes)
    requires events != [] && !Safe(s, events[0]) && Headroom(s, 1)
    ensures !Unused(s, CutShort(events, 1, key))
  {
    var e := events[0];
    key := UnsafeReissues(s, e.key, e.io);
    assert CutShort(events, 1, key) == [e, Increment(key, GOOD)];
    TwoSteps(s, e, key);
    var issued := Run(s, [e, Increment(key, GOOD)]).1;
    assert issued[|issued| - 1] == Issued(key, Next(Step(s, e).0, key, GOOD).1.value);
    assert |issued| == 2 ==> issued[0] == Issued(e.key, Next(s, e.key, e.io).1.value);
  }

  lemma {:induction false} UnsafeRunShows(s: Seqs, events: seq<Event>) returns (n: nat, key: Bytes)
    requires Consistent(s) && Headroom(s, |events| + 1) && !SafeRun(s, events)
    ensures n <= |events| && !Unused(s, CutShort(events, n, key))
    decreases |events|
  {
    if !Safe(s, events[0]) {
      key := UnsafeShows(s, events);
      n := 1;
    } else {
      StepKeeps(s, events[0], |events|);
      n, key := UnsafeRunShows(Step(s, events[0]).0, events[1..]);
      n := n + 1;
      CutShortNext(events, n, key);
    }
  }

  /** A run is safe exactly when, wherever it is cut and whichever salt is
      incremented next, no number is handed out that was on disk before. */
  lemma {:induction false} SafeExactly(s: Seqs, events: seq<Event>)
    requires Consistent(s) && Headroom(s, |events| + 1)
    ensures SafeRun(s, events)
       <==> forall n: nat, key :: n <= |events| ==> Unused(s, CutShort(events, n, key))
  {
    if SafeRun(s, events) {
      forall n: nat, key | n <= |events|
        ensures Unused(s, CutShort(events, n, key))
      {
        SafeCutShort(s, events, n, key);
        SafeIsUnused(s, CutShort(events, n, key));
      }
    } else {
      var n, key := UnsafeRunShows(s, events);
    }
  }

  /** The failing case is real, for the salt itself and for another one whose
      counter is overwritten: 1 is handed out twice. */
  lemma UnreadRepeats(a: Bytes, b: Bytes)
    ensures var bad := Io(false, true);
      var events := [Increment(b, GOOD), Restart(bad), Increment(a, bad), Increment(b, GOOD)];
      Run(Seqs(map[], None), events).1 == [Issued(b, 1), Issued(a, 1), Issued(b, if a == b then 2 else 1)]
  {
    var bad := Io(false, true);
    var (first, one, lost) := (Seqs(map[], None), map[b := 1], map[a := 1]);
    var events := [Increment(b, GOOD), Restart(bad), Increment(a, bad), Increment(b, GOOD)];
    var rest := [Increment(a, bad), Increment(b, GOOD)];
    assert events[1..][1..] == rest && events[1..][0] == Restart(bad);
    assert Next(first, b, GOOD) == (Seqs(one, Some(one)), Some(1));
    assert Next(Seqs(map[], Some(one)), a, bad) == (Seqs(lost, Some(lost)), Some(1));
    TwoSteps(Seqs(map[], Some(one)), Increment(a, bad), b);
    assert Run(Seqs(one, Some(one)), events[1..]).1 == [] + Run(Seqs(map[], Some(one)), rest).1;
  }
}

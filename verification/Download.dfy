/** One resumable, digest-checked download: a part file, a running digest,
    the server's answers, and the rename that publishes the result. */
module Download {
  import opened Text
  import opened Hashing
  import opened Manifest

  datatype Error = NotFound | HttpStatus(status: nat) | Checksum | Transport | Interrupted | Io

  /** The file operation that fails during one exchange, if any. */
  datatype Fault = NoFault | OpenFails | SeekFails | RemoveFails | SyncFails | RenameFails

  /** What the environment does with one request: no answer at all, or a
      status and the body bytes that arrive, all of them or cut short. */
  datatype Exchange =
    | Unreachable(fault: Fault)
    | Response(status: nat, body: Bytes, complete: bool, fault: Fault)

  /** The part file and the destination file of one artifact. */
  datatype Slot = Slot(part: Option<Bytes>, dst: Option<Bytes>) {
    function PartBytes(): Bytes {
      if part.Some? then part.value else ""
    }
  }

  /** How a call ends: the files, the answer, the bytes the digest was fed,
      and the number of requests sent. */
  datatype Outcome = Outcome(slot: Slot, result: Result<nat, Error>, fed: Bytes, requests: nat)

  /** Writing data at a position keeps what lies beyond it: nothing is truncated. */
  function WriteAt(content: Bytes, pos: nat, data: Bytes): Bytes
    requires pos <= |content|
  {
    content[..pos] + data + if pos + |data| < |content| then content[pos + |data|..] else ""
  }

  predicate Restarts(x: Exchange) {
    x.Response? && x.status == 416 && x.fault != OpenFails && x.fault != RemoveFails
  }

  predicate Carries(x: Exchange) {
    x.Response? && 200 <= x.status < 300
  }

  /** A full body over a part file that is not empty cannot be written from the start. */
  predicate SeekRefused(s: Slot, x: Exchange) {
    Carries(x) && x.status != 206 && s.PartBytes() != "" && x.fault == SeekFails
  }

  /** Where the body is written: the end of the part file for partial
      content, the beginning for any other success. */
  function Position(x: Exchange, part: Bytes): (pos: nat)
    requires Carries(x)
    ensures pos <= |part|
  {
    if x.status == 206 then |part| else 0
  }

  /** Taking a body: write it, then check, then rename. */
  function Receive(h: Hashes, s: Slot, x: Exchange, want: Bytes): Outcome
    requires Carries(x)
  {
    var part := s.PartBytes();
    var pos := Position(x, part);
    var (content, fed) := (WriteAt(part, pos, x.body), part[..pos] + x.body);
    var written := s.(part := Some(content));
    if !x.complete then Outcome(written, Err(Interrupted), fed, 1)
    else if x.fault == SyncFails then Outcome(written, Err(Io), fed, 1)
    else if want != "" && FileDigest(h, fed) != want then
      Outcome(if x.fault == RemoveFails then written else s.(part := None), Err(Checksum), fed, 1)
    else if x.fault == RenameFails then Outcome(written, Err(Io), fed, 1)
    else Outcome(Slot(None, Some(content)), Ok(pos + |x.body|), fed, 1)
  }

  /** A whole call. A server that cannot satisfy the range makes it start
      over without a part file; when no exchange is left the server is gone. */
  function Fetch(h: Hashes, s: Slot, xs: seq<Exchange>, want: Bytes): Outcome
    decreases |xs|
  {
    var x := if xs == [] then Unreachable(NoFault) else xs[0];
    var ready := s.(part := Some(s.PartBytes()));
    if x.fault == OpenFails then Outcome(s, Err(Io), "", 0)
    else if x.Unreachable? then Outcome(ready, Err(Transport), s.PartBytes(), 1)
    else if Restarts(x) then
      var again := Fetch(h, s.(part := None), xs[1..], want);
      again.(requests := again.requests + 1)
    else if x.status == 416 then Outcome(ready, Err(Io), s.PartBytes(), 1)
    else if x.status == 404 then Outcome(ready, Err(NotFound), s.PartBytes(), 1)
    else if SeekRefused(s, x) then Outcome(ready, Err(Io), s.PartBytes(), 1)
    else if Carries(x) then Receive(h, s, x, want)
    else Outcome(ready, Err(HttpStatus(x.status)), s.PartBytes(), 1)
  }

  /** The two files on disk. */
  class Artifact {
    var part: Option<Bytes>
    var dst: Option<Bytes>

    function Files(): Slot
      reads this
    {
      Slot(part, dst)
    }

    constructor ()
      ensures Files() == Slot(None, None)
    {
      part, dst := None, None;
    }

    /** Opens or creates the part file and feeds its bytes to a new digest. */
    method ResumeState() returns (offset: nat, fed: Bytes)
      modifies this`part
      ensures part == Some(Slot(old(part), dst).PartBytes())
      ensures fed == part.value && offset == |fed|
    {
      match part {
        case Some(b) =>
          fed := b;
        case None =>
          part := Some("");
          fed := "";
      }
      offset := |fed|;
    }

    method DownloadFile(h: Hashes, xs: seq<Exchange>, want: Bytes)
      returns (result: Result<nat, Error>, fed: Bytes, requests: nat)
      modifies this
      ensures Outcome(Files(), result, fed, requests) == Fetch(h, old(Files()), xs, want)
      decreases |xs|
    {
      var x := if xs == [] then Unreachable(NoFault) else xs[0];
      if x.fault == OpenFails {
        return Err(Io), "", 0;
      }
      var offset: nat;
      offset, fed := ResumeState();
      ghost var resumed := fed;
      requests := 1;
      var pos := offset;
      if x.Unreachable? {
        return Err(Transport), fed, 1;
      } else if x.status == 416 {
        if x.fault == RemoveFails {
          return Err(Io), fed, 1;
        }
        part := None;
        var more: nat;
        result, fed, more := DownloadFile(h, xs[1..], want);
        return result, fed, more + 1;
      } else if x.status == 206 {
        // Resuming from offset.
      } else if x.status == 404 {
        return Err(NotFound), fed, 1;
      } else if 200 <= x.status < 300 {
        if offset > 0 {
          if x.fault == SeekFails {
            return Err(Io), fed, 1;
          }
          pos := 0;
          fed := "";
          offset := 0;
        }
      } else {
        return Err(HttpStatus(x.status)), fed, 1;
      }
      part := Some(WriteAt(part.value, pos, x.body));
      fed := fed + x.body;
      assert fed == resumed[..pos] + x.body;
      if !x.complete {
        return Err(Interrupted), fed, 1;
      }
      if x.fault == SyncFails {
        return Err(Io), fed, 1;
      }
      if want != "" && FileDigest(h, fed) != want {
        if x.fault != RemoveFails {
          part := None;
        }
        return Err(Checksum), fed, 1;
      }
      if x.fault == RenameFails {
        return Err(Io), fed, 1;
      }
      dst := part;
      part := None;
      return Ok(offset + |x.body|), fed, 1;
    }
  }

  // ---- Any server ----

  /** The exchange that ended a call, and the part file it found. */
  function LastExchange(s: Slot, xs: seq<Exchange>): (Bytes, Exchange)
    decreases |xs|
  {
    if xs == [] then (s.PartBytes(), Unreachable(NoFault))
    else if Restarts(xs[0]) then LastExchange(s.(part := None), xs[1..])
    else (s.PartBytes(), xs[0])
  }

  /** A failed call never touches the destination; a successful one leaves
      no part file and reports as many bytes as it digested. */
  lemma {:induction false} DestinationOnlyOnSuccess(h: Hashes, s: Slot, xs: seq<Exchange>, want: Bytes)
    ensures var out := Fetch(h, s, xs, want);
      && (out.result.Err? ==> out.slot.dst == s.dst)
      && (out.result.Ok? ==> out.slot.part == None && out.slot.dst.Some? && out.result.value == |out.fed|)
    decreases |xs|
  {
    if xs != [] && Restarts(xs[0]) {
      DestinationOnlyOnSuccess(h, s.(part := None), xs[1..], want);
    }
  }

  /** The last exchange rewrites a part file it does not cover. */
  predicate ShortRewrite(s: Slot, xs: seq<Exchange>) {
    var (part, x) := LastExchange(s, xs);
    Carries(x) && x.status != 206 && |x.body| < |part|
  }

  /** After a successful call the destination is what was digested, unless a
      full body was shorter than the part file it overwrote. */
  lemma {:induction false} DestinationIsDigested(h: Hashes, s: Slot, xs: seq<Exchange>, want: Bytes)
    requires Fetch(h, s, xs, want).result.Ok?
    ensures var out := Fetch(h, s, xs, want);
      && out.slot.dst.Some?
      && (out.slot.dst == Some(out.fed) <==> !ShortRewrite(s, xs))
      && (want != "" ==> FileDigest(h, out.fed) == want)
    decreases |xs|
  {
    if xs != [] && Restarts(xs[0]) {
      DestinationIsDigested(h, s.(part := None), xs[1..], want);
    } else {
      var (part, x) := LastExchange(s, xs);
      var pos := Position(x, part);
      var (content, fed) := (WriteAt(part, pos, x.body), part[..pos] + x.body);
      assert |fed| == pos + |x.body|;
      assert |content| == if |fed| < |part| then |part| else |fed|;
      assert |content| == |fed| ==> content == fed;
    }
  }

  /** Against any server, a successful checked download hashes to the
      expected digest exactly when no full body was shorter than the part file. */
  lemma {:induction false} CheckedDigest(h: Hashes, s: Slot, xs: seq<Exchange>, want: Bytes)
    requires want != "" && Fetch(h, s, xs, want).result.Ok?
    requires var out := Fetch(h, s, xs, want);
      out.slot.dst.Some? ==> CollisionFree(h.sha256, {out.fed, out.slot.dst.value})
    ensures var out := Fetch(h, s, xs, want);
      out.slot.dst.Some? && (FileDigest(h, out.slot.dst.value) == want <==> !ShortRewrite(s, xs))
  {
    DestinationIsDigested(h, s, xs, want);
    var out := Fetch(h, s, xs, want);
    if FileDigest(h, out.slot.dst.value) == want {
      HexInjective(h.sha256(out.slot.dst.value), h.sha256(out.fed));
    }
  }

  /** The failing case is real: three stale bytes, then a complete one-byte body. */
  lemma {:induction false} ShortRewriteExample(h: Hashes)
    requires CollisionFree(h.sha256, {"x", "xbc"})
    ensures var want := FileDigest(h, "x");
      var out := Fetch(h, Slot(Some("abc"), None), [Response(200, "x", true, NoFault)], want);
      out.result == Ok(1) && out.slot.dst == Some("xbc") && FileDigest(h, "xbc") != want
  {
    assert WriteAt("abc", 0, "x") == "xbc";
    assert "abc"[..0] + "x" == "x";
    assert |"x"| != |"xbc"|;
    if FileDigest(h, "xbc") == FileDigest(h, "x") {
      HexInjective(h.sha256("x"), h.sha256("xbc"));
    }
  }

  // ---- How a call ends, by its last exchange ----

  /** The body is taken: a success over a part file that could be opened and, for a full body, rewound. */
  predicate Taken(part: Bytes, x: Exchange) {
    && x.Response? && 200 <= x.status <= 299 && x.fault != OpenFails
    && !(x.status != 206 && part != "" && x.fault == SeekFails)
  }

  /** The bytes a taken body completes: the part file and it for partial content, it alone otherwise. */
  function Digested(part: Bytes, x: Exchange): Bytes {
    if x.Unreachable? then part else if x.status == 206 then part + x.body else x.body
  }

  /** The part file under a taken body: what was longer stays. */
  function Overlaid(part: Bytes, x: Exchange): Bytes {
    Digested(part, x) + if |Digested(part, x)| < |part| then part[|Digested(part, x)|..] else ""
  }

  predicate Rejected(h: Hashes, part: Bytes, x: Exchange, want: Bytes) {
    want != "" && Hex(h.sha256(Digested(part, x))) != want
  }

  /** A call succeeds exactly when its last exchange brings a whole body that
      is not rejected and no file operation fails, and each error has its one
      cause; any other failing file operation is reported as it is. */
  lemma {:induction false} EndsExactly(h: Hashes, s: Slot, xs: seq<Exchange>, want: Bytes)
    ensures var (part, x) := LastExchange(s, xs);
      var result := Fetch(h, s, xs, want).result;
      && (result.Ok? <==> Taken(part, x) && x.complete && x.fault != SyncFails && x.fault != RenameFails
                          && !Rejected(h, part, x, want))
      && (result.Ok? ==> result.value == |Digested(part, x)|)
      && (result == Err(Checksum) <==> Taken(part, x) && x.complete && x.fault != SyncFails
                                       && Rejected(h, part, x, want))
      && (result == Err(Interrupted) <==> Taken(part, x) && !x.complete)
      && (result == Err(Transport) <==> x.Unreachable? && x.fault != OpenFails)
      && (result == Err(NotFound) <==> x.Response? && x.status == 404 && x.fault != OpenFails)
      && forall n :: result == Err(HttpStatus(n)) <==>
           x.Response? && x.status == n && n != 404 && n != 416 && !(200 <= n <= 299) && x.fault != OpenFails
    decreases |xs|
  {
    if xs != [] && Restarts(xs[0]) {
      EndsExactly(h, s.(part := None), xs[1..], want);
    } else {
      var (part, x) := LastExchange(s, xs);
      assert part[..0] == "" && "" + (if x.Response? then x.body else "") == if x.Response? then x.body else "";
      assert part[..|part|] == part;
    }
  }

  /** What a call that ends with this result leaves of the part file. */
  predicate Leaves(part: Bytes, x: Exchange, found: Option<Bytes>, result: Result<nat, Error>, slot: Slot) {
    match result
    case Ok(_) => slot.part == None && slot.dst == Some(Overlaid(part, x))
    case Err(Checksum) => slot.part == if x.fault == RemoveFails then Some(Overlaid(part, x)) else None
    case Err(Interrupted) => slot.part == Some(Overlaid(part, x))
    case Err(Io) =>
      slot.part == if x.fault == OpenFails then found else Some(if Taken(part, x) then Overlaid(part, x) else part)
    case Err(_) => slot.part == Some(part)
  }

  /** A rejected part file is removed, unless that fails; one cut short stays
      for the next call to go on from; where nothing was taken, it is as the
      last exchange found it, or empty when there was none. */
  lemma {:induction false} PartLeft(h: Hashes, s: Slot, xs: seq<Exchange>, want: Bytes)
    ensures var (part, x) := LastExchange(s, xs);
      var out := Fetch(h, s, xs, want);
      Leaves(part, x, if Restarted(xs) == 0 then s.part else None, out.result, out.slot)
    decreases |xs|
  {
    if xs != [] && Restarts(xs[0]) {
      PartLeft(h, s.(part := None), xs[1..], want);
    } else if xs != [] && Taken(s.PartBytes(), xs[0]) {
      ReceiveLeaves(h, s, xs[0], want);
    }
  }

  lemma ReceiveLeaves(h: Hashes, s: Slot, x: Exchange, want: Bytes)
    requires Taken(s.PartBytes(), x)
    ensures Leaves(s.PartBytes(), x, s.part, Receive(h, s, x, want).result, Receive(h, s, x, want).slot)
  {
    WrittenOver(s.PartBytes(), x);
  }

  lemma WrittenOver(part: Bytes, x: Exchange)
    requires Carries(x)
    ensures WriteAt(part, Position(x, part), x.body) == Overlaid(part, x)
    ensures part[..Position(x, part)] + x.body == Digested(part, x)
  {
    assert part[..0] == "" && part[..|part|] == part;
  }

  /** A rejected download is not resumed: the next call starts from nothing. */
  lemma {:induction false} RejectedExample(h: Hashes)
    requires CollisionFree(h.sha256, {"x", "y"})
    ensures var x := Response(200, "x", true, NoFault);
      var out := Fetch(h, Slot(None, None), [x], FileDigest(h, "y"));
      out.result == Err(Checksum) && out.slot == Slot(None, None)
  {
    var xs := [Response(200, "x", true, NoFault)];
    EndsExactly(h, Slot(None, None), xs, FileDigest(h, "y"));
    PartLeft(h, Slot(None, None), xs, FileDigest(h, "y"));
    DestinationOnlyOnSuccess(h, Slot(None, None), xs, FileDigest(h, "y"));
    if FileDigest(h, "x") == FileDigest(h, "y") {
      HexInjective(h.sha256("x"), h.sha256("y"));
    }
  }

  /** How many exchanges in a row, from the first, make the call start over. */
  function Restarted(xs: seq<Exchange>): (n: nat)
    ensures n <= |xs| && forall i :: 0 <= i < n ==> Restarts(xs[i])
    ensures n < |xs| ==> !Restarts(xs[n])
  {
    if xs == [] || !Restarts(xs[0]) then 0 else 1 + Restarted(xs[1..])
  }

  /** One request for every start and for the last exchange, unless the part
      file cannot be opened then. So two requests suffice exactly when at most
      one exchange in a row asks to start over, or two and then no file. */
  lemma {:induction false} RequestCount(h: Hashes, s: Slot, xs: seq<Exchange>, want: Bytes)
    ensures var n := Restarted(xs);
      var unopened := n < |xs| && xs[n].fault == OpenFails;
      var requests := Fetch(h, s, xs, want).requests;
      && requests == n + (if unopened then 0 else 1)
      && (requests <= 2 <==> n <= 1 || (n == 2 && unopened))
    decreases |xs|
  {
    if xs != [] && Restarts(xs[0]) {
      RequestCount(h, s.(part := None), xs[1..], want);
    }
  }

  /** No bound holds for every server: one that answers 416 for long enough is
      asked more often than any of them, even when no range is sent. */
  lemma RequestsUnbounded(h: Hashes, dst: Option<Bytes>, want: Bytes, bound: nat) returns (xs: seq<Exchange>)
    ensures forall i :: 0 <= i < |xs| ==> xs[i] == Response(416, "", true, NoFault)
    ensures Fetch(h, Slot(None, dst), xs, want).requests > bound
  {
    xs := seq(bound, _ => Response(416, "", true, NoFault));
    RequestCount(h, Slot(None, dst), xs, want);
  }

  // ---- A server faithful to one artifact ----

  /** A success carries the artifact's bytes from the requested offset, or
      all of them; a body may be cut anywhere. */
  predicate FaithfulReply(artifact: Bytes, offset: nat, x: Exchange) {
    Carries(x) ==>
      var from := if x.status == 206 then offset else 0;
      && from <= |artifact|
      && x.body <= artifact[from..]
      && (x.complete ==> x.body == artifact[from..])
  }

  predicate FaithfulCall(artifact: Bytes, s: Slot, xs: seq<Exchange>)
    decreases |xs|
  {
    xs == [] || (
      && FaithfulReply(artifact, |s.PartBytes()|, xs[0])
      && (Restarts(xs[0]) ==> FaithfulCall(artifact, s.(part := None), xs[1..])))
  }

  /** What one call keeps: the part file and the digested bytes are prefixes
      of the artifact, and success delivers all of it. */
  lemma {:induction false} FaithfulStep(h: Hashes, artifact: Bytes, s: Slot, xs: seq<Exchange>, want: Bytes)
    requires s.PartBytes() <= artifact
    requires FaithfulCall(artifact, s, xs)
    ensures var out := Fetch(h, s, xs, want);
      && out.slot.PartBytes() <= artifact
      && out.fed <= artifact
      && (out.result.Ok? ==> out.slot.dst == Some(artifact) && out.result.value == |artifact|)
      && (out.result.Err? ==> out.slot.dst == s.dst)
    decreases |xs|
  {
    if xs != [] && Restarts(xs[0]) {
      FaithfulStep(h, artifact, s.(part := None), xs[1..], want);
    } else if xs != [] && Carries(xs[0]) {
      FaithfulReceive(h, artifact, s, xs[0], want);
    }
  }

  lemma FaithfulReceive(h: Hashes, artifact: Bytes, s: Slot, x: Exchange, want: Bytes)
    requires s.PartBytes() <= artifact && Carries(x) && FaithfulReply(artifact, |s.PartBytes()|, x)
    ensures var out := Receive(h, s, x, want);
      && out.slot.PartBytes() <= artifact
      && out.fed <= artifact
      && (out.result.Ok? ==> out.slot.dst == Some(artifact) && out.result.value == |artifact|)
      && (out.result.Err? ==> out.slot.dst == s.dst)
  {
    PrefixesWritten(artifact, s.PartBytes(), x);
  }

  lemma PrefixesWritten(artifact: Bytes, part: Bytes, x: Exchange)
    requires part <= artifact && Carries(x) && FaithfulReply(artifact, |part|, x)
    ensures var pos := Position(x, part);
      && WriteAt(part, pos, x.body) <= artifact
      && part[..pos] + x.body <= artifact
      && (x.complete ==> WriteAt(part, pos, x.body) == artifact && pos + |x.body| == |artifact|)
  {
    OverlayOfPrefix(artifact, part, Position(x, part), x.body);
  }

  /** Writing what the artifact holds there over a prefix of it leaves a prefix. */
  lemma OverlayOfPrefix(artifact: Bytes, part: Bytes, pos: nat, body: Bytes)
    requires part <= artifact && pos <= |part| && body <= artifact[pos..]
    ensures WriteAt(part, pos, body) <= artifact && part[..pos] + body <= artifact
    ensures body == artifact[pos..] ==> WriteAt(part, pos, body) == artifact
  {
    var n := pos + |body|;
    assert part[..pos] == artifact[..pos] && body == artifact[pos..n];
    assert part[..pos] + body == artifact[..n];
    if n < |part| {
      assert part[n..] == artifact[n..|part|];
      assert WriteAt(part, pos, body) == artifact[..|part|];
    } else {
      assert WriteAt(part, pos, body) == artifact[..n];
    }
  }

  datatype Attempt = Attempt(exchanges: seq<Exchange>, want: Bytes)

  /** The files after a sequence of calls, each stopped wherever it was. */
  function AfterAttempts(h: Hashes, s: Slot, attempts: seq<Attempt>): Slot
    decreases |attempts|
  {
    if attempts == [] then s else
      AfterAttempts(h, Fetch(h, s, attempts[0].exchanges, attempts[0].want).slot, attempts[1..])
  }

  predicate FaithfulAttempts(h: Hashes, artifact: Bytes, s: Slot, attempts: seq<Attempt>)
    decreases |attempts|
  {
    attempts == [] || (
      && FaithfulCall(artifact, s, attempts[0].exchanges)
      && FaithfulAttempts(h, artifact, Fetch(h, s, attempts[0].exchanges, attempts[0].want).slot, attempts[1..]))
  }

  /** However often a download is interrupted and resumed, the part file stays
      a prefix of the artifact and the destination is untouched or complete. */
  lemma {:induction false} ResumeIsSafe(h: Hashes, artifact: Bytes, s: Slot, attempts: seq<Attempt>)
    requires s.PartBytes() <= artifact
    requires FaithfulAttempts(h, artifact, s, attempts)
    ensures var end := AfterAttempts(h, s, attempts);
      && end.PartBytes() <= artifact
      && (end.dst == s.dst || end.dst == Some(artifact))
    decreases |attempts|
  {
    if attempts != [] {
      var a := attempts[0];
      FaithfulStep(h, artifact, s, a.exchanges, a.want);
      ResumeIsSafe(h, artifact, Fetch(h, s, a.exchanges, a.want).slot, attempts[1..]);
    }
  }

  predicate Clean(x: Exchange) {
    Carries(x) && x.complete && x.fault == NoFault
  }

  /** After any such history, one undisturbed call delivers the artifact. */
  lemma {:induction false} ResumeCompletes(h: Hashes, artifact: Bytes, s: Slot, attempts: seq<Attempt>,
                                           xs: seq<Exchange>, want: Bytes)
    requires s.PartBytes() <= artifact
    requires FaithfulAttempts(h, artifact, s, attempts)
    requires FaithfulCall(artifact, AfterAttempts(h, s, attempts), xs)
    requires |xs| == 2 && (Clean(xs[0]) || Restarts(xs[0])) && Clean(xs[1])
    requires want == "" || want == FileDigest(h, artifact)
    ensures var out := Fetch(h, AfterAttempts(h, s, attempts), xs, want);
      out.result == Ok(|artifact|) && out.slot == Slot(None, Some(artifact))
  {
    ResumeIsSafe(h, artifact, s, attempts);
    CleanCall(h, artifact, AfterAttempts(h, s, attempts), xs, want);
  }

  /** An undisturbed call, with at most one restart, delivers the artifact. */
  lemma {:induction false} CleanCall(h: Hashes, artifact: Bytes, s: Slot, xs: seq<Exchange>, want: Bytes)
    requires s.PartBytes() <= artifact && FaithfulCall(artifact, s, xs)
    requires |xs| == 2 && (Clean(xs[0]) || Restarts(xs[0])) && Clean(xs[1])
    requires want == "" || want == FileDigest(h, artifact)
    ensures var out := Fetch(h, s, xs, want);
      out.result == Ok(|artifact|) && out.slot == Slot(None, Some(artifact))
  {
    if Restarts(xs[0]) {
      CleanFirst(h, artifact, s.(part := None), xs[1..], want);
    } else {
      CleanFirst(h, artifact, s, xs, want);
    }
  }

  lemma {:induction false} CleanFirst(h: Hashes, artifact: Bytes, s: Slot, xs: seq<Exchange>, want: Bytes)
    requires s.PartBytes() <= artifact && FaithfulCall(artifact, s, xs)
    requires xs != [] && Clean(xs[0])
    requires want == "" || want == FileDigest(h, artifact)
    ensures var out := Fetch(h, s, xs, want);
      out.result == Ok(|artifact|) && out.slot == Slot(None, Some(artifact))
  {
    CleanReceive(h, artifact, s, xs[0], want);
    assert Fetch(h, s, xs, want) == Receive(h, s, xs[0], want);
  }

  lemma CleanReceive(h: Hashes, artifact: Bytes, s: Slot, x: Exchange, want: Bytes)
    requires s.PartBytes() <= artifact && Clean(x) && FaithfulReply(artifact, |s.PartBytes()|, x)
    requires want == "" || want == FileDigest(h, artifact)
    ensures var out := Receive(h, s, x, want);
      out.result == Ok(|artifact|) && out.slot == Slot(None, Some(artifact))
  {
    var part := s.PartBytes();
    PrefixesWritten(artifact, part, x);
    var pos := Position(x, part);
    assert |part[..pos] + x.body| == |artifact| ==> part[..pos] + x.body == artifact;
  }
}

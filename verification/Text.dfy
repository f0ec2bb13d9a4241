/** Byte strings as the Go code sees them, and the string operations it relies on. */
module Text {

  /** A Go string or []byte: one character stands for one byte. */
  type Bytes = string

  datatype Option<+T> = None | Some(value: T)

  datatype Result<+T, +E> = Ok(value: T) | Err(error: E)

  /** Position of the first c in s, or |s| when there is none. */
  function IndexOf(s: Bytes, c: char): (k: nat)
    ensures k <= |s|
    ensures c !in s[..k]
    ensures k < |s| ==> s[k] == c
  {
    if s == "" || s[0] == c then 0 else
      var k := IndexOf(s[1..], c);
      assert s[..k + 1] == [s[0]] + s[1..][..k];
      k + 1
  }

  /** The first c in a + [c] + b is the middle one when a has none. */
  lemma {:induction false} IndexOfAppend(a: Bytes, c: char, b: Bytes)
    requires c !in a
    ensures IndexOf(a + [c] + b, c) == |a|
  {
    if a != "" {
      IndexOfAppend(a[1..], c, b);
      assert (a + [c] + b)[1..] == a[1..] + [c] + b;
    }
  }

  /** strings.Cut with a one-byte separator: before, after, found. */
  function Cut(s: Bytes, c: char): (Bytes, Bytes, bool) {
    var k := IndexOf(s, c);
    if k < |s| then (s[..k], s[k + 1..], true) else (s, "", false)
  }

  lemma CutAppend(a: Bytes, c: char, b: Bytes)
    requires c !in a
    ensures Cut(a + [c] + b, c) == (a, b, true)
  {
    IndexOfAppend(a, c, b);
    assert (a + [c] + b)[..|a|] == a && (a + [c] + b)[|a| + 1..] == b;
  }

  lemma CutAbsent(a: Bytes, c: char)
    requires c !in a
    ensures Cut(a, c) == (a, "", false)
  {}

  /** strings.Split with a one-byte separator. */
  function Split(s: Bytes, c: char): (parts: seq<Bytes>)
    ensures |parts| > 0
    decreases |s|
  {
    var k := IndexOf(s, c);
    if k == |s| then [s] else [s[..k]] + Split(s[k + 1..], c)
  }

  /** strings.Join with a one-byte separator. */
  function Join(parts: seq<Bytes>, c: char): Bytes
    requires |parts| > 0
  {
    if |parts| == 1 then parts[0] else parts[0] + [c] + Join(parts[1..], c)
  }

  lemma {:induction false} JoinFirst(first: Bytes, rest: seq<Bytes>, c: char)
    requires |rest| > 0
    ensures Join([first] + rest, c) == first + [c] + Join(rest, c)
  {
    assert ([first] + rest)[1..] == rest;
  }

  lemma Halves(s: Bytes, k: nat, c: char)
    requires k < |s| && s[k] == c
    ensures s[..k] + [c] + s[k + 1..] == s
  {}

  /** Splitting loses nothing: joining the parts gives the string back. */
  lemma {:induction false} JoinSplit(s: Bytes, c: char)
    ensures Join(Split(s, c), c) == s
    decreases |s|
  {
    var k := IndexOf(s, c);
    if k < |s| {
      JoinSplit(s[k + 1..], c);
      JoinFirst(s[..k], Split(s[k + 1..], c), c);
      Halves(s, k, c);
    }
  }

  /** Parts without the separator come back out of what they join to. */
  lemma {:induction false} SplitJoin(names: seq<Bytes>, c: char)
    requires |names| > 0 && forall i :: 0 <= i < |names| ==> c !in names[i]
    ensures Split(Join(names, c), c) == names
  {
    if |names| == 1 {
      assert IndexOf(names[0], c) == |names[0]|;
    } else {
      SplitJoin(names[1..], c);
      JoinFirst(names[0], names[1..], c);
      assert names == [names[0]] + names[1..];
      CutAppend(names[0], c, Join(names[1..], c));
    }
  }

  lemma {:induction false} SplitParts(s: Bytes, c: char)
    ensures forall i :: 0 <= i < |Split(s, c)| ==> c !in Split(s, c)[i]
    decreases |s|
  {
    var k := IndexOf(s, c);
    if k < |s| {
      SplitParts(s[k + 1..], c);
    }
  }

  /** Bytewise order of Go strings. */
  predicate Less(a: Bytes, b: Bytes)
    decreases |a|
  {
    b != "" && (a == "" || a[0] < b[0] || (a[0] == b[0] && Less(a[1..], b[1..])))
  }

  /** They part at the k-th byte, or there the first one ends. */
  predicate PartsAt(a: Bytes, b: Bytes, k: nat) {
    k <= |a| && k < |b| && a[..k] == b[..k] && (k == |a| || a[k] < b[k])
  }

  /** The order is that of the first difference, a prefix coming first. */
  lemma {:induction false} LessExactly(a: Bytes, b: Bytes)
    ensures Less(a, b) <==> exists k :: PartsAt(a, b, k)
    decreases |a|
  {
    if a != "" && b != "" && a[0] == b[0] {
      LessExactly(a[1..], b[1..]);
      if k: nat :| PartsAt(a[1..], b[1..], k) {
        assert a[..k + 1] == [a[0]] + a[1..][..k] && b[..k + 1] == [b[0]] + b[1..][..k];
        assert PartsAt(a, b, k + 1);
      }
      if k: nat :| PartsAt(a, b, k) {
        assert k > 0 && a[1..][..k - 1] == a[..k][1..] && b[1..][..k - 1] == b[..k][1..];
        assert PartsAt(a[1..], b[1..], k - 1);
      }
    } else if Less(a, b) {
      assert PartsAt(a, b, 0);
    } else if k: nat :| PartsAt(a, b, k) {
      PartsAfterFirst(a, b, k);
    }
  }

  lemma PartsAfterFirst(a: Bytes, b: Bytes, k: nat)
    requires PartsAt(a, b, k)
    ensures k > 0 ==> a[0] == b[0]
  {
    if k > 0 {
      assert a[..k][0] == b[..k][0];
    }
  }

  lemma {:induction false} LessTransitive(a: Bytes, b: Bytes, c: Bytes)
    requires Less(a, b) && Less(b, c)
    ensures Less(a, c)
    decreases |a|
  {
    if a != "" && a[0] == b[0] == c[0] {
      LessTransitive(a[1..], b[1..], c[1..]);
    }
  }

  /** Distinct strings are ordered one way, and only one way. */
  lemma {:induction false} LessTotal(a: Bytes, b: Bytes)
    ensures Less(a, b) <==> a != b && !Less(b, a)
    decreases |a|
  {
    if a != "" && b != "" && a[0] == b[0] {
      LessTotal(a[1..], b[1..]);
      assert a == [a[0]] + a[1..] && b == [b[0]] + b[1..];
    }
  }
}

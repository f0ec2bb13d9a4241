/** Model references: hf:owner/repo[@revision][#path]. */
module Ref {
  import opened Text

  const DEFAULT_REVISION := "main"

  datatype Ref = Ref(owner: Bytes, repo: Bytes, revision: Bytes, path: Bytes)

  datatype ParseError = NoScheme | NoRepo | InvalidPart

  predicate IsAlnum(c: char) {
    'a' <= c <= 'z' || 'A' <= c <= 'Z' || '0' <= c <= '9'
  }

  predicate IsRepoChar(c: char) {
    IsAlnum(c) || c == '.' || c == '_' || c == '-'
  }

  predicate IsSegmentChar(c: char) {
    IsRepoChar(c) || c == ' ' || c == '+' || c == '(' || c == ')' || c == '\''
  }

  /** Alphanumeric at both ends, at most 95 characters. */
  predicate ValidOwner(s: Bytes) {
    && 1 <= |s| <= 95
    && IsAlnum(s[0]) && IsAlnum(s[|s| - 1])
    && forall i :: 0 <= i < |s| ==> IsAlnum(s[i]) || s[i] == '_' || s[i] == '-'
  }

  predicate ValidRepo(s: Bytes) {
    1 <= |s| <= 96 && forall i :: 0 <= i < |s| ==> IsRepoChar(s[i])
  }

  predicate HasDotDot(s: Bytes) {
    exists i :: 0 < i < |s| && s[i - 1] == '.' && s[i] == '.'
  }

  predicate ValidRevision(s: Bytes) {
    && 1 <= |s| <= 200
    && (forall i :: 0 <= i < |s| ==> IsRepoChar(s[i]) || s[i] == '/')
    && !HasDotDot(s)
  }

  predicate ValidSegment(s: Bytes) {
    1 <= |s| <= 255 && s != "." && s != ".." && forall i :: 0 <= i < |s| ==> IsSegmentChar(s[i])
  }

  /** Empty means the whole repo. */
  predicate ValidPath(s: Bytes) {
    s == "" || (!("/" <= s) && forall i :: 0 <= i < |Split(s, '/')| ==> ValidSegment(Split(s, '/')[i]))
  }

  predicate Valid(r: Ref) {
    ValidOwner(r.owner) && ValidRepo(r.repo) && ValidRevision(r.revision) && ValidPath(r.path)
  }

  function Parse(s: Bytes): Result<Ref, ParseError> {
    if !("hf:" <= s) then Err(NoScheme) else
      var rest := if "hf://" <= s then s[5..] else s[3..];
      var (head, path, _) := Cut(rest, '#');
      var (id, rev, pinned) := Cut(head, '@');
      var (owner, repo, found) := Cut(id, '/');
      if !found then Err(NoRepo) else
        var r := Ref(owner, repo, if pinned then rev else DEFAULT_REVISION, path);
        if Valid(r) then Ok(r) else Err(InvalidPart)
  }

  function Id(r: Ref): Bytes {
    r.owner + ['/'] + r.repo
  }

  function Head(r: Ref): Bytes {
    if r.revision == DEFAULT_REVISION then Id(r) else Id(r) + ['@'] + r.revision
  }

  /** What follows the scheme. */
  function Body(r: Ref): Bytes {
    if r.path == "" then Head(r) else Head(r) + ['#'] + r.path
  }

  /** The canonical form of a reference. */
  function Format(r: Ref): Bytes {
    "hf:" + Body(r)
  }

  function ModelIdParts(id: Bytes): (Bytes, Bytes, bool) {
    Cut(id, '/')
  }

  predicate ValidModelId(id: Bytes) {
    var (owner, repo, ok) := ModelIdParts(id);
    ok && ValidOwner(owner) && ValidRepo(repo)
  }

  /** A model id is exactly a valid owner, a slash and a valid repo. */
  lemma ModelIdOf(r: Ref)
    requires ValidOwner(r.owner) && ValidRepo(r.repo)
    ensures ValidModelId(Id(r)) && ModelIdParts(Id(r)) == (r.owner, r.repo, true)
  {
    CutAppend(r.owner, '/', r.repo);
  }

  /** The scheme is stripped, and an owner never reads as part of it. */
  lemma SchemeOf(r: Ref)
    requires ValidOwner(r.owner)
    ensures var s := Format(r); "hf:" <= s && !("hf://" <= s) && s[3..] == Body(r)
  {
    var s := Format(r);
    assert s[3..] == Body(r);
    assert s[3] == Body(r)[0] == Id(r)[0] == r.owner[0];
    assert "hf://"[3] == '/';
  }

  lemma CutsOf(r: Ref)
    requires Valid(r)
    ensures Cut(Body(r), '#').0 == Head(r) && Cut(Body(r), '#').1 == r.path
    ensures Cut(Head(r), '@') ==
      if r.revision == DEFAULT_REVISION then (Id(r), "", false) else (Id(r), r.revision, true)
    ensures Cut(Id(r), '/') == (r.owner, r.repo, true)
  {
    if r.path == "" {
      CutAbsent(Head(r), '#');
    } else {
      CutAppend(Head(r), '#', r.path);
    }
    if r.revision == DEFAULT_REVISION {
      CutAbsent(Id(r), '@');
    } else {
      CutAppend(Id(r), '@', r.revision);
    }
    CutAppend(r.owner, '/', r.repo);
  }

  /** Printing and parsing undo each other on valid references, and on those only. */
  lemma RoundTrip(r: Ref)
    ensures Parse(Format(r)) == Ok(r) <==> Valid(r)
  {
    if Valid(r) {
      SchemeOf(r);
      CutsOf(r);
    }
  }

  // ---- Every accepted spelling ----

  /** The revision after its sign, or left out when it is the default one. */
  predicate SpellsRevision(text: Bytes, r: Ref) {
    text == ['@'] + r.revision || (text == "" && r.revision == "main")
  }

  /** The path after its sign, or left out when it is empty. */
  predicate SpellsPath(text: Bytes, r: Ref) {
    text == ['#'] + r.path || (text == "" && r.path == "")
  }

  ghost predicate Spells(s: Bytes, r: Ref) {
    exists revision, path ::
      && SpellsRevision(revision, r) && SpellsPath(path, r)
      && (s == "hf:" + (Id(r) + revision + path) || s == "hf://" + (Id(r) + revision + path))
  }

  lemma CutRejoins(s: Bytes, c: char)
    ensures var (a, b, found) := Cut(s, c);
      c !in a && if found then s == a + [c] + b else s == a && b == ""
  {}

  /** What follows the scheme, as Parse takes it apart. */
  predicate Apart(rest: Bytes, r: Ref) {
    var (head, path, _) := Cut(rest, '#');
    var (id, rev, pinned) := Cut(head, '@');
    Cut(id, '/') == (r.owner, r.repo, true) && r.path == path && r.revision == if pinned then rev else "main"
  }

  lemma ApartIsSpelled(rest: Bytes, r: Ref) returns (revision: Bytes, path: Bytes)
    requires Apart(rest, r)
    ensures SpellsRevision(revision, r) && SpellsPath(path, r) && rest == Id(r) + revision + path
  {
    var (head, fragment, found) := Cut(rest, '#');
    path := if found then ['#'] + fragment else "";
    CutWhole(rest, '#', path);
    var (id, rev, pinned) := Cut(head, '@');
    revision := if pinned then ['@'] + rev else "";
    CutWhole(head, '@', revision);
    IdWhole(id, r);
  }

  lemma IdWhole(id: Bytes, r: Ref)
    requires Cut(id, '/') == (r.owner, r.repo, true)
    ensures id == Id(r)
  {
    CutRejoins(id, '/');
  }

  lemma CutWhole(s: Bytes, c: char, back: Bytes)
    requires back == if Cut(s, c).2 then [c] + Cut(s, c).1 else ""
    ensures s == Cut(s, c).0 + back && (back == "" ==> Cut(s, c).1 == "")
  {
    CutRejoins(s, c);
  }

  lemma SpelledIsApart(rest: Bytes, r: Ref, revision: Bytes, path: Bytes)
    requires Valid(r) && SpellsRevision(revision, r) && SpellsPath(path, r) && rest == Id(r) + revision + path
    ensures Apart(rest, r)
  {
    var head := Id(r) + revision;
    if path == "" {
      assert rest == head;
      CutAbsent(head, '#');
    } else {
      assert rest == head + ['#'] + r.path;
      CutAppend(head, '#', r.path);
    }
    if revision == "" {
      assert head == Id(r);
      CutAbsent(head, '@');
    } else {
      assert head == Id(r) + ['@'] + r.revision;
      CutAppend(Id(r), '@', r.revision);
    }
    CutAppend(r.owner, '/', r.repo);
  }

  /** Stripping the longest scheme leaves the rest, which never starts with a slash. */
  lemma SchemeStripped(s: Bytes, rest: Bytes)
    requires rest != "" && rest[0] != '/'
    requires s == "hf:" + rest || s == "hf://" + rest
    ensures "hf:" <= s && rest == if "hf://" <= s then s[5..] else s[3..]
  {
    if s == "hf:" + rest {
      assert s[3] == rest[0] && "hf://"[3] == '/';
      assert s[3..] == rest;
    } else {
      assert s[5..] == rest && s[..3] == "hf:";
    }
  }

  lemma SpelledParses(s: Bytes, r: Ref, revision: Bytes, path: Bytes)
    requires Valid(r) && SpellsRevision(revision, r) && SpellsPath(path, r)
    requires s == "hf:" + (Id(r) + revision + path) || s == "hf://" + (Id(r) + revision + path)
    ensures Parse(s) == Ok(r)
  {
    var rest := Id(r) + revision + path;
    assert rest[0] == r.owner[0];
    SchemeStripped(s, rest);
    SpelledIsApart(rest, r, revision, path);
  }

  lemma ParsedIsSpelled(s: Bytes, r: Ref)
    requires Parse(s) == Ok(r)
    ensures Valid(r) && Spells(s, r)
  {
    var rest := if "hf://" <= s then s[5..] else s[3..];
    assert Apart(rest, r);
    var revision, path := ApartIsSpelled(rest, r);
    Prefixed("hf://", s);
    Prefixed("hf:", s);
  }

  lemma Prefixed(scheme: Bytes, s: Bytes)
    ensures scheme <= s ==> s == scheme + s[|scheme|..]
  {}

  /** A text parses to a reference exactly when the reference is valid and the text spells it. */
  lemma ParseExactly(s: Bytes, r: Ref)
    ensures Parse(s) == Ok(r) <==> Valid(r) && Spells(s, r)
  {
    if Parse(s) == Ok(r) {
      ParsedIsSpelled(s, r);
    }
    if Valid(r) && Spells(s, r) {
      var revision, path :| SpellsRevision(revision, r) && SpellsPath(path, r)
        && (s == "hf:" + (Id(r) + revision + path) || s == "hf://" + (Id(r) + revision + path));
      SpelledParses(s, r, revision, path);
    }
  }

  /** Parsing only yields valid references, so the canonical form of what was
      parsed parses to the same. */
  lemma ParseIsCanonical(s: Bytes)
    requires Parse(s).Ok?
    ensures Valid(Parse(s).value) && Parse(Format(Parse(s).value)) == Parse(s)
  {
    RoundTrip(Parse(s).value);
  }
}

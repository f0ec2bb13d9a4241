/** The signed DHT payload: its bencoded form and the rules for accepting one. */
module Record {
  import opened Text
  import opened Hashing
  import Bencode

  const MAX_EMBEDDED_MANIFEST := 700
  const VALUE_LIMIT := 1000

  predicate InInt64(i: int) {
    -0x8000_0000_0000_0000 <= i < 0x8000_0000_0000_0000
  }

  type Int64 = i: int | InInt64(i)

  datatype Record = Record(
    infoHash: Bytes,
    manifestSha256: Bytes,
    revision: Bytes,
    size: Int64,
    manifest: Bytes)

  function StrField(key: Bytes, s: Bytes): Bencode.Entry {
    Bencode.Entry(key, Bencode.Str(s))
  }

  /** Keys in order; an empty manifest is omitted. */
  function Fields(r: Record): seq<Bencode.Entry> {
    [StrField("i", r.infoHash)]
      + (if r.manifest == "" then [] else [StrField("j", r.manifest)])
      + [StrField("m", r.manifestSha256), StrField("r", r.revision),
         Bencode.Entry("s", Bencode.Int(r.size))]
  }

  function Encode(r: Record): Bytes {
    Bencode.Print(Bencode.Dict(Fields(r)))
  }

  datatype DecodeError =
    | NotARecord | BadInfoHash | BadDigest | NoRevision | ManifestTooLong | ManifestMismatch

  /** Known keys must carry values of their type; unknown keys are ignored. */
  predicate WellTyped(e: Bencode.Entry) {
    && (e.key in {"i", "j", "m", "r"} ==> e.value.Str?)
    && (e.key == "s" ==> e.value.Int? && InInt64(e.value.i))
  }

  /** The last string under a key, empty when there is none. */
  function StrOf(fields: seq<Bencode.Entry>, key: Bytes): Bytes {
    if fields == [] then "" else
      var last := fields[|fields| - 1];
      if last.key == key && last.value.Str? then last.value.s else StrOf(fields[..|fields| - 1], key)
  }

  function IntOf(fields: seq<Bencode.Entry>, key: Bytes): Int64 {
    if fields == [] then 0 else
      var last := fields[|fields| - 1];
      if last.key == key && last.value.Int? && InInt64(last.value.i) then last.value.i
      else IntOf(fields[..|fields| - 1], key)
  }

  function RecordOf(fields: seq<Bencode.Entry>): Record {
    Record(StrOf(fields, "i"), StrOf(fields, "m"), StrOf(fields, "r"), IntOf(fields, "s"), StrOf(fields, "j"))
  }

  function DecodeRecord(h: Hashes, v: Bytes): Result<Record, DecodeError> {
    var parsed := Bencode.ParseValue(v);
    if parsed.Fail? || parsed.rest != "" || !parsed.value.Dict?
       || exists i :: 0 <= i < |parsed.value.entries| && !WellTyped(parsed.value.entries[i])
    then Err(NotARecord)
    else
      var r := RecordOf(parsed.value.entries);
      if |r.infoHash| != 20 then Err(BadInfoHash)
      else if |r.manifestSha256| != 32 then Err(BadDigest)
      else if r.revision == "" then Err(NoRevision)
      else if |r.manifest| > MAX_EMBEDDED_MANIFEST then Err(ManifestTooLong)
      else if r.manifest != "" && h.sha256(r.manifest) != r.manifestSha256 then Err(ManifestMismatch)
      else Ok(r)
  }

  /** The records worth publishing. */
  predicate ValidRecord(h: Hashes, r: Record) {
    && |r.infoHash| == 20
    && |r.manifestSha256| == 32
    && r.revision != ""
    && |r.manifest| <= MAX_EMBEDDED_MANIFEST
    && (r.manifest != "" ==> h.sha256(r.manifest) == r.manifestSha256)
  }

  // ---- Round trip ----

  /** The fields of a record are well typed and read back as the record. */
  lemma FieldsRecord(r: Record)
    ensures forall i :: 0 <= i < |Fields(r)| ==> WellTyped(Fields(r)[i])
    ensures RecordOf(Fields(r)) == r
  {
    var front := [StrField("i", r.infoHash)] + if r.manifest == "" then [] else [StrField("j", r.manifest)];
    var (m, rev, size) := (StrField("m", r.manifestSha256), StrField("r", r.revision),
                           Bencode.Entry("s", Bencode.Int(r.size)));
    assert Fields(r) == front + [m] + [rev] + [size];
    Front(r, front);
    ThreePushed(front, m, rev, size, "i");
    ThreePushed(front, m, rev, size, "j");
    ThreePushed(front, m, rev, size, "m");
    ThreePushed(front, m, rev, size, "r");
    IntPushed(front + [m] + [rev], size);
  }

  lemma {:induction false} Front(r: Record, front: seq<Bencode.Entry>)
    requires front == [StrField("i", r.infoHash)] + if r.manifest == "" then [] else [StrField("j", r.manifest)]
    ensures StrOf(front, "i") == r.infoHash && StrOf(front, "j") == r.manifest
  {
    var i := StrField("i", r.infoHash);
    StrPushed([], i, "i");
    StrPushed([], i, "j");
    assert [] + [i] == [i];
    if r.manifest != "" {
      StrPushed([i], StrField("j", r.manifest), "i");
      StrPushed([i], StrField("j", r.manifest), "j");
    } else {
      assert front == [i];
    }
  }

  /** The last field decides, when it is a string under the key. */
  lemma {:induction false} StrPushed(fields: seq<Bencode.Entry>, e: Bencode.Entry, key: Bytes)
    ensures StrOf(fields + [e], key) == if e.key == key && e.value.Str? then e.value.s else StrOf(fields, key)
  {
    assert (fields + [e])[..|fields|] == fields;
  }

  lemma {:induction false} ThreePushed(fields: seq<Bencode.Entry>, x: Bencode.Entry, y: Bencode.Entry,
                                       z: Bencode.Entry, key: Bytes)
    ensures StrOf(fields + [x] + [y] + [z], key) ==
      if z.key == key && z.value.Str? then z.value.s
      else if y.key == key && y.value.Str? then y.value.s
      else if x.key == key && x.value.Str? then x.value.s
      else StrOf(fields, key)
  {
    StrPushed(fields, x, key);
    StrPushed(fields + [x], y, key);
    StrPushed(fields + [x] + [y], z, key);
  }

  lemma {:induction false} IntPushed(fields: seq<Bencode.Entry>, e: Bencode.Entry)
    requires e.value.Int? && InInt64(e.value.i)
    ensures IntOf(fields + [e], e.key) == e.value.i
  {}

  /** Decoding undoes encoding exactly on valid records. */
  lemma RoundTrip(h: Hashes, r: Record)
    ensures DecodeRecord(h, Encode(r)) == Ok(r) <==> ValidRecord(h, r)
    ensures DecodeRecord(h, Encode(r)).Ok? <==> ValidRecord(h, r)
  {
    var v := Bencode.Dict(Fields(r));
    Bencode.ParsePrint(v, "");
    assert Encode(r) + "" == Encode(r);
    FieldsRecord(r);
  }

  /** Whatever bytes a node serves, what is accepted is a valid record. */
  lemma AcceptedIsValid(h: Hashes, v: Bytes)
    requires DecodeRecord(h, v).Ok?
    ensures ValidRecord(h, DecodeRecord(h, v).value)
    ensures DecodeRecord(h, Encode(DecodeRecord(h, v).value)) == DecodeRecord(h, v)
  {
    RoundTrip(h, DecodeRecord(h, v).value);
  }

  /** The signed bytes determine the record. */
  lemma EncodeInjective(a: Record, b: Record)
    requires Encode(a) == Encode(b)
    ensures a == b
  {
    Bencode.PrintInjective(Bencode.Dict(Fields(a)), Bencode.Dict(Fields(b)));
    FieldsRecord(a);
    FieldsRecord(b);
  }

  // ---- The dictionary, key by key ----

  /** On the wire a record is one dictionary of ascending keys: the infohash
      under "i", manifest bytes if any under "j", their digest under "m", the
      revision under "r", the size under "s". */
  lemma OnTheWire(r: Record)
    ensures var front := [Bencode.Entry("i", Bencode.Str(r.infoHash))];
      var embedded := [Bencode.Entry("j", Bencode.Str(r.manifest))];
      var back := [Bencode.Entry("m", Bencode.Str(r.manifestSha256)), Bencode.Entry("r", Bencode.Str(r.revision)),
                   Bencode.Entry("s", Bencode.Int(r.size))];
      var dict := if r.manifest == "" then front + back else front + embedded + back;
      Bencode.ParseValue(Encode(r)) == Bencode.Got(Bencode.Dict(dict), "") && Bencode.KeysAscend(dict)
  {
    Bencode.ParsePrint(Bencode.Dict(Fields(r)), "");
    assert Encode(r) + "" == Encode(r);
    assert "i"[0] < "j"[0] < "m"[0] < "r"[0] < "s"[0];
  }

  /** The last field under this key holds v; or there is none, where it may be absent. */
  ghost predicate Reads(fields: seq<Bencode.Entry>, key: Bytes, v: Bencode.Value, absent: bool) {
    || (absent && forall i :: 0 <= i < |fields| ==> fields[i].key != key)
    || exists i :: LastUnder(fields, key, v, i)
  }

  predicate LastUnder(fields: seq<Bencode.Entry>, key: Bytes, v: Bencode.Value, i: int) {
    && 0 <= i < |fields| && fields[i] == Bencode.Entry(key, v)
    && forall j :: i < j < |fields| ==> fields[j].key != key
  }

  /** Every field under a known key has its type. */
  predicate Typed(fields: seq<Bencode.Entry>) {
    forall i :: 0 <= i < |fields| ==>
      var (key, v) := (fields[i].key, fields[i].value);
      && (key == "i" || key == "j" || key == "m" || key == "r" ==> v.Str?)
      && (key == "s" ==> v.Int? && -0x8000_0000_0000_0000 <= v.i < 0x8000_0000_0000_0000)
  }

  lemma {:induction false} StrRead(fields: seq<Bencode.Entry>, key: Bytes)
    requires Typed(fields) && (key == "i" || key == "j" || key == "m" || key == "r")
    ensures Reads(fields, key, Bencode.Str(StrOf(fields, key)), StrOf(fields, key) == "")
  {
    if fields != [] {
      var (front, n) := (fields[..|fields| - 1], |fields| - 1);
      if fields[n].key == key {
        assert LastUnder(fields, key, Bencode.Str(StrOf(fields, key)), n);
      } else {
        StrRead(front, key);
        StillReads(fields, key, Bencode.Str(StrOf(fields, key)), StrOf(fields, key) == "");
      }
    }
  }

  lemma {:induction false} IntRead(fields: seq<Bencode.Entry>, key: Bytes)
    requires Typed(fields) && key == "s"
    ensures Reads(fields, key, Bencode.Int(IntOf(fields, key)), IntOf(fields, key) == 0)
  {
    if fields != [] {
      var (front, n) := (fields[..|fields| - 1], |fields| - 1);
      if fields[n].key == key {
        assert LastUnder(fields, key, Bencode.Int(IntOf(fields, key)), n);
      } else {
        IntRead(front, key);
        StillReads(fields, key, Bencode.Int(IntOf(fields, key)), IntOf(fields, key) == 0);
      }
    }
  }

  lemma StillReads(fields: seq<Bencode.Entry>, key: Bytes, v: Bencode.Value, absent: bool)
    requires fields != [] && fields[|fields| - 1].key != key && Reads(fields[..|fields| - 1], key, v, absent)
    ensures Reads(fields, key, v, absent)
  {
    var front := fields[..|fields| - 1];
    if i :| LastUnder(front, key, v, i) {
      assert LastUnder(fields, key, v, i);
    } else {
      assert forall i :: 0 <= i < |front| ==> fields[i] == front[i];
    }
  }

  /** What is accepted is one dictionary and nothing after it, its known keys
      typed, and the record what it holds under them. */
  lemma AcceptedReads(h: Hashes, v: Bytes) returns (fields: seq<Bencode.Entry>)
    requires DecodeRecord(h, v).Ok?
    ensures Bencode.ParseValue(v) == Bencode.Got(Bencode.Dict(fields), "") && Typed(fields)
    ensures var r := DecodeRecord(h, v).value;
      && Reads(fields, "i", Bencode.Str(r.infoHash), false) && Reads(fields, "m", Bencode.Str(r.manifestSha256), false)
      && Reads(fields, "r", Bencode.Str(r.revision), false) && Reads(fields, "s", Bencode.Int(r.size), r.size == 0)
      && Reads(fields, "j", Bencode.Str(r.manifest), r.manifest == "")
  {
    fields := Bencode.ParseValue(v).value.entries;
    assert forall i :: 0 <= i < |fields| ==> WellTyped(fields[i]);
    StrRead(fields, "i");
    StrRead(fields, "j");
    StrRead(fields, "m");
    StrRead(fields, "r");
    IntRead(fields, "s");
  }

  /** And every such dictionary that gives a valid record is accepted. */
  lemma {:induction false} TypedAccepted(h: Hashes, v: Bytes, fields: seq<Bencode.Entry>)
    requires Bencode.ParseValue(v) == Bencode.Got(Bencode.Dict(fields), "") && Typed(fields)
    ensures DecodeRecord(h, v).Ok? <==> ValidRecord(h, RecordOf(fields))
  {
    assert forall i :: 0 <= i < |fields| ==> WellTyped(fields[i]);
  }

  // ---- The 1000-byte limit ----

  function Pow10(k: nat): nat {
    if k == 0 then 1 else 10 * Pow10(k - 1)
  }

  lemma {:induction false} DigitCount(n: nat, k: nat)
    requires k > 0 && n < Pow10(k)
    ensures |Bencode.Decimal(n)| <= k
  {
    if n >= 10 {
      DigitCount(n / 10, k - 1);
    }
  }

  function StrSize(s: Bytes): nat {
    |Bencode.Decimal(|s|)| + 1 + |s|
  }

  lemma {:induction false} EntryPrinted(f: seq<Bencode.Entry>)
    requires f != [] && |f[0].key| == 1
    ensures |Bencode.PrintEntries(f)| == 3 + |Bencode.Print(f[0].value)| + |Bencode.PrintEntries(f[1..])|
  {
    assert |Bencode.Decimal(1)| == 1;
  }

  /** Exact size of an encoded record. */
  lemma EncodedSize(r: Record)
    ensures |Encode(r)| ==
      16 + StrSize(r.infoHash) + (if r.manifest == "" then 0 else 3 + StrSize(r.manifest))
      + StrSize(r.manifestSha256) + StrSize(r.revision) + |Bencode.DecimalInt(r.size)|
  {
    var f := Fields(r);
    var tail := [StrField("m", r.manifestSha256), StrField("r", r.revision),
                 Bencode.Entry("s", Bencode.Int(r.size))];
    EntryPrinted(f);
    if r.manifest == "" {
      assert f[1..] == tail;
    } else {
      EntryPrinted(f[1..]);
      assert f[1..][1..] == tail;
    }
    TailSize(r, tail);
  }

  lemma {:induction false} TailSize(r: Record, tail: seq<Bencode.Entry>)
    requires tail == [StrField("m", r.manifestSha256), StrField("r", r.revision),
                      Bencode.Entry("s", Bencode.Int(r.size))]
    ensures |Bencode.PrintEntries(tail)| ==
      11 + StrSize(r.manifestSha256) + StrSize(r.revision) + |Bencode.DecimalInt(r.size)|
  {
    EntryPrinted(tail);
    EntryPrinted(tail[1..]);
    EntryPrinted(tail[2..]);
    assert tail[1..][1..] == tail[2..] && tail[2..][1..] == [];
  }

  /** A publishable record fits the BEP 44 value limit. */
  lemma FitsLimit(h: Hashes, r: Record)
    requires ValidRecord(h, r) && |r.revision| <= 196 && r.size >= 0
    ensures |Encode(r)| <= VALUE_LIMIT
  {
    EncodedSize(r);
    assert Pow10(2) == 100 && Pow10(3) == 1000;
    DigitCount(20, 2);
    DigitCount(32, 2);
    DigitCount(|r.manifest|, 3);
    DigitCount(|r.revision|, 3);
    SizeDigits(r.size);
  }

  lemma TenTo19()
    ensures Pow10(18) == 1_000_000_000_000_000_000 && Pow10(19) == 10_000_000_000_000_000_000
  {
    assert Pow10(4) == 10_000;
    assert Pow10(8) == 100_000_000;
    assert Pow10(12) == 1_000_000_000_000;
    assert Pow10(16) == 10_000_000_000_000_000;
  }

  lemma SizeDigits(size: Int64)
    requires size >= 0
    ensures |Bencode.DecimalInt(size)| <= 19
    ensures size >= 1_000_000_000_000_000_000 ==> |Bencode.DecimalInt(size)| == 19
  {
    TenTo19();
    assert InInt64(size);
    DigitCount(size, 19);
    if size >= Pow10(18) {
      DigitsMoreThan(size, 18);
    }
  }

  /** The limit is reached: 700 bytes of manifest, 196 of revision, 19 digits of size. */
  lemma LimitIsReached(r: Record)
    requires |r.infoHash| == 20 && |r.manifestSha256| == 32
    requires |r.manifest| == 700 && |r.revision| == 196 && r.size == 0x7fff_ffff_ffff_ffff
    ensures |Encode(r)| == VALUE_LIMIT
  {
    EncodedSize(r);
    SizeDigits(r.size);
    ThreeDigits(700);
    ThreeDigits(196);
    assert |Bencode.Decimal(20)| == 2 && |Bencode.Decimal(32)| == 2;
  }

  lemma {:induction false} ThreeDigits(n: nat)
    requires 100 <= n < 1000
    ensures |Bencode.Decimal(n)| == 3
  {
    assert Pow10(2) == 100 && Pow10(3) == 1000;
    DigitCount(n, 3);
    DigitsMoreThan(n, 2);
  }

  lemma {:induction false} DigitsMoreThan(n: nat, k: nat)
    requires Pow10(k) <= n
    ensures |Bencode.Decimal(n)| > k
  {
    if k > 0 {
      DigitsMoreThan(n / 10, k - 1);
    }
  }
}

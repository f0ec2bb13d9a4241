/** The bencoding of BEP 3: integers, strings, lists and dictionaries. */
module Bencode {
  import opened Text

  datatype Value =
    | Int(i: int)
    | Str(s: Bytes)
    | List(items: seq<Value>)
    | Dict(entries: seq<Entry>)

  datatype Entry = Entry(key: Bytes, value: Value)

  /** What a parser found at the front of its input, and what is left. */
  datatype Parsed<+T> = Fail | Got(value: T, rest: Bytes)

  /** Keys in strictly ascending order, as BEP 3 demands. */
  predicate KeysAscend(entries: seq<Entry>) {
    forall i :: 0 < i < |entries| ==> Less(entries[i - 1].key, entries[i].key)
  }

  // ---- Decimal numbers ----

  predicate IsDigit(c: char) {
    '0' <= c <= '9'
  }

  predicate AllDigits(s: Bytes) {
    forall i :: 0 <= i < |s| ==> IsDigit(s[i])
  }

  function Digit(d: nat): (c: char)
    requires d < 10
    ensures IsDigit(c)
  {
    ('0' as int + d) as char
  }

  /** Decimal text without leading zeros. */
  function Decimal(n: nat): (s: Bytes)
    ensures s != "" && AllDigits(s)
    ensures |s| > 1 ==> s[0] != '0'
    ensures s[0] == '0' <==> n == 0
  {
    if n < 10 then [Digit(n)] else Decimal(n / 10) + [Digit(n % 10)]
  }

  function DecimalInt(i: int): Bytes {
    if i < 0 then "-" + Decimal(-i) else Decimal(i)
  }

  function NatOf(s: Bytes): nat
    requires AllDigits(s)
  {
    if s == "" then 0
    else NatOf(s[..|s| - 1]) * 10 + (s[|s| - 1] as int - '0' as int)
  }

  lemma {:induction false} NatOfDecimal(n: nat)
    ensures NatOf(Decimal(n)) == n
  {
    var s := Decimal(n);
    if n < 10 {
      assert s[..0] == "";
    } else {
      NatOfDecimal(n / 10);
      assert s[..|s| - 1] == Decimal(n / 10);
    }
  }

  /** Number of leading digits. */
  function DigitSpan(s: Bytes): (k: nat)
    ensures k <= |s| && AllDigits(s[..k])
    ensures k < |s| ==> !IsDigit(s[k])
  {
    if s == "" || !IsDigit(s[0]) then 0 else
      var k := DigitSpan(s[1..]);
      assert s[..k + 1] == [s[0]] + s[1..][..k];
      k + 1
  }

  lemma {:induction false} DigitSpanOf(digits: Bytes, rest: Bytes)
    requires AllDigits(digits) && (rest == "" || !IsDigit(rest[0]))
    ensures DigitSpan(digits + rest) == |digits|
  {
    if digits != "" {
      DigitSpanOf(digits[1..], rest);
      assert (digits + rest)[1..] == digits[1..] + rest;
    } else {
      assert digits + rest == rest;
    }
  }

  // ---- Printer ----

  function Print(v: Value): Bytes
    decreases v, 0
  {
    match v
    case Int(i) => "i" + DecimalInt(i) + "e"
    case Str(s) => PrintStr(s)
    case List(items) => "l" + PrintItems(items) + "e"
    case Dict(entries) => "d" + PrintEntries(entries) + "e"
  }

  function PrintStr(s: Bytes): Bytes {
    Decimal(|s|) + ":" + s
  }

  function PrintItems(items: seq<Value>): Bytes
    decreases items, 1
  {
    if items == [] then "" else Print(items[0]) + PrintItems(items[1..])
  }

  function PrintEntries(entries: seq<Entry>): Bytes
    decreases entries, 1
  {
    if entries == [] then "" else
      PrintStr(entries[0].key) + Print(entries[0].value) + PrintEntries(entries[1..])
  }

  // ---- Parser ----

  function ParseNat(s: Bytes): (r: Parsed<nat>)
    ensures r.Got? ==> |r.rest| < |s|
  {
    var k := DigitSpan(s);
    if k == 0 || (k > 1 && s[0] == '0') then Fail else Got(NatOf(s[..k]), s[k..])
  }

  function ParseInt(s: Bytes): (r: Parsed<int>)
    ensures r.Got? ==> |r.rest| < |s|
  {
    if s != "" && s[0] == '-' then
      var n := ParseNat(s[1..]);
      if n.Fail? || n.value == 0 then Fail else
        Got(0 - n.value, n.rest)
    else
      ParseNat(s)
  }

  function ParseStr(s: Bytes): (r: Parsed<Bytes>)
    ensures r.Got? ==> |r.rest| < |s|
  {
    var n := ParseNat(s);
    if n.Fail? || n.rest == "" || n.rest[0] != ':' || |n.rest| < n.value + 1 then Fail
    else Got(n.rest[1..n.value + 1], n.rest[n.value + 1..])
  }

  function ParseValue(s: Bytes): (r: Parsed<Value>)
    ensures r.Got? ==> |r.rest| < |s|
    decreases |s|, 0
  {
    if s == "" then Fail
    else if s[0] == 'i' then
      var n := ParseInt(s[1..]);
      if n.Fail? || n.rest == "" || n.rest[0] != 'e' then Fail else Got(Int(n.value), n.rest[1..])
    else if s[0] == 'l' then
      var items := ParseItems(s[1..]);
      if items.Fail? then Fail else Got(List(items.value), items.rest)
    else if s[0] == 'd' then
      var entries := ParseEntries(s[1..]);
      if entries.Fail? then Fail else Got(Dict(entries.value), entries.rest)
    else
      var str := ParseStr(s);
      if str.Fail? then Fail else Got(Str(str.value), str.rest)
  }

  function ParseItems(s: Bytes): (r: Parsed<seq<Value>>)
    ensures r.Got? ==> |r.rest| < |s|
    decreases |s|, 1
  {
    if s == "" then Fail
    else if s[0] == 'e' then Got([], s[1..])
    else
      var head := ParseValue(s);
      if head.Fail? then Fail else
        var tail := ParseItems(head.rest);
        if tail.Fail? then Fail else Got([head.value] + tail.value, tail.rest)
  }

  function ParseEntries(s: Bytes): (r: Parsed<seq<Entry>>)
    ensures r.Got? ==> |r.rest| < |s|
    decreases |s|, 1
  {
    if s == "" then Fail
    else if s[0] == 'e' then Got([], s[1..])
    else
      var key := ParseStr(s);
      if key.Fail? then Fail else
        var val := ParseValue(key.rest);
        if val.Fail? then Fail else
          var tail := ParseEntries(val.rest);
          if tail.Fail? then Fail
          else Got([Entry(key.value, val.value)] + tail.value, tail.rest)
  }

  // ---- The parser undoes the printer ----

  lemma {:induction false} ParseNatDecimal(n: nat, rest: Bytes)
    requires rest == "" || !IsDigit(rest[0])
    ensures ParseNat(Decimal(n) + rest) == Got(n, rest)
  {
    var s := Decimal(n) + rest;
    DigitSpanOf(Decimal(n), rest);
    NatOfDecimal(n);
    assert s[..|Decimal(n)|] == Decimal(n) && s[|Decimal(n)|..] == rest;
  }

  lemma ParseIntDecimal(i: int, rest: Bytes)
    requires rest == "" || !IsDigit(rest[0])
    ensures ParseInt(DecimalInt(i) + rest) == Got(i, rest)
  {
    if i < 0 {
      ParseNegative(-i, Decimal(-i), rest);
    } else {
      ParseNonNegative(i, Decimal(i), rest);
    }
  }

  lemma {:induction false} ParseNegative(n: nat, digits: Bytes, rest: Bytes)
    requires n > 0 && digits == Decimal(n)
    requires rest == "" || !IsDigit(rest[0])
    ensures ParseInt("-" + digits + rest) == Got(0 - n, rest)
  {
    ParseNatDecimal(n, rest);
    assert ("-" + digits + rest)[1..] == digits + rest;
  }

  lemma {:induction false} ParseNonNegative(n: nat, digits: Bytes, rest: Bytes)
    requires digits == Decimal(n)
    requires rest == "" || !IsDigit(rest[0])
    ensures ParseInt(digits + rest) == Got(n, rest)
  {
    ParseNatDecimal(n, rest);
    assert (digits + rest)[0] == digits[0];
  }

  lemma ParseStrPrint(s: Bytes, rest: Bytes)
    ensures ParseStr(PrintStr(s) + rest) == Got(s, rest)
  {
    var tail := ":" + s + rest;
    ParseNatDecimal(|s|, tail);
    assert PrintStr(s) + rest == Decimal(|s|) + tail;
    assert tail[1..|s| + 1] == s && tail[|s| + 1..] == rest;
  }

  /** A printed value is read back whatever follows it. */
  lemma {:induction false} ParsePrint(v: Value, rest: Bytes)
    ensures ParseValue(Print(v) + rest) == Got(v, rest)
    decreases v, 0
  {
    match v
    case Int(i) => ParsePrintInt(i, rest);
    case Str(b) => ParsePrintStr(b, rest);
    case List(items) =>
      ParsePrintItems(items, rest);
      Bracketed('l', PrintItems(items), rest);
    case Dict(entries) =>
      ParsePrintEntries(entries, rest);
      Bracketed('d', PrintEntries(entries), rest);
  }

  lemma Bracketed(open: char, body: Bytes, rest: Bytes)
    ensures var s := [open] + body + "e" + rest; s[0] == open && s[1..] == body + "e" + rest
  {}

  lemma {:induction false} ParsePrintInt(i: int, rest: Bytes)
    ensures ParseValue(Print(Int(i)) + rest) == Got(Int(i), rest)
  {
    var tail := "e" + rest;
    ParseIntDecimal(i, tail);
    Bracketed('i', DecimalInt(i), rest);
    assert DecimalInt(i) + "e" + rest == DecimalInt(i) + tail;
    assert tail[1..] == rest;
  }

  lemma {:induction false} ParsePrintStr(b: Bytes, rest: Bytes)
    ensures ParseValue(Print(Str(b)) + rest) == Got(Str(b), rest)
  {
    ParseStrPrint(b, rest);
    var s := PrintStr(b) + rest;
    assert s[0] == Decimal(|b|)[0];
  }

  /** The first character of a printed value never closes a list. */
  lemma {:induction false} PrintStarts(v: Value)
    ensures Print(v) != "" && Print(v)[0] != 'e'
  {}

  lemma {:induction false} ParsePrintItems(items: seq<Value>, rest: Bytes)
    ensures ParseItems(PrintItems(items) + "e" + rest) == Got(items, rest)
    decreases items, 1
  {
    var s := PrintItems(items) + "e" + rest;
    if items == [] {
      assert s == "e" + rest;
    } else {
      var tail := PrintItems(items[1..]) + "e" + rest;
      assert s == Print(items[0]) + tail;
      PrintStarts(items[0]);
      ParsePrint(items[0], tail);
      ParsePrintItems(items[1..], rest);
      assert [items[0]] + items[1..] == items;
    }
  }

  lemma {:induction false} ParsePrintEntries(entries: seq<Entry>, rest: Bytes)
    ensures ParseEntries(PrintEntries(entries) + "e" + rest) == Got(entries, rest)
    decreases entries, 1
  {
    var s := PrintEntries(entries) + "e" + rest;
    if entries == [] {
      assert s == "e" + rest;
    } else {
      var tail := PrintEntries(entries[1..]) + "e" + rest;
      var e := entries[0];
      assert s == PrintStr(e.key) + (Print(e.value) + tail);
      ParseStrPrint(e.key, Print(e.value) + tail);
      ParsePrint(e.value, tail);
      ParsePrintEntries(entries[1..], rest);
      ParseOneEntry(s, e, Print(e.value) + tail, tail, entries[1..], rest);
      assert [e] + entries[1..] == entries;
    }
  }

  /** One parsed entry in front of the parsed others. */
  lemma {:induction false} ParseOneEntry(s: Bytes, e: Entry, afterKey: Bytes, tail: Bytes, others: seq<Entry>,
                                         rest: Bytes)
    requires s != "" && s[0] != 'e'
    requires ParseStr(s) == Got(e.key, afterKey) && ParseValue(afterKey) == Got(e.value, tail)
    requires ParseEntries(tail) == Got(others, rest)
    ensures ParseEntries(s) == Got([e] + others, rest)
  {}

  /** The examples of BEP 3, "bencoding". */
  lemma PrintedForms()
    ensures Print(Str("spam")) == "4:spam"
    ensures Print(Int(3)) == "i3e" && Print(Int(-3)) == "i-3e" && Print(Int(0)) == "i0e" && Print(Int(205)) == "i205e"
    ensures Print(List([Str("spam"), Str("eggs")])) == "l" + ("4:spam" + "4:eggs") + "e"
    ensures Print(Dict([Entry("cow", Str("moo")), Entry("spam", Str("eggs"))]))
         == "d" + ("3:cow" + "3:moo" + ("4:spam" + "4:eggs")) + "e"
  {
    PrintedDigits();
    var (x, y) := (Str("spam"), Str("eggs"));
    TwoItems(x, y);
    TwoEntries(Entry("cow", Str("moo")), Entry("spam", y));
    assert PrintStr("cow") == "3:cow" && PrintStr("moo") == "3:moo";
    assert PrintStr("spam") == "4:spam" && PrintStr("eggs") == "4:eggs";
  }

  lemma PrintedDigits()
    ensures Decimal(0) == "0" && Decimal(3) == "3" && Decimal(4) == "4" && Decimal(205) == "205"
  {
    assert Decimal(2) == "2" && Decimal(20) == "20";
  }

  lemma {:induction false} TwoItems(x: Value, y: Value)
    ensures PrintItems([x, y]) == Print(x) + Print(y)
  {
    assert [x, y][1..] == [y] && [y][1..] == [];
    assert PrintItems([y]) == Print(y) + "" == Print(y);
  }

  lemma TwoEntries(x: Entry, y: Entry)
    ensures PrintEntries([x, y]) == PrintStr(x.key) + Print(x.value) + (PrintStr(y.key) + Print(y.value))
  {
    assert [x, y][1..] == [y] && [y][1..] == [];
    assert PrintEntries([y]) == PrintStr(y.key) + Print(y.value) + "" == PrintStr(y.key) + Print(y.value);
  }

  /** Different values print differently. */
  lemma {:induction false} PrintInjective(v: Value, w: Value)
    requires Print(v) == Print(w)
    ensures v == w
  {
    ParsePrint(v, "");
    ParsePrint(w, "");
    assert Print(v) + "" == Print(v) && Print(w) + "" == Print(w);
  }
}

/** Idealised digests, and the hexadecimal text forms the program stores them in. */
module Hashing {
  import opened Text

  predicate Octets(b: Bytes) {
    forall i :: 0 <= i < |b| ==> b[i] as int < 256
  }

  /** The two digest functions: any functions with the right output lengths. */
  datatype RawHashes = RawHashes(sha256: Bytes -> Bytes, sha1: Bytes -> Bytes) {
    ghost predicate Sized() {
      && (forall x :: |sha256(x)| == 32 && Octets(sha256(x)))
      && (forall x :: |sha1(x)| == 20 && Octets(sha1(x)))
    }
  }

  type Hashes = h: RawHashes | h.Sized()
    ghost witness RawHashes((x: Bytes) => seq(32, _ => '0'), (x: Bytes) => seq(20, _ => '0'))

  /** No two of these inputs collide. No digest is injective on all byte
      strings, so every theorem names the inputs it needs this for. */
  ghost predicate CollisionFree(digest: Bytes -> Bytes, inputs: set<Bytes>) {
    forall x, y :: x in inputs && y in inputs && digest(x) == digest(y) ==> x == y
  }

  function HexDigit(d: nat): (c: char)
    requires d < 16
    ensures IsHexDigit(c)
  {
    if d < 10 then ('0' as int + d) as char else ('a' as int + d - 10) as char
  }

  predicate IsHexDigit(c: char) {
    '0' <= c <= '9' || 'a' <= c <= 'f'
  }

  /** Lowercase hexadecimal text of exactly n digits. */
  predicate IsHex(s: Bytes, n: nat) {
    |s| == n && forall i :: 0 <= i < |s| ==> IsHexDigit(s[i])
  }

  function HexByte(c: char): (s: Bytes)
    ensures |s| == 2 && IsHexDigit(s[0]) && IsHexDigit(s[1])
  {
    [HexDigit(c as int / 16 % 16), HexDigit(c as int % 16)]
  }

  /** hex.EncodeToString */
  function Hex(b: Bytes): (s: Bytes)
    ensures |s| == 2 * |b|
    ensures forall i :: 0 <= i < |s| ==> IsHexDigit(s[i])
  {
    if b == "" then "" else
      HexByte(b[0]) + Hex(b[1..])
  }

  /** One hexadecimal digit; the decoder also takes upper case. */
  function Nibble(c: char): (d: Option<nat>)
    ensures d.Some? ==> d.value < 16
  {
    if '0' <= c <= '9' then Some(c as int - '0' as int)
    else if 'a' <= c <= 'f' then Some(c as int - 'a' as int + 10)
    else if 'A' <= c <= 'F' then Some(c as int - 'A' as int + 10)
    else None
  }

  /** hex.DecodeString */
  function Unhex(s: Bytes): (b: Option<Bytes>)
    ensures b.Some? ==> |s| == 2 * |b.value| && Octets(b.value)
    decreases |s|
  {
    if s == "" then Some("")
    else if |s| == 1 then None
    else
      var (hi, lo, rest) := (Nibble(s[0]), Nibble(s[1]), Unhex(s[2..]));
      if hi.None? || lo.None? || rest.None? then None
      else Some([ByteOf(hi.value, lo.value)] + rest.value)
  }

  function ByteOf(hi: nat, lo: nat): (c: char)
    requires hi < 16 && lo < 16
    ensures c as int == hi * 16 + lo
  {
    (hi * 16 + lo) as char
  }

  lemma NibbleDigit(d: nat)
    requires d < 16
    ensures Nibble(HexDigit(d)) == Some(d)
  {}

  lemma DigitNibble(c: char)
    requires IsHexDigit(c)
    ensures Nibble(c).Some? && HexDigit(Nibble(c).value) == c
  {}

  lemma PairOfDigits(a: char, b: char)
    requires IsHexDigit(a) && IsHexDigit(b)
    ensures Nibble(a).Some? && Nibble(b).Some?
    ensures HexByte(ByteOf(Nibble(a).value, Nibble(b).value)) == [a, b]
  {
    DigitNibble(a);
    DigitNibble(b);
    var (hi, lo) := (Nibble(a).value, Nibble(b).value);
    assert (hi * 16 + lo) / 16 % 16 == hi && (hi * 16 + lo) % 16 == lo;
  }

  lemma OctetOfDigits(c: char)
    requires c as int < 256
    ensures var d := HexByte(c);
      Nibble(d[0]).Some? && Nibble(d[1]).Some? && ByteOf(Nibble(d[0]).value, Nibble(d[1]).value) == c
  {
    NibbleDigit(c as int / 16 % 16);
    NibbleDigit(c as int % 16);
  }

  /** Lowercase hexadecimal text survives decoding and encoding. */
  lemma {:induction false} HexUnhex(s: Bytes)
    requires IsHex(s, |s|) && |s| % 2 == 0
    ensures Unhex(s).Some? && Hex(Unhex(s).value) == s
    decreases |s|
  {
    if s != "" {
      HexUnhex(s[2..]);
      PairOfDigits(s[0], s[1]);
      assert Unhex(s).value[1..] == Unhex(s[2..]).value;
      assert s == [s[0], s[1]] + s[2..];
    }
  }

  /** Octets survive encoding and decoding. */
  lemma {:induction false} UnhexHex(b: Bytes)
    requires Octets(b)
    ensures Unhex(Hex(b)) == Some(b)
  {
    if b != "" {
      UnhexHex(b[1..]);
      OctetOfDigits(b[0]);
      assert Hex(b)[0] == HexByte(b[0])[0] && Hex(b)[1] == HexByte(b[0])[1] && Hex(b)[2..] == Hex(b[1..]);
      assert b == [b[0]] + b[1..];
    }
  }

  const DIGITS := "0123456789abcdef"

  /** Each octet is two digits, the high one first. */
  lemma {:induction false} HexAt(b: Bytes, i: nat)
    requires Octets(b) && i < |b|
    ensures Hex(b)[2 * i..2 * i + 2] == [DIGITS[b[i] as int / 16], DIGITS[b[i] as int % 16]]
  {
    if i == 0 {
      DigitsOf(b[0]);
    } else {
      HexAt(b[1..], i - 1);
      assert Hex(b)[2..] == Hex(b[1..]);
      assert Hex(b)[2 * i..2 * i + 2] == Hex(b)[2..][2 * (i - 1)..2 * (i - 1) + 2];
    }
  }

  lemma DigitsOf(c: char)
    requires c as int < 256
    ensures HexByte(c) == [DIGITS[c as int / 16], DIGITS[c as int % 16]]
  {
    DigitOf(c as int / 16);
    DigitOf(c as int % 16);
  }

  lemma DigitOf(d: nat)
    requires d < 16
    ensures HexDigit(d) == DIGITS[d]
  {}

  lemma {:induction false} HexInjective(a: Bytes, b: Bytes)
    requires Octets(a) && Octets(b) && Hex(a) == Hex(b)
    ensures a == b
  {
    UnhexHex(a);
    UnhexHex(b);
  }
}

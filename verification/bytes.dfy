/** Bytes and the UTF-8 octet grammar of section 4 of RFC 3629. */
module Bytes {
  type byte = b: int | 0 <= b < 256
}

/**
 The reference grammar. Nothing here comes from the decoder: `CharLength` lists
 the productions UTF8-1 to UTF8-4 of section 4 of RFC 3629 octet range by octet
 range, and `Encode` is the table of section 3.
 */
module Utf8 {
  import opened Bytes

  /** A Unicode scalar value: a code point that is not a surrogate. */
  type Scalar = c: int | 0 <= c < 0xD800 || 0xE000 <= c <= 0x10FFFF

  predicate Tail(b: byte) {
    0x80 <= b <= 0xBF
  }

  /** The length of the one UTF8-char that starts `s`, or 0 when none does. */
  function CharLength(s: seq<byte>): (n: nat)
    ensures n <= 4 && n <= |s|
  {
    if |s| >= 1 && s[0] <= 0x7F then 1
    else if |s| >= 2 && 0xC2 <= s[0] <= 0xDF && Tail(s[1]) then 2
    else if |s| >= 3 && Tail(s[2])
         && (|| (s[0] == 0xE0 && 0xA0 <= s[1] <= 0xBF)
             || (0xE1 <= s[0] <= 0xEC && Tail(s[1]))
             || (s[0] == 0xED && 0x80 <= s[1] <= 0x9F)
             || (0xEE <= s[0] <= 0xEF && Tail(s[1]))) then 3
    else if |s| >= 4 && Tail(s[2]) && Tail(s[3])
         && (|| (s[0] == 0xF0 && 0x90 <= s[1] <= 0xBF)
             || (0xF1 <= s[0] <= 0xF3 && Tail(s[1]))
             || (s[0] == 0xF4 && 0x80 <= s[1] <= 0x8F)) then 4
    else 0
  }

  /** UTF8-octets: a concatenation of UTF8-chars. */
  predicate WellFormed(s: seq<byte>)
    decreases |s|
  {
    s == [] || (CharLength(s) > 0 && WellFormed(s[CharLength(s)..]))
  }

  /** The groups of six bits of a code point that takes three octets, and of one that takes four. */
  lemma ThreeGroups(c: Scalar)
    requires 0x800 <= c < 0x10000
    ensures 0 <= c / 4096 < 16 && 0 <= c / 64 % 64 < 64
    ensures c / 4096 == 0 ==> c / 64 % 64 >= 32
    ensures c / 4096 == 13 ==> c / 64 % 64 < 32
  {
    assert c / 64 == c / 4096 * 64 + c / 64 % 64;
  }

  lemma FourGroups(c: Scalar)
    requires 0x10000 <= c
    ensures 0 <= c / 262144 <= 4 && 0 <= c / 4096 % 64 < 64 && 0 <= c / 64 % 64 < 64
    ensures c / 262144 == 0 ==> c / 4096 % 64 >= 16
    ensures c / 262144 == 4 ==> c / 4096 % 64 < 16
  {
    assert c / 4096 == c / 262144 * 64 + c / 4096 % 64;
  }

  function Encode(c: Scalar): (s: seq<byte>)
    ensures 1 <= |s| <= 4 && CharLength(s) == |s|
  {
    if c < 0x80 then [c]
    else if c < 0x800 then [0xC0 + c / 64, 0x80 + c % 64]
    else if c < 0x10000 then
      ThreeGroups(c);
      [0xE0 + c / 4096, 0x80 + c / 64 % 64, 0x80 + c % 64]
    else
      FourGroups(c);
      [0xF0 + c / 262144, 0x80 + c / 4096 % 64, 0x80 + c / 64 % 64, 0x80 + c % 64]
  }

  function Encodes(cs: seq<Scalar>): seq<byte> {
    if cs == [] then [] else Encode(cs[0]) + Encodes(cs[1..])
  }

  lemma {:induction false} EncodesConcat(a: seq<Scalar>, b: seq<Scalar>)
    ensures Encodes(a + b) == Encodes(a) + Encodes(b)
  {
    if a == [] {
      assert a + b == b;
    } else {
      assert (a + b)[1..] == a[1..] + b;
      EncodesConcat(a[1..], b);
    }
  }

  /** The grammar is prefix-free: what follows a UTF8-char does not change where it ends. */
  lemma CharLengthPrefix(s: seq<byte>, rest: seq<byte>)
    requires CharLength(s) == |s| > 0
    ensures CharLength(s + rest) == |s|
  {
  }

  lemma {:induction false} EncodesWellFormed(cs: seq<Scalar>)
    ensures WellFormed(Encodes(cs))
  {
    if cs != [] {
      var s, rest := Encode(cs[0]), Encodes(cs[1..]);
      EncodesWellFormed(cs[1..]);
      CharLengthPrefix(s, rest);
      assert (s + rest)[|s|..] == rest;
    }
  }
}

/** Strings of 16-bit units, and the surrogates among the units. */
module Utf16 {
  import opened Utf8

  type unit = u: int | 0 <= u < 0x10000

  predicate High(u: int) {
    0xD800 <= u <= 0xDBFF
  }

  predicate Low(u: int) {
    0xDC00 <= u <= 0xDFFF
  }

  /** The scalar value of a pair of surrogates. */
  function Pair(high: unit, low: unit): (c: Scalar)
    requires High(high) && Low(low)
    ensures c >= 0x10000
  {
    0x10000 + (high - 0xD800) * 1024 + (low - 0xDC00)
  }

  /** The units of a scalar value, as section 2.1 of RFC 2781 writes it. */
  function Units(c: Scalar): (us: seq<unit>)
    ensures us != []
  {
    if c < 0x10000 then [c] else [0xD800 + (c - 0x10000) / 1024, 0xDC00 + (c - 0x10000) % 1024]
  }

  /** Whether a pair stands at the front. */
  predicate PairAt(us: seq<unit>) {
    |us| >= 2 && High(us[0]) && Low(us[1])
  }
}

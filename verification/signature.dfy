/**
 The signature of rendered content: `Content::make` attaches it on the server, `verify`
 computes it again in the page. The server hashes the octets of its strings, the page
 the code points of strings of 16-bit units.
 */
module Signature {
  import opened Bytes
  import opened Utf16
  import opened Utf8
  import opened Wrappers

  type uint32 = h: int | 0 <= h < TWO_32

  type int32 = h: int | -TWO_31 <= h < TWO_31

  const TWO_31: int := 0x8000_0000
  const TWO_32: int := 0x1_0000_0000

  const OFFSET: uint32 := 2166136261
  const PRIME: uint32 := 16777619

  // ----- strings -----

  type CodePoint = c: int | 0 <= c < 0x110000

  /** What stepping through a string by code points yields; a lone surrogate stands for itself. */
  function CodePoints(s: seq<unit>): seq<CodePoint>
    decreases |s|
  {
    if s == [] then []
    else if PairAt(s) then [Pair(s[0], s[1])] + CodePoints(s[2..])
    else [s[0]] + CodePoints(s[1..])
  }

  /** The octets of a code point: UTF-8, and for a surrogate what UTF-8 would have. */
  function Octets(c: CodePoint): seq<byte> {
    if High(c) || Low(c) then [0xE0 + c / 4096, 0x80 + c / 64 % 64, 0x80 + c % 64] else Encode(c)
  }

  function AllOctets(cs: seq<CodePoint>): seq<byte> {
    if cs == [] then [] else Octets(cs[0]) + AllOctets(cs[1..])
  }

  /** The octets that the script engine hands out for a string. */
  function CString(s: seq<unit>): seq<byte> {
    AllOctets(CodePoints(s))
  }

  // ----- words -----

  function TwoTo(n: nat): (p: nat)
    ensures p > 0
  {
    if n == 0 then 1 else 2 * TwoTo(n - 1)
  }

  /** Exclusive or of the `n` low bits, bit by bit. */
  function XorBits(a: nat, b: nat, n: nat): (r: nat)
    ensures r < TwoTo(n)
  {
    if n == 0 then 0 else (a + b) % 2 + 2 * XorBits(a / 2, b / 2, n - 1)
  }

  lemma OctetBits()
    ensures TwoTo(8) == 256
  {
    assert TwoTo(4) == 2 * TwoTo(3) == 4 * TwoTo(2) == 16;
    assert TwoTo(8) == 2 * TwoTo(7) == 4 * TwoTo(6) == 8 * TwoTo(5) == 16 * TwoTo(4);
  }

  /** Exclusive or with an octet changes the low octet. */
  function Xor(h: uint32, b: byte): uint32 {
    OctetBits();
    h / 256 * 256 + XorBits(h % 256, b, 8)
  }

  /** The unsigned product, cut to 32 bits. */
  function Times(h: uint32, k: uint32): uint32 {
    h * k % TWO_32
  }

  function ToUint32(x: int): uint32 {
    x % TWO_32
  }

  function ToInt32(x: int): int32 {
    if x % TWO_32 < TWO_31 then x % TWO_32 else x % TWO_32 - TWO_32
  }

  /** The script operators `^`, with an octet on the right, and `Math.imul`. */
  function ScriptXor(x: int, b: byte): int32 {
    ToInt32(Xor(ToUint32(x), b))
  }

  function Imul(x: int, y: int): int32 {
    ToInt32(ToUint32(x) * ToUint32(y))
  }

  // ----- the server -----

  /** FNV-1a, 32 bits wide, started at `h`. */
  function Hashed(h: uint32, s: seq<byte>): uint32
    decreases |s|
  {
    if s == [] then h else Hashed(Times(Xor(h, s[0]), PRIME), s[1..])
  }

  function Digit(n: nat): char
    requires n < 16
  {
    "0123456789abcdef"[n]
  }

  /** The `n` low digits in base sixteen. */
  function Digits(h: nat, n: nat): (d: string)
    ensures |d| == n
  {
    if n == 0 then "" else Digits(h / 16, n - 1) + [Digit(h % 16)]
  }

  method Fnv1a(start: uint32, s: seq<byte>) returns (hash: uint32)
    ensures hash == Hashed(start, s)
  {
    hide Xor, Times;
    hash := start;
    assert s[0..] == s;
    for i := 0 to |s|
      invariant Hashed(start, s) == Hashed(hash, s[i..])
    {
      assert s[i..][1..] == s[i + 1..];
      hash := Times(Xor(hash, s[i]), PRIME);
    }
  }

  /** What is hashed: the type, and behind a NUL the data if it is a string. */
  function Message(typ: seq<byte>, data: Option<seq<byte>>): seq<byte> {
    if data.None? then typ else typ + [0] + data.value
  }

  /** The eight hexadecimal digits of the hash. */
  function ServerSign(typ: seq<byte>, data: Option<seq<byte>>): string {
    Digits(Hashed(OFFSET, Message(typ, data)), 8)
  }

  /** `Content::make`: the sign it attaches. */
  method Make(typ: seq<byte>, data: Option<seq<byte>>) returns (sign: string)
    ensures sign == ServerSign(typ, data)
  {
    hide Xor, Times, Hashed, Digits;
    var hash := Fnv1a(OFFSET, typ);
    if data.Some? {
      HashedConcat(OFFSET, typ, [0] + data.value);
      HashedNul(hash, data.value);
      assert typ + [0] + data.value == typ + ([0] + data.value);
      hash := Fnv1a(Times(hash, PRIME), data.value);
    }
    sign := Written(hash);
  }

  /** The digits, written from the last to the first. */
  method Written(start: nat) returns (sign: string)
    ensures sign == Digits(start, 8)
  {
    hide Digit;
    var hash := start;
    var buffer := new char[8];
    for i := 0 to 8
      invariant Digits(start, 8) == Digits(hash, 8 - i) + buffer[8 - i..]
    {
      buffer[8 - i - 1] := Digit(hash % 16);
      assert buffer[7 - i..] == [buffer[7 - i]] + buffer[8 - i..];
      hash := hash / 16;
    }
    assert buffer[0..] == buffer[..];
    sign := buffer[..];
  }

  lemma {:induction false} HashedConcat(h: uint32, a: seq<byte>, b: seq<byte>)
    ensures Hashed(h, a + b) == Hashed(Hashed(h, a), b)
    decreases |a|
  {
    hide Xor, Times;
    if a == [] {
      assert a + b == b;
    } else {
      assert (a + b)[1..] == a[1..] + b;
      HashedConcat(Times(Xor(h, a[0]), PRIME), a[1..], b);
    }
  }

  /** Multiplying is what a NUL octet does. */
  lemma HashedNul(h: uint32, s: seq<byte>)
    ensures Hashed(h, [0] + s) == Hashed(Times(h, PRIME), s)
  {
    XorNothing(h);
    hide Xor, Times;
    assert ([0] + s)[1..] == s;
  }

  lemma {:induction false} XorBitsNothing(a: nat, n: nat)
    requires a < TwoTo(n)
    ensures XorBits(a, 0, n) == a
  {
    if n > 0 {
      XorBitsNothing(a / 2, n - 1);
    }
  }

  lemma XorNothing(h: uint32)
    ensures Xor(h, 0) == h
  {
    OctetBits();
    XorBitsNothing(h % 256, 8);
  }

  // ----- the page -----

  /** `toString(16)`. */
  function Hex(h: nat): (s: string)
    ensures s != ""
  {
    if h < 16 then [Digit(h)] else Hex(h / 16) + [Digit(h % 16)]
  }

  /** `padStart(n, '0')`. */
  function PadStart(s: string, n: nat): string
    decreases n - |s|
  {
    if |s| >= n then s else PadStart("0" + s, n)
  }

  /** The hash in the page after the octets `s`; a number between the 32-bit signed and unsigned ones. */
  function ScriptHashed(h: int, s: seq<byte>): int
    decreases |s|
  {
    if s == [] then h else ScriptHashed(Imul(ScriptXor(h, s[0]), PRIME), s[1..])
  }

  function PageSign(str: seq<unit>): string {
    PadStart(Hex(ToUint32(ScriptHashed(OFFSET, CString(str)))), 8)
  }

  method Hash(str: seq<unit>) returns (hex: string)
    ensures hex == PageSign(str)
  {
    hide Octets, CString, ScriptHashed, Hex, PadStart;
    NothingHashed();
    var hash: int := OFFSET;
    var i := 0;
    assert str[0..] == str;
    while i < |str|
      invariant 0 <= i <= |str|
      invariant ScriptHashed(OFFSET, CString(str)) == ScriptHashed(hash, CString(str[i..]))
    {
      var c := if PairAt(str[i..]) then Pair(str[i], str[i + 1]) else str[i];
      var width := if PairAt(str[i..]) then 2 else 1;
      CStringStep(str[i..]);
      assert str[i..][width..] == str[i + width..];
      var octets: seq<byte> :=
        if c < 0x80 then [c]
        else if c < 0x800 then [0xC0 + c / 64, 0x80 + c % 64]
        else if c < 0x10000 then [0xE0 + c / 4096, 0x80 + c / 64 % 64, 0x80 + c % 64]
        else [0xF0 + c / 262144, 0x80 + c / 4096 % 64, 0x80 + c / 64 % 64, 0x80 + c % 64];
      PageOctets(c);
      ScriptConcat(hash, octets, CString(str[i + width..]));
      hash := Mixed(hash, octets);
      i := i + width;
    }
    assert str[i..] == [];
    hex := PadStart(Hex(ToUint32(hash)), 8);
  }

  /** The inner loop. */
  method Mixed(start: int, octets: seq<byte>) returns (hash: int)
    ensures hash == ScriptHashed(start, octets)
  {
    hide Imul, ScriptXor;
    hash := start;
    assert octets[0..] == octets;
    for k := 0 to |octets|
      invariant ScriptHashed(start, octets) == ScriptHashed(hash, octets[k..])
    {
      assert octets[k..][1..] == octets[k + 1..];
      hash := Imul(ScriptXor(hash, octets[k]), PRIME);
    }
  }

  /** The page's own cases give the same octets. */
  lemma PageOctets(c: CodePoint)
    ensures Octets(c) ==
            if c < 0x80 then [c]
            else if c < 0x800 then [0xC0 + c / 64, 0x80 + c % 64]
            else if c < 0x10000 then [0xE0 + c / 4096, 0x80 + c / 64 % 64, 0x80 + c % 64]
            else [0xF0 + c / 262144, 0x80 + c / 4096 % 64, 0x80 + c / 64 % 64, 0x80 + c % 64]
  {
  }

  lemma NothingHashed()
    ensures forall h: int :: ScriptHashed(h, CString([])) == h
  {
  }

  lemma CStringStep(s: seq<unit>)
    requires s != []
    ensures CString(s) == if PairAt(s) then Octets(Pair(s[0], s[1])) + CString(s[2..])
                          else Octets(s[0]) + CString(s[1..])
  {
    hide Octets;
    if PairAt(s) {
      var c := Pair(s[0], s[1]);
      assert ([c] + CodePoints(s[2..]))[1..] == CodePoints(s[2..]);
    } else {
      assert ([s[0]] + CodePoints(s[1..]))[1..] == CodePoints(s[1..]);
    }
  }

  lemma {:induction false} ScriptConcat(h: int, a: seq<byte>, b: seq<byte>)
    ensures ScriptHashed(h, a + b) == ScriptHashed(ScriptHashed(h, a), b)
    decreases |a|
  {
    hide Imul, ScriptXor;
    if a == [] {
      assert a + b == b;
    } else {
      assert (a + b)[1..] == a[1..] + b;
      ScriptConcat(Imul(ScriptXor(h, a[0]), PRIME), a[1..], b);
    }
  }

  datatype Part = Part(typ: seq<unit>, data: Option<seq<unit>>, sign: string)

  /** What the page hashes. */
  function PartMessage(p: Part): seq<unit> {
    if p.data.None? then p.typ else p.typ + [0] + p.data.value
  }

  /** `verify`: whether the part goes to the handler of its type. */
  method Verify(p: Part) returns (ok: bool)
    ensures ok <==> p.sign == ServerSign(CString(p.typ), OctetsOf(p.data))
  {
    hide Hashed, ScriptHashed, Digits, PadStart, Hex, PageSign;
    Agreement(p);
    var hex := Hash(PartMessage(p));
    ok := p.sign != "" && hex == p.sign;
    SignSize(Hashed(OFFSET, Message(CString(p.typ), OctetsOf(p.data))));
  }

  lemma SignSize(h: nat)
    ensures |Digits(h, 8)| == 8
  {
  }

  function OctetsOf(data: Option<seq<unit>>): Option<seq<byte>> {
    if data.None? then None else Some(CString(data.value))
  }

  // ----- both agree -----

  /** A NUL is no surrogate: no pair reaches across it. */
  lemma {:induction false} SeparatorKept(a: seq<unit>, b: seq<unit>)
    ensures CString(a + [0] + b) == CString(a) + [0] + CString(b)
    decreases |a|
  {
    hide CString, CodePoints, Octets;
    var s := a + [0] + b;
    CStringStep(s);
    if a == [] {
      NulOctet();
      assert s[1..] == b;
      CStringNone();
    } else {
      CStringStep(a);
      var n := if PairAt(a) then 2 else 1;
      assert s[n..] == a[n..] + [0] + b;
      SeparatorKept(a[n..], b);
      var head: seq<byte> := if PairAt(a) then Octets(Pair(a[0], a[1])) else Octets(a[0]);
      OctetsAssoc(head, CString(a[n..]), [0], CString(b));
    }
  }

  lemma NulOctet()
    ensures Octets(0) == [0]
  {
  }

  lemma OctetsAssoc(a: seq<byte>, b: seq<byte>, c: seq<byte>, d: seq<byte>)
    ensures a + (b + c + d) == a + b + c + d
  {
  }

  lemma CStringNone()
    ensures CString([]) == []
  {
  }

  lemma SameStep(x: int, b: byte)
    ensures ToUint32(Imul(ScriptXor(x, b), PRIME)) == Times(Xor(ToUint32(x), b), PRIME)
  {
    hide Xor;
  }

  lemma {:induction false} SameHash(h: int, s: seq<byte>)
    ensures ToUint32(ScriptHashed(h, s)) == Hashed(ToUint32(h), s)
    decreases |s|
  {
    hide Imul, ScriptXor, Times, Xor;
    if s != [] {
      SameStep(h, s[0]);
      SameHash(Imul(ScriptXor(h, s[0]), PRIME), s[1..]);
    }
  }

  function Zeros(n: nat): (z: string)
    ensures |z| == n
  {
    if n == 0 then "" else "0" + Zeros(n - 1)
  }

  lemma {:induction false} PadIsZeros(s: string, n: nat)
    requires |s| <= n
    ensures PadStart(s, n) == Zeros(n - |s|) + s
    decreases n - |s|
  {
    if |s| < n {
      PadIsZeros("0" + s, n);
      ZerosSnoc(n - |s| - 1);
      assert Zeros(n - |s| - 1) + ("0" + s) == Zeros(n - |s| - 1) + "0" + s;
    }
  }

  lemma {:induction false} ZerosSnoc(n: nat)
    ensures Zeros(n) + "0" == Zeros(n + 1)
  {
    if n > 0 {
      ZerosSnoc(n - 1);
    }
  }

  function SixteenTo(n: nat): (p: nat)
    ensures p > 0
  {
    if n == 0 then 1 else 16 * SixteenTo(n - 1)
  }

  lemma {:induction false} DigitsOfZero(n: nat)
    ensures Digits(0, n) == Zeros(n)
  {
    if n > 0 {
      DigitsOfZero(n - 1);
      ZerosSnoc(n - 1);
    }
  }

  /** The digits without and with leading zeros. */
  lemma {:induction false} HexDigits(h: nat, n: nat)
    requires 0 < n && h < SixteenTo(n)
    ensures |Hex(h)| <= n && Digits(h, n) == Zeros(n - |Hex(h)|) + Hex(h)
    decreases n
  {
    hide Digit;
    if h < 16 {
      DigitsOfZero(n - 1);
    } else {
      HexDigits(h / 16, n - 1);
      assert Zeros(n - |Hex(h)|) + (Hex(h / 16) + [Digit(h % 16)])
        == Zeros(n - |Hex(h)|) + Hex(h / 16) + [Digit(h % 16)];
    }
  }

  lemma SameDigits(h: uint32)
    ensures PadStart(Hex(h), 8) == Digits(h, 8)
  {
    assert SixteenTo(8) == TWO_32 by {
      assert SixteenTo(4) == 16 * SixteenTo(3) == 256 * SixteenTo(2) == 0x1_0000;
      assert SixteenTo(8) == 16 * SixteenTo(7) == 256 * SixteenTo(6) == 4096 * SixteenTo(5) == 0x1_0000 * SixteenTo(4);
    }
    HexDigits(h, 8);
    PadIsZeros(Hex(h), 8);
  }

  /**
   For every type and every data, a string or not, what the page computes is the sign that the server
   attaches; of data that is no string neither side looks at more than the type.
   */
  lemma Agreement(p: Part)
    ensures PageSign(PartMessage(p)) == ServerSign(CString(p.typ), OctetsOf(p.data))
  {
    hide Hashed, ScriptHashed, Digits, PadStart, Hex;
    if p.data.Some? {
      SeparatorKept(p.typ, p.data.value);
    }
    SameHash(OFFSET, CString(PartMessage(p)));
    SameDigits(Hashed(OFFSET, CString(PartMessage(p))));
  }

  // ----- the hash itself -----

  /** Bit `k` of a number, counted from the lowest. */
  function Bit(x: nat, k: nat): nat
    decreases k
  {
    if k == 0 then x % 2 else Bit(x / 2, k - 1)
  }

  /** A bit of the exclusive or is set if it is set in one of the two only. */
  lemma {:induction false} XorBitwise(a: nat, b: nat, n: nat, k: nat)
    requires k < n
    ensures Bit(XorBits(a, b, n), k) == (Bit(a, k) + Bit(b, k)) % 2
  {
    if k > 0 {
      assert XorBits(a, b, n) / 2 == XorBits(a / 2, b / 2, n - 1);
      XorBitwise(a / 2, b / 2, n - 1, k - 1);
    }
  }

  /** One octet of a hash, by numbers. */
  lemma HashStep(h: uint32, b: byte, low: nat, mixed: nat, next: uint32)
    requires low == h % 256 && mixed == XorBits(low, b, 8) && next == (h - low + mixed) * 16777619 % TWO_32
    ensures Times(Xor(h, b), PRIME) == next
  {
    hide XorBits;
  }

  lemma HashedOne(h: uint32, b: byte, rest: seq<byte>, next: uint32)
    requires Times(Xor(h, b), PRIME) == next
    ensures Hashed(h, [b] + rest) == Hashed(next, rest)
  {
    hide Xor, Times;
    assert ([b] + rest)[1..] == rest;
  }

  lemma HelloOctet0()
    ensures Times(Xor(0x811C9DC5, 0x68), PRIME) == 0xED0C3757
  {
    hide Times, Xor, TwoTo;
    assert XorBits(0x1, 0x0, 1) == 0x1;
    assert XorBits(0x3, 0x1, 2) == 0x2;
    assert XorBits(0x6, 0x3, 3) == 0x5;
    assert XorBits(0xC, 0x6, 4) == 0xA;
    assert XorBits(0x18, 0xD, 5) == 0x15;
    assert XorBits(0x31, 0x1A, 6) == 0x2B;
    assert XorBits(0x62, 0x34, 7) == 0x56;
    HashStep(0x811C9DC5, 0x68, 0xC5, 0xAD, 0xED0C3757);
    hide *;
  }

  lemma HelloOctet1()
    ensures Times(Xor(0xED0C3757, 0x65), PRIME) == 0x5C3AE3B6
  {
    hide Times, Xor, TwoTo;
    assert XorBits(0x0, 0x0, 1) == 0x0;
    assert XorBits(0x1, 0x1, 2) == 0x0;
    assert XorBits(0x2, 0x3, 3) == 0x1;
    assert XorBits(0x5, 0x6, 4) == 0x3;
    assert XorBits(0xA, 0xC, 5) == 0x6;
    assert XorBits(0x15, 0x19, 6) == 0xC;
    assert XorBits(0x2B, 0x32, 7) == 0x19;
    HashStep(0xED0C3757, 0x65, 0x57, 0x32, 0x5C3AE3B6);
    hide *;
  }

  lemma HelloOctet2()
    ensures Times(Xor(0x5C3AE3B6, 0x6C), PRIME) == 0xAB4B02E
  {
    hide Times, Xor, TwoTo;
    assert XorBits(0x1, 0x0, 1) == 0x1;
    assert XorBits(0x2, 0x1, 2) == 0x3;
    assert XorBits(0x5, 0x3, 3) == 0x6;
    assert XorBits(0xB, 0x6, 4) == 0xD;
    assert XorBits(0x16, 0xD, 5) == 0x1B;
    assert XorBits(0x2D, 0x1B, 6) == 0x36;
    assert XorBits(0x5B, 0x36, 7) == 0x6D;
    HashStep(0x5C3AE3B6, 0x6C, 0xB6, 0xDA, 0xAB4B02E);
    hide *;
  }

  lemma HelloOctet3()
    ensures Times(Xor(0xAB4B02E, 0x6C), PRIME) == 0x1C7177E6
  {
    hide Times, Xor, TwoTo;
    assert XorBits(0x0, 0x0, 1) == 0x0;
    assert XorBits(0x0, 0x1, 2) == 0x1;
    assert XorBits(0x1, 0x3, 3) == 0x2;
    assert XorBits(0x2, 0x6, 4) == 0x4;
    assert XorBits(0x5, 0xD, 5) == 0x8;
    assert XorBits(0xB, 0x1B, 6) == 0x10;
    assert XorBits(0x17, 0x36, 7) == 0x21;
    HashStep(0xAB4B02E, 0x6C, 0x2E, 0x42, 0x1C7177E6);
    hide *;
  }

  lemma HelloOctet4()
    ensures Times(Xor(0x1C7177E6, 0x6F), PRIME) == 0x4F9F2CAB
  {
    hide Times, Xor, TwoTo;
    assert XorBits(0x1, 0x0, 1) == 0x1;
    assert XorBits(0x3, 0x1, 2) == 0x2;
    assert XorBits(0x7, 0x3, 3) == 0x4;
    assert XorBits(0xE, 0x6, 4) == 0x8;
    assert XorBits(0x1C, 0xD, 5) == 0x11;
    assert XorBits(0x39, 0x1B, 6) == 0x22;
    assert XorBits(0x73, 0x37, 7) == 0x44;
    HashStep(0x1C7177E6, 0x6F, 0xE6, 0x89, 0x4F9F2CAB);
    hide *;
  }

  lemma HelloHashed()
    ensures Hashed(OFFSET, [0x68] + ([0x65] + ([0x6C] + ([0x6C] + ([0x6F] + []))))) == 0x4F9F2CAB
  {
    hide Xor, Times, XorBits;
    HelloOctet0();
    HashedOne(0x811C9DC5, 0x68, [0x65] + ([0x6C] + ([0x6C] + ([0x6F] + []))), 0xED0C3757);
    HelloOctet1();
    HashedOne(0xED0C3757, 0x65, [0x6C] + ([0x6C] + ([0x6F] + [])), 0x5C3AE3B6);
    HelloOctet2();
    HashedOne(0x5C3AE3B6, 0x6C, [0x6C] + ([0x6F] + []), 0xAB4B02E);
    HelloOctet3();
    HashedOne(0xAB4B02E, 0x6C, [0x6F] + [], 0x1C7177E6);
    HelloOctet4();
    HashedOne(0x1C7177E6, 0x6F, [], 0x4F9F2CAB);
    hide Hashed;
    HashedNothing(0x4F9F2CAB);
  }

  lemma HashedNothing(h: uint32)
    ensures Hashed(h, []) == h
  {
  }

  lemma OneDigit(q: nat, n: nat, s: string, d: nat)
    requires Digits(q, n) == s && d < 16
    ensures Digits(16 * q + d, n + 1) == s + [Digit(d)]
  {
    assert (16 * q + d) / 16 == q && (16 * q + d) % 16 == d;
  }

  lemma HelloHigh()
    ensures Digits(0x4F9F, 4) == "4f9f"
  {
    assert Digits(0, 0) == "" && Digit(4) == '4' && Digit(15) == 'f' && Digit(9) == '9';
    hide *;
    OneDigit(0x0, 0, "", 4);
    OneDigit(0x4, 1, "4", 15);
    OneDigit(0x4F, 2, "4f", 9);
    OneDigit(0x4F9, 3, "4f9", 15);
  }

  lemma HelloDigits()
    ensures Digits(0x4F9F2CAB, 8) == "4f9f2cab"
  {
    HelloHigh();
    assert Digit(2) == '2' && Digit(12) == 'c' && Digit(10) == 'a' && Digit(11) == 'b';
    hide *;
    OneDigit(0x4F9F, 4, "4f9f", 2);
    OneDigit(0x4F9F2, 5, "4f9f2", 12);
    OneDigit(0x4F9F2C, 6, "4f9f2c", 10);
    OneDigit(0x4F9F2CA, 7, "4f9f2ca", 11);
  }

  /** `hello` is signed with 4f9f2cab. */
  lemma HelloSigned()
    ensures ServerSign([0x68, 0x65, 0x6C, 0x6C, 0x6F], None) == "4f9f2cab"
  {
    HelloHashed();
    HelloDigits();
    hide Hashed, Digits;
    assert [0x68] + ([0x65] + ([0x6C] + ([0x6C] + ([0x6F] + [])))) == [0x68, 0x65, 0x6C, 0x6C, 0x6F];
  }
}

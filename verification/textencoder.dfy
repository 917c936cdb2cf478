/**
 `TextEncoder`: a script string reaches it as CESU-8, one octet group per UTF-16
 unit, and leaves as UTF-8 cut off where the destination is full.
 */
module TextEncoding {
  import opened Bytes
  import opened Utf16
  import opened Utf8
  import TextDecoding

  function Utf8Size(c: Scalar): nat {
    if c < 0x80 then 1 else if c < 0x800 then 2 else if c < 0x10000 then 3 else 4
  }

  // ----- the strings themselves -----

  datatype First = First(c: Scalar, n: nat)

  /** The first scalar value of a string and the units it takes; a lone surrogate stands for U+FFFD. */
  function FirstScalar(us: seq<unit>): (f: First)
    requires us != []
    ensures 1 <= f.n <= |us|
  {
    if PairAt(us) then First(Pair(us[0], us[1]), 2)
    else First(if High(us[0]) || Low(us[0]) then TextDecoding.REPLACEMENT else us[0], 1)
  }

  function Scalars(us: seq<unit>): seq<Scalar>
    decreases |us|
  {
    if us == [] then [] else [FirstScalar(us).c] + Scalars(us[FirstScalar(us).n..])
  }

  function Cesu8Unit(u: unit): (s: seq<byte>)
    ensures 1 <= |s| <= 3
  {
    if u < 0x80 then [u]
    else if u < 0x800 then [0xC0 + u / 64, 0x80 + u % 64]
    else [0xE0 + u / 4096, 0x80 + u / 64 % 64, 0x80 + u % 64]
  }

  function Cesu8(us: seq<unit>): seq<byte> {
    if us == [] then [] else Cesu8Unit(us[0]) + Cesu8(us[1..])
  }

  // ----- what a string is made of -----

  /** A scalar value, or a surrogate that is no half of a pair. */
  datatype Item = Whole(c: Scalar) | Lone(u: unit)

  predicate IsLone(i: Item) {
    i.Lone? && (High(i.u) || Low(i.u))
  }

  /** Items that a string falls into: lone surrogates that would make a pair do not follow each other. */
  predicate Apart(items: seq<Item>) {
    && (forall k :: 0 <= k < |items| ==> items[k].Whole? || IsLone(items[k]))
    && forall k :: 0 < k < |items| && items[k - 1].Lone? && items[k].Lone? ==>
         !(High(items[k - 1].u) && Low(items[k].u))
  }

  function UnitsOf(items: seq<Item>): seq<unit> {
    if items == [] then [] else (match items[0] case Whole(c) => Units(c) case Lone(u) => [u]) + UnitsOf(items[1..])
  }

  /** The scalar values that the items stand for. */
  function Values(items: seq<Item>): (cs: seq<Scalar>)
    ensures |cs| == |items|
  {
    seq(|items|, k requires 0 <= k < |items| => if items[k].Whole? then items[k].c else 0xFFFD)
  }

  lemma UnitsOfWhole(c: Scalar)
    ensures var us := Units(c);
            if c < 0x10000 then us == [c] && !High(us[0]) && !Low(us[0])
            else |us| == 2 && High(us[0]) && Low(us[1]) && Pair(us[0], us[1]) == c
  {
  }

  lemma FirstItem(items: seq<Item>)
    requires items != [] && Apart(items)
    ensures var us, n := UnitsOf(items), |UnitsOf([items[0]])|;
            us != [] && FirstScalar(us) == First(Values(items)[0], n) && us[n..] == UnitsOf(items[1..])
  {
    var us, rest := UnitsOf(items), UnitsOf(items[1..]);
    assert UnitsOf([]) == [] && [items[0]][1..] == [];
    match items[0] {
      case Whole(c) =>
        UnitsOfWhole(c);
        assert UnitsOf([items[0]]) == Units(c) + [] == Units(c);
        assert us == Units(c) + rest;
      case Lone(u) =>
        assert UnitsOf([items[0]]) == [u] + [] == [u];
        assert us == [u] + rest && IsLone(items[0]);
        if |items| > 1 {
          assert items[1..][0] == items[1];
          if items[1].Whole? {
            UnitsOfWhole(items[1].c);
          }
        }
    }
  }

  /** The encoder's reading of a string: whole scalar values as they are, lone surrogates as U+FFFD. */
  lemma {:induction false} ScalarsOfItems(items: seq<Item>)
    requires Apart(items)
    ensures Scalars(UnitsOf(items)) == Values(items)
  {
    if items != [] {
      FirstItem(items);
      ScalarsOfItems(items[1..]);
      assert Values(items) == [Values(items)[0]] + Values(items[1..]);
    }
  }

  /** Every string falls into such items. */
  lemma {:induction false} ItemsOf(us: seq<unit>) returns (items: seq<Item>)
    ensures Apart(items) && UnitsOf(items) == us
    decreases |us|
  {
    if us == [] {
      items := [];
    } else {
      var n := FirstScalar(us).n;
      var rest := ItemsOf(us[n..]);
      var first := if n == 2 || !(High(us[0]) || Low(us[0])) then Whole(FirstScalar(us).c) else Lone(us[0]);
      items := [first] + rest;
      assert items[1..] == rest;
      if n == 2 {
        PairBack(us[0], us[1]);
      }
      assert us == us[..n] + us[n..] && us[..n] == if n == 2 then [us[0], us[1]] else [us[0]];
      if rest != [] && rest[0].Lone? {
        assert UnitsOf(rest)[0] == rest[0].u;
        assert n == 1 ==> us[1] == us[n..][0];
      }
    }
  }

  lemma PairBack(high: unit, low: unit)
    requires High(high) && Low(low)
    ensures Units(Pair(high, low)) == [high, low]
  {
  }

  // ----- the encoder -----

  datatype Unit = Malformed | Unit(value: nat, length: nat)

  /** The octet group at the front of `s`; surrogates pass, like any other unit. */
  function UnitAt(s: seq<byte>): (u: Unit)
    ensures u.Unit? ==> 1 <= u.length <= |s| && u.value < 0x10000
  {
    if s == [] then Malformed
    else if s[0] < 0x80 then Unit(s[0], 1)
    else if 0xC2 <= s[0] <= 0xDF && |s| > 1 && Tail(s[1]) then
      var v: int := s[0] % 32;
      Unit(v * 64 + s[1] % 64, 2)
    else if 0xE0 <= s[0] <= 0xEF && |s| > 2 && Tail(s[1]) && Tail(s[2]) then
      var v: int := s[0] % 16;
      var w: int := v * 64 + s[1] % 64;
      Unit(w * 64 + s[2] % 64, 3)
    else Malformed
  }

  datatype Step = Step(c: Scalar, consumed: nat, units: nat)

  function StepAt(s: seq<byte>): (r: Step)
    requires s != []
    ensures 1 <= r.consumed <= |s|
  {
    match UnitAt(s)
    case Malformed => Step(TextDecoding.REPLACEMENT, 1, 1)
    case Unit(v, n) =>
      if High(v) then
        match UnitAt(s[n..])
        case Unit(low, m) => if Low(low) then Step(Pair(v, low), n + m, 2) else Step(TextDecoding.REPLACEMENT, n, 1)
        case Malformed => Step(TextDecoding.REPLACEMENT, n, 1)
      else Step(if Low(v) then TextDecoding.REPLACEMENT else v, n, 1)
  }

  lemma SizeIsLength(c: Scalar)
    ensures |Encode(c)| == Utf8Size(c)
  {
  }

  datatype Encoded = Encoded(output: seq<byte>, read: nat)

  /** Steps taken from the front for as long as their octets fit in `room`. */
  function Encoding(s: seq<byte>, room: nat): (r: Encoded)
    ensures |r.output| <= room
    decreases |s|
  {
    if s == [] || Utf8Size(StepAt(s).c) > room then Encoded([], 0)
    else
      var step := StepAt(s);
      var rest := Encoding(s[step.consumed..], room - Utf8Size(step.c));
      Encoded(Encode(step.c) + rest.output, step.units + rest.read)
  }

  method ReadStep(data: seq<byte>, offset: nat) returns (codepoint: Scalar, consumed: nat, units: nat)
    requires offset < |data|
    ensures Step(codepoint, consumed, units) == StepAt(data[offset..])
  {
    codepoint, consumed, units := TextDecoding.REPLACEMENT, 1, 1;
    var u := UnitAt(data[offset..]);
    if u.Unit? {
      codepoint, consumed := if Low(u.value) || High(u.value) then TextDecoding.REPLACEMENT else u.value, u.length;
      if High(u.value) {
        var low := UnitAt(data[offset + consumed..]);
        assert data[offset + consumed..] == data[offset..][consumed..];
        if low.Unit? && Low(low.value) {
          codepoint := 0x10000 + (u.value - 0xD800) * 1024 + (low.value - 0xDC00);
          consumed, units := consumed + low.length, 2;
        }
      }
    }
  }

  function Onto(output: seq<byte>, read: nat, rest: Encoded): Encoded {
    Encoded(output + rest.output, read + rest.read)
  }

  lemma OntoStep(output: seq<byte>, read: nat, s: seq<byte>, room: nat)
    requires s != [] && Utf8Size(StepAt(s).c) <= room
    ensures var step := StepAt(s);
            Onto(output, read, Encoding(s, room))
            == Onto(output + Encode(step.c), read + step.units, Encoding(s[step.consumed..], room - Utf8Size(step.c)))
  {
    var step := StepAt(s);
    var rest := Encoding(s[step.consumed..], room - Utf8Size(step.c));
    assert output + (Encode(step.c) + rest.output) == output + Encode(step.c) + rest.output;
  }

  lemma OntoNothing(output: seq<byte>, read: nat, s: seq<byte>, room: nat)
    requires s == [] || Utf8Size(StepAt(s).c) > room
    ensures Onto(output, read, Encoding(s, room)) == Encoded(output, read)
  {
    assert output + [] == output;
  }

  /** `encode_`, on the octets of the source string. */
  method EncodeString(data: seq<byte>, capacity: nat) returns (output: seq<byte>, read: nat)
    ensures Encoded(output, read) == Encoding(data, capacity)
  {
    hide StepAt, UnitAt, Encode;
    output, read := [], 0;
    var offset := 0;
    ghost var rest, room := data, capacity;
    assert [] + Encoding(data, capacity).output == Encoding(data, capacity).output;
    while offset < |data|
      invariant 0 <= offset <= |data| && rest == data[offset..]
      invariant 0 <= room == capacity - |output|
      invariant Encoding(data, capacity) == Onto(output, read, Encoding(rest, room))
      decreases |data| - offset
    {
      var codepoint, consumed, units := ReadStep(data, offset);
      SizeIsLength(codepoint);
      if |output| + Utf8Size(codepoint) > capacity {
        break;
      }
      OntoStep(output, read, rest, room);
      assert rest[consumed..] == data[offset + consumed..];
      output := output + Encode(codepoint);
      offset, read := offset + consumed, read + units;
      rest, room := rest[consumed..], room - Utf8Size(codepoint);
    }
    OntoNothing(output, read, rest, room);
  }

  /** `encodeInto`, on the buffer behind the destination view at `offset`. */
  method EncodeInto(source: seq<unit>, buffer: array<byte>, offset: nat, length: nat)
      returns (ok: bool, read: nat, written: nat)
    modifies buffer
    ensures ok <==> offset + |Encoding(Cesu8(source), length).output| <= buffer.Length
    ensures !ok ==> buffer[..] == old(buffer[..])
    ensures ok ==> written == |Encoding(Cesu8(source), length).output|
    ensures ok ==> Encoded(buffer[offset..offset + written], read) == Encoding(Cesu8(source), length)
    ensures ok ==> buffer[..offset] == old(buffer[..offset])
    ensures ok ==> buffer[offset + written..] == old(buffer[offset + written..])
  {
    var output;
    output, read := EncodeString(Cesu8(source), length);
    written := |output|;
    if offset > buffer.Length || written > buffer.Length - offset {
      return false, 0, 0;
    }
    Copy(output, buffer, offset);
    ok := true;
  }

  method Copy(source: seq<byte>, target: array<byte>, offset: nat)
    requires offset + |source| <= target.Length
    modifies target
    ensures target[..offset] == old(target[..offset])
    ensures target[offset..offset + |source|] == source
    ensures target[offset + |source|..] == old(target[offset + |source|..])
  {
    for k := 0 to |source|
      invariant forall j :: 0 <= j < offset ==> target[j] == old(target[j])
      invariant forall j :: 0 <= j < k ==> target[offset + j] == source[j]
      invariant forall j :: offset + k <= j < target.Length ==> target[j] == old(target[j])
    {
      target[offset + k] := source[k];
    }
  }

  // ----- on script strings -----

  /** The groups of six bits of a unit. */
  lemma Groups(u: unit)
    ensures u / 64 * 64 + u % 64 == u && (u < 0x800 ==> u / 64 < 32) && (u >= 0x80 ==> u / 64 >= 2)
    ensures u / 4096 < 16 && u / 4096 * 64 + u / 64 % 64 == u / 64
  {
  }

  lemma UnitOfTwo(s: seq<byte>, a: nat, b: nat)
    requires |s| >= 2 && 2 <= a < 32 && b < 64 && s[0] == 0xC0 + a && s[1] == 0x80 + b
    ensures UnitAt(s) == Unit(a * 64 + b, 2)
  {
  }

  lemma UnitOfThree(s: seq<byte>, a: nat, b: nat, c: nat)
    requires |s| >= 3 && a < 16 && b < 64 && c < 64
    requires s[0] == 0xE0 + a && s[1] == 0x80 + b && s[2] == 0x80 + c
    ensures UnitAt(s) == Unit((a * 64 + b) * 64 + c, 3)
  {
  }

  lemma UnitOfCesu8(u: unit, rest: seq<byte>)
    ensures UnitAt(Cesu8Unit(u) + rest) == Unit(u, |Cesu8Unit(u)|)
  {
    var s := Cesu8Unit(u) + rest;
    Groups(u);
    if u < 0x80 {
      assert s[0] == u;
    } else {
      var a, b, c := u / 4096, u / 64 % 64, u % 64;
      if u < 0x800 {
        assert s[0] == 0xC0 + u / 64 && s[1] == 0x80 + c;
        hide UnitAt;
        UnitOfTwo(s, u / 64, c);
      } else {
        assert s[0] == 0xE0 + a && s[1] == 0x80 + b && s[2] == 0x80 + c;
        hide UnitAt;
        UnitOfThree(s, a, b, c);
      }
    }
  }

  /** A step over CESU-8 takes the groups of exactly the units of the first scalar value. */
  lemma StepOfCesu8(us: seq<unit>)
    requires us != []
    ensures var f, step := FirstScalar(us), StepAt(Cesu8(us));
            step.c == f.c && step.units == f.n && Cesu8(us)[step.consumed..] == Cesu8(us[f.n..])
  {
    var head, tail := Cesu8Unit(us[0]), Cesu8(us[1..]);
    UnitOfCesu8(us[0], tail);
    assert (head + tail)[|head|..] == tail;
    if |us| > 1 {
      var second, rest := Cesu8Unit(us[1]), Cesu8(us[2..]);
      assert us[1..][1..] == us[2..];
      UnitOfCesu8(us[1], rest);
      assert (head + tail)[|head| + |second|..] == rest;
    }
  }

  /** `n` does not fall between the two halves of a surrogate pair. */
  predicate NoSplit(us: seq<unit>, n: nat) {
    0 < n < |us| ==> !(High(us[n - 1]) && Low(us[n]))
  }

  lemma ScalarsPrefix(us: seq<unit>, n: nat)
    requires us != [] && FirstScalar(us).n <= n <= |us|
    ensures Scalars(us[..n]) == [FirstScalar(us).c] + Scalars(us[FirstScalar(us).n..][..n - FirstScalar(us).n])
  {
    var k := FirstScalar(us).n;
    assert FirstScalar(us[..n]) == FirstScalar(us);
    assert us[..n][k..] == us[k..][..n - k];
  }

  /** The first `n` units split no pair and their UTF-8 fits. */
  predicate Fits(us: seq<unit>, room: nat, n: nat) {
    n <= |us| && NoSplit(us, n) && |Encodes(Scalars(us[..n]))| <= room
  }

  /** Taking one more code point at the front: what fits with it, fits after it in the room left. */
  lemma FitsStep(us: seq<unit>, room: nat, n: nat)
    requires us != []
    ensures Fits(us, room, n) <==>
              n == 0 || (n >= FirstScalar(us).n && Utf8Size(FirstScalar(us).c) <= room
                         && Fits(us[FirstScalar(us).n..], room - Utf8Size(FirstScalar(us).c), n - FirstScalar(us).n))
  {
    var f := FirstScalar(us);
    SizeIsLength(f.c);
    if f.n <= n <= |us| {
      ScalarsPrefix(us, n);
      var tail := us[f.n..];
      assert NoSplit(us, n) <==> NoSplit(tail, n - f.n) by {
        if f.n < n < |us| {
          assert us[n] == tail[n - f.n] && us[n - 1] == tail[n - f.n - 1];
        }
      }
    }
  }

  lemma EncodingOfCesu8(us: seq<unit>, room: nat)
    requires us != []
    ensures var f := FirstScalar(us);
            Encoding(Cesu8(us), room) ==
            if Utf8Size(f.c) > room then Encoded([], 0)
            else Onto(Encode(f.c), f.n, Encoding(Cesu8(us[f.n..]), room - Utf8Size(f.c)))
  {
    StepOfCesu8(us);
  }

  /**
   The encoder writes the longest prefix of whole code points that fits: its octets
   are the UTF-8 of the first `read` units, it splits no pair, the next code point
   does not fit, and no other prefix that fits is longer.
   */
  lemma {:induction false} EncodesLongestPrefix(us: seq<unit>, room: nat)
    ensures var r := Encoding(Cesu8(us), room);
            && Fits(us, room, r.read) && r.output == Encodes(Scalars(us[..r.read]))
            && (r.read < |us| ==> |r.output| + Utf8Size(FirstScalar(us[r.read..]).c) > room)
            && (forall n: nat :: Fits(us, room, n) ==> n <= r.read)
    decreases |us|
  {
    hide Encoding, Cesu8, Encode;
    if us == [] {
      assert Encoding(Cesu8(us), room) == Encoded([], 0) by {
        EncodingOfNothing(room);
      }
    } else {
      var f, r := FirstScalar(us), Encoding(Cesu8(us), room);
      EncodingOfCesu8(us, room);
      forall n: nat {
        FitsStep(us, room, n);
      }
      if Utf8Size(f.c) > room {
        assert us[0..] == us;
      } else {
        var tail, left := us[f.n..], room - Utf8Size(f.c);
        EncodesLongestPrefix(tail, left);
        SizeIsLength(f.c);
        ScalarsPrefix(us, r.read);
        assert us[r.read..] == tail[r.read - f.n..];
      }
    }
  }

  lemma EncodingOfNothing(room: nat)
    ensures Encoding(Cesu8([]), room) == Encoded([], 0)
  {
  }

  lemma {:induction false} EncodesAtMostThree(us: seq<unit>)
    ensures |Encodes(Scalars(us))| <= 3 * |us|
    decreases |us|
  {
    if us != [] {
      var f := FirstScalar(us);
      SizeIsLength(f.c);
      EncodesAtMostThree(us[f.n..]);
    }
  }
}

/** Encoding and decoding against each other. */
module TextRoundTrip {
  import opened Bytes
  import opened Utf16
  import opened Utf8
  import opened TextEncoding
  import TextDecoding
  import TextDecodingLaws

  lemma EncodesWhole(us: seq<unit>, room: nat)
    requires room >= |Encodes(Scalars(us))|
    ensures Encoding(Cesu8(us), room) == Encoded(Encodes(Scalars(us)), |us|)
  {
    assert us[..|us|] == us;
    EncodesLongestPrefix(us, room);
    assert Fits(us, room, |us|);
  }

  /** With room for it, the whole of any string is written: its items, and U+FFFD for lone surrogates. */
  lemma EncodesItems(items: seq<Item>, room: nat)
    requires Apart(items) && room >= |Encodes(Values(items))|
    ensures Encoding(Cesu8(UnitsOf(items)), room) == Encoded(Encodes(Values(items)), |UnitsOf(items)|)
  {
    ScalarsOfItems(items);
    EncodesWhole(UnitsOf(items), room);
  }

  function Wholes(cs: seq<Scalar>): (items: seq<Item>)
    ensures |items| == |cs| && Apart(items)
  {
    seq(|cs|, k requires 0 <= k < |cs| => Whole(cs[k]))
  }

  /** With room for it, the string of any scalar values is written as the UTF-8 of those. */
  lemma EncodesScalars(cs: seq<Scalar>, room: nat)
    requires room >= |Encodes(cs)|
    ensures var us := UnitsOf(Wholes(cs));
            Encoding(Cesu8(us), room) == Encoded(Encodes(cs), |us|)
  {
    assert Values(Wholes(cs)) == cs;
    EncodesItems(Wholes(cs), room);
  }

  /**
   With room for the whole string, everything is read and decoding what was written,
   in either mode, gives the UTF-8 of the string with lone surrogates replaced.
   */
  lemma EncodeThenDecode(us: seq<unit>, room: nat, fatal: bool)
    requires room >= 3 * |us|
    ensures var r := Encoding(Cesu8(us), room);
            && r.read == |us| && r.output == Encodes(Scalars(us))
            && TextDecoding.Decode(TextDecoding.Options(fatal, true), TextDecoding.FRESH, r.output, false)
               == TextDecoding.Outcome(true, Encodes(Scalars(us)), TextDecoding.FRESH)
  {
    assert us[..|us|] == us;
    EncodesAtMostThree(us);
    EncodesLongestPrefix(us, room);
    assert Fits(us, room, |us|);
    EncodesWellFormed(Scalars(us));
    TextDecodingLaws.DecodeWellFormed(TextDecoding.Options(fatal, true), Encodes(Scalars(us)));
  }
}

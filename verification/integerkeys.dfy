/**
 Keys and values as `DB` stores them: numbers as nine octets that sort as the numbers do, JSON with a NUL behind,
 strings as they are.
 */
module IntegerKeys {
  import opened Bytes
  import opened Lexicographic

  const TWO_63: int := 0x8000_0000_0000_0000
  const TWO_64: int := 0x1_0000_0000_0000_0000

  type int64 = x: int | -TWO_63 <= x < TWO_63

  type uint64 = x: int | 0 <= x < TWO_64

  // ----- words in memory -----

  /** The `n` low octets of a word, low one first. */
  function Little(v: nat, n: nat): (s: seq<byte>)
    ensures |s| == n
  {
    if n == 0 then [] else [v % 256] + Little(v / 256, n - 1)
  }

  /** The `n` low octets of a word, high one first. */
  function Big(v: nat, n: nat): (s: seq<byte>)
    ensures |s| == n
  {
    if n == 0 then [] else Big(v / 256, n - 1) + [v % 256]
  }

  function FromLittle(s: seq<byte>): nat {
    if s == [] then 0 else s[0] + 256 * FromLittle(s[1..])
  }

  /** What `memcpy` finds in a 64-bit word of the host, and the other way round. */
  function Stored(little: bool, v: uint64): seq<byte> {
    if little then Little(v, 8) else Big(v, 8)
  }

  function Fetched(little: bool, s: seq<byte>): nat {
    if little then FromLittle(s) else FromLittle(Reversed(s))
  }

  function Reversed(s: seq<byte>): (r: seq<byte>)
    ensures |r| == |s|
  {
    if s == [] then [] else Reversed(s[1..]) + [s[0]]
  }

  // ----- the conversions -----

  /** Exclusive or with 0x8000000000000000. */
  function FlipTop(u: uint64): uint64 {
    if u < TWO_63 then u + TWO_63 else u - TWO_63
  }

  function Unsigned(x: int64): uint64 {
    if x < 0 then x + TWO_64 else x
  }

  function Signed(u: uint64): int64 {
    if u < TWO_63 then u else u - TWO_64
  }

  /** The octets of a word in reverse, by masks and shifts. */
  function Swap(v: uint64): (w: uint64) {
    v % 256 * 0x100_0000_0000_0000
    + v / 0x100 % 256 * 0x1_0000_0000_0000
    + v / 0x1_0000 % 256 * 0x100_0000_0000
    + v / 0x100_0000 % 256 * 0x1_0000_0000
    + v / 0x1_0000_0000 % 256 * 0x100_0000
    + v / 0x100_0000_0000 % 256 * 0x1_0000
    + v / 0x1_0000_0000_0000 % 256 * 0x100
    + v / 0x100_0000_0000_0000 % 256
  }

  function ToBig(little: bool, v: uint64): uint64 {
    if little then Swap(v) else v
  }

  /** The key of a number: a NUL and the number counted from the least one, high octet first. */
  function Key(x: int64): (k: seq<byte>)
    ensures |k| == 9 && k[0] == 0
  {
    [0] + Big(x + TWO_63, 8)
  }

  method EncodeKey(little: bool, x: int64, out: array<byte>)
    requires out.Length == 9
    modifies out
    ensures out[..] == Key(x)
  {
    hide Big, Little, Swap;
    out[0] := 0;
    var be := ToBig(little, FlipTop(Unsigned(x)));
    var octets := Stored(little, be);
    StoredBig(little, FlipTop(Unsigned(x)));
    for i := 0 to 8
      invariant out[0] == 0 && out[1..i + 1] == octets[..i]
    {
      out[i + 1] := octets[i];
    }
    assert out[..] == [out[0]] + out[1..9];
  }

  /** The number of a stored key. */
  function Decode(little: bool, f: seq<byte>): int64
    requires |f| >= 9
  {
    hide Big, Little;
    FetchedBound(little, f[1..9]);
    var be := Fetched(little, f[1..9]);
    SwapBound(be);
    Signed(FlipTop(ToBig(little, be)))
  }

  // ----- stored values -----

  datatype Kind = Number | Object | String

  function Type(f: seq<byte>): Kind {
    if f == [] then String
    else if f[0] == 0 then Number
    else if f[|f| - 1] == 0 then Object
    else String
  }

  /** A value to store; JSON stands for the text that it is turned into. */
  datatype Value = Num(n: int64) | Json(text: seq<byte>) | Str(octets: seq<byte>)

  function Set(v: Value): seq<byte> {
    match v
    case Num(n) => Key(n)
    case Json(text) => text + [0]
    case Str(octets) => octets
  }

  /** `Beyond`: the number would be read from behind the end of the stored octets. */
  datatype Read = Is(value: Value) | Beyond

  function Get(little: bool, f: seq<byte>): Read {
    match Type(f)
    case Number => if |f| >= 9 then Is(Num(Decode(little, f))) else Beyond
    case Object => Is(Json(f[..|f| - 1]))
    case String => Is(Str(f))
  }

  // ----- octet order -----

  function Power(n: nat): (p: nat)
    ensures p > 0
  {
    if n == 0 then 1 else 256 * Power(n - 1)
  }

  lemma Powers()
    ensures Power(0) == 1 && Power(1) == 0x100 && Power(2) == 0x1_0000 && Power(3) == 0x100_0000
    ensures Power(4) == 0x1_0000_0000 && Power(5) == 0x100_0000_0000 && Power(6) == 0x1_0000_0000_0000
    ensures Power(7) == 0x100_0000_0000_0000 && Power(8) == TWO_64
  {
    assert Power(2) == 256 * Power(1) && Power(3) == 256 * Power(2) && Power(4) == 256 * Power(3);
    assert Power(5) == 256 * Power(4) && Power(6) == 256 * Power(5) &&
      Power(7) == 256 * Power(6) && Power(8) == 256 * Power(7);
  }

  lemma {:induction false} FromLittleBound(s: seq<byte>)
    ensures FromLittle(s) < Power(|s|)
  {
    if s != [] {
      FromLittleBound(s[1..]);
    }
  }

  lemma FetchedBound(little: bool, s: seq<byte>)
    requires |s| == 8
    ensures Fetched(little, s) < TWO_64
  {
    Powers();
    FromLittleBound(s);
    FromLittleBound(Reversed(s));
    hide FromLittle, Reversed, Power;
  }

  /** Swapping octet by octet. */
  function Mirror(v: nat, n: nat): nat {
    if n == 0 then 0 else v % 256 * Power(n - 1) + Mirror(v / 256, n - 1)
  }

  lemma Scaled(d: nat, p: nat)
    requires d <= 255
    ensures d * p <= 255 * p
  {
  }

  lemma {:induction false} MirrorBound(v: nat, n: nat)
    ensures Mirror(v, n) < Power(n)
  {
    if n > 0 {
      MirrorBound(v / 256, n - 1);
      Scaled(v % 256, Power(n - 1));
    }
  }

  lemma MirrorStep(v: nat, n: nat)
    ensures Mirror(v, n + 1) == v % 256 * Power(n) + Mirror(v / 256, n)
  {
  }

  /** An octet on top comes last. */
  lemma {:induction false} LittleTop(w: nat, d: nat, n: nat)
    requires w < Power(n) && d < 256
    ensures Little(w + d * Power(n), n + 1) == Little(w, n) + [d]
  {
    if n == 0 {
      assert Little(d, 1) == [d] + Little(0, 0);
    } else {
      var p := Power(n - 1);
      assert d * Power(n) == 256 * (d * p);
      var m := d * p;
      assert (w + 256 * m) % 256 == w % 256 && (w + 256 * m) / 256 == w / 256 + m;
      LittleTop(w / 256, d, n - 1);
    }
  }

  /** Mirrored and stored low octet first is stored high octet first. */
  lemma {:induction false} LittleMirror(v: nat, n: nat)
    ensures Little(Mirror(v, n), n) == Big(v, n)
  {
    if n > 0 {
      MirrorBound(v / 256, n - 1);
      LittleTop(Mirror(v / 256, n - 1), v % 256, n - 1);
      LittleMirror(v / 256, n - 1);
    }
  }

  lemma Divided(v: nat)
    ensures v / 0x100 / 256 == v / 0x1_0000 && v / 0x1_0000 / 256 == v / 0x100_0000 &&
        v / 0x100_0000 / 256 == v / 0x1_0000_0000
  {
  }

  /** Four octets at once. */
  lemma MirrorFour(v: nat, n: nat)
    ensures Mirror(v, n + 4) ==
            v % 256 * Power(n + 3) + v / 0x100 % 256 * Power(n + 2) + v / 0x1_0000 % 256 * Power(n + 1)
            + v / 0x100_0000 % 256 * Power(n) + Mirror(v / 0x1_0000_0000, n)
  {
    hide Mirror, Power;
    Divided(v);
    MirrorStep(v, n + 3);
    MirrorStep(v / 0x100, n + 2);
    MirrorStep(v / 0x1_0000, n + 1);
    MirrorStep(v / 0x100_0000, n);
  }

  /** The upper half of a word, by direct division. */
  lemma UpperHalf(v: uint64)
    ensures var w := v / 0x1_0000_0000;
            && w / 0x100 == v / 0x100_0000_0000 && w / 0x1_0000 == v / 0x1_0000_0000_0000
            && w / 0x100_0000 == v / 0x100_0000_0000_0000 && w / 0x100_0000 < 256
  {
  }

  lemma SwapIsMirror(v: uint64)
    ensures Swap(v) == Mirror(v, 8)
  {
    Powers();
    hide Mirror, Power;
    UpperHalf(v);
    var w := v / 0x1_0000_0000;
    MirrorFour(v, 4);
    MirrorFour(w, 0);
    MirrorNone(w / 0x1_0000_0000);
  }

  lemma MirrorNone(v: nat)
    ensures Mirror(v, 0) == 0
  {
  }

  lemma SwapBound(v: nat)
    requires v < TWO_64
    ensures 0 <= Swap(v) < TWO_64
  {
  }

  /** On either kind of host the octets in memory are the number's, high one first. */
  lemma StoredBig(little: bool, v: uint64)
    ensures Stored(little, ToBig(little, v)) == Big(v, 8)
  {
    SwapIsMirror(v);
    LittleMirror(v, 8);
    hide Little, Mirror, Big, Swap;
  }

  // ----- decoding undoes encoding -----

  lemma {:induction false} FromLittleBack(v: nat, n: nat)
    requires v < Power(n)
    ensures FromLittle(Little(v, n)) == v
  {
    if n > 0 {
      FromLittleBack(v / 256, n - 1);
    }
  }

  lemma {:induction false} ReversedBig(v: nat, n: nat)
    ensures Reversed(Big(v, n)) == Little(v, n)
  {
    if n > 0 {
      ReversedBig(v / 256, n - 1);
      ReversedSnoc(Big(v / 256, n - 1), v % 256);
    }
  }

  lemma {:induction false} ReversedSnoc(s: seq<byte>, b: byte)
    ensures Reversed(s + [b]) == [b] + Reversed(s)
  {
    if s != [] {
      assert (s + [b])[1..] == s[1..] + [b];
      ReversedSnoc(s[1..], b);
    }
  }

  lemma {:induction false} ReversedTwice(s: seq<byte>)
    ensures Reversed(Reversed(s)) == s
  {
    if s != [] {
      ReversedSnoc(Reversed(s[1..]), s[0]);
      ReversedTwice(s[1..]);
    }
  }

  lemma MirrorTwice(v: uint64)
    ensures Mirror(v, 8) < TWO_64 && Mirror(Mirror(v, 8), 8) == v
  {
    Powers();
    MirrorBound(v, 8);
    var w := Mirror(v, 8);
    hide Mirror, Little, Big, FromLittle, Reversed, Power;
    LittleMirror(v, 8);
    LittleMirror(w, 8);
    ReversedBig(w, 8);
    ReversedBig(v, 8);
    ReversedTwice(Big(w, 8));
    FromLittleBack(v, 8);
    MirrorBound(w, 8);
    FromLittleBack(Mirror(w, 8), 8);
  }

  lemma FetchedBig(little: bool, v: uint64)
    ensures Fetched(little, Big(v, 8)) < TWO_64
    ensures ToBig(little, Fetched(little, Big(v, 8))) == v
  {
    Powers();
    hide Mirror, Little, Big, FromLittle, Reversed, Power, Swap;
    ReversedBig(v, 8);
    FromLittleBack(v, 8);
    MirrorTwice(v);
    LittleMirror(v, 8);
    FromLittleBack(Mirror(v, 8), 8);
    SwapIsMirror(Mirror(v, 8));
  }

  lemma FlipTopBack(x: int64)
    ensures FlipTop(Unsigned(x)) == x + TWO_63 && Signed(FlipTop(x + TWO_63)) == x
  {
  }

  /** Reading a stored number gives that number, whatever the host's octet order. */
  lemma DecodeKey(little: bool, x: int64)
    ensures Decode(little, Key(x)) == x
  {
    hide Big, ToBig, Fetched;
    assert Key(x)[1..9] == Big(x + TWO_63, 8);
    FetchedBig(little, x + TWO_63);
    FlipTopBack(x);
  }

  // ----- keys sort as numbers do -----

  lemma {:induction false} LessAppend(a: seq<byte>, b: seq<byte>, x: byte, y: byte, i: nat)
    requires |a| == |b| && i <= |a|
    ensures LessFrom(a, b, i) ==> LessFrom(a + [x], b + [y], i)
    ensures a == b && x < y ==> LessFrom(a + [x], b + [y], i)
    decreases |a| - i
  {
    if i < |a| {
      LessAppend(a, b, x, y, i + 1);
    }
  }

  lemma {:induction false} BigSorts(a: nat, b: nat, n: nat)
    requires a < b < Power(n)
    ensures Less(Big(a, n), Big(b, n))
  {
    hide LessFrom;
    if n > 0 {
      LessAppend(Big(a / 256, n - 1), Big(b / 256, n - 1), a % 256, b % 256, 0);
      if a / 256 < b / 256 {
        BigSorts(a / 256, b / 256, n - 1);
      }
    }
  }

  lemma KeySorts(x: int64, y: int64)
    requires x < y
    ensures Less(Key(x), Key(y))
  {
    Powers();
    hide Power, Big;
    var a, b := Big(x + TWO_63, 8), Big(y + TWO_63, 8);
    BigSorts(x + TWO_63, y + TWO_63, 8);
    LessBehind(0, a, b, 0);
  }

  lemma {:induction false} LessBehind(first: byte, a: seq<byte>, b: seq<byte>, i: nat)
    requires i <= |a| && i <= |b|
    ensures LessFrom([first] + a, [first] + b, i + 1) == LessFrom(a, b, i)
    ensures LessFrom([first] + a, [first] + b, 0) == LessFrom([first] + a, [first] + b, 1)
    decreases |a| - i
  {
    if i < |a| && i < |b| {
      LessBehind(first, a, b, i + 1);
    }
  }

  /** Numbers are in order exactly when their keys are in octet order. */
  lemma OrderPreserved(x: int64, y: int64)
    ensures x < y <==> Less(Key(x), Key(y))
  {
    hide Key, LessFrom;
    Trichotomy(Key(x), Key(y), 0);
    if x < y {
      KeySorts(x, y);
    } else if y < x {
      KeySorts(y, x);
      Trichotomy(Key(y), Key(x), 0);
    }
  }

  // ----- what is stored is read back -----

  /** A value is read back as what was stored, if and only if its octets do not pass for another kind. */
  lemma ReadBack(little: bool, v: Value)
    ensures Get(little, Set(v)) == Is(v) <==>
              match v
              case Num(_) => true
              case Json(text) => text != [] && text[0] != 0
              case Str(octets) => octets == [] || (octets[0] != 0 && octets[|octets| - 1] != 0)
  {
    hide Decode, Key;
    match v
    case Num(n) => DecodeKey(little, n);
    case Json(text) =>
      assert (text + [0])[..|text|] == text;
    case Str(_) =>
  }

  /**
   The kinds are told apart: a number's key sorts before every JSON text and every string that is read back, the
   empty string aside.
   */
  lemma NumbersFirst(little: bool, n: int64, v: Value)
    requires Get(little, Set(v)) == Is(v) && !v.Num? && v != Str([])
    ensures Less(Key(n), Set(v))
  {
    ReadBack(little, v);
    hide Decode;
  }
}

/**
 The streaming UTF-8 decoder behind `TextDecoder`. Bit operations on octets are
 written as the arithmetic they stand for: `x & 0x3F` is `x % 64`, and
 `(c << 6) | (x & 0x3F)` is `c * 64 + x % 64`.
 */
module TextDecoding {
  import opened Bytes
  import opened Utf8
  import opened Wrappers

  const REPLACEMENT: Scalar := 0xFFFD
  const BOM: Scalar := 0xFEFF

  datatype Options = Options(fatal: bool, ignoreBom: bool)

  /** What a decoder carries from one call to the next. */
  datatype State = State(bomSeen: bool, pending: seq<byte>)

  const FRESH := State(false, [])

  // ----- one token -----

  datatype Token = Char(c: Scalar, n: nat) | Bad | Cut

  /** The sequence length the lead octet announces, 0 for an octet that cannot lead. */
  function Length(c: byte): (n: nat)
    ensures n <= 4
  {
    if c < 0x80 then 1
    else if 0xC2 <= c <= 0xDF then 2
    else if 0xE0 <= c <= 0xEF then 3
    else if 0xF0 <= c <= 0xF4 then 4
    else 0
  }

  function LeadBits(c: byte): nat {
    if c < 0x80 then c
    else if c <= 0xDF then c % 32
    else if c <= 0xEF then c % 16
    else c % 8
  }

  function Minimum(n: nat): nat {
    if n == 2 then 0x80 else if n == 3 then 0x800 else if n == 4 then 0x10000 else 0
  }

  function TailBits(b: byte): (v: nat)
    ensures v < 64
    ensures Tail(b) ==> b == 0x80 + v
  {
    b % 64
  }

  function Bits(s: seq<byte>, n: nat): (cp: nat)
    requires 1 <= n <= |s|
  {
    if n == 1 then LeadBits(s[0]) else Bits(s, n - 1) * 64 + TailBits(s[n - 1])
  }

  predicate AllTail(s: seq<byte>) {
    forall k :: 0 <= k < |s| ==> Tail(s[k])
  }

  lemma AllTailSnoc(s: seq<byte>, b: byte)
    ensures AllTail(s + [b]) <==> AllTail(s) && Tail(b)
  {
    assert forall k :: 0 <= k < |s| ==> (s + [b])[k] == s[k];
    assert (s + [b])[|s|] == b;
  }

  /** The verdict on the octets at the front of `s`, taking `s` as all there is so far. */
  function Next(s: seq<byte>): (t: Token)
    requires s != []
    ensures t.Char? ==> 1 <= t.n <= |s|
  {
    var n := Length(s[0]);
    if n == 0 then Bad
    else if |s| < n then if AllTail(s[1..]) then Cut else Bad
    else
      var cp := Bits(s, n);
      if AllTail(s[1..n]) && Minimum(n) <= cp <= 0x10FFFF && !(0xD800 <= cp <= 0xDFFF)
      then Char(cp, n) else Bad
  }

  lemma BitsUnfolded(s: seq<byte>)
    requires s != []
    ensures Bits(s, 1) == LeadBits(s[0])
    ensures |s| >= 2 ==> Bits(s, 2) == LeadBits(s[0]) * 64 + TailBits(s[1])
    ensures |s| >= 3 ==> Bits(s, 3) == (LeadBits(s[0]) * 64 + TailBits(s[1])) * 64 + TailBits(s[2])
    ensures |s| >= 4 ==>
        Bits(s, 4) == ((LeadBits(s[0]) * 64 + TailBits(s[1])) * 64 + TailBits(s[2])) * 64 + TailBits(s[3])
  {
    if |s| >= 3 {
      assert Bits(s, 3) == Bits(s, 2) * 64 + TailBits(s[2]);
    }
    if |s| >= 4 {
      assert Bits(s, 4) == Bits(s, 3) * 64 + TailBits(s[3]);
    }
  }

  /** `Encode` reads back the groups of six bits a code point was put together from. */
  lemma Regroup(a: nat, b: nat, c: nat, d: nat)
    requires a < 8 && b < 64 && c < 64 && d < 64
    ensures (a * 64 + b) / 64 == a && (a * 64 + b) % 64 == b
    ensures var v := (a * 64 + b) * 64 + c;
            v / 4096 == a && v / 64 % 64 == b && v % 64 == c
    ensures var v := ((a * 64 + b) * 64 + c) * 64 + d;
            v / 262144 == a && v / 4096 % 64 == b && v / 64 % 64 == c && v % 64 == d
  {
    var v := ((a * 64 + b) * 64 + c) * 64 + d;
    assert v / 64 == (a * 64 + b) * 64 + c;
    assert v / 4096 == a * 64 + b;
  }

  lemma EncodeThree(a: nat, b: nat, c: nat)
    requires a < 16 && b < 64 && c < 64
    ensures var v := (a * 64 + b) * 64 + c;
            v >= 0x800 && !(0xD800 <= v <= 0xDFFF) <==> (a > 0 || b >= 32) && !(a == 13 && b >= 32)
    ensures var v := (a * 64 + b) * 64 + c;
            v >= 0x800 && !(0xD800 <= v <= 0xDFFF) ==> Encode(v) == [0xE0 + a, 0x80 + b, 0x80 + c]
  {
    var v := (a * 64 + b) * 64 + c;
    assert v / 64 == a * 64 + b && v / 4096 == a && v % 64 == c;
  }

  /** What the verdict on a whole sequence rests on. */
  lemma NextWhole(s: seq<byte>, n: nat)
    requires s != [] && n == Length(s[0]) && 0 < n <= |s|
    ensures var v := Bits(s, n);
            var good := AllTail(s[1..n]) && Minimum(n) <= v <= 0x10FFFF && !(0xD800 <= v <= 0xDFFF);
            Next(s) == if good then Char(v, n) else Bad
  {
  }

  /** The lead and first continuation octets that the grammar has for three octets, and for four. */
  lemma GrammarThree(s: seq<byte>)
    requires |s| >= 3 && Length(s[0]) == 3
    ensures var a, b := LeadBits(s[0]), TailBits(s[1]);
            CharLength(s) == if Tail(s[1]) && Tail(s[2]) && (a > 0 || b >= 32) && !(a == 13 && b >= 32) then 3 else 0
    ensures s[0] == 0xE0 + LeadBits(s[0]) && LeadBits(s[0]) < 16
  {
  }

  lemma GrammarFour(s: seq<byte>)
    requires |s| >= 4 && Length(s[0]) == 4
    ensures var a, b := LeadBits(s[0]), TailBits(s[1]);
            CharLength(s) == if Tail(s[1]) && Tail(s[2]) && Tail(s[3])
                           && (a > 0 || b >= 16) && (a < 4 || (a == 4 && b < 16)) then 4 else 0
    ensures s[0] == 0xF0 + LeadBits(s[0]) && LeadBits(s[0]) < 8
  {
  }

  lemma NextThree(s: seq<byte>)
    requires |s| >= 3 && Length(s[0]) == 3
    ensures Next(s).Char? <==> CharLength(s) > 0
    ensures Next(s).Char? ==> Next(s).n == CharLength(s) && Encode(Next(s).c) == s[..3]
  {
    NextWhole(s, 3);
    GrammarThree(s);
    BitsUnfolded(s);
    TailsUnfolded(s, 3);
    EncodeThree(LeadBits(s[0]), TailBits(s[1]), TailBits(s[2]));
    assert s[..3] == [s[0], s[1], s[2]];
    hide Next, CharLength, Encode, Bits, LeadBits, Length, TailBits, AllTail, Tail;
  }

  lemma EncodeFour(a: nat, b: nat, c: nat, d: nat)
    requires a < 8 && b < 64 && c < 64 && d < 64
    ensures var v := ((a * 64 + b) * 64 + c) * 64 + d;
            0x10000 <= v <= 0x10FFFF <==> (a > 0 || b >= 16) && (a < 4 || (a == 4 && b < 16))
    ensures var v := ((a * 64 + b) * 64 + c) * 64 + d;
            0x10000 <= v <= 0x10FFFF ==> Encode(v) == [0xF0 + a, 0x80 + b, 0x80 + c, 0x80 + d]
  {
    Regroup(a, b, c, d);
  }

  lemma NextFour(s: seq<byte>)
    requires |s| >= 4 && Length(s[0]) == 4
    ensures Next(s).Char? <==> CharLength(s) > 0
    ensures Next(s).Char? ==> Next(s).n == CharLength(s) && Encode(Next(s).c) == s[..4]
  {
    NextWhole(s, 4);
    GrammarFour(s);
    BitsUnfolded(s);
    TailsUnfolded(s, 4);
    EncodeFour(LeadBits(s[0]), TailBits(s[1]), TailBits(s[2]), TailBits(s[3]));
    assert s[..4] == [s[0], s[1], s[2], s[3]];
    hide Next, CharLength, Encode, Bits, LeadBits, Length, TailBits, AllTail, Tail;
  }

  /** The range tests of the decoder accept exactly the octet ranges of the grammar. */
  lemma NextIsGrammar(s: seq<byte>)
    requires s != []
    ensures Next(s).Char? <==> CharLength(s) > 0
    ensures Next(s).Char? ==> Next(s).n == CharLength(s) && Encode(Next(s).c) == s[..Next(s).n]
  {
    BitsUnfolded(s);
    var n := Length(s[0]);
    if 0 < n <= |s| {
      if n == 3 {
        NextThree(s);
      } else if n == 4 {
        NextFour(s);
      } else {
        TailsUnfolded(s, n);
      }
    }
  }

  lemma TailsUnfolded(s: seq<byte>, n: nat)
    requires 1 <= n <= |s|
    ensures AllTail(s[1..n]) <==> forall k :: 1 <= k < n ==> Tail(s[k])
  {
    assert forall k :: 1 <= k < n ==> s[k] == s[1..n][k - 1];
  }

  /** More input never changes a verdict, except that a cut sequence may resolve. */
  lemma NextStable(a: seq<byte>, b: seq<byte>)
    requires a != [] && !Next(a).Cut?
    ensures Next(a + b) == Next(a)
  {
    var n := Length(a[0]);
    assert (a + b)[0] == a[0];
    if n > |a| {
      ShortStable(a, b);
    } else if n > 0 {
      assert (a + b)[1..n] == a[1..n];
      BitsStable(a, b, n);
      NextWhole(a, n);
      NextWhole(a + b, n);
      hide Next, Bits;
    }
  }

  lemma {:induction false} BitsStable(a: seq<byte>, b: seq<byte>, n: nat)
    requires 1 <= n <= |a|
    ensures Bits(a + b, n) == Bits(a, n)
  {
    if n > 1 {
      BitsStable(a, b, n - 1);
    }
  }

  /** Too few octets for the lead, and already one that is no continuation. */
  lemma ShortStable(a: seq<byte>, b: seq<byte>)
    requires a != [] && |a| < Length(a[0]) && !AllTail(a[1..])
    ensures Next(a + b) == Bad == Next(a)
  {
    hide Length, Bits;
    var n := Length(a[0]);
    var k :| 0 <= k < |a[1..]| && !Tail(a[1..][k]);
    if |a + b| < n {
      assert (a + b)[1..][k] == a[1..][k];
    } else {
      assert (a + b)[1..n][k] == a[1..][k];
      hide Tail;
    }
  }

  // ----- one scan -----

  datatype Scanned = Scanned(ok: bool, cs: seq<Scalar>, pending: seq<byte>)

  function Prepend(c: Scalar, r: Scanned): Scanned {
    r.(cs := [c] + r.cs)
  }

  /** Left to right over the original octets: what is emitted, and what is kept back. */
  function Scan(s: seq<byte>, stream: bool, fatal: bool): (r: Scanned)
    decreases |s|
  {
    if s == [] then Scanned(true, [], [])
    else match Next(s)
      case Char(c, n) => Prepend(c, Scan(s[n..], stream, fatal))
      case Bad => if fatal then Scanned(false, [], []) else Prepend(REPLACEMENT, Scan(s[1..], stream, fatal))
      case Cut =>
        if stream then Scanned(true, [], s)
        else if fatal then Scanned(false, [], [])
        else Scanned(true, [REPLACEMENT], [])
  }

  /** The octets left once the token at the front of `s` is dealt with. */
  function Rest(s: seq<byte>): (r: seq<byte>)
    requires s != []
    ensures |r| < |s|
  {
    match Next(s) case Char(_, n) => s[n..] case Bad => s[1..] case Cut => []
  }

  function Emits(t: Token): Scalar {
    if t.Char? then t.c else REPLACEMENT
  }

  lemma ScanStep(s: seq<byte>, stream: bool, fatal: bool)
    requires s != []
    ensures Scan(s, stream, fatal) ==
            if Next(s).Cut? && stream then Scanned(true, [], s)
            else if !Next(s).Char? && fatal then Scanned(false, [], [])
            else Prepend(Emits(Next(s)), Scan(Rest(s), stream, fatal))
  {
    assert [REPLACEMENT] + [] == [REPLACEMENT];
  }

  function After(cs: seq<Scalar>, r: Scanned): Scanned {
    r.(cs := cs + r.cs)
  }

  /** Emitting one code point moves it from the rest of a scan to what is done. */
  lemma AfterStep(cs: seq<Scalar>, c: Scalar, r: Scanned)
    ensures After(cs, Prepend(c, r)) == After(cs + [c], r)
  {
    assert cs + ([c] + r.cs) == cs + [c] + r.cs;
  }

  /** The emitted code points less the byte order mark that opens a stream. */
  function Visible(cs: seq<Scalar>, ignoreBom: bool, bomSeen: bool): seq<Scalar> {
    if !bomSeen && !ignoreBom && cs != [] && cs[0] == BOM then cs[1..] else cs
  }

  datatype Outcome = Outcome(ok: bool, output: seq<byte>, state: State)

  /** One call on a decoder in state `d`. */
  function Call(o: Options, d: State, input: seq<byte>, stream: bool): (r: Outcome) {
    var r := Scan(d.pending + input, stream, o.fatal);
    Outcome(r.ok, Encodes(Visible(r.cs, o.ignoreBom, d.bomSeen)),
            State((d.bomSeen || r.cs != []) && (stream || !r.ok), r.pending))
  }

  /** A call on octets as scripts see it: a failed one throws and resets the decoder. */
  function Decode(o: Options, d: State, input: seq<byte>, stream: bool): (r: Outcome) {
    var r := Call(o, d, input, stream);
    if r.ok then r else Outcome(false, [], FRESH)
  }

  /** The argument of a call: nothing, a range of a buffer, or a value that is no buffer or cannot be read. */
  datatype Argument = Undefined | View(data: seq<byte>, offset: nat, length: nat) | Unreadable

  /** The octets of an argument, unless it is refused. */
  function Octets(a: Argument): Option<seq<byte>> {
    match a
    case Undefined => Some([])
    case View(data, offset, length) =>
      if offset > |data| || length > |data| - offset then None else Some(data[offset..offset + length])
    case Unreadable => None
  }

  /** A call with an argument: one that is refused throws before the decoder is touched. */
  function DecodeArgument(o: Options, d: State, a: Argument, stream: bool): (r: Outcome) {
    match Octets(a)
    case None => Outcome(false, [], d)
    case Some(input) => Decode(o, d, input, stream)
  }

  // ----- the decoder object -----

  class TextDecoder {
    const options: Options
    var bomSeen: bool
    var pending: seq<byte>

    constructor (options: Options)
      ensures this.options == options && Current() == FRESH
    {
      this.options := options;
      bomSeen, pending := false, [];
    }

    function Current(): State
      reads this
    {
      State(bomSeen, pending)
    }

    method Emit(c: Scalar, output: seq<byte>) returns (r: seq<byte>)
      modifies this`bomSeen
      ensures bomSeen
      ensures r == output + Encodes(Visible([c], options.ignoreBom, old(bomSeen)))
    {
      assert Encodes([c]) == Encode(c);
      if !bomSeen {
        bomSeen := true;
        if c == BOM && !options.ignoreBom {
          return output;
        }
      }
      r := output + Encode(c);
    }

    method IsPrefix(data: seq<byte>, i: nat) returns (prefix: bool)
      requires i < |data|
      ensures prefix == AllTail(data[i..][1..])
    {
      prefix := true;
      for j := i + 1 to |data|
        invariant prefix == AllTail(data[i + 1..j])
      {
        assert data[i + 1..j + 1] == data[i + 1..j] + [data[j]];
        AllTailSnoc(data[i + 1..j], data[j]);
        prefix := prefix && Tail(data[j]);
      }
      assert data[i..][1..] == data[i + 1..|data|];
    }

    method Assemble(data: seq<byte>, i: nat, length: nat) returns (continuation: bool, codepoint: nat)
      requires i < |data| && 1 <= length <= |data| - i
      ensures continuation == AllTail(data[i..][1..length])
      ensures codepoint == Bits(data[i..], length)
    {
      ghost var rest := data[i..];
      continuation, codepoint := true, LeadBits(data[i]);
      for j := 1 to length
        invariant continuation == AllTail(rest[1..j])
        invariant codepoint == Bits(rest, j)
      {
        assert rest[1..j + 1] == rest[1..j] + [data[i + j]];
        AllTailSnoc(rest[1..j], data[i + j]);
        continuation := continuation && Tail(data[i + j]);
        codepoint := codepoint * 64 + TailBits(data[i + j]);
      }
    }

    /** The token at `i`, and where the next one starts. */
    method Read(data: seq<byte>, i: nat) returns (t: Token, next: nat)
      requires i < |data|
      ensures t == Next(data[i..])
      ensures i < next <= |data|
      ensures data[next..] == Rest(data[i..])
    {
      var c := data[i];
      var length := Length(c);
      BitsUnfolded(data[i..]);
      if c < 0x80 {
        return Char(c, 1), i + 1;
      }
      if length == 0 {
        return Bad, i + 1;
      }
      if |data| - i < length {
        var prefix := IsPrefix(data, i);
        return if prefix then Cut else Bad, if prefix then |data| else i + 1;
      }
      var continuation, codepoint := Assemble(data, i, length);
      if !continuation || codepoint < Minimum(length) || codepoint > 0x10FFFF || 0xD800 <= codepoint <= 0xDFFF {
        return Bad, i + 1;
      }
      return Char(codepoint, length), i + length;
    }

    method DecodeUtf8(input: seq<byte>, stream: bool) returns (ok: bool, output: seq<byte>)
      modifies this
      ensures var r := Call(options, old(Current()), input, stream);
              ok == r.ok && Current() == r.state && (ok ==> output == r.output)
    {
      var data := pending + input;
      pending, output := [], [];
      ghost var seen := bomSeen;
      ghost var cs: seq<Scalar> := [];
      var i := 0;
      while i < |data|
        invariant 0 <= i <= |data|
        invariant pending == []
        invariant Scan(data, stream, options.fatal) == After(cs, Scan(data[i..], stream, options.fatal))
        invariant bomSeen == (seen || cs != [])
        invariant output == Encodes(Visible(cs, options.ignoreBom, seen))
        decreases |data| - i
      {
        var t, next := Read(data, i);
        ScanStep(data[i..], stream, options.fatal);
        if t.Cut? && stream {
          pending := data[i..];
          assert cs + [] == cs;
          break;
        }
        if !t.Char? && options.fatal {
          ok := false;
          return;
        }
        VisibleConcat(cs, [Emits(t)], options.ignoreBom, seen);
        AfterStep(cs, Emits(t), Scan(data[next..], stream, options.fatal));
        output := Emit(Emits(t), output);
        cs, i := cs + [Emits(t)], next;
      }
      ok := true;
      assert cs + [] == cs;
      if !stream {
        bomSeen := false;
      }
    }

    /** `decode(input)` and `decode(input, {stream})`. */
    method DecodeImpl(argument: Argument, stream: bool) returns (ok: bool, output: seq<byte>)
      modifies this
      ensures Outcome(ok, output, Current()) == DecodeArgument(options, old(Current()), argument, stream)
    {
      var bytes: seq<byte> := [];
      if argument.Unreadable? {
        return false, [];
      }
      if argument.View? {
        if argument.offset > |argument.data| || argument.length > |argument.data| - argument.offset {
          return false, [];
        }
        bytes := argument.data[argument.offset..argument.offset + argument.length];
      }
      ok, output := DecodeUtf8(bytes, stream);
      if !ok {
        bomSeen, pending, output := false, [], [];
      }
    }

    /** `decode()` without an argument: a failure is reported without a reset. */
    method DecodeNone() returns (ok: bool, output: seq<byte>)
      modifies this
      ensures var r := Call(options, old(Current()), [], false);
              ok == r.ok && Current() == r.state && output == if ok then r.output else []
    {
      ok, output := DecodeUtf8([], false);
      if !ok {
        output := [];
      }
    }
  }

  lemma VisibleConcat(a: seq<Scalar>, b: seq<Scalar>, ignoreBom: bool, bomSeen: bool)
    ensures Encodes(Visible(a + b, ignoreBom, bomSeen))
         == Encodes(Visible(a, ignoreBom, bomSeen)) + Encodes(Visible(b, ignoreBom, bomSeen || a != []))
  {
    if a == [] {
      assert a + b == b;
    } else {
      assert Visible(a + b, ignoreBom, bomSeen) == Visible(a, ignoreBom, bomSeen) + b;
      EncodesConcat(Visible(a, ignoreBom, bomSeen), b);
    }
  }
}

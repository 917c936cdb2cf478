/** What the streaming decoder promises over whole runs of calls. */
module TextDecodingLaws {
  import opened Bytes
  import opened Utf8
  import opened TextDecoding
  import opened Wrappers

  const MARK: seq<byte> := [0xEF, 0xBB, 0xBF]

  // ----- chunk invariance -----

  function Resume(r: Scanned, b: seq<byte>, stream: bool, fatal: bool): Scanned {
    if r.ok then After(r.cs, Scan(r.pending + b, stream, fatal)) else r
  }

  lemma ResumePrepend(c: Scalar, r: Scanned, b: seq<byte>, stream: bool, fatal: bool)
    ensures Resume(Prepend(c, r), b, stream, fatal) == Prepend(c, Resume(r, b, stream, fatal))
  {
    if r.ok {
      AfterPrepend(c, r.cs, Scan(r.pending + b, stream, fatal));
    }
  }

  lemma RestStable(a: seq<byte>, b: seq<byte>)
    requires a != [] && !Next(a).Cut?
    ensures Next(a + b) == Next(a) && Rest(a + b) == Rest(a) + b
  {
    NextStable(a, b);
  }

  /** Scanning `a + b` is scanning `a` as a stream and then what it kept back followed by `b`. */
  lemma {:induction false} ScanSplit(a: seq<byte>, b: seq<byte>, stream: bool, fatal: bool)
    ensures Scan(a + b, stream, fatal) == Resume(Scan(a, true, fatal), b, stream, fatal)
    decreases |a|
  {
    if a == [] {
      assert a + b == [] + b;
      assert After([], Scan(b, stream, fatal)) == Scan(b, stream, fatal);
    } else {
      ScanStep(a, true, fatal);
      if Next(a).Cut? {
        assert After([], Scan(a + b, stream, fatal)) == Scan(a + b, stream, fatal);
      } else {
        RestStable(a, b);
        ScanStep(a + b, stream, fatal);
        ScanSplit(Rest(a), b, stream, fatal);
        ResumePrepend(Emits(Next(a)), Scan(Rest(a), true, fatal), b, stream, fatal);
      }
    }
  }

  lemma AfterPrepend(c: Scalar, cs: seq<Scalar>, r: Scanned)
    ensures After([c] + cs, r) == Prepend(c, After(cs, r))
  {
    assert [c] + cs + r.cs == [c] + (cs + r.cs);
  }

  function Concat(chunks: seq<seq<byte>>): seq<byte> {
    if chunks == [] then [] else chunks[0] + Concat(chunks[1..])
  }

  /** One stream of calls: `stream` is on for all chunks but the last, a throw ends it. */
  function Run(o: Options, d: State, chunks: seq<seq<byte>>): (r: Outcome)
    requires chunks != []
    decreases |chunks|
  {
    if |chunks| == 1 then Decode(o, d, chunks[0], false)
    else
      var r := Decode(o, d, chunks[0], true);
      if !r.ok then r
      else
        var rest := Run(o, r.state, chunks[1..]);
        if rest.ok then Outcome(true, r.output + rest.output, rest.state) else rest
  }

  /** However the input is cut into chunks, the run has the outcome of the one-shot call. */
  lemma {:induction false} ChunkInvariance(o: Options, d: State, chunks: seq<seq<byte>>)
    requires chunks != []
    ensures Run(o, d, chunks) == Decode(o, d, Concat(chunks), false)
    decreases |chunks|
  {
    if |chunks| == 1 {
      assert Concat(chunks[1..]) == [];
      assert Concat(chunks) == chunks[0];
    } else {
      var rest := Concat(chunks[1..]);
      TwoCalls(o, d, chunks[0], rest);
      ChunkInvariance(o, Decode(o, d, chunks[0], true).state, chunks[1..]);
    }
  }

  lemma TwoCalls(o: Options, d: State, a: seq<byte>, b: seq<byte>)
    ensures var r := Decode(o, d, a, true);
            Decode(o, d, a + b, false) ==
            if !r.ok then r
            else var rest := Decode(o, r.state, b, false);
                 if rest.ok then Outcome(true, r.output + rest.output, rest.state) else rest
  {
    ScanSplit(d.pending + a, b, false, o.fatal);
    assert d.pending + a + b == d.pending + (a + b);
    var r := Scan(d.pending + a, true, o.fatal);
    if r.ok {
      VisibleConcat(r.cs, Scan(r.pending + b, false, o.fatal).cs, o.ignoreBom, d.bomSeen);
    }
    NothingPending(d.pending + (a + b), o.fatal);
    NothingPending(r.pending + b, o.fatal);
  }

  // ----- what is kept between calls -----

  /** A cut sequence: a lead octet and fewer continuation octets than it announces. */
  predicate CutShort(p: seq<byte>) {
    p != [] && |p| < Length(p[0]) && forall k :: 1 <= k < |p| ==> Tail(p[k])
  }

  lemma {:induction false} PendingIsCut(s: seq<byte>, stream: bool, fatal: bool)
    ensures var p := Scan(s, stream, fatal).pending; p == [] || (CutShort(p) && |p| <= 3)
    decreases |s|
  {
    if s != [] {
      ScanStep(s, stream, fatal);
      PendingIsCut(Rest(s), stream, fatal);
      if Next(s).Cut? {
        forall k | 1 <= k < |s| ensures Tail(s[k]) {
          assert s[1..][k - 1] == s[k];
        }
      }
    }
  }

  lemma {:induction false} NothingPending(s: seq<byte>, fatal: bool)
    ensures Scan(s, false, fatal).pending == []
    decreases |s|
  {
    if s != [] {
      ScanStep(s, false, fatal);
      NothingPending(Rest(s), fatal);
    }
  }

  /** The octets of a view are those that lie in its range of the buffer; a range that goes beyond it is refused. */
  lemma ViewOctets(before: seq<byte>, octets: seq<byte>, behind: seq<byte>, more: nat)
    ensures var data := before + octets + behind;
            && Octets(View(data, |before|, |octets|)) == Some(octets)
            && (more > |behind| ==> Octets(View(data, |before|, |octets| + more)).None?)
            && (more > 0 ==> Octets(View(data, |data| + more, 0)).None?)
  {
    var data := before + octets + behind;
    assert data[|before|..|before| + |octets|] == octets;
  }

  datatype Request = With(argument: Argument, stream: bool) | Without

  function Step(o: Options, d: State, q: Request): State {
    match q
    case With(a, stream) => DecodeArgument(o, d, a, stream).state
    case Without => Call(o, d, [], false).state
  }

  /** The state that a sequence of calls leaves a new decoder in. */
  function Steps(o: Options, qs: seq<Request>): State {
    if qs == [] then FRESH else Step(o, Steps(o, qs[..|qs| - 1]), qs[|qs| - 1])
  }

  /**
   In every reachable state nothing is pending or a cut sequence of at most three octets is. A call with an argument
   that is final or throws leaves the decoder as new exactly if the argument was not refused, or the decoder was as
   new before.
   */
  lemma ReachableState(o: Options, qs: seq<Request>)
    ensures var d := Steps(o, qs);
            d.pending == [] || (CutShort(d.pending) && |d.pending| <= 3)
    ensures qs != [] && qs[|qs| - 1].With? ==>
              var q, d := qs[|qs| - 1], Steps(o, qs[..|qs| - 1]);
              !q.stream || !DecodeArgument(o, d, q.argument, q.stream).ok ==>
                (Steps(o, qs) == FRESH <==> Octets(q.argument).Some? || d == FRESH)
  {
    if qs != [] {
      var d := Steps(o, qs[..|qs| - 1]);
      match qs[|qs| - 1]
      case With(a, stream) =>
        match Octets(a) {
          case Some(input) =>
            PendingIsCut(d.pending + input, stream, o.fatal);
            if !stream {
              NothingPending(d.pending + input, o.fatal);
            }
          case None =>
            ReachableState(o, qs[..|qs| - 1]);
        }
      case Without =>
        PendingIsCut(d.pending + [], false, o.fatal);
    }
  }

  lemma WholeView(o: Options, d: State, s: seq<byte>, n: nat, stream: bool)
    requires n == |s|
    ensures DecodeArgument(o, d, View(s, 0, n), stream) == Decode(o, d, s, stream)
  {
    assert s[0..n] == s;
  }

  lemma ScanLeadThenLetter()
    ensures Scan([0xE2], true, false) == Scanned(true, [], [0xE2])
    ensures Scan([0xE2, 0x41], false, false) == Scanned(true, [REPLACEMENT, 0x41], [])
    ensures Scan([0x41], false, false) == Scanned(true, [0x41], [])
  {
    var s, letter: seq<byte> := [0xE2, 0x41], [0x41];
    BitsUnfolded(letter);
    NextOfCut([0xE2]);
    assert s[1..] == letter && !AllTail(letter);
    assert Next(s) == Bad && Next(letter) == Char(0x41, 1);
  }

  lemma EncodesTwo(c: Scalar, d: Scalar)
    ensures Encodes([c]) == Encode(c) && Encodes([c, d]) == Encode(c) + Encode(d)
  {
    assert [c, d][1..] == [d] && [d][1..] == [];
  }

  lemma LeadDecoded(o: Options)
    requires !o.fatal
    ensures Decode(o, FRESH, [0xE2], true).state == State(false, [0xE2])
    ensures Decode(o, State(false, [0xE2]), [0x41], false).output == Encode(REPLACEMENT) + [0x41]
    ensures Decode(o, FRESH, [0x41], false).output == [0x41]
  {
    EncodesTwo(REPLACEMENT, 0x41);
    EncodesTwo(0x41, 0x41);
    assert Encode(0x41) == [0x41];
    hide Encode, Encodes, Scan;
    ScanLeadThenLetter();
    assert [] + [0xE2] == [0xE2] && [0xE2] + [0x41] == [0xE2, 0x41] && [] + [0x41] == [0x41];
  }

  lemma TwoSteps(o: Options, q: Request, r: Request)
    ensures Steps(o, [q, r]) == Step(o, Step(o, FRESH, q), r)
  {
    assert [q, r][..1] == [q] && [q][..0] == [];
    hide Step;
    assert Steps(o, [q]) == Step(o, FRESH, q);
  }

  /**
   A lead octet, then a final call whose argument is refused: the octet is still pending, and the next text has a
   replacement character in front.
   */
  lemma RefusedCallKeepsPending(ignoreBom: bool)
    ensures var o, lead, letter := Options(false, ignoreBom), View([0xE2], 0, 1), View([0x41], 0, 1);
            var d := Steps(o, [With(lead, true), With(Unreadable, false)]);
            && d == State(false, [0xE2])
            && DecodeArgument(o, d, letter, false).output == Encode(REPLACEMENT) + [0x41]
            && DecodeArgument(o, FRESH, letter, false).output == [0x41]
  {
    var o, refused := Options(false, ignoreBom), With(Unreadable, false);
    TwoSteps(o, With(View([0xE2], 0, 1), true), refused);
    assert Step(o, State(false, [0xE2]), refused) == State(false, [0xE2]);
    hide Steps, Decode, Encode;
    WholeView(o, FRESH, [0xE2], 1, true);
    WholeView(o, FRESH, [0x41], 1, false);
    WholeView(o, State(false, [0xE2]), [0x41], 1, false);
    hide DecodeArgument;
    LeadDecoded(o);
  }

  lemma NextOfCut(p: seq<byte>)
    requires CutShort(p)
    ensures Next(p) == Cut
  {
    assert forall k :: 0 <= k < |p[1..]| ==> p[1..][k] == p[k + 1];
  }

  /**
   The call without an argument is final too, but a throw from it does not reset the
   decoder: it ends fresh exactly when it is not a fatal decoder that has emitted
   something and still holds a cut sequence.
   */
  lemma ArglessCallResets(o: Options, qs: seq<Request>)
    ensures var d := Steps(o, qs);
            Steps(o, qs + [Without]) == FRESH <==> !(o.fatal && d.pending != [] && d.bomSeen)
  {
    var d := Steps(o, qs);
    ReachableState(o, qs);
    assert (qs + [Without])[..|qs|] == qs;
    assert d.pending + [] == d.pending;
    NothingPending(d.pending, o.fatal);
    if d.pending != [] {
      NextOfCut(d.pending);
      ScanStep(d.pending, false, o.fatal);
    }
  }

  lemma ScanMark(stream: bool, fatal: bool)
    ensures Scan(MARK, stream, fatal) == Scanned(true, [BOM], [])
    ensures Encodes([BOM]) == MARK
  {
    BitsUnfolded(MARK);
    TailsUnfolded(MARK, 3);
    assert Next(MARK) == Char(BOM, 3);
    assert MARK[3..] == [];
  }

  lemma ScanLetterAndLead()
    ensures Scan([0x41, 0xE2], true, true) == Scanned(true, [0x41], [0xE2])
  {
    var s: seq<byte> := [0x41, 0xE2];
    BitsUnfolded(s);
    assert s[1..] == [0xE2];
    NextOfCut([0xE2]);
    assert Next(s) == Char(0x41, 1);
  }

  /** `A` and a lead octet as a stream, and then the call without an argument. */
  lemma LetterThenArgless(o: Options)
    requires o == Options(true, false)
    ensures Decode(o, FRESH, [0x41, 0xE2], true).state == State(true, [0xE2])
    ensures var r := Call(o, State(true, [0xE2]), [], false); !r.ok && r.state == State(true, [])
  {
    ScanLetterAndLead();
    assert [] + [0x41, 0xE2] == [0x41, 0xE2] && [0xE2] + [] == [0xE2];
    NextOfCut([0xE2]);
    hide Next;
  }

  lemma MarkDecoded(o: Options)
    requires o == Options(true, false)
    ensures Decode(o, State(true, []), MARK, false).output == MARK && Decode(o, FRESH, MARK, false).output == []
  {
    ScanMark(false, true);
    assert [] + MARK == MARK;
    hide Scan;
  }

  /**
   A throw from the call without an argument after `A` and a lead octet: the next
   stream then keeps a byte order mark that a fresh decoder would strip.
   */
  lemma ArglessCallKeepsMark()
    ensures var o, mark := Options(true, false), View(MARK, 0, 3);
            var held := Step(o, FRESH, With(View([0x41, 0xE2], 0, 2), true));
            && !Call(o, held, [], false).ok
            && DecodeArgument(o, Step(o, held, Without), mark, false).output == MARK
            && DecodeArgument(o, FRESH, mark, false).output == []
  {
    var o := Options(true, false);
    WholeView(o, FRESH, [0x41, 0xE2], 2, true);
    WholeView(o, FRESH, MARK, 3, false);
    WholeView(o, State(true, []), MARK, 3, false);
    LetterThenArgless(o);
    MarkDecoded(o);
    hide DecodeArgument, Decode, Call;
  }

  // ----- the octets it accepts -----

  /** A fatal scan ends well exactly on well-formed octets, and loses none of them. */
  lemma {:induction false} FatalScan(s: seq<byte>)
    ensures Scan(s, false, true).ok <==> WellFormed(s)
    ensures WellFormed(s) ==> Encodes(Scan(s, false, true).cs) == s
    decreases |s|
  {
    if s != [] {
      NextIsGrammar(s);
      ScanStep(s, false, true);
      if Next(s).Char? {
        FatalScan(s[CharLength(s)..]);
        assert s == s[..CharLength(s)] + s[CharLength(s)..];
      }
    }
  }

  /**
   One fatal call accepts exactly the octet strings of section 4 of RFC 3629 and
   returns them unchanged, less one leading byte order mark unless that is ignored.
   */
  lemma FatalAcceptsExactlyWellFormed(ignoreBom: bool, s: seq<byte>)
    ensures var r := Decode(Options(true, ignoreBom), FRESH, s, false);
            && (r.ok <==> WellFormed(s))
            && (r.ok ==> r.output == if !ignoreBom && MARK <= s then s[3..] else s)
  {
    assert [] + s == s;
    FatalScan(s);
    if WellFormed(s) {
      VisibleOctets(Scan(s, false, true).cs, ignoreBom);
    }
  }

  lemma VisibleOctets(cs: seq<Scalar>, ignoreBom: bool)
    ensures var s := Encodes(cs);
            Encodes(Visible(cs, ignoreBom, false)) == if !ignoreBom && MARK <= s then s[3..] else s
  {
    if cs != [] {
      ScanMark(false, true);
      var rest := Encodes(cs[1..]);
      if cs[0] == BOM {
        assert (MARK + rest)[3..] == rest;
      } else if MARK <= Encode(cs[0]) + rest {
        MarkIsBom(cs[0], rest);
      }
    }
  }

  lemma MarkIsBom(c: Scalar, rest: seq<byte>)
    requires MARK <= Encode(c) + rest
    ensures c == BOM
  {
    var s := Encode(c) + rest;
    assert s[0] == MARK[0] && s[1] == MARK[1] && s[2] == MARK[2];
    assert s[0] == Encode(c)[0];
    assert CharLength(s) == 3 && CharLength(Encode(c)) == |Encode(c)|;
    CharLengthPrefix(Encode(c), rest);
    assert s[1] == Encode(c)[1] && s[2] == Encode(c)[2];
  }

  /** Without `fatal` every call succeeds and returns well-formed octets. */
  lemma {:induction false} NonFatalScan(s: seq<byte>, stream: bool)
    ensures Scan(s, stream, false).ok
    decreases |s|
  {
    if s != [] {
      ScanStep(s, stream, false);
      NonFatalScan(Rest(s), stream);
    }
  }

  lemma NonFatalEmitsWellFormed(ignoreBom: bool, d: State, s: seq<byte>, stream: bool)
    ensures var r := Decode(Options(false, ignoreBom), d, s, stream);
            r.ok && WellFormed(r.output)
  {
    NonFatalScan(d.pending + s, stream);
    EncodesWellFormed(Visible(Scan(d.pending + s, stream, false).cs, ignoreBom, d.bomSeen));
  }

  /** On well-formed octets the two modes agree. */
  lemma {:induction false} ModesAgree(s: seq<byte>, stream: bool)
    requires WellFormed(s)
    ensures Scan(s, stream, false) == Scan(s, false, true)
    decreases |s|
  {
    if s != [] {
      NextIsGrammar(s);
      ScanStep(s, stream, false);
      ScanStep(s, false, true);
      ModesAgree(s[CharLength(s)..], stream);
    }
  }

  // ----- what becomes of malformed octets -----

  /** The octets from a lead octet on are too few, and all behind it continue. */
  predicate CutTail(s: seq<byte>) {
    && s != [] && (forall k :: 1 <= k < |s| ==> 0x80 <= s[k] <= 0xBF)
    && ((0xC2 <= s[0] <= 0xDF && |s| < 2) || (0xE0 <= s[0] <= 0xEF && |s| < 3) || (0xF0 <= s[0] <= 0xF4 && |s| < 4))
  }

  /** Well-formed characters stay; EF BF BD stands for a tail that is cut short, and for any other octet by itself. */
  function Repaired(s: seq<byte>): seq<byte>
    decreases |s|
  {
    if s == [] then []
    else if CharLength(s) > 0 then s[..CharLength(s)] + Repaired(s[CharLength(s)..])
    else if CutTail(s) then [0xEF, 0xBF, 0xBD]
    else [0xEF, 0xBF, 0xBD] + Repaired(s[1..])
  }

  lemma CutIsTail(s: seq<byte>)
    requires s != []
    ensures Next(s).Cut? <==> CutTail(s)
  {
    assert AllTail(s[1..]) <==> forall k :: 1 <= k < |s| ==> Tail(s[k]) by {
      assert forall k :: 1 <= k < |s| ==> s[1..][k - 1] == s[k];
    }
  }

  lemma ReplacementOctets()
    ensures Encode(REPLACEMENT) == [0xEF, 0xBF, 0xBD]
  {
  }

  lemma {:induction false} ScanRepairs(s: seq<byte>)
    ensures Encodes(Scan(s, false, false).cs) == Repaired(s)
    decreases |s|
  {
    if s != [] {
      NextIsGrammar(s);
      CutIsTail(s);
      ReplacementOctets();
      ScanStep(s, false, false);
      ScanRepairs(Rest(s));
      hide Encode, Next, CutTail, CharLength;
      EncodesFirst(Emits(Next(s)), Scan(Rest(s), false, false).cs);
    }
  }

  lemma EncodesFirst(c: Scalar, cs: seq<Scalar>)
    ensures Encodes([c] + cs) == Encode(c) + Encodes(cs)
  {
    assert ([c] + cs)[1..] == cs;
  }

  /** What a decoder that is not fatal makes of any octets, told by the grammar alone. */
  lemma NonFatalRepairs(s: seq<byte>)
    ensures Decode(Options(false, true), FRESH, s, false) == Outcome(true, Repaired(s), FRESH)
  {
    assert [] + s == s;
    NonFatalScan(s, false);
    NothingPending(s, false);
    ScanRepairs(s);
  }

  /** Decoding what was decoded changes nothing when the mark is ignored. */
  lemma NonFatalIdempotent(d: State, s: seq<byte>, stream: bool)
    ensures var o := Options(false, true);
            var once := Decode(o, d, s, stream).output;
            Decode(o, FRESH, once, false) == Outcome(true, once, FRESH)
  {
    var once := Decode(Options(false, true), d, s, stream).output;
    NonFatalEmitsWellFormed(true, d, s, stream);
    DecodeWellFormed(Options(false, true), once);
  }

  lemma DecodeWellFormed(o: Options, s: seq<byte>)
    requires WellFormed(s) && o.ignoreBom
    ensures Decode(o, FRESH, s, false) == Outcome(true, s, FRESH)
  {
    assert [] + s == s;
    ModesAgree(s, false);
    FatalScan(s);
    NothingPending(s, true);
  }
}

/** Notebook files whose lines end in a carriage return and a line feed. */
module NotebookLineEnds {
  import opened Notebook
  import opened NotebookLaws

  /** A line feed becomes a carriage return and a line feed. */
  function Crlf(s: string): (r: string)
    ensures |r| >= |s|
  {
    if s == "" then "" else (if s[0] == '\n' then "\r\n" else [s[0]]) + Crlf(s[1..])
  }

  /** The same behind the end of a line, where a carriage return was taken already. */
  function Taken(s: string): string {
    OptCR(Crlf(s))
  }

  predicate OneLine(s: string) {
    '\n' !in s && '\r' !in s
  }

  lemma CrDropped(rest: string)
    ensures OptCR("\r\n" + rest) == "\n" + rest
  {
    assert ("\r\n" + rest)[1..] == "\n" + rest;
  }

  lemma TakenIs(s: string)
    requires '\r' !in s
    ensures Taken(s) == if s != "" && s[0] == '\n' then "\n" + Crlf(s[1..]) else Crlf(s)
    ensures OptCR(s) == s
  {
    if s == "" {
    } else {
      assert s[0] in s;
      if s[0] == '\n' {
        CrDropped(Crlf(s[1..]));
        assert Crlf(s) == "\r\n" + Crlf(s[1..]);
        hide Crlf;
      } else {
        assert Crlf(s)[0] == s[0];
        hide Crlf;
      }
    }
  }

  lemma {:induction false} CrlfConcat(a: string, b: string)
    ensures Crlf(a + b) == Crlf(a) + Crlf(b)
  {
    if a == "" {
      assert a + b == b;
    } else {
      assert (a + b)[1..] == a[1..] + b;
      CrlfConcat(a[1..], b);
    }
  }

  lemma {:induction false} CrlfLine(s: string)
    requires '\n' !in s
    ensures Crlf(s) == s
  {
    if s != "" {
      assert s[0] in s;
      CrlfLine(s[1..]);
    }
  }

  /** A text within a line stands at the front of both or of neither. */
  lemma {:induction false} StartsSame(s: string, l: string)
    requires OneLine(l)
    ensures Starts(Crlf(s), l) <==> Starts(s, l)
    ensures Starts(s, l) ==> Crlf(s)[|l|..] == Crlf(s[|l|..])
  {
    if l == "" {
      assert s[0..] == s && Crlf(s)[0..] == Crlf(s);
    } else if s != "" {
      assert l[0] in l;
      StartsSame(s[1..], l[1..]);
      StartsCons(s, l);
      StartsCons(Crlf(s), l);
      if s[0] == '\n' {
        assert Crlf(s)[0] == '\r';
      } else {
        assert Crlf(s)[1..] == Crlf(s[1..]);
        assert Starts(s, l) ==> s[1..][|l| - 1..] == s[|l|..] && Crlf(s)[1..][|l| - 1..] == Crlf(s)[|l|..];
      }
    }
  }

  lemma StartsCons(s: string, l: string)
    requires l != ""
    ensures Starts(s, l) <==> s != "" && s[0] == l[0] && Starts(s[1..], l[1..])
  {
    if s != "" && s[0] == l[0] && Starts(s[1..], l[1..]) {
      assert l == [l[0]] + l[1..] && s == [s[0]] + s[1..];
      assert forall k :: 0 < k < |l| ==> l[k] == l[1..][k - 1] && s[k] == s[1..][k - 1];
    }
  }

  /** The start of a line, and then a text within it. */
  lemma LineStartsSame(s: string, l: string)
    requires '\r' !in s && OneLine(l)
    ensures Starts(Taken(s), "\n" + l) <==> Starts(s, "\n" + l)
    ensures Starts(s, "\n" + l) ==>
              '\r' !in s[|l| + 1..] && Taken(s)[|l| + 1..] == Crlf(s[|l| + 1..])
  {
    TakenIs(s);
    StartsCons(s, "\n" + l);
    StartsCons(Taken(s), "\n" + l);
    assert ("\n" + l)[1..] == l;
    if s != "" && s[0] == '\n' {
      StartsSame(s[1..], l);
      assert Taken(s)[1..] == Crlf(s[1..]);
      if Starts(s, "\n" + l) {
        assert s[1..][|l|..] == s[|l| + 1..] && Taken(s)[1..][|l|..] == Taken(s)[|l| + 1..];
      }
    } else if s != "" {
      assert Taken(s)[0] == s[0];
    }
  }

  lemma {:induction false} RunLength(s: string, colon: bool)
    requires '\r' !in s
    ensures Run(Crlf(s), colon) == Run(s, colon)
  {
    if s != "" {
      var rest := Crlf(s[1..]);
      assert s[0] in s;
      assert Crlf(s) == (if s[0] == '\n' then "\r\n" else [s[0]]) + rest;
      hide Crlf;
      assert s[0] != '\n' ==> Crlf(s)[1..] == rest;
      RunLength(s[1..], colon);
    }
  }

  lemma {:induction false} NoBreakInRun(s: string, colon: bool)
    ensures '\n' !in s[..Run(s, colon)]
  {
    if Run(s, colon) > 0 {
      NoBreakInRun(s[1..], colon);
      assert s[..Run(s, colon)] == [s[0]] + s[1..][..Run(s[1..], colon)];
    }
  }

  /** The rest of a line goes the same way on both texts. */
  lemma RunSame(s: string, colon: bool)
    requires '\r' !in s
    ensures var n := Run(s, colon);
            Run(Crlf(s), colon) == n && Crlf(s)[..n] == s[..n] && Crlf(s)[n..] == Crlf(s[n..])
  {
    RunLength(s, colon);
    NoBreakInRun(s, colon);
    LineTaken(s, Run(s, colon));
    hide Run, Crlf;
  }

  lemma LineTaken(s: string, n: nat)
    requires n <= |s| && '\n' !in s[..n]
    ensures n <= |Crlf(s)| && Crlf(s)[..n] == s[..n] && Crlf(s)[n..] == Crlf(s[n..])
  {
    CrlfConcat(s[..n], s[n..]);
    CrlfLine(s[..n]);
    assert s[..n] + s[n..] == s;
    hide Crlf;
  }

  /** A match that goes the same way on both texts. */
  predicate Alike(a: Match, b: Match) {
    a.ok == b.ok && a.calls == b.calls && '\r' !in b.rest && a.rest == Taken(b.rest)
  }

  lemma OneLineConcat(a: string, b: string)
    requires OneLine(a) && OneLine(b)
    ensures OneLine(a + b)
  {
  }

  lemma FieldsOneLine()
    ensures OneLine(TYPE) && OneLine(ROLE)
  {
  }

  lemma PrefixOneLine()
    ensures OneLine("Content-type: multipart/mixed; boundary=\"")
  {
  }

  lemma HeaderOneLine()
    ensures OneLine(Header())
  {
    var prefix := "Content-type: multipart/mixed; boundary=\"";
    PrefixOneLine();
    BoundaryOneLine();
    assert OneLine("\"") && Header() == prefix + Boundary() + "\"";
    hide *;
    OneLineConcat(prefix, Boundary());
    OneLineConcat(prefix + Boundary(), "\"");
  }

  lemma BoundaryOneLine()
    ensures OneLine(Boundary()) && OneLine(Boundary() + "--")
  {
    BoundaryFacts();
    hide Boundary;
    assert OneLine("--");
    OneLineConcat(Boundary(), "--");
  }

  lemma LiteralAlike(s: string, l: string)
    requires '\r' !in s && OneLine(l) && Starts(s, "\n" + l)
    ensures OptCR(Taken(s)[|l| + 1..]) == Taken(s[|l| + 1..]) && OptCR(s[|l| + 1..]) == s[|l| + 1..]
    ensures '\r' !in s[|l| + 1..]
  {
    LineStartsSame(s, l);
    TakenIs(s[|l| + 1..]);
  }

  lemma BoundaryAlike(s: string)
    requires '\r' !in s
    ensures Alike(BoundaryEnd(Taken(s)), BoundaryEnd(s)) && Alike(BoundaryLine(Taken(s)), BoundaryLine(s))
  {
    BoundaryOneLine();
    hide Taken, Boundary, OptCR;
    var l := Boundary() + "--";
    assert "\n" + Boundary() + "--" == "\n" + l;
    LineStartsSame(s, l);
    LineStartsSame(s, Boundary());
    if Starts(s, "\n" + l) {
      LiteralAlike(s, l);
    }
    if Starts(s, "\n" + Boundary()) {
      LiteralAlike(s, Boundary());
    }
  }

  lemma FieldAlike(s: string, name: string)
    requires '\r' !in s && OneLine(name)
    ensures Alike(Field(Taken(s), name), Field(s, name))
  {
    hide Taken, OptCR, OneLine;
    LineStartsSame(s, name);
    if Starts(s, "\n" + name) {
      var v := s[|name| + 1..];
      RunSame(v, true);
      ValueAlike(v, Run(v, true));
    }
  }

  lemma ValueAlike(v: string, n: nat)
    requires '\r' !in v && n <= |v|
    ensures '\r' !in v[n..] && OptCR(v[n..]) == v[n..] && OptCR(Crlf(v[n..])) == Taken(v[n..])
  {
    TakenIs(v[n..]);
  }

  lemma TextAlike(s: string)
    requires '\r' !in s
    ensures Alike(TextLine(Taken(s)), TextLine(s))
  {
    hide Taken, OptCR;
    LineStartsSame(s, "");
    assert "\n" + "" == "\n";
    if Starts(s, "\n") {
      var v := s[1..];
      RunSame(v, false);
      ValueAlike(v, Run(v, false));
    }
  }

  lemma BlankAlike(s: string)
    requires '\r' !in s
    ensures Starts(Taken(s), "\n") <==> Starts(s, "\n")
    ensures Starts(s, "\n") ==> OptCR(Taken(s)[1..]) == Taken(s[1..]) && OptCR(s[1..]) == s[1..] && '\r' !in s[1..]
  {
    LineStartsSame(s, "");
    assert "\n" + "" == "\n";
    if Starts(s, "\n") {
      LiteralAlike(s, "");
    }
  }

  lemma SectionAlike(s: string)
    requires '\r' !in s
    ensures Alike(Section(Taken(s)), Section(s))
  {
    BoundaryAlike(s);
    FieldsOneLine();
    hide Taken, OptCR, OneLine, BoundaryLine, Field, Starts, BoundaryEnd;
    var b := BoundaryLine(s);
    if b.ok {
      FieldAlike(b.rest, TYPE);
      var t := Field(b.rest, TYPE);
      if t.ok {
        FieldAlike(t.rest, ROLE);
        BlankAlike(Field(t.rest, ROLE).rest);
      }
    }
  }

  lemma ItemAlike(s: string)
    requires '\r' !in s
    ensures Alike(Item(Taken(s)), Item(s))
  {
    BoundaryAlike(s);
    SectionAlike(s);
    TextAlike(s);
    hide Taken, BoundaryEnd, Section, TextLine;
  }

  lemma {:induction false} ItemsAlike(s: string)
    requires '\r' !in s
    ensures Items(Taken(s)) == Items(s)
    decreases |s|
  {
    ItemAlike(s);
    hide Taken, Item;
    if Item(s).ok {
      ItemsAlike(Item(s).rest);
    }
  }

  /** The parsers take the same calls from a file whose lines end in CR LF. */
  lemma CallsAlike(text: string)
    requires '\r' !in text
    ensures Calls(Crlf(text)) == Calls(text)
  {
    HeaderOneLine();
    hide Header, Boundary;
    var l := Header();
    StartsSame(text, l);
    if Starts(text, l) {
      var s := text[|l|..];
      TakenIs(s);
      BlankAlike(s);
      if Starts(s, "\n") {
        hide Taken, Items;
        ItemsAlike(s[1..]);
      }
    }
  }

  /** A notebook reads the same with either line ends, in the editor and for a run. */
  lemma EitherLineEnds(text: string)
    requires '\r' !in text
    ensures EditorReading(Crlf(text)) == EditorReading(text) && RunReading(Crlf(text)) == RunReading(text)
  {
    CallsAlike(text);
    hide Calls, EditorCalls, RunnerCalls;
  }
}

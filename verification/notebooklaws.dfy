/** Saving and loading notebooks against each other. */
module NotebookLaws {
  import opened Json
  import opened Wrappers
  import opened Notebook
  import opened Strings

  // ----- which cells survive -----

  predicate NoBoundaryLine(s: string) {
    forall k :: 0 <= k <= |s| && (k == 0 || s[k - 1] == '\n') ==> !(Boundary() <= s[k..])
  }

  /** Text without CR and NUL, no line of which starts with the boundary. */
  predicate Clean(s: string) {
    '\r' !in s && '\0' !in s && NoBoundaryLine(s)
  }

  predicate CleanRole(s: string) {
    '\r' !in s && '\0' !in s && '\n' !in s && ':' !in s
  }

  predicate CleanCell(c: Cell) {
    && (c.code.Some? ==> Clean(c.code.value))
    && (c.role.Some? ==> CleanRole(c.role.value))
    && (c.body.Some? ==> Clean(c.body.value))
  }

  predicate CleanCells(cells: seq<Cell>) {
    forall k :: 0 <= k < |cells| ==> CleanCell(cells[k])
  }

  predicate CleanPart(p: Part) {
    match p
    case Code(code, role) => Clean(code) && (role.Some? ==> CleanRole(role.value))
    case Data(data) => Clean(data)
  }

  predicate CleanParts(ps: seq<Part>) {
    forall k :: 0 <= k < |ps| ==> CleanPart(ps[k])
  }

  lemma {:induction false} CStringWhole(s: string)
    requires '\0' !in s
    ensures CString(s) == s
  {
    if s != "" {
      CStringWhole(s[1..]);
    }
  }

  /** Of a member that has a NUL in it, what is before goes into the file. */
  lemma CutAtNul(code: string, role: string, body: string, more: string)
    requires '\0' !in code && '\0' !in role && '\0' !in body
    ensures PartsOf(Cell(Some(code + "\0" + more), Some(role + "\0" + more), Some(body + "\0" + more)))
         == [Code(code, Some(role)), Data(body)]
  {
    CStringUpTo(code, more);
    CStringUpTo(role, more);
    CStringUpTo(body, more);
  }

  // ----- the file itself -----

  /** A part of code as it stands in a file, and a part of data. */
  lemma PartsPrinted(code: string, role: string, data: string, rest: string)
    ensures PrintOnto(Code(code, Some(role)), rest)
         == "--notojs-313960ee-e195-4a1e-a796-e881cd5553c2" + "\nContent-type: application/javascript\n"
            + ("Content-role: " + role + "\n") + "\n" + code + "\n" + rest
    ensures PrintOnto(Data(data), rest)
         == "--notojs-313960ee-e195-4a1e-a796-e881cd5553c2" + "\nContent-type: application/json\n"
            + "" + "\n" + data + "\n" + rest
  {
    BoundaryIs();
    ScriptType();
    JsonType();
    PrintThen(Code(code, Some(role)), rest);
    PrintThen(Data(data), rest);
    var b := Boundary();
    hide Boundary, PrintOnto;
    PartFlat(b, SCRIPT, "Content-role: " + role + "\n", code, rest);
    PartFlat(b, JSON, "", data, rest);
  }

  lemma BoundaryIs()
    ensures Boundary() == "--notojs-313960ee-e195-4a1e-a796-e881cd5553c2"
  {
  }

  lemma ScriptType()
    ensures "\n" + TYPE + SCRIPT + "\n" == "\nContent-type: application/javascript\n"
  {
  }

  lemma JsonType()
    ensures "\n" + TYPE + JSON + "\n" == "\nContent-type: application/json\n"
  {
  }

  lemma PartFlat(b: string, kind: string, role: string, text: string, rest: string)
    ensures b + ("\n" + TYPE) + kind + "\n" + role + "\n" + text + ("\n" + rest)
         == b + ("\n" + TYPE + kind + "\n") + role + "\n" + text + "\n" + rest
  {
    hide *;
    var x := "\n" + TYPE;
    assert b + x + kind + "\n" == b + (x + kind + "\n");
    assert b + (x + kind + "\n") + role + "\n" + text + ("\n" + rest)
        == b + (x + kind + "\n") + role + "\n" + text + "\n" + rest;
  }

  // ----- the grammar on lines -----

  lemma BoundaryFacts()
    ensures Boundary() != "" && Boundary()[0] == '-' && '\n' !in Boundary() && '\r' !in Boundary()
  {
    assert '\n' !in "--notojs-" && '\r' !in "--notojs-" && '\n' !in "313960ee" && '\r' !in "313960ee";
    assert '\n' !in "-e195-4a1e" && '\r' !in "-e195-4a1e" && '\n' !in "-a796-" && '\r' !in "-a796-";
    assert '\n' !in "e881cd5553c2" && '\r' !in "e881cd5553c2";
    assert "--notojs-"[0] == '-';
  }

  lemma StartsLine(s: string, l: string)
    ensures Starts("\n" + s, "\n" + l) <==> Starts(s, l)
    ensures Starts(s, l) ==> ("\n" + s)[|"\n" + l|..] == s[|l|..]
  {
    if Starts(s, l) {
      assert "\n" + s == "\n" + l + s[|l|..];
    }
    if Starts("\n" + s, "\n" + l) {
      assert s == ("\n" + s)[1..] && l == ("\n" + l)[1..];
    }
  }

  /** A line end cannot be part of the boundary, so what starts with it does so within a line. */
  lemma StartsWithin(s: string, rest: string)
    requires rest != "" && rest[0] == '\n'
    ensures Starts(s + rest, Boundary()) ==> Boundary() <= s
  {
    BoundaryFacts();
    hide Boundary;
    if Starts(s + rest, Boundary()) {
      assert (s + rest)[|s|] == '\n' && Boundary() == (s + rest)[..|Boundary()|];
      assert (s + rest)[..|Boundary()|] == s[..|Boundary()|];
    }
  }

  lemma {:induction false} RunStops(s: string, rest: string, colon: bool)
    requires '\r' !in s && '\n' !in s && (colon ==> ':' !in s)
    requires rest == "" || rest[0] == '\n'
    ensures Run(s + rest, colon) == |s|
  {
    if s == "" {
      assert s + rest == rest;
    } else {
      assert (s + rest)[1..] == s[1..] + rest;
      RunStops(s[1..], rest, colon);
    }
  }

  lemma {:induction false} RunIsLine(s: string)
    requires '\r' !in s
    ensures var n := Run(s, false);
            '\n' !in s[..n] && (n < |s| ==> s[n] == '\n')
  {
    if Run(s, false) > 0 {
      RunIsLine(s[1..]);
      assert s[..Run(s, false)] == [s[0]] + s[1..][..Run(s[1..], false)];
    }
  }

  /** The calls for the lines of `s`, taken at its line ends. */
  function LineCalls(s: string): seq<Action>
    decreases |s|
  {
    var n := Run(s, false);
    [Line(s[..n])] + if n < |s| then LineCalls(s[n + 1..]) else []
  }

  /** A line of text is one item, wherever it ends. */
  lemma LineItem(line: string, rest: string)
    requires '\r' !in line && '\n' !in line && !(Boundary() <= line) && rest != "" && rest[0] == '\n'
    ensures Item("\n" + line + rest) == Match(true, rest, [Line(line)])
  {
    hide Boundary, Run;
    var s := line + rest;
    assert "\n" + line + rest == "\n" + s;
    StartsWithin(line, rest);
    StartsLine(s, Boundary());
    StartsLine(s, Boundary() + "--");
    assert Starts(s, Boundary() + "--") ==> Starts(s, Boundary());
    assert "\n" + (Boundary() + "--") == "\n" + Boundary() + "--";
    RunStops(line, rest, false);
    assert ("\n" + s)[1..] == s && s[..|line|] == line && s[|line|..] == rest;
  }

  /** A text is its first line, a line end and the rest. */
  lemma FirstLine(s: string, n: nat, rest: string)
    requires n < |s| && s[n] == '\n'
    ensures "\n" + s + rest == "\n" + s[..n] + ("\n" + s[n + 1..] + rest)
  {
    SplitAt(s, n);
    var line, tail := s[..n], s[n + 1..];
    assert "\n" + (line + "\n" + tail) + rest == "\n" + line + ("\n" + tail + rest);
  }

  /** The first line is no boundary and has no line end. */
  lemma FirstClean(s: string, n: nat)
    requires '\r' !in s && NoBoundaryLine(s) && n <= |s|
    ensures '\r' !in s[..n] && !(Boundary() <= s[..n])
  {
    hide Boundary;
    assert s[0..] == s;
    assert Boundary() <= s[..n] ==> Boundary() <= s;
  }

  lemma ItemThen(line: string, rest: string)
    requires '\r' !in line && '\n' !in line && !(Boundary() <= line) && rest != "" && rest[0] == '\n'
    ensures Items("\n" + line + rest) == [Line(line)] + Items(rest)
  {
    LineItem(line, rest);
    hide Item, Boundary;
  }

  /** Text is read back line by line. */
  lemma {:induction false} LinesParsed(s: string, rest: string)
    requires '\r' !in s && NoBoundaryLine(s) && rest != "" && rest[0] == '\n'
    ensures Items("\n" + s + rest) == LineCalls(s) + Items(rest)
    decreases |s|
  {
    hide Boundary, Item, Items, Run, NoBoundaryLine, LineCalls;
    var n := Run(s, false);
    RunIsLine(s);
    LineCallsUnfold(s);
    var line := s[..n];
    FirstClean(s, n);
    if n == |s| {
      assert line == s;
      ItemThen(s, rest);
    } else {
      var tail := s[n + 1..];
      FirstLine(s, n, rest);
      ItemThen(line, "\n" + tail + rest);
      TailClean(s, n + 1);
      LinesParsed(tail, rest);
      CallsAssoc([Line(line)], LineCalls(tail), Items(rest));
    }
  }

  lemma CallsAssoc(a: seq<Action>, b: seq<Action>, c: seq<Action>)
    ensures a + (b + c) == a + b + c
  {
  }

  lemma TailClean(s: string, n: nat)
    requires 0 < n <= |s| && s[n - 1] == '\n' && NoBoundaryLine(s)
    ensures NoBoundaryLine(s[n..])
  {
    hide Boundary;
    var tail := s[n..];
    forall k | 0 <= k <= |tail| && (k == 0 || tail[k - 1] == '\n') ensures !(Boundary() <= tail[k..]) {
      assert tail[k..] == s[n + k..];
    }
  }

  // ----- the grammar on parts -----

  function RoleCalls(role: Option<string>): seq<Action> {
    match role case None => [] case Some(r) => [Role(r)]
  }

  function PartCalls(p: Part): seq<Action> {
    [EndPart, Type(Kind(p))] + RoleCalls(RoleOf(p)) + LineCalls(TextOf(p))
  }

  function AllCalls(ps: seq<Part>): seq<Action> {
    if ps == [] then [] else PartCalls(ps[0]) + AllCalls(ps[1..])
  }

  lemma FieldParsed(name: string, value: string, rest: string)
    requires name == TYPE || name == ROLE
    requires CleanRole(value) && rest != "" && rest[0] == '\n'
    ensures Field("\n" + name + (value + rest), name)
         == Match(true, rest, [if name == TYPE then Type(value) else Role(value)])
  {
    hide Run;
    var l := "\n" + name;
    assert (l + (value + rest))[|l|..] == value + rest;
    RunStops(value, rest, true);
    assert (value + rest)[..|value|] == value && (value + rest)[|value|..] == rest;
  }

  lemma RoleParsed(role: Option<string>, rest: string)
    requires (role.Some? ==> CleanRole(role.value)) && rest != "" && rest[0] == '\n'
    ensures var m := Field("\n" + (RoleLine(role) + rest), ROLE);
            m.rest == "\n" + rest && m.calls == RoleCalls(role)
  {
    hide Run;
    match role
    case Some(r) =>
      FieldParsed(ROLE, r, "\n" + rest);
      Assoc(ROLE, r, "\n");
      Assoc(ROLE, r + "\n", rest);
      Assoc(r, "\n", rest);
      Assoc("\n", ROLE, r + ("\n" + rest));
    case None =>
      assert "" + rest == rest;
      assert ("\n" + rest)[1] == '\n' && ("\n" + ROLE)[1] == 'C';
  }

  lemma KindClean(p: Part)
    ensures CleanRole(Kind(p))
  {
    assert CleanRole("application/");
    assert CleanRole("javascript");
    assert CleanRole("json");
  }

  /** The opening lines of a part are one item. */
  lemma SectionItem(p: Part, rest: string)
    requires CleanPart(p)
    ensures Item("\n" + PrintOnto(p, rest))
         == Match(true, "\n" + (TextOf(p) + ("\n" + rest)), [EndPart, Type(Kind(p))] + RoleCalls(RoleOf(p)))
  {
    BoundaryFacts();
    KindClean(p);
    hide Boundary, Kind, Run, Clean, Field, RoleLine, RoleCalls;
    var w := "\n" + (TextOf(p) + ("\n" + rest));
    var z := "\n" + (RoleLine(RoleOf(p)) + w);
    var y := "\n" + TYPE + (Kind(p) + z);
    var s := "\n" + (Boundary() + y);
    assert s == "\n" + PrintOnto(p, rest);
    StartsLine(Boundary() + y, Boundary());
    assert (Boundary() + y)[|Boundary()|..] == y && y[0] == '\n';
    assert BoundaryLine(s) == Match(true, y, [EndPart]);
    assert !BoundaryEnd(s).ok by {
      assert s[|"\n" + Boundary()|] == '\n' && ("\n" + Boundary() + "--")[|"\n" + Boundary()|] == '-';
    }
    FieldParsed(TYPE, Kind(p), z);
    RoleParsed(RoleOf(p), w);
    assert ("\n" + w)[1..] == w;
    assert [EndPart] + [Type(Kind(p))] + RoleCalls(RoleOf(p)) == [EndPart, Type(Kind(p))] + RoleCalls(RoleOf(p));
  }

  lemma PartParsed(p: Part, rest: string)
    requires CleanPart(p)
    ensures Items("\n" + PrintOnto(p, rest)) == PartCalls(p) + Items("\n" + rest)
  {
    hide Item, PrintOnto, Boundary, LineCalls;
    SectionItem(p, rest);
    LinesParsed(TextOf(p), "\n" + rest);
    Assoc("\n", TextOf(p), "\n" + rest);
    var opening := [EndPart, Type(Kind(p))] + RoleCalls(RoleOf(p));
    assert opening + (LineCalls(TextOf(p)) + Items("\n" + rest)) == opening + LineCalls(TextOf(p)) + Items("\n" + rest);
  }

  lemma EndParsed()
    ensures Items("\n" + (Boundary() + "--")) == [EndPart]
  {
    hide Boundary;
    var s := "\n" + (Boundary() + "--");
    assert s == "\n" + Boundary() + "--" && s[|s|..] == "";
    assert Item(s) == Match(true, "", [EndPart]);
    assert Item("") == Match(false, "", []);
  }

  lemma {:induction false} AllParsed(ps: seq<Part>)
    requires CleanParts(ps)
    ensures Items("\n" + PrintsOnto(ps, Boundary() + "--")) == AllCalls(ps) + [EndPart]
  {
    hide Item, PrintOnto, Boundary, PartCalls;
    if ps == [] {
      EndParsed();
    } else {
      PartParsed(ps[0], PrintsOnto(ps[1..], Boundary() + "--"));
      AllParsed(ps[1..]);
      assert PartCalls(ps[0]) + (AllCalls(ps[1..]) + [EndPart]) == AllCalls(ps) + [EndPart];
    }
  }

  lemma Dropped(a: string, b: string)
    ensures a <= a + b && (a + b)[|a|..] == b
  {
  }

  /** The calls on a printed file are those of its parts, in order. */
  lemma FileParsed(ps: seq<Part>)
    requires CleanParts(ps)
    ensures Calls(FileText(ps)) == AllCalls(ps) + [EndPart]
  {
    hide Items, PrintsOnto, Boundary, Header;
    var x := PrintsOnto(ps, Boundary() + "--");
    AllParsed(ps);
    Assoc(Header(), "\n\n", x);
    Dropped(Header(), "\n\n" + x);
    assert ("\n\n" + x)[1..] == "\n" + x;
  }

  // ----- what the editor makes of the calls -----

  lemma EditorCons(p: Editor, a: Action, rest: seq<Action>)
    ensures EditorCalls(p, [a] + rest) == EditorCalls(EditorCall(p, a), rest)
  {
    hide EditorCall;
    assert ([a] + rest)[1..] == rest;
  }

  /** A text is put together again from its lines. */
  lemma Rejoined(before: string, line: string, tail: string)
    ensures before + line + "\n" + tail + "\n" == before + (line + "\n" + tail) + "\n"
  {
  }

  lemma SplitAt(s: string, n: nat)
    requires n < |s| && s[n] == '\n'
    ensures s == s[..n] + "\n" + s[n + 1..]
  {
  }

  /** The call for the first line of `s` and what is left of it. */
  lemma LineCallsStep(s: string)
    requires '\r' !in s
    ensures var n := Run(s, false);
            if n < |s| then LineCalls(s) == [Line(s[..n])] + LineCalls(s[n + 1..]) && s == s[..n] + "\n" + s[n + 1..]
            else LineCalls(s) == [Line(s)]
  {
    var n := Run(s, false);
    RunIsLine(s);
    LineCallsUnfold(s);
    hide Run, LineCalls;
    if n < |s| {
      SplitAt(s, n);
    } else {
      assert s[..n] == s;
    }
  }

  lemma {:induction false} LineCallsUnfold(s: string)
    ensures var n := Run(s, false);
            LineCalls(s) == if n < |s| then [Line(s[..n])] + LineCalls(s[n + 1..]) else [Line(s[..n])]
  {
    hide Run;
  }

  lemma {:induction false} EditorLines(p: Editor, s: string, rest: seq<Action>)
    requires '\r' !in s
    ensures EditorCalls(p, LineCalls(s) + rest) == EditorCalls(p.(content := p.content + s + "\n"), rest)
    decreases |s|
  {
    hide EditorCalls, LineCalls, Run;
    var n := Run(s, false);
    LineCallsStep(s);
    if n < |s| {
      var line, tail := s[..n], s[n + 1..];
      EditorCons(p, Line(line), LineCalls(tail) + rest);
      assert [Line(line)] + LineCalls(tail) + rest == [Line(line)] + (LineCalls(tail) + rest);
      EditorLines(EditorCall(p, Line(line)), tail, rest);
      Rejoined(p.content, line, tail);
    } else {
      EditorCons(p, Line(s), rest);
    }
  }

  /** The parser with a part read, of which only the end is missing. */
  function Pending(q: Editor, p: Part): Editor {
    q.(kind := Some(Kind(p)), content := TextOf(p) + "\n", role := if RoleOf(p).Some? then RoleOf(p) else q.role)
  }

  lemma EditorPart(q: Editor, p: Part, rest: seq<Action>)
    requires CleanPart(p)
    ensures EditorCalls(q, PartCalls(p) + rest) == EditorCalls(Pending(EditorCall(q, EndPart), p), rest)
  {
    hide Kind, LineCalls, EditorCalls;
    var e := EditorCall(q, EndPart);
    var t := EditorCall(e, Type(Kind(p)));
    var lines := LineCalls(TextOf(p)) + rest;
    assert PartCalls(p) + rest == [EndPart] + ([Type(Kind(p))] + (RoleCalls(RoleOf(p)) + lines));
    EditorCons(q, EndPart, [Type(Kind(p))] + (RoleCalls(RoleOf(p)) + lines));
    EditorCons(e, Type(Kind(p)), RoleCalls(RoleOf(p)) + lines);
    assert "" + TextOf(p) == TextOf(p);
    match RoleOf(p)
    case None =>
      assert RoleCalls(None) + lines == lines;
      EditorLines(t, TextOf(p), rest);
    case Some(r) =>
      EditorCons(t, Role(r), lines);
      EditorLines(EditorCall(t, Role(r)), TextOf(p), rest);
  }

  /** The editor after the parts `ps`, each read and ended. */
  function Written(q: Editor, ps: seq<Part>): Editor
    decreases |ps|
  {
    if ps == [] then q else Written(EditorCall(Pending(q, ps[0]), EndPart), ps[1..])
  }

  lemma {:induction false} EditorParts(q: Editor, ps: seq<Part>)
    requires CleanParts(ps)
    ensures EditorCalls(q, AllCalls(ps) + [EndPart]) == Written(EditorCall(q, EndPart), ps)
    decreases |ps|
  {
    hide EditorCall, PartCalls, Pending, EditorCalls, CleanPart;
    if ps == [] {
      EditorCons(q, EndPart, []);
      assert [] + [EndPart] == [EndPart] + [];
      EditorNothing(EditorCall(q, EndPart));
    } else {
      var rest := AllCalls(ps[1..]) + [EndPart];
      assert PartCalls(ps[0]) + AllCalls(ps[1..]) + [EndPart] == PartCalls(ps[0]) + rest;
      EditorPart(q, ps[0], rest);
      EditorParts(Pending(EditorCall(q, EndPart), ps[0]), ps[1..]);
    }
  }

  lemma EditorNothing(q: Editor)
    ensures EditorCalls(q, []) == q
  {
  }

  lemma {:induction false} WrittenConcat(q: Editor, a: seq<Part>, b: seq<Part>)
    ensures Written(q, a + b) == Written(Written(q, a), b)
    decreases |a|
  {
    hide EditorCall, Pending;
    if a == [] {
      assert a + b == b;
    } else {
      assert (a + b)[1..] == a[1..] + b;
      WrittenConcat(EditorCall(Pending(q, a[0]), EndPart), a[1..], b);
    }
  }

  // ----- the round trip -----

  /** A cell as the editor gets it. */
  datatype Shown = Shown(code: string, role: Option<string>, body: Option<string>)

  /** Cells without code are not saved; a body comes back with one more line end. */
  function Expected(cells: seq<Cell>): seq<Shown> {
    if cells == [] then []
    else
      var c := cells[0];
      (match c.code
       case None => []
       case Some(code) =>
         [Shown(code, c.role, match c.body case None => None case Some(b) => Some(b + "\n"))])
      + Expected(cells[1..])
  }

  function OptMember(key: string, value: Option<string>): seq<Event> {
    match value case None => [] case Some(v) => [Member(key, v)]
  }

  function ObjectOf(c: Shown): seq<Event> {
    [StartObject, Member("code", c.code)] + OptMember("role", c.role) + OptMember("body", c.body) + [EndObject]
  }

  function ObjectsOf(cs: seq<Shown>): seq<Event> {
    if cs == [] then [] else ObjectOf(cs[0]) + ObjectsOf(cs[1..])
  }

  function Closed(q: Editor): seq<Event> {
    q.out + if q.started then [EndObject] else []
  }

  lemma CodeWritten(q: Editor, code: string, role: Option<string>)
    requires q.role == None
    ensures var w := EditorCall(Pending(q, Code(code, role)), EndPart);
            && w.role == None && w.started
            && w.out == Closed(q) + [StartObject, Member("code", code)] + OptMember("role", role)
  {
    assert DropLast(code + "\n") == code;
  }

  lemma DataWritten(q: Editor, data: string)
    requires q.role == None
    ensures var w := EditorCall(Pending(q, Data(data)), EndPart);
            w.role == None && w.started == q.started && w.out == q.out + [Member("body", data + "\n")]
  {
    assert JSON[12] == 'j' && SCRIPT[12] == 'j' && JSON[13] != SCRIPT[13];
  }

  lemma WrittenOne(q: Editor, p: Part)
    ensures Written(q, [p]) == EditorCall(Pending(q, p), EndPart)
  {
    hide EditorCall, Pending;
    assert [p][1..] == [];
  }

  lemma CellWritten(q: Editor, c: Cell)
    requires CleanCell(c) && q.role == None && c.code.Some?
    ensures var w := Written(q, PartsOf(c));
            && w.role == None
            && Closed(w) == Closed(q) + ObjectOf(Expected([c])[0])
  {
    hide EditorCall, Pending, NoBoundaryLine;
    var code := c.code.value;
    CStringWhole(code);
    if c.role.Some? {
      CStringWhole(c.role.value);
    }
    CodeWritten(q, code, c.role);
    var w := EditorCall(Pending(q, Code(code, c.role)), EndPart);
    match c.body
    case None =>
      assert PartsOf(c) == [Code(code, c.role)];
      WrittenOne(q, Code(code, c.role));
    case Some(b) =>
      CStringWhole(b);
      DataWritten(w, b);
      assert PartsOf(c) == [Code(code, c.role)] + [Data(b)];
      WrittenConcat(q, [Code(code, c.role)], [Data(b)]);
      WrittenOne(q, Code(code, c.role));
      WrittenOne(w, Data(b));
  }

  lemma {:induction false} CellsWritten(q: Editor, cells: seq<Cell>)
    requires CleanCells(cells) && q.role == None
    ensures Closed(Written(q, Parts(cells))) == Closed(q) + ObjectsOf(Expected(cells))
    decreases |cells|
  {
    hide PartsOf, ObjectOf, Closed, CleanCell;
    if cells != [] {
      var c, rest := cells[0], cells[1..];
      WrittenConcat(q, PartsOf(c), Parts(rest));
      if c.code.None? {
        NoParts(c);
        assert [] + Expected(rest) == Expected(rest);
        CellsWritten(q, rest);
      } else {
        CellWritten(q, c);
        CellsWritten(Written(q, PartsOf(c)), rest);
        ExpectedCons(c, rest);
        assert cells == [c] + rest;
      }
    }
  }

  lemma NoParts(c: Cell)
    requires c.code.None?
    ensures PartsOf(c) == []
  {
  }

  lemma ExpectedCons(c: Cell, rest: seq<Cell>)
    requires c.code.Some?
    ensures Expected([c] + rest) == [Expected([c])[0]] + Expected(rest)
    ensures ObjectsOf(Expected([c] + rest)) == ObjectOf(Expected([c])[0]) + ObjectsOf(Expected(rest))
  {
    hide ObjectOf;
    assert ([c] + rest)[1..] == rest && Expected([]) == [];
    var e := Expected([c])[0];
    assert ([e] + Expected(rest))[1..] == Expected(rest);
  }

  /**
   Loading what was saved gives back every cell with code, in order: its code and role
   as they were and its body with one added line end.
   */
  lemma SaveThenLoad(cells: seq<Cell>)
    requires CleanCells(cells)
    ensures EditorReading(FileText(Parts(cells))) == ObjectsOf(Expected(cells))
  {
    hide Calls, FileText, AllCalls, Parts, Expected, ObjectsOf, CleanCells;
    var ps := Parts(cells);
    PartsClean(cells);
    FileParsed(ps);
    EditorParts(EDITOR, ps);
    assert EditorCall(EDITOR, EndPart) == EDITOR;
    CellsWritten(EDITOR, cells);
    assert [] + ObjectsOf(Expected(cells)) == ObjectsOf(Expected(cells));
  }

  lemma {:induction false} PartsClean(cells: seq<Cell>)
    requires CleanCells(cells)
    ensures CleanParts(Parts(cells))
    decreases |cells|
  {
    hide Clean, CleanRole;
    if cells != [] {
      assert CleanCell(cells[0]);
      PartsClean(cells[1..]);
      CellPartsClean(cells[0]);
    }
  }

  lemma CellPartsClean(c: Cell)
    requires CleanCell(c)
    ensures CleanParts(PartsOf(c))
  {
    hide NoBoundaryLine;
    if c.code.Some? {
      CStringWhole(c.code.value);
      if c.role.Some? {
        CStringWhole(c.role.value);
      }
      if c.body.Some? {
        CStringWhole(c.body.value);
      }
    }
  }
}

/** The reading of a saved notebook for a run, against the editor's reading of the same text. */
module NotebookRunLaws {
  import opened Json
  import opened Wrappers
  import opened Notebook
  import opened Strings
  import opened NotebookLaws

  // ----- the calls, as the run's parser takes them -----

  lemma RunnerCons(p: Runner, a: Action, rest: seq<Action>)
    ensures RunnerCalls(p, [a] + rest) == RunnerCalls(RunnerCall(p, a), rest)
  {
    hide RunnerCall;
    assert ([a] + rest)[1..] == rest;
  }

  lemma {:induction false} RunnerLines(p: Runner, s: string, rest: seq<Action>)
    requires '\r' !in s
    ensures RunnerCalls(p, LineCalls(s) + rest) == RunnerCalls(p.(content := p.content + s + "\n"), rest)
    decreases |s|
  {
    hide RunnerCalls, LineCalls, Run;
    var n := Run(s, false);
    LineCallsStep(s);
    if n < |s| {
      var line, tail := s[..n], s[n + 1..];
      RunnerCons(p, Line(line), LineCalls(tail) + rest);
      assert [Line(line)] + LineCalls(tail) + rest == [Line(line)] + (LineCalls(tail) + rest);
      RunnerLines(RunnerCall(p, Line(line)), tail, rest);
      Rejoined(p.content, line, tail);
    } else {
      RunnerCons(p, Line(s), rest);
    }
  }

  function AfterRole(q: Runner, role: Option<string>): Runner {
    match role case None => q case Some(r) => RunnerCall(q, Role(r))
  }

  /** The parser with a part read, of which only the end is missing. */
  function PendingRun(q: Runner, p: Part): Runner {
    AfterRole(q.(kind := Some(Kind(p)), disabled := false), RoleOf(p)).(content := TextOf(p) + "\n")
  }

  lemma RunnerPart(q: Runner, p: Part, rest: seq<Action>)
    requires CleanPart(p)
    ensures RunnerCalls(q, PartCalls(p) + rest) == RunnerCalls(PendingRun(RunnerCall(q, EndPart), p), rest)
  {
    hide Kind, LineCalls, RunnerCalls;
    var e := RunnerCall(q, EndPart);
    var t := RunnerCall(e, Type(Kind(p)));
    var lines := LineCalls(TextOf(p)) + rest;
    assert PartCalls(p) + rest == [EndPart] + ([Type(Kind(p))] + (RoleCalls(RoleOf(p)) + lines));
    RunnerCons(q, EndPart, [Type(Kind(p))] + (RoleCalls(RoleOf(p)) + lines));
    RunnerCons(e, Type(Kind(p)), RoleCalls(RoleOf(p)) + lines);
    assert "" + TextOf(p) == TextOf(p);
    match RoleOf(p)
    case None =>
      assert RoleCalls(None) + lines == lines;
      RunnerLines(t, TextOf(p), rest);
    case Some(r) =>
      RunnerCons(t, Role(r), lines);
      RunnerLines(RunnerCall(t, Role(r)), TextOf(p), rest);
  }

  function Collected(q: Runner, ps: seq<Part>): Runner
    decreases |ps|
  {
    if ps == [] then q else Collected(RunnerCall(PendingRun(q, ps[0]), EndPart), ps[1..])
  }

  lemma {:induction false} RunnerParts(q: Runner, ps: seq<Part>)
    requires CleanParts(ps)
    ensures RunnerCalls(q, AllCalls(ps) + [EndPart]) == Collected(RunnerCall(q, EndPart), ps)
    decreases |ps|
  {
    hide RunnerCall, PartCalls, PendingRun, RunnerCalls, CleanPart;
    if ps == [] {
      RunnerCons(q, EndPart, []);
      assert [] + [EndPart] == [EndPart] + [];
      RunnerNothing(RunnerCall(q, EndPart));
    } else {
      var rest := AllCalls(ps[1..]) + [EndPart];
      assert PartCalls(ps[0]) + AllCalls(ps[1..]) + [EndPart] == PartCalls(ps[0]) + rest;
      RunnerPart(q, ps[0], rest);
      RunnerParts(PendingRun(RunnerCall(q, EndPart), ps[0]), ps[1..]);
    }
  }

  lemma RunnerNothing(q: Runner)
    ensures RunnerCalls(q, []) == q
  {
  }

  lemma {:induction false} CollectedConcat(q: Runner, a: seq<Part>, b: seq<Part>)
    ensures Collected(q, a + b) == Collected(Collected(q, a), b)
    decreases |a|
  {
    hide RunnerCall, PendingRun;
    if a == [] {
      assert a + b == b;
    } else {
      assert (a + b)[1..] == a[1..] + b;
      CollectedConcat(RunnerCall(PendingRun(q, a[0]), EndPart), a[1..], b);
    }
  }

  // ----- what a run takes -----

  const HANDLER := Some("handler")
  const DISABLED := Some("disabled")

  function Marked(c: Shown): Runnable {
    Runnable(c.code, c.role == DISABLED)
  }

  /** The counter once the role of a cell has been seen. */
  function Budget(c: Shown, consume: nat): nat {
    if c.role == HANDLER then Decrement(consume) else consume
  }

  /** The cells taken as the counter goes, with its wrap-around at zero. */
  function Taken(cs: seq<Shown>, consume: nat): seq<Runnable> {
    if cs == [] then []
    else
      var n := Budget(cs[0], consume);
      (if n != 0 then [Marked(cs[0])] else []) + Taken(cs[1..], if n == 1 then 0 else n)
  }

  /** The cells up to and including the first handler, each marked as its role says. */
  function Projection(cs: seq<Shown>): seq<Runnable> {
    if cs == [] then []
    else [Marked(cs[0])] + if cs[0].role == HANDLER then [] else Projection(cs[1..])
  }

  function Handlers(cs: seq<Shown>): nat {
    if cs == [] then 0 else (if cs[0].role == HANDLER then 1 else 0) + Handlers(cs[1..])
  }

  lemma CodeCollected(q: Runner, code: string, role: Option<string>, body: Option<string>)
    ensures var w := RunnerCall(PendingRun(q, Code(code, role)), EndPart);
            var c := Shown(code, role, body);
            var n := Budget(c, q.consume);
            w.codes == q.codes + (if n != 0 then [Marked(c)] else []) && w.consume == if n == 1 then 0 else n
  {
    assert DropLast(code + "\n") == code;
    assert "handler" != "disabled" by {
      assert "handler"[0] != "disabled"[0];
    }
  }

  lemma DataCollected(q: Runner, data: string)
    ensures var w := RunnerCall(PendingRun(q, Data(data)), EndPart);
            w.codes == q.codes && w.consume == q.consume
  {
    assert JSON[12] == 'j' && SCRIPT[12] == 'j' && JSON[13] != SCRIPT[13];
  }

  lemma CollectedOne(q: Runner, p: Part)
    ensures Collected(q, [p]) == RunnerCall(PendingRun(q, p), EndPart)
  {
    hide RunnerCall, PendingRun;
    assert [p][1..] == [];
  }

  lemma CellCollected(q: Runner, c: Cell)
    requires CleanCell(c) && c.code.Some?
    ensures var w, e := Collected(q, PartsOf(c)), Expected([c])[0];
            var n := Budget(e, q.consume);
            w.codes == q.codes + (if n != 0 then [Marked(e)] else []) && w.consume == if n == 1 then 0 else n
  {
    hide RunnerCall, PendingRun, NoBoundaryLine;
    var code := c.code.value;
    CStringWhole(code);
    if c.role.Some? {
      CStringWhole(c.role.value);
    }
    var e := Expected([c])[0];
    CodeCollected(q, code, c.role, e.body);
    var w := RunnerCall(PendingRun(q, Code(code, c.role)), EndPart);
    CollectedOne(q, Code(code, c.role));
    match c.body
    case None => assert PartsOf(c) == [Code(code, c.role)];
    case Some(b) =>
      CStringWhole(b);
      DataCollected(w, b);
      assert PartsOf(c) == [Code(code, c.role)] + [Data(b)];
      CollectedConcat(q, [Code(code, c.role)], [Data(b)]);
      CollectedOne(w, Data(b));
  }

  lemma TakenCons(c: Shown, rest: seq<Shown>, n: nat)
    ensures Taken([c] + rest, n) ==
            (if Budget(c, n) != 0 then [Marked(c)] else []) + Taken(rest, if Budget(c, n) == 1 then 0 else Budget(c, n))
  {
    hide Marked, Budget;
    assert ([c] + rest)[1..] == rest;
  }

  lemma CollectedCell(q: Runner, c: Cell, rest: seq<Cell>)
    ensures Collected(q, Parts([c] + rest)) == Collected(Collected(q, PartsOf(c)), Parts(rest))
  {
    hide PartsOf;
    assert ([c] + rest)[1..] == rest;
    CollectedConcat(q, PartsOf(c), Parts(rest));
  }

  lemma {:induction false} CellsCollected(q: Runner, cells: seq<Cell>)
    requires CleanCells(cells)
    ensures Collected(q, Parts(cells)).codes == q.codes + Taken(Expected(cells), q.consume)
    decreases |cells|
  {
    hide PartsOf, Marked, Budget, CleanCell, CleanCells, Collected, Parts;
    if cells == [] {
      NothingCollected(q);
    } else {
      var c, rest := cells[0], cells[1..];
      assert cells == [c] + rest;
      CollectedCell(q, c, rest);
      ExpectedSplit(c, rest);
      hide Expected, Taken;
      CleanRest(cells);
      var w := Collected(q, PartsOf(c));
      CellsCollected(w, rest);
      if c.code.None? {
        NothingOf(q, c);
      } else {
        CellCollected(q, c);
        var e := Expected([c])[0];
        TakenCons(e, Expected(rest), q.consume);
        CodesAssoc(q.codes, if Budget(e, q.consume) != 0 then [Marked(e)] else [], Taken(Expected(rest), w.consume));
      }
    }
  }

  lemma CodesAssoc(a: seq<Runnable>, b: seq<Runnable>, c: seq<Runnable>)
    ensures a + b + c == a + (b + c)
  {
  }

  lemma CleanRest(cells: seq<Cell>)
    requires CleanCells(cells) && cells != []
    ensures CleanCell(cells[0]) && CleanCells(cells[1..])
  {
    hide CleanCell;
  }

  lemma NothingCollected(q: Runner)
    ensures Collected(q, Parts([])).codes == q.codes + Taken(Expected([]), q.consume)
  {
  }

  lemma NothingOf(q: Runner, c: Cell)
    requires c.code.None?
    ensures Collected(q, PartsOf(c)) == q
  {
    NoParts(c);
  }

  lemma ExpectedSplit(c: Cell, rest: seq<Cell>)
    ensures Expected([c] + rest) == if c.code.Some? then [Expected([c])[0]] + Expected(rest) else Expected(rest)
    ensures c.code.Some? ==> |Expected([c])| == 1
  {
    if c.code.Some? {
      ExpectedCons(c, rest);
      OneExpected(c);
    } else {
      assert ([c] + rest)[1..] == rest;
      assert [] + Expected(rest) == Expected(rest);
    }
  }

  lemma OneExpected(c: Cell)
    requires c.code.Some?
    ensures |Expected([c])| == 1
  {
    assert [c][1..] == [];
  }

  /** Exactly what a run takes of a saved notebook, handlers without limit. */
  lemma SaveThenRun(cells: seq<Cell>)
    requires CleanCells(cells)
    ensures RunReading(FileText(Parts(cells))) == Taken(Expected(cells), 2)
  {
    hide Calls, FileText, AllCalls, Parts, Expected, Taken, CleanCells;
    var ps := Parts(cells);
    PartsClean(cells);
    FileParsed(ps);
    RunnerParts(RUNNER, ps);
    assert RunnerCall(RUNNER, EndPart) == RUNNER;
    CellsCollected(RUNNER, cells);
    assert [] + Taken(Expected(cells), 2) == Taken(Expected(cells), 2);
  }

  lemma {:induction false} NothingTaken(cs: seq<Shown>)
    ensures Taken(cs, 0) == [] <==> Handlers(cs) == 0
  {
    hide Marked;
    if cs != [] {
      NothingTaken(cs[1..]);
    }
  }

  lemma {:induction false} TakenIsProjection(cs: seq<Shown>)
    ensures Taken(cs, 2) == Projection(cs) <==> Handlers(cs) <= 1
  {
    hide Marked;
    if cs != [] {
      if cs[0].role == HANDLER {
        NothingTaken(cs[1..]);
        assert Taken(cs, 2) == [Marked(cs[0])] + Taken(cs[1..], 0);
        assert Taken(cs, 2)[1..] == Taken(cs[1..], 0) && Projection(cs) == [Marked(cs[0])] + [];
      } else {
        TakenIsProjection(cs[1..]);
        assert Taken(cs, 2)[1..] == Taken(cs[1..], 2) && Projection(cs)[1..] == Projection(cs[1..]);
      }
    }
  }

  /**
   The reading for a run is a projection of the editor's reading: the codes up to and
   including the handler, each disabled exactly when its role says so. It is that
   projection if and only if at most one cell is a handler, since a second one makes
   the counter of the parser wrap around.
   */
  lemma RunIsProjection(cells: seq<Cell>)
    requires CleanCells(cells)
    ensures var text, shown := FileText(Parts(cells)), Expected(cells);
            && EditorReading(text) == ObjectsOf(shown)
            && (RunReading(text) == Projection(shown) <==> Handlers(shown) <= 1)
  {
    hide FileText, Parts, Expected, EditorReading, ObjectsOf, RunReading, CleanCells;
    SaveThenLoad(cells);
    SaveThenRun(cells);
    TakenIsProjection(Expected(cells));
  }
}

/**
 The notebook format: what `Folder::save` and `Folder::File` print, the grammar that
 reads it back, and the two sets of semantic actions, for the editor and for a run.
 Characters stand for octets.
 */
module Notebook {
  import opened Json
  import opened Strings
  import opened Wrappers

  function Boundary(): string {
    "--notojs-" + "313960ee" + "-e195-4a1e" + "-a796-" + "e881cd5553c2"
  }

  function Header(): string {
    "Content-type: multipart/mixed; boundary=\"" + Boundary() + "\""
  }

  const TYPE := "Content-type: "
  const ROLE := "Content-role: "
  const SCRIPT := "application/" + "javascript"
  const JSON := "application/" + "json"

  // ----- printing -----

  /** A cell of the document; a member that is absent or no string is `None`. */
  datatype Cell = Cell(code: Option<string>, role: Option<string>, body: Option<string>)

  datatype Part = Code(code: string, role: Option<string>) | Data(data: string)

  function RoleLine(role: Option<string>): string {
    match role case None => "" case Some(r) => ROLE + r + "\n"
  }

  function Kind(p: Part): string {
    if p.Code? then SCRIPT else JSON
  }

  function RoleOf(p: Part): Option<string> {
    if p.Code? then p.role else None
  }

  function TextOf(p: Part): string {
    if p.Code? then p.code else p.data
  }

  /** A part and what comes after it in the file. */
  function PrintOnto(p: Part, rest: string): string {
    Boundary() + ("\n" + TYPE + (Kind(p) + ("\n" + (RoleLine(RoleOf(p)) + ("\n" + (TextOf(p) + ("\n" + rest)))))))
  }

  function PrintsOnto(ps: seq<Part>, rest: string): string {
    if ps == [] then rest else PrintOnto(ps[0], PrintsOnto(ps[1..], rest))
  }

  function FileText(ps: seq<Part>): string {
    Header() + "\n\n" + PrintsOnto(ps, Boundary() + "--")
  }

  lemma Assoc(a: string, b: string, c: string)
    ensures a + b + c == a + (b + c)
  {
  }

  lemma Flatten(a: string, b: string, c: string, d: string, e: string, f: string, g: string, h: string)
    ensures a + b + c + d + e + f + g + h == a + (b + (c + (d + (e + (f + (g + h))))))
  {
    Assoc(a + b + c + d + e + f, g, h);
    Assoc(a + b + c + d + e, f, g + h);
    Assoc(a + b + c + d, e, f + (g + h));
    Assoc(a + b + c, d, e + (f + (g + h)));
    Assoc(a + b, c, d + (e + (f + (g + h))));
    Assoc(a, b, c + (d + (e + (f + (g + h)))));
  }

  /** Printing a part by itself, and the rest after it. */
  lemma PrintThen(p: Part, rest: string)
    ensures PrintOnto(p, rest)
       == Boundary() + ("\n" + TYPE) + Kind(p) + "\n" + RoleLine(RoleOf(p)) + "\n" + TextOf(p) + ("\n" + rest)
    ensures PrintOnto(p, rest) == PrintOnto(p, "") + rest
  {
    hide Boundary, RoleLine, Kind, RoleOf, TextOf;
    var a, b, c, d, e, f, g := Boundary(), "\n" + TYPE, Kind(p), "\n", RoleLine(RoleOf(p)), "\n", TextOf(p);
    Flatten(a, b, c, d, e, f, g, "\n" + rest);
    Flatten(a, b, c, d, e, f, g, "\n" + "");
    Assoc(a + b + c + d + e + f + g, "\n" + "", rest);
    assert "\n" + "" + rest == "\n" + rest;
  }

  lemma {:induction false} PrintsSnoc(ps: seq<Part>, p: Part, rest: string)
    ensures PrintsOnto(ps + [p], rest) == PrintsOnto(ps, PrintOnto(p, rest))
  {
    hide PrintOnto;
    if ps == [] {
      assert ps + [p] == [p] && [p][1..] == [];
    } else {
      assert (ps + [p])[1..] == ps[1..] + [p];
      PrintsSnoc(ps[1..], p, rest);
    }
  }

  lemma {:induction false} PrintsThen(ps: seq<Part>, rest: string)
    ensures PrintsOnto(ps, rest) == PrintsOnto(ps, "") + rest
  {
    hide PrintOnto;
    if ps == [] {
      assert "" + rest == rest;
    } else {
      var tail := PrintsOnto(ps[1..], "");
      PrintsThen(ps[1..], rest);
      PrintThen(ps[0], tail + rest);
      PrintThen(ps[0], tail);
      Assoc(PrintOnto(ps[0], ""), tail, rest);
    }
  }

  function OptCString(s: Option<string>): Option<string> {
    match s case None => None case Some(v) => Some(CString(v))
  }

  /** A cell prints as its code and, if it has code, its body. */
  function PartsOf(c: Cell): seq<Part> {
    match c.code
    case None => []
    case Some(code) =>
      [Code(CString(code), OptCString(c.role))]
      + (match c.body case None => [] case Some(b) => [Data(CString(b))])
  }

  function Parts(cells: seq<Cell>): seq<Part> {
    if cells == [] then [] else PartsOf(cells[0]) + Parts(cells[1..])
  }

  method PartText(code: bool, role: Option<string>, text: string) returns (s: string)
    requires !code ==> role.None?
    ensures s == PrintOnto(if code then Code(text, role) else Data(text), "")
  {
    hide Boundary;
    ghost var p := if code then Code(text, role) else Data(text);
    s := Boundary() + ("\n" + TYPE) + (if code then SCRIPT else JSON) + "\n";
    ghost var head := s;
    if role.Some? {
      s := s + (ROLE + role.value + "\n");
    }
    assert s == head + RoleLine(RoleOf(p));
    s := s + "\n" + text + "\n";
    PrintThen(p, "");
    assert "\n" + "" == "\n";
  }

  /** The stream a `Folder::File` or a `save` writes to. */
  class Printer {
    var stream: string
    ghost var parts: seq<Part>

    ghost predicate Valid()
      reads this
    {
      stream == Header() + "\n\n" + PrintsOnto(parts, "")
    }

    constructor ()
      ensures Valid() && parts == []
    {
      stream, parts := Header() + "\n\n", [];
      assert Header() + "\n\n" + "" == Header() + "\n\n";
    }

    method Add(code: bool, role: Option<string>, text: string)
      requires Valid() && (!code ==> role.None?)
      modifies this
      ensures Valid() && parts == old(parts) + [if code then Part.Code(text, role) else Part.Data(text)]
    {
      hide Header, PrintsOnto, PrintOnto;
      ghost var p := if code then Part.Code(text, role) else Part.Data(text);
      var s := PartText(code, role, text);
      PrintsSnoc(parts, p, "");
      PrintsThen(parts, s);
      stream, parts := stream + s, parts + [p];
    }

    method Code(code: string, role: Option<string>)
      requires Valid()
      modifies this
      ensures Valid() && parts == old(parts) + [Part.Code(code, role)]
    {
      Add(true, role, code);
    }

    method Data(data: string)
      requires Valid()
      modifies this
      ensures Valid() && parts == old(parts) + [Part.Data(data)]
    {
      Add(false, None, data);
    }

    method Close() returns (text: string)
      requires Valid()
      ensures text == FileText(parts)
    {
      hide Boundary, Header, PrintsOnto;
      PrintsThen(parts, Boundary() + "--");
      text := stream + (Boundary() + "--");
    }
  }

  lemma {:induction false} PartsSnoc(cells: seq<Cell>, c: Cell)
    ensures Parts(cells + [c]) == Parts(cells) + PartsOf(c)
  {
    if cells == [] {
      assert cells + [c] == [c];
    } else {
      assert (cells + [c])[1..] == cells[1..] + [c];
      PartsSnoc(cells[1..], c);
    }
  }

  method Save(cells: seq<Cell>) returns (text: string)
    ensures text == FileText(Parts(cells))
  {
    hide PrintsOnto, FileText;
    var fs := new Printer();
    for k := 0 to |cells|
      invariant fs.Valid() && fresh(fs)
      invariant fs.parts == Parts(cells[..k])
    {
      var cell := cells[k];
      if cell.code.Some? {
        fs.Code(CString(cell.code.value), OptCString(cell.role));
      }
      if cell.code.Some? && cell.body.Some? {
        fs.Data(CString(cell.body.value));
      }
      PartsSnoc(cells[..k], cell);
      assert cells[..k + 1] == cells[..k] + [cell];
    }
    assert cells[..|cells|] == cells;
    text := fs.Close();
  }

  // ----- the grammar -----

  /** A semantic action with the text it is called on, in the order the parse calls them. */
  datatype Action = Line(s: string) | EndPart | Role(s: string) | Type(s: string)

  /** A match attempt: what was called is called, even when the attempt fails later on. */
  datatype Match = Match(ok: bool, rest: string, calls: seq<Action>)

  function OptCR(s: string): (r: string)
    ensures |r| <= |s|
  {
    if s != "" && s[0] == '\r' then s[1..] else s
  }

  function Starts(s: string, l: string): bool {
    l <= s
  }

  /** The longest prefix of `s` free of line ends, and of colons if these end it too. */
  function Run(s: string, colon: bool): (n: nat)
    ensures n <= |s|
  {
    if s == "" || s[0] == '\r' || s[0] == '\n' || (colon && s[0] == ':') then 0 else 1 + Run(s[1..], colon)
  }

  function BoundaryEnd(s: string): (m: Match)
    ensures m.ok ==> |m.rest| < |s|
  {
    var l := "\n" + Boundary() + "--";
    if Starts(s, l) then Match(true, OptCR(s[|l|..]), [EndPart]) else Match(false, s, [])
  }

  function BoundaryLine(s: string): (m: Match)
    ensures m.ok ==> |m.rest| < |s|
  {
    var l := "\n" + Boundary();
    if Starts(s, l) then Match(true, OptCR(s[|l|..]), [EndPart]) else Match(false, s, [])
  }

  /** A header field: the line end before it, its name, and a value up to a colon or line end. */
  function Field(s: string, name: string): (m: Match)
    ensures m.ok ==> |m.rest| < |s|
  {
    var l := "\n" + name;
    if Starts(s, l) then
      var v := s[|l|..];
      var n := Run(v, true);
      Match(true, OptCR(v[n..]), [if name == TYPE then Type(v[..n]) else Role(v[..n])])
    else Match(false, s, [])
  }

  function Section(s: string): (m: Match)
    ensures m.ok ==> |m.rest| < |s|
  {
    var b := BoundaryLine(s);
    if !b.ok then b
    else
      var t := Field(b.rest, TYPE);
      if !t.ok then Match(false, s, b.calls)
      else
        var r := Field(t.rest, ROLE);
        var calls := b.calls + t.calls + r.calls;
        if Starts(r.rest, "\n") then Match(true, OptCR(r.rest[1..]), calls) else Match(false, s, calls)
  }

  function TextLine(s: string): (m: Match)
    ensures m.ok ==> |m.rest| < |s|
  {
    if Starts(s, "\n") then
      var n := Run(s[1..], false);
      Match(true, OptCR(s[1..][n..]), [Line(s[1..][..n])])
    else Match(false, s, [])
  }

  function Item(s: string): (m: Match)
    ensures m.ok ==> |m.rest| < |s|
  {
    var e := BoundaryEnd(s);
    if e.ok then e
    else
      var p := Section(s);
      if p.ok then p
      else
        var l := TextLine(s);
        Match(l.ok, l.rest, p.calls + l.calls)
  }

  /** All calls of the repetition of items, to where no further item matches. */
  function Items(s: string): seq<Action>
    decreases |s|
  {
    var m := Item(s);
    if m.ok then m.calls + Items(m.rest) else m.calls
  }

  function Calls(text: string): seq<Action> {
    if !Starts(text, Header()) then []
    else
      var s := OptCR(text[|Header()|..]);
      if !Starts(s, "\n") then [] else Items(OptCR(s[1..]))
  }

  /** The header, and then items for as long as one matches. */
  method Multipart(text: string) returns (calls: seq<Action>)
    ensures calls == Calls(text)
  {
    hide Item;
    calls := [];
    if !Starts(text, Header()) || !Starts(OptCR(text[|Header()|..]), "\n") {
      return;
    }
    var s := OptCR(OptCR(text[|Header()|..])[1..]);
    while true
      invariant Calls(text) == calls + Items(s)
      decreases |s|
    {
      var m := Item(s);
      calls := calls + m.calls;
      if !m.ok {
        break;
      }
      s := m.rest;
    }
  }

  // ----- the editor's reading -----

  datatype Event = StartObject | EndObject | Member(key: string, value: string)

  datatype Editor = Editor(started: bool, content: string, role: Option<string>, kind: Option<string>, out: seq<Event>)

  const EDITOR := Editor(false, "", None, None, [])

  function DropLast(s: string): string {
    if s == "" then "" else s[..|s| - 1]
  }

  function EditorCall(p: Editor, a: Action): Editor {
    match a
    case Line(s) => p.(content := p.content + s + "\n")
    case Type(s) => p.(kind := Some(s), content := "")
    case Role(s) => p.(role := Some(s))
    case EndPart =>
      if p.kind == Some(SCRIPT) then
        var code := DropLast(p.content);
        p.(started := true, content := code, role := None, kind := None,
           out := p.out + (if p.started then [EndObject] else []) + [StartObject, Member("code", code)]
                  + (match p.role case None => [] case Some(r) => [Member("role", r)]))
      else if p.kind == Some(JSON) then p.(kind := None, out := p.out + [Member("body", p.content)])
      else p.(kind := None)
  }

  function EditorCalls(p: Editor, calls: seq<Action>): Editor
    decreases |calls|
  {
    if calls == [] then p else EditorCalls(EditorCall(p, calls[0]), calls[1..])
  }

  /** The members written for a notebook text; the last object is closed at the end. */
  function EditorReading(text: string): seq<Event> {
    var p := EditorCalls(EDITOR, Calls(text));
    p.out + if p.started then [EndObject] else []
  }

  /** `Parser<Mode::Full>`. */
  class EditorParser {
    var started: bool
    var content: string
    var role: Option<string>
    var kind: Option<string>
    var out: seq<Event>

    function Current(): Editor
      reads this
    {
      Editor(started, content, role, kind, out)
    }

    constructor ()
      ensures Current() == EDITOR
    {
      started, content, role, kind, out := false, "", None, None, [];
    }

    method EndPart()
      modifies this
      ensures Current() == EditorCall(old(Current()), Action.EndPart)
    {
      if kind == Some(SCRIPT) {
        if started {
          out := out + [EndObject];
        }
        started := true;
        if |content| > 0 {
          content := content[..|content| - 1];
        }
        out := out + [StartObject, Member("code", content)];
        if role.Some? {
          out := out + [Member("role", role.value)];
          role := None;
        }
      } else if kind == Some(JSON) {
        out := out + [Member("body", content)];
      }
      kind := None;
    }

    method Call(a: Action)
      modifies this
      ensures Current() == EditorCall(old(Current()), a)
    {
      match a
      case Line(s) => content := content + s + "\n";
      case Type(s) => kind, content := Some(s), "";
      case Role(s) => role := Some(s);
      case EndPart => EndPart();
    }

    method Parse(text: string)
      modifies this
      ensures Current() == EditorCalls(old(Current()), Calls(text))
    {
      hide Calls, EditorCall;
      ghost var start := Current();
      var calls := Multipart(text);
      for k := 0 to |calls|
        invariant Current() == EditorCalls(start, calls[..k])
      {
        EditorCallsSnoc(start, calls[..k], calls[k]);
        assert calls[..k + 1] == calls[..k] + [calls[k]];
        Call(calls[k]);
      }
      assert calls[..|calls|] == calls;
    }
  }

  lemma {:induction false} EditorCallsSnoc(p: Editor, calls: seq<Action>, a: Action)
    ensures EditorCalls(p, calls + [a]) == EditorCall(EditorCalls(p, calls), a)
    decreases |calls|
  {
    hide EditorCall;
    if calls == [] {
      assert calls + [a] == [a];
    } else {
      assert (calls + [a])[1..] == calls[1..] + [a];
      EditorCallsSnoc(EditorCall(p, calls[0]), calls[1..], a);
    }
  }

  method Load(text: string) returns (events: seq<Event>)
    ensures events == EditorReading(text)
  {
    var parser := new EditorParser();
    parser.Parse(text);
    events := parser.out;
    if parser.started {
      events := events + [EndObject];
    }
  }

  // ----- the reading for a run -----

  datatype Runnable = Runnable(code: string, disabled: bool)

  datatype Runner = Runner(disabled: bool, consume: nat, content: string, kind: Option<string>, codes: seq<Runnable>)

  const RUNNER := Runner(false, 2, "", None, [])

  /** `--consume` on an `unsigned` of 32 bits. */
  function Decrement(n: nat): nat {
    (n + 0xFFFF_FFFF) % 0x1_0000_0000
  }

  function RunnerCall(p: Runner, a: Action): Runner {
    match a
    case Line(s) => p.(content := p.content + s + "\n")
    case Type(s) => p.(kind := Some(s), content := "", disabled := false)
    case Role(s) =>
      if s == "handler" then p.(consume := Decrement(p.consume))
      else if s == "disabled" then p.(disabled := true)
      else p
    case EndPart =>
      if p.consume != 0 && p.kind == Some(SCRIPT) then
        p.(codes := p.codes + [Runnable(DropLast(p.content), p.disabled)], content := "",
           consume := if p.consume == 1 then 0 else p.consume, kind := None)
      else p.(kind := None)
  }

  function RunnerCalls(p: Runner, calls: seq<Action>): Runner
    decreases |calls|
  {
    if calls == [] then p else RunnerCalls(RunnerCall(p, calls[0]), calls[1..])
  }

  function RunReading(text: string): seq<Runnable> {
    RunnerCalls(RUNNER, Calls(text)).codes
  }

  /** `Parser<Mode::Code>`. */
  class RunnerParser {
    var disabled: bool
    var consume: nat
    var content: string
    var kind: Option<string>
    var codes: seq<Runnable>

    function Current(): Runner
      reads this
    {
      Runner(disabled, consume, content, kind, codes)
    }

    constructor ()
      ensures Current() == RUNNER
    {
      disabled, consume, content, kind, codes := false, 2, "", None, [];
    }

    method EndPart()
      modifies this
      ensures Current() == RunnerCall(old(Current()), Action.EndPart)
    {
      if consume != 0 && kind == Some(SCRIPT) {
        if |content| > 0 {
          content := content[..|content| - 1];
        }
        codes, content := codes + [Runnable(content, disabled)], "";
        if 1 == consume {
          consume := 0;
        }
      }
      kind := None;
    }

    method Call(a: Action)
      modifies this
      ensures Current() == RunnerCall(old(Current()), a)
    {
      match a
      case Line(s) => content := content + s + "\n";
      case Type(s) => kind, content, disabled := Some(s), "", false;
      case Role(s) =>
        if s == "handler" {
          consume := Decrement(consume);
        } else if s == "disabled" {
          disabled := true;
        }
      case EndPart => EndPart();
    }

    method Parse(text: string)
      modifies this
      ensures Current() == RunnerCalls(old(Current()), Calls(text))
    {
      hide Calls, RunnerCall;
      ghost var start := Current();
      var calls := Multipart(text);
      for k := 0 to |calls|
        invariant Current() == RunnerCalls(start, calls[..k])
      {
        RunnerCallsSnoc(start, calls[..k], calls[k]);
        assert calls[..k + 1] == calls[..k] + [calls[k]];
        Call(calls[k]);
      }
      assert calls[..|calls|] == calls;
    }
  }

  lemma {:induction false} RunnerCallsSnoc(p: Runner, calls: seq<Action>, a: Action)
    ensures RunnerCalls(p, calls + [a]) == RunnerCall(RunnerCalls(p, calls), a)
    decreases |calls|
  {
    hide RunnerCall;
    if calls == [] {
      assert calls + [a] == [a];
    } else {
      assert (calls + [a])[1..] == calls[1..] + [a];
      RunnerCallsSnoc(RunnerCall(p, calls[0]), calls[1..], a);
    }
  }

  method LoadForRun(text: string) returns (codes: seq<Runnable>)
    ensures codes == RunReading(text)
  {
    var parser := new RunnerParser();
    parser.Parse(text);
    codes := parser.codes;
  }
}

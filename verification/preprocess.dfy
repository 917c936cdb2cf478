/**
 The macro expansion of notebook code, `Engine::preprocess`: a Markdown block

     <[name[
     text
     ]]>

 becomes a statement that binds or prints the text, and the block itself a comment.
 The engine rewrites the string while it walks it; the reference is a scanner that
 only ever looks at the unmodified text.
 */
module Preprocess {
  import opened Json

  // ----- the reference scanner -----

  datatype Mode = JS | O1 | O2 | MD | C1 | C2 | C3

  /** Where the scanner is; `vs`, `ve`, `ms` and `me` are positions in the unmodified text. */
  datatype Scan = Scan(mode: Mode, vs: nat, ve: nat, ms: nat, me: nat, tick: bool)

  const START := Scan(JS, 0, 0, 0, 0, false)

  predicate JsChar(c: char, at: int) {
    c == '_' || 'a' <= c <= 'z' || 'A' <= c <= 'Z' || ('0' <= c <= '9' && at > 0) || ((c == ':' || c == '!') && at == 0)
  }

  /** The scanner after it has looked at the character at `i`, when that closes no block. */
  function Look(t: string, i: nat, c: Scan): Scan
    requires i < |t|
  {
    if t[i] == '`' then c.(tick := !c.tick)
    else match c.mode
      case JS => c.(mode := if !c.tick && t[i] == '<' && (i == 0 || t[i - 1] == '\n') then O1 else JS)
      case O1 => if t[i] == '[' then c.(vs := i + 1, mode := O2) else c.(mode := JS)
      case O2 =>
        if t[i] == '[' then c.(ve := i, ms := i + 1, mode := MD)
        else if !JsChar(t[i], i - c.vs) then c.(mode := JS)
        else c
      case MD => if !c.tick && t[i] == ']' && i > 0 && t[i - 1] == '\n' then c.(me := i, mode := C1) else c
      case C1 => c.(mode := if t[i] == ']' then C2 else MD)
      case C2 => c.(mode := if t[i] == '>' then C3 else MD)
      case C3 => c.(mode := MD)
  }

  /** The character at `i` closes the block: a line end after `]]>`, or the end of the text after `]]`. */
  predicate Closes(t: string, i: nat, c: Scan)
    requires i < |t|
  {
    t[i] != '`' && ((c.mode.C3? && (t[i] == '\n' || i == |t| - 1)) || (c.mode.C2? && i == |t| - 1))
  }

  /** What holds of a scan at `i` when the text before `from` is dealt with. */
  predicate ScanOk(t: string, i: nat, c: Scan, from: nat) {
    && from <= |t| && (from < i || from == i == 0)
    && match c.mode
       case JS => true
       case O1 => from < i
       case O2 => from + 2 <= c.vs <= i
       case MD => InBlock(t, c, from) && c.ms <= i
       case C1 => InBlock(t, c, from) && c.ms < c.me < i
       case C2 => InBlock(t, c, from) && c.ms < c.me && c.me + 2 <= i
       case C3 => InBlock(t, c, from) && c.ms < c.me && c.me + 3 <= i
  }

  predicate InBlock(t: string, c: Scan, from: nat) {
    from + 2 <= c.vs <= c.ve && c.ms == c.ve + 1 <= |t| && t[c.ve] == '['
  }

  lemma LookOk(t: string, i: nat, c: Scan, from: nat)
    requires i < |t| && ScanOk(t, i, c, from)
    ensures ScanOk(t, i + 1, Look(t, i, c), from)
    ensures Closes(t, i, c) ==> c.ms < c.me && c.me + 2 <= i && ScanOk(t, i + 2, c.(mode := JS), c.me + 3)
  {
  }

  // ----- what a block turns into -----

  function Name(t: string, c: Scan): string
    requires c.vs <= c.ve <= |t|
  {
    t[c.vs..c.ve]
  }

  /** The lines of the block, without the break before the closing line. */
  function Body(t: string, c: Scan): string
    requires c.ms < c.me <= |t|
  {
    if c.me - c.ms > 1 then t[c.ms + 1..c.me - 1] else ""
  }

  predicate Echo(name: string) {
    name == "!"
  }

  function Snippet(name: string, body: string): string {
    if Echo(name) then "print($(" + Quote("```js!noplay\n" + body + "\n```") + "));"
    else if name != "" && name != ":" then
      (if name[0] == '!' then "export const " + name[1..] else "const " + name) + " = $(" + Quote(body) + ");/*"
    else (if name == ":" then "print[':']($(" else "print($(") + Quote(body) + "));/*"
  }

  /** One character of the output: an input character at its position, or a new one. */
  datatype Mark = Kept(at: nat) | Put(c: char)

  function Keep(a: nat, b: nat): (m: seq<Mark>)
    requires a <= b
    ensures |m| == b - a && forall k :: 0 <= k < |m| ==> m[k] == Kept(a + k)
  {
    seq(b - a, k requires 0 <= k < b - a => Kept(a + k))
  }

  function Puts(s: string): (m: seq<Mark>)
    ensures |m| == |s| && forall k :: 0 <= k < |m| ==> m[k] == Put(s[k])
  {
    seq(|s|, k requires 0 <= k < |s| => Put(s[k]))
  }

  /**
   The opening `<[`, with the name and bracket of an echo, gives way to the snippet; `]]>` to the comment's end or
   to blanks.
   */
  function Block(t: string, c: Scan): seq<Mark>
    requires c.vs <= c.ve < c.ms < c.me <= |t|
  {
    var name := Name(t, c);
    Puts(Snippet(name, Body(t, c)))
    + if Echo(name) then Keep(c.vs + 2, c.me) + Puts("   ") else Keep(c.vs, c.me + 1) + Puts("*/")
  }

  /** The output for the text from `from` on, with the scanner about to look at `i`. */
  function Expand(t: string, i: nat, c: Scan, from: nat): seq<Mark>
    requires ScanOk(t, i, c, from)
    decreases |t| + 2 - i
  {
    if i >= |t| then Keep(from, |t|)
    else
      LookOk(t, i, c, from);
      if Closes(t, i, c) then
        Keep(from, c.vs - 2) + Block(t, c) + Expand(t, i + 2, c.(mode := JS), c.me + 3)
      else Expand(t, i + 1, Look(t, i, c), from)
  }

  function Render(t: string, m: seq<Mark>): (s: string)
    ensures |s| == |m|
  {
    seq(|m|, k requires 0 <= k < |m| => match m[k] { case Kept(p) => if p < |t| then t[p] else ' ' case Put(x) => x })
  }

  function Expansion(t: string): string {
    Render(t, Expand(t, 0, START, 0))
  }

  lemma RenderConcat(t: string, a: seq<Mark>, b: seq<Mark>)
    ensures Render(t, a + b) == Render(t, a) + Render(t, b)
  {
  }

  lemma RenderKeep(t: string, a: nat, b: nat)
    requires a <= b <= |t|
    ensures Render(t, Keep(a, b)) == t[a..b]
  {
  }

  lemma RenderPuts(t: string, s: string)
    ensures Render(t, Puts(s)) == s
  {
  }

  // ----- the rewriting loop -----

  /** The characters that take the place of those from the opening `<[` to the closing `]]>`. */
  function Edited(t: string, c: Scan): string
    requires c.vs <= c.ve < c.ms < c.me < |t|
  {
    Snippet(Name(t, c), Body(t, c)) + Comment(t, c)
  }

  lemma RenderBlock(t: string, c: Scan)
    requires c.vs <= c.ve < c.ms < c.me < |t|
    ensures Render(t, Block(t, c)) == Edited(t, c)
  {
    hide Snippet, Render, Keep, Puts;
    var snippet := Puts(Snippet(Name(t, c), Body(t, c)));
    RenderPuts(t, Snippet(Name(t, c), Body(t, c)));
    if Echo(Name(t, c)) {
      RenderConcat(t, snippet, Keep(c.vs + 2, c.me) + Puts("   "));
      RenderConcat(t, Keep(c.vs + 2, c.me), Puts("   "));
      RenderKeep(t, c.vs + 2, c.me);
      RenderPuts(t, "   ");
    } else {
      RenderConcat(t, snippet, Keep(c.vs, c.me + 1) + Puts("*/"));
      RenderConcat(t, Keep(c.vs, c.me + 1), Puts("*/"));
      RenderKeep(t, c.vs, c.me + 1);
      RenderPuts(t, "*/");
    }
  }

  method MakeSnippet(code: string, vs: nat, ve: nat, body: string) returns (snippet: string)
    requires vs <= ve < |code| && code[ve] == '['
    ensures snippet == Snippet(code[vs..ve], body) && |snippet| > 3
  {
    var name := ve != vs;
    var echo := name && 1 == ve - vs && code[vs] == '!';
    ghost var n := code[vs..ve];
    assert name ==> n[0] == code[vs];
    if echo {
      assert n == "!";
      snippet := "print($(" + Quote("```js!noplay\n" + body + "\n```") + "));";
    } else if name && (code[vs] != ':' || ve - vs > 1) {
      assert n != "" && n != ":" && n != "!";
      if code[vs] == '!' {
        snippet := "export const " + code[vs + 1..ve];
        assert code[vs + 1..ve] == n[1..];
      } else {
        snippet := "const " + code[vs..ve];
      }
      snippet := snippet + " = $(" + Quote(body) + ");";
    } else {
      assert n == if name then ":" else "";
      snippet := (if code[vs] == ':' then "print[':']($(" else "print($(") + Quote(body) + "));";
    }
    if !echo {
      snippet := snippet + "/*";
    }
  }

  /** What becomes of the characters from the name (or, for an echo, the text) to `]]>`. */
  function Comment(t: string, c: Scan): string
    requires c.vs <= c.ve < c.ms < c.me < |t|
  {
    if Echo(Name(t, c)) then t[c.vs + 2..c.me] + "   " else t[c.vs..c.me + 1] + "*/"
  }

  method CloseBrackets(text: string, me: nat, echo: bool) returns (code: string)
    requires me + 2 < |text|
    ensures |code| == |text| && code[..me] == text[..me] && code[me + 3..] == text[me + 3..]
    ensures code[me..me + 3] == if echo then "   " else [text[me]] + "*/"
  {
    code := text;
    if echo {
      code := code[me := ' '];
      code := code[me + 1 := ' '];
      code := code[me + 2 := ' '];
    } else {
      code := code[me + 1 := '*'];
      code := code[me + 2 := '/'];
    }
  }

  /** The brackets closed, the string from `from` on reads as the comment and what follows it. */
  lemma ClosedRest(text: string, code: string, c: Scan, from: nat)
    requires c.vs <= c.ve && c.ms == c.ve + 1 && c.ms < c.me && c.me + 2 < |text|
    requires |code| == |text| && code[..c.me] == text[..c.me] && code[c.me + 3..] == text[c.me + 3..]
    requires var echo := Echo(Name(text, c));
             code[c.me..c.me + 3] == (if echo then "   " else [text[c.me]] + "*/")
             && from == if echo then c.vs + 2 else c.vs
    ensures code[from..] == Comment(text, c) + text[c.me + 3..]
  {
    assert code[from..] == code[from..c.me] + code[c.me..c.me + 3] + code[c.me + 3..];
    assert code[from..c.me] == text[from..c.me];
    assert text[c.vs..c.me] + ([text[c.me]] + "*/") == text[c.vs..c.me + 1] + "*/";
  }

  lemma SlicesBefore(text: string, code: string, me: nat, a: nat, b: nat)
    requires a <= b <= me <= |text| && me <= |code| && code[..me] == text[..me]
    ensures code[a..b] == text[a..b]
  {
    assert code[a..b] == code[..me][a..b] && text[a..b] == text[..me][a..b];
  }

  /** The edits made when a block closes, on the string as it is by then. */
  method CloseBlock(text: string, vs: nat, ve: nat, ms: nat, me: nat) returns (code: string, advance: int)
    requires 2 <= vs <= ve && ms == ve + 1 && ms < me && me + 2 < |text| && text[ve] == '['
    ensures code == text[..vs - 2] + Edited(text, Scan(C3, vs, ve, ms, me, false)) + text[me + 3..]
    ensures |code| - |text| == advance - 1 && advance > 0
  {
    hide Snippet, Comment;
    ghost var c := Scan(C3, vs, ve, ms, me, false);
    var echo := ve != vs && 1 == ve - vs && text[vs] == '!';
    assert echo <==> Echo(text[vs..ve]);
    code := CloseBrackets(text, me, echo);
    var length := if me - ms > 1 then me - ms - 2 else 0;
    var body := code[ms + 1..ms + 1 + length];
    SlicesBefore(text, code, me, ms + 1, ms + 1 + length);
    SlicesBefore(text, code, me, vs, ve);
    SlicesBefore(text, code, me, ve, ve + 1);
    assert code[ve] == code[ve..ve + 1][0];
    assert code[vs..ve] == Name(text, c) && body == Body(text, c);
    var snippet := MakeSnippet(code, vs, ve, body);
    assert snippet == Snippet(Name(text, c), Body(text, c));
    var from := vs - 2 + (if echo then 4 else 2);
    ClosedRest(text, code, c, from);
    SlicesBefore(text, code, me, 0, vs - 2);
    ghost var tail := code[from..];
    assert |tail| == |text| - from;
    code := code[..vs - 2] + snippet + code[from..];
    assert code == text[..vs - 2] + (snippet + Comment(text, c)) + text[me + 3..];
    advance := |snippet| - (if echo then 3 else 1);
  }

  // ----- the loop -----

  /** Two scanners at the same point, one of them `shift` characters on. */
  predicate Shifted(c: Scan, d: Scan, shift: int) {
    && c.mode == d.mode && c.tick == d.tick
    && (!c.mode.JS? && !c.mode.O1? ==> d.vs == c.vs + shift)
    && (!c.mode.JS? && !c.mode.O1? && !c.mode.O2? ==> d.ve == c.ve + shift && d.ms == c.ms + shift)
    && (c.mode.C1? || c.mode.C2? || c.mode.C3? ==> d.me == c.me + shift)
  }

  /** Past what is done, looking at the edited string is looking at the unmodified text. */
  lemma LookShifted(t: string, done: string, from: nat, code: string, p: nat, c: Scan, d: Scan)
    requires p < |t| && ScanOk(t, p, c, from) && code == done + t[from..] && (p == 0 ==> done == "")
    requires Shifted(c, d, |done| - from)
    ensures var i := p + |done| - from;
            && 0 <= i < |code|
            && Shifted(Look(t, p, c), Look(code, i, d), |done| - from)
            && (Closes(t, p, c) <==> Closes(code, i, d))
    ensures c.mode == d.mode && c.tick == d.tick
  {
    var i := p + |done| - from;
    assert |code| - i == |t| - p && (i == 0 <==> p == 0);
    assert code[i] == t[p] && (p > 0 ==> code[i - 1] == t[p - 1]);
  }

  lemma Slice(t: string, done: string, from: nat, code: string, a: nat, b: nat)
    requires from <= a <= b <= |t| && code == done + t[from..]
    ensures var shift := |done| - from; code[a + shift..b + shift] == t[a..b]
  {
  }

  lemma EditedShifted(t: string, done: string, from: nat, c: Scan, code: string, d: Scan)
    requires from + 2 <= c.vs <= c.ve && c.ms == c.ve + 1 && c.ms < c.me && c.me + 2 < |t| && code == done + t[from..]
    requires var shift := |done| - from;
             d.vs == c.vs + shift && d.ve == c.ve + shift && d.ms == c.ms + shift && d.me == c.me + shift
    ensures Edited(code, d) == Edited(t, c)
  {
    hide Snippet;
    Slice(t, done, from, code, c.vs, c.ve);
    assert Name(code, d) == Name(t, c);
    if c.me - c.ms > 1 {
      Slice(t, done, from, code, c.ms + 1, c.me - 1);
    }
    assert Body(code, d) == Body(t, c);
    if Echo(Name(t, c)) {
      assert c.ve == c.vs + 1;
      Slice(t, done, from, code, c.vs + 2, c.me);
    } else {
      Slice(t, done, from, code, c.vs, c.me + 1);
    }
    assert Comment(code, d) == Comment(t, c);
  }

  /** Editing the unmodified rest of the text in place gives what the scanner puts out for it. */
  lemma EditsRest(t: string, done: string, from: nat, c: Scan, code: string, d: Scan)
    requires from + 2 <= c.vs <= c.ve && c.ms == c.ve + 1 && c.ms < c.me && c.me + 2 < |t| && code == done + t[from..]
    requires var shift := |done| - from;
             d.vs == c.vs + shift && d.ve == c.ve + shift && d.ms == c.ms + shift && d.me == c.me + shift
    ensures code[..d.vs - 2] + Edited(code, d) + code[d.me + 3..]
         == done + Render(t, Keep(from, c.vs - 2)) + Render(t, Block(t, c)) + t[c.me + 3..]
  {
    hide Edited, Render, Block;
    RenderKeep(t, from, c.vs - 2);
    RenderBlock(t, c);
    EditedShifted(t, done, from, c, code, d);
    assert code[..d.vs - 2] == done + t[from..c.vs - 2];
    Slice(t, done, from, code, c.me + 3, |t|);
    assert code[d.me + 3..] == code[d.me + 3..|code|];
  }

  /** One turn of the `switch`, on the string as it is by then. */
  method Switch(code: string, i: nat, c: Scan) returns (d: Scan, closes: bool)
    requires i < |code| && (c.mode.MD? ==> i > 0)
    ensures closes <==> Closes(code, i, c)
    ensures !closes ==> d == Look(code, i, c)
    ensures closes ==> d.vs == c.vs && d.ve == c.ve && d.ms == c.ms && d.me == c.me && d.tick == c.tick
  {
    var state, vs, ve, ms, me, tm := c.mode, c.vs, c.ve, c.ms, c.me, if c.tick then 1 else 0;
    closes := false;
    if code[i] == '`' {
      tm := (tm + 1) % 2;
    } else {
      match state
      case JS => state := if tm == 0 && code[i] == '<' && (i == 0 || code[i - 1] == '\n') then O1 else JS;
      case O1 =>
        if code[i] == '[' {
          vs, state := i + 1, O2;
        } else {
          state := JS;
        }
      case O2 =>
        if code[i] == '[' {
          ve, ms, state := i, i + 1, MD;
        } else if !JsChar(code[i], i - vs) {
          state := JS;
        }
      case MD =>
        if tm == 0 && code[i] == ']' && code[i - 1] == '\n' {
          me, state := i, C1;
        }
      case C1 => state := if code[i] == ']' then C2 else MD;
      case C2 =>
        state := if code[i] == '>' then C3 else MD;
        closes := i == |code| - 1;
      case C3 =>
        closes := code[i] == '\n' || i == |code| - 1;
        if !closes {
          state := MD;
        }
    }
    d := Scan(state, vs, ve, ms, me, tm == 1);
  }

  lemma ExpandNothing(t: string, p: nat, c: Scan, from: nat)
    requires p >= |t| && ScanOk(t, p, c, from)
    ensures Render(t, Expand(t, p, c, from)) == t[from..]
  {
    RenderKeep(t, from, |t|);
  }

  lemma ExpandLooks(t: string, p: nat, c: Scan, from: nat)
    requires p < |t| && ScanOk(t, p, c, from) && !Closes(t, p, c)
    ensures ScanOk(t, p + 1, Look(t, p, c), from)
    ensures Expand(t, p, c, from) == Expand(t, p + 1, Look(t, p, c), from)
  {
    LookOk(t, p, c, from);
  }

  lemma ExpandCloses(t: string, p: nat, c: Scan, from: nat)
    requires p < |t| && ScanOk(t, p, c, from) && Closes(t, p, c)
    ensures from + 2 <= c.vs <= c.ve && c.ms == c.ve + 1 && c.ms < c.me && c.me + 2 <= p && t[c.ve] == '['
    ensures ScanOk(t, p + 2, c.(mode := JS), c.me + 3)
    ensures Render(t, Expand(t, p, c, from))
         == Render(t, Keep(from, c.vs - 2)) + Render(t, Block(t, c))
         + Render(t, Expand(t, p + 2, c.(mode := JS), c.me + 3))
  {
    hide Look, Render, Keep, Block;
    LookOk(t, p, c, from);
    var rest := Expand(t, p + 2, c.(mode := JS), c.me + 3);
    RenderConcat(t, Keep(from, c.vs - 2), Block(t, c));
    RenderConcat(t, Keep(from, c.vs - 2) + Block(t, c), rest);
  }

  /** The output once the block that `p` closes is added to it. */
  function Closed(t: string, done: string, from: nat, c: Scan): string
    requires from + 2 <= c.vs <= c.ve < c.ms < c.me < |t|
  {
    done + Render(t, Keep(from, c.vs - 2)) + Render(t, Block(t, c))
  }

  lemma CloseStep(t: string, done: string, from: nat, p: nat, c: Scan, code: string, d: Scan)
    requires p < |t| && ScanOk(t, p, c, from) && Closes(t, p, c) && code == done + t[from..]
    requires Shifted(c, d, |done| - from)
    ensures from + 2 <= c.vs <= c.ve && c.ms == c.ve + 1 && c.ms < c.me && c.me + 2 <= p
    ensures 2 <= d.vs <= d.ve && d.ms == d.ve + 1 && d.ms < d.me && d.me + 2 < |code| && code[d.ve] == '['
    ensures ScanOk(t, p + 2, c.(mode := JS), c.me + 3)
    ensures code[..d.vs - 2] + Edited(code, Scan(C3, d.vs, d.ve, d.ms, d.me, false)) + code[d.me + 3..]
         == Closed(t, done, from, c) + t[c.me + 3..]
    ensures done + Render(t, Expand(t, p, c, from))
         == Closed(t, done, from, c) + Render(t, Expand(t, p + 2, c.(mode := JS), c.me + 3))
  {
    hide Look, Expand, Edited, Block, Render, Keep;
    ExpandCloses(t, p, c, from);
    Slice(t, done, from, code, c.ve, c.ve + 1);
    assert code[d.ve] == code[d.ve..d.ve + 1][0] == t[c.ve..c.ve + 1][0];
    EditsRest(t, done, from, c, code, Scan(C3, d.vs, d.ve, d.ms, d.me, false));
    var kept, put := Render(t, Keep(from, c.vs - 2)), Render(t, Block(t, c));
    var rest := Render(t, Expand(t, p + 2, c.(mode := JS), c.me + 3));
    assert done + (kept + put + rest) == done + kept + put + rest;
  }

  /** How far the reference has come: at `p`, with the output `done` for the text before `from`. */
  datatype Progress = Progress(p: nat, c: Scan, from: nat, done: string)

  /** The loop at `i` with `scan` is the reference at `p` with `c`, further on by what the edits added. */
  predicate InStep(t: string, g: Progress, code: string, i: int, scan: Scan) {
    && ScanOk(t, g.p, g.c, g.from)
    && code == g.done + t[g.from..] && 0 <= i == g.p + |g.done| - g.from
    && Shifted(g.c, scan, |g.done| - g.from) && (g.p == 0 ==> g.done == "")
    && Expansion(t) == g.done + Render(t, Expand(t, g.p, g.c, g.from))
  }

  lemma LooksInStep(t: string, g: Progress, code: string, i: nat, scan: Scan)
    requires i < |code| && InStep(t, g, code, i, scan) && !Closes(code, i, scan)
    ensures g.p < |t| && InStep(t, g.(p := g.p + 1, c := Look(t, g.p, g.c)), code, i + 1, Look(code, i, scan))
  {
    hide Look, Expand, Render;
    LookShifted(t, g.done, g.from, code, g.p, g.c, scan);
    ExpandLooks(t, g.p, g.c, g.from);
  }

  function AfterClose(t: string, g: Progress): Progress
    requires g.from + 2 <= g.c.vs <= g.c.ve < g.c.ms < g.c.me < |t|
  {
    Progress(g.p + 2, g.c.(mode := JS), g.c.me + 3, Closed(t, g.done, g.from, g.c))
  }

  lemma ClosesInStep(t: string, g: Progress, code: string, i: nat, d: Scan)
    requires i < |code| && InStep(t, g, code, i, d) && Closes(code, i, d)
    ensures 2 <= d.vs <= d.ve && d.ms == d.ve + 1 && d.ms < d.me && d.me + 2 < |code| && code[d.ve] == '['
    ensures g.from + 2 <= g.c.vs <= g.c.ve < g.c.ms < g.c.me < |t|
    ensures var code' := code[..d.vs - 2] + Edited(code, Scan(C3, d.vs, d.ve, d.ms, d.me, false)) + code[d.me + 3..];
            InStep(t, AfterClose(t, g), code', i + 2 + |code'| - |code|, d.(mode := JS))
  {
    hide Look, Expand, Edited, Closed, Render;
    LookShifted(t, g.done, g.from, code, g.p, g.c, d);
    CloseStep(t, g.done, g.from, g.p, g.c, code, d);
  }

  /** One turn of the loop. */
  method Turn(code: string, i: nat, scan: Scan, ghost t: string, ghost g: Progress)
      returns (code': string, i': int, scan': Scan, ghost g': Progress)
    requires i < |code| && InStep(t, g, code, i, scan)
    ensures InStep(t, g', code', i', scan')
    ensures |code'| - i' < |code| - i
  {
    hide Expand, Edited, Closed, Render, Look, Closes, Shifted;
    LookShifted(t, g.done, g.from, code, g.p, g.c, scan);
    var closes;
    scan', closes := Switch(code, i, scan);
    if closes {
      ClosesInStep(t, g, code, i, scan);
      var advance;
      code', advance := CloseBlock(code, scan'.vs, scan'.ve, scan'.ms, scan'.me);
      scan', i' := scan'.(mode := JS), i + advance + 1;
      assert scan' == scan.(mode := JS);
      g' := AfterClose(t, g);
    } else {
      LooksInStep(t, g, code, i, scan);
      code', i' := code, i + 1;
      g' := g.(p := g.p + 1, c := Look(t, g.p, g.c));
    }
  }

  /**
   The expansion in place: every position it keeps stays a position of the string as
   it grows, the distance to its end shrinks, and what is left is the reference's output.
   */
  method Preprocess(text: string) returns (code: string)
    ensures code == Expansion(text)
  {
    hide Expand, Render, Shifted;
    code := text;
    var scan, i := START, 0;
    ghost var g := Progress(0, START, 0, "");
    assert InStep(text, g, code, i, scan) by {
      StartsInStep(text);
    }
    while i < |code|
      invariant InStep(text, g, code, i, scan)
      decreases |code| - i
    {
      code, i, scan, g := Turn(code, i, scan, text, g);
    }
    ExpandNothing(text, g.p, g.c, g.from);
  }

  lemma StartsInStep(t: string)
    ensures InStep(t, Progress(0, START, 0, ""), t, 0, START)
  {
    assert "" + Expansion(t) == Expansion(t);
  }
}

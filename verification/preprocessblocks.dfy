module PreprocessBlocks {
  import opened Json
  import opened Preprocess
  import opened PreprocessLaws
  import opened Strings

  /** From `i` on no line starts with `<`. */
  predicate Quiet(t: string, i: nat) {
    forall k :: i <= k < |t| && t[k] == '<' ==> k > 0 && t[k - 1] != '\n'
  }

  lemma {:induction false} QuietRest(t: string, i: nat, c: Scan, from: nat)
    requires ScanOk(t, i, c, from) && c.mode.JS? && Quiet(t, i)
    ensures Expand(t, i, c, from) == Keep(from, |t|)
    decreases |t| - i
  {
    if i < |t| {
      LookOk(t, i, c, from);
      QuietRest(t, i + 1, Look(t, i, c), from);
    }
  }

  /** A text without a line that starts with `<` is left alone. */
  lemma QuietUnchanged(t: string)
    requires Quiet(t, 0)
    ensures Expansion(t) == t
  {
    QuietRest(t, 0, START, 0);
    RenderKeep(t, 0, |t|);
  }

  predicate GoodName(name: string) {
    forall k :: 0 <= k < |name| ==> JsChar(name[k], k)
  }

  /** Whether a text opens or closes a template literal once more than the other. */
  predicate OddTicks(s: string) {
    s != "" && ((s[0] == '`') != OddTicks(s[1..]))
  }

  function DropTicks(s: string): string {
    if s == "" then "" else if s[0] == '`' then DropTicks(s[1..]) else [s[0]] + DropTicks(s[1..])
  }

  /** A closing line: it starts with `]`, and reads `]]>` without the backticks behind that. */
  predicate ClosingLine(line: string) {
    line != "" && line[0] == ']' && DropTicks(line[1..]) == "]>"
  }

  /** No line that starts outside a template literal is a closing line; `tick` if the text starts inside one. */
  predicate StaysOpen(s: string, tick: bool)
    decreases |s|
  {
    var n := LineEnd(s);
    (tick || !ClosingLine(s[..n])) && (n < |s| ==> StaysOpen(s[n + 1..], tick != OddTicks(s[..n])))
  }

  /** Lines as they stand between the opening and the closing line of a block, each with its break. */
  predicate WholeLines(lines: string) {
    lines == "" || lines[|lines| - 1] == '\n'
  }

  /** The text of a block, without the break before the closing line. */
  function Text(lines: string): string {
    if lines == "" then "" else lines[..|lines| - 1]
  }

  /** Lines that the block's own closing line closes: not an earlier line, and not inside a template literal. */
  predicate GoodLines(lines: string) {
    StaysOpen(Text(lines), false) && !OddTicks(Text(lines))
  }

  /** A block, up to the second bracket of its closing line. */
  function Opened(name: string, lines: string): string {
    "<[" + name + "[\n" + lines + "]]"
  }

  function Doc(name: string, lines: string): string {
    Opened(name, lines) + ">"
  }

  /** Where the scanner has the parts of the block at `b`. */
  function Read(b: nat, name: string, lines: string): Scan {
    Scan(C3, b + 2, b + 2 + |name|, b + 3 + |name|, b + 4 + |name| + |lines|, false)
  }

  /** The block stands at `b`. At the end of the text any character but a backtick will do for the last bracket. */
  predicate DocAt(t: string, b: nat, name: string, lines: string) {
    var e := b + |Opened(name, lines)|;
    && WholeLines(lines) && e < |t| && t[b..e] == Opened(name, lines)
    && if e + 1 == |t| then t[e] != '`' else t[e] == '>' && t[e + 1] == '\n'
  }

  /** Where the parts of a block are in it. */
  lemma DocParts(name: string, lines: string)
    ensures var d, n, m := Opened(name, lines), |name|, |name| + |lines|;
            && |d| == m + 6
            && d[0] == '<' && d[1] == '[' && d[2..2 + n] == name && d[2 + n] == '[' && d[3 + n] == '\n'
            && d[4 + n..4 + m] == lines && d[4 + m] == d[5 + m] == ']'
  {
    var d, n, m := Opened(name, lines), |name|, |name| + |lines|;
    DocTail(name, lines, 2, name);
    DocTail(name, lines, 4 + n, lines);
    var head, tail := "<[" + name + "[\n", "]]";
    assert d == head + lines + tail;
    assert d[..4 + n] == head;
    assert d[4 + m..] == tail;
    assert d[2 + n] == d[..4 + n][2 + n] && d[3 + n] == d[..4 + n][3 + n];
    assert d[4 + m] == d[4 + m..][0] && d[5 + m] == d[4 + m..][1];
  }

  /** A part of a text, by what stands before it. */
  lemma DocTail(name: string, lines: string, at: nat, part: string)
    requires (at == 2 && part == name) || (at == 4 + |name| && part == lines)
    ensures at + |part| <= |Opened(name, lines)| && Opened(name, lines)[at..at + |part|] == part
  {
    var head := if at == 2 then "<[" else "<[" + name + "[\n";
    var tail := if at == 2 then "[\n" + lines + "]]" else "]]";
    if at == 2 {
      assert Opened(name, lines) == "<[" + name + ("[\n" + lines + "]]");
    }
    assert Opened(name, lines) == head + part + tail && |head| == at;
    PartOf(head, part, tail);
  }

  lemma PartOf(head: string, part: string, tail: string)
    ensures (head + part + tail)[|head|..|head| + |part|] == part
  {
  }

  lemma DocChars(t: string, b: nat, name: string, lines: string)
    requires DocAt(t, b, name, lines)
    ensures var c := Read(b, name, lines);
            && b + |Opened(name, lines)| == c.me + 2 < |t| && t[c.me + 2] != '`'
            && (c.me + 3 < |t| ==> t[c.me + 2] == '>' && t[c.me + 3] == '\n')
            && t[b] == '<' && t[b + 1] == '[' && t[c.vs..c.ve] == name && t[c.ve] == '[' && t[c.ms] == '\n'
            && t[c.ms + 1..c.me] == lines && t[c.me - 1] == '\n'
            && t[c.me] == t[c.me + 1] == ']'
  {
    var d, n, m := Opened(name, lines), |name|, |name| + |lines|;
    DocParts(name, lines);
    hide Opened;
    SamePart(t, b, d, 2, 2 + n);
    SamePart(t, b, d, 4 + n, 4 + m);
    SameChars(t, b, d);
    assert t[b..][0] == d[0] && t[b..][1] == d[1] && t[b..][2 + n] == d[2 + n] && t[b..][3 + n] == d[3 + n];
    assert t[b..][4 + m] == d[4 + m] && t[b..][5 + m] == d[5 + m];
    if lines != "" {
      assert t[b + 4 + n..b + 4 + m][|lines| - 1] == lines[|lines| - 1];
    }
  }

  lemma SameChars(t: string, b: nat, d: string)
    requires b + |d| <= |t| && t[b..b + |d|] == d
    ensures forall k :: 0 <= k < |d| ==> t[b..][k] == d[k]
  {
    forall k | 0 <= k < |d| ensures t[b..][k] == d[k] {
      assert t[b..b + |d|][k] == t[b..][k];
    }
  }

  lemma SamePart(t: string, b: nat, d: string, i: nat, j: nat)
    requires b + |d| <= |t| && t[b..b + |d|] == d && i <= j <= |d|
    ensures t[b + i..b + j] == d[i..j]
  {
    SameChars(t, b, d);
    var x, y := t[b + i..b + j], d[i..j];
    forall k | 0 <= k < j - i ensures x[k] == y[k] {
      assert x[k] == t[b..][i + k];
    }
  }

  lemma {:induction false} NameScanned(t: string, b: nat, name: string, lines: string, k: nat, c: Scan, from: nat)
    requires DocAt(t, b, name, lines) && GoodName(name) && k <= |name|
    requires c.mode.O2? && c.vs == b + 2 && !c.tick && ScanOk(t, b + 2 + k, c, from)
    ensures var d := Read(b, name, lines);
            var c' := c.(ve := d.ve, ms := d.ms, mode := MD);
            ScanOk(t, d.ms, c', from) && Expand(t, b + 2 + k, c, from) == Expand(t, d.ms, c', from)
    decreases |name| - k
  {
    hide Block, Opened, DocAt;
    DocChars(t, b, name, lines);
    LookOk(t, b + 2 + k, c, from);
    var d := Read(b, name, lines);
    if k < |name| {
      assert t[b + 2 + k] == t[d.vs..d.ve][k] == name[k];
      NameScanned(t, b, name, lines, k + 1, c, from);
    }
  }

  // ----- the lines of a block -----

  lemma {:induction false} OddTicksConcat(a: string, b: string)
    ensures OddTicks(a + b) <==> OddTicks(a) != OddTicks(b)
  {
    if a == "" {
      assert a + b == b;
    } else {
      assert (a + b)[1..] == a[1..] + b;
      OddTicksConcat(a[1..], b);
    }
  }

  /** What is left of the closing line behind what was seen of it, without backticks. */
  function Awaited(m: Mode): string
    requires m.C1? || m.C2? || m.C3?
  {
    match m case C1 => "]>" case C2 => ">" case C3 => ""
  }

  /** The scanner in a block, somewhere in a line that ends at `n`: the line will close the block. */
  predicate LineCloses(t: string, j: nat, n: nat, m: Mode)
    requires j <= n <= |t|
  {
    (m.C1? || m.C2? || m.C3?) && DropTicks(t[j..n]) == Awaited(m)
  }

  predicate InLine(t: string, j: nat, n: nat, c: Scan, from: nat) {
    && 0 < j <= n && n + 1 < |t| && t[n] == '\n' && (forall k :: j <= k < n ==> t[k] != '\n')
    && (c.mode.MD? || c.mode.C1? || c.mode.C2? || c.mode.C3?) && (c.mode.MD? ==> j == n || t[j - 1] != '\n')
    && ScanOk(t, j, c, from)
  }

  lemma FirstOf(x: char, rest: string)
    ensures [x] + rest == "]>" <==> x == ']' && rest == ">"
    ensures [x] + rest == ">" <==> x == '>' && rest == ""
  {
    assert ([x] + rest)[1..] == rest && "]>" == "]" + ">" && ">" == ">" + "";
  }

  lemma LineStep(t: string, j: nat, n: nat, c: Scan)
    requires j < n <= |t| && (c.mode.MD? || c.mode.C1? || c.mode.C2? || c.mode.C3?)
    requires c.mode.MD? ==> j > 0 && t[j - 1] != '\n'
    ensures LineCloses(t, j, n, c.mode) <==> LineCloses(t, j + 1, n, Look(t, j, c).mode)
  {
    assert t[j..n][0] == t[j] && t[j..n][1..] == t[j + 1..n];
    if t[j] != '`' {
      FirstOf(t[j], DropTicks(t[j + 1..n]));
    }
  }

  /** The rest of a line, as far as it decides whether the block closes. */
  lemma {:induction false} LineScanned(t: string, j: nat, n: nat, c: Scan, from: nat)
    requires InLine(t, j, n, c, from)
    ensures var c' := c.(tick := c.tick != OddTicks(t[j..n]));
            if LineCloses(t, j, n, c.mode)
            then ScanOk(t, n, c'.(mode := C3), from) && Expand(t, j, c, from) == Expand(t, n, c'.(mode := C3), from)
            else ScanOk(t, n + 1, c'.(mode := MD), from)
                 && Expand(t, j, c, from) == Expand(t, n + 1, c'.(mode := MD), from)
    decreases n - j
  {
    hide Block, Expand, DropTicks;
    if j == n {
      LineEnds(t, n, c, from);
    } else {
      assert t[j..n][0] == t[j] && t[j..n][1..] == t[j + 1..n];
      LineStep(t, j, n, c);
      ExpandLooks(t, j, c, from);
      hide ScanOk, LineCloses;
      LineScanned(t, j + 1, n, Look(t, j, c), from);
    }
  }

  lemma LineEnds(t: string, n: nat, c: Scan, from: nat)
    requires InLine(t, n, n, c, from)
    ensures LineCloses(t, n, n, c.mode) <==> c.mode.C3?
    ensures !OddTicks(t[n..n])
    ensures !c.mode.C3? ==>
              ScanOk(t, n + 1, c.(mode := MD), from) && Expand(t, n, c, from) == Expand(t, n + 1, c.(mode := MD), from)
  {
    hide Expand;
    assert t[n..n] == "";
    if !c.mode.C3? {
      ExpandLooks(t, n, c, from);
    }
  }

  /** The scanner in a block, at the start of a line that ends at `n`. */
  predicate AtLine(t: string, i: nat, n: nat, c: Scan, from: nat) {
    && 0 < i <= n && n + 1 < |t| && t[i - 1] == '\n' && t[n] == '\n'
    && c.mode.MD? && ScanOk(t, i, c, from)
  }

  /** The scanner behind a line that does not close the block. */
  function AfterLine(t: string, i: nat, n: nat, c: Scan): Scan
    requires i <= n < |t|
  {
    c.(me := if !c.tick && t[i] == ']' then i else c.me, tick := c.tick != OddTicks(t[i..n]))
  }

  lemma LineStart(t: string, i: nat, n: nat, c: Scan, from: nat)
    requires AtLine(t, i, n, c, from) && forall k :: i <= k < n ==> t[k] != '\n'
    ensures var c' := AfterLine(t, i, n, c);
            if !c.tick && ClosingLine(t[i..n])
            then c'.me == i < n && ScanOk(t, n, c'.(mode := C3), from)
                 && Expand(t, i, c, from) == Expand(t, n, c'.(mode := C3), from)
            else ScanOk(t, n + 1, c', from) && Expand(t, i, c, from) == Expand(t, n + 1, c', from)
  {
    hide Block, DropTicks, Expand, ScanOk;
    ExpandLooks(t, i, c, from);
    if i == n {
      assert t[i..n] == "";
    } else {
      assert t[i..n][0] == t[i] && t[i..n][1..] == t[i + 1..n];
      LineScanned(t, i + 1, n, Look(t, i, c), from);
    }
  }

  lemma FirstLine(t: string, i: nat, hi: nat) returns (n: nat)
    requires i <= hi <= |t|
    ensures n == i + LineEnd(t[i..hi]) && i <= n <= hi && t[i..hi][..n - i] == t[i..n]
    ensures forall k :: i <= k < n ==> t[k] != '\n'
    ensures n < hi ==> t[n] == '\n' && t[i..hi][n - i + 1..] == t[n + 1..hi]
    ensures OddTicks(t[i..hi]) <==> OddTicks(t[i..n]) != (n < hi && OddTicks(t[n + 1..hi]))
  {
    var s := t[i..hi];
    n := i + LineEnd(s);
    forall k | i <= k < n ensures t[k] != '\n' {
      assert t[k] == s[..n - i][k - i];
    }
    if n < hi {
      assert s == t[i..n] + ("\n" + t[n + 1..hi]);
      OddTicksConcat(t[i..n], "\n" + t[n + 1..hi]);
      assert ("\n" + t[n + 1..hi])[1..] == t[n + 1..hi];
    }
  }

  /** Lines that leave the block open are passed over. */
  lemma {:induction false} LinesScanned(t: string, i: nat, hi: nat, c: Scan, from: nat) returns (c': Scan)
    requires AtLine(t, i, hi, c, from) && StaysOpen(t[i..hi], c.tick)
    ensures c' == c.(me := c'.me, tick := c.tick != OddTicks(t[i..hi]))
    ensures ScanOk(t, hi + 1, c', from) && Expand(t, i, c, from) == Expand(t, hi + 1, c', from)
    decreases hi - i
  {
    hide Block, Expand, OddTicks, ClosingLine, ScanOk, LineEnd;
    var n := FirstLine(t, i, hi);
    LineStart(t, i, n, c, from);
    c' := AfterLine(t, i, n, c);
    if n < hi {
      c' := LinesScanned(t, n + 1, hi, c', from);
    }
  }

  /** Otherwise one of the lines closes the block. */
  lemma {:induction false} LineCloser(t: string, i: nat, hi: nat, c: Scan, from: nat) returns (c': Scan, at: nat)
    requires AtLine(t, i, hi, c, from) && !StaysOpen(t[i..hi], c.tick)
    ensures c' == c.(mode := C3, me := c'.me, tick := c'.tick) && i <= c'.me < at <= hi
    ensures ScanOk(t, at, c', from) && Closes(t, at, c') && Expand(t, i, c, from) == Expand(t, at, c', from)
    decreases hi - i
  {
    hide Block, Expand, OddTicks, ClosingLine, ScanOk, LineEnd;
    var n := FirstLine(t, i, hi);
    LineStart(t, i, n, c, from);
    c' := AfterLine(t, i, n, c);
    if !c.tick && ClosingLine(t[i..n]) {
      c', at := c'.(mode := C3), n;
    } else {
      c', at := LineCloser(t, n + 1, hi, c', from);
    }
  }

  // ----- a block is expanded -----

  /** Where the scanner gets to in the closing line, at its end or at the end of the text. */
  lemma ClosingScanned(t: string, b: nat, name: string, lines: string, c: Scan, from: nat)
    returns (at: nat, c': Scan)
    requires DocAt(t, b, name, lines) && c.mode.MD?
    requires var d := Read(b, name, lines); c == d.(mode := MD, me := c.me) && ScanOk(t, d.me, c, from)
    ensures var d := Read(b, name, lines);
            && c' == d.(mode := c'.mode) && at < |t| && ScanOk(t, at, c', from) && Closes(t, at, c')
            && at == (if d.me + 3 < |t| then d.me + 3 else d.me + 2)
            && Expand(t, d.me, c, from) == Expand(t, at, c', from)
  {
    hide Block, Opened, DocAt;
    DocChars(t, b, name, lines);
    var d := Read(b, name, lines);
    hide Expand;
    ExpandLooks(t, d.me, c, from);
    ExpandLooks(t, d.me + 1, d.(mode := C1), from);
    at, c' := d.me + 2, d.(mode := C2);
    if d.me + 3 < |t| {
      ExpandLooks(t, d.me + 2, d.(mode := C2), from);
      at, c' := d.me + 3, d;
    }
  }

  /** The opening line of a block, up to where its text starts. */
  lemma OpeningScanned(t: string, b: nat, name: string, lines: string, c: Scan, from: nat) returns (n: Scan)
    requires DocAt(t, b, name, lines) && GoodName(name)
    requires c.mode.JS? && !c.tick && ScanOk(t, b, c, from) && (b > 0 ==> t[b - 1] == '\n')
    ensures var d := Read(b, name, lines);
            && n == d.(mode := MD, me := n.me) && ScanOk(t, d.ms + 1, n, from)
            && Expand(t, b, c, from) == Expand(t, d.ms + 1, n, from)
  {
    hide Block, Opened, DocAt, GoodName;
    DocChars(t, b, name, lines);
    var d := Read(b, name, lines);
    LookOk(t, b, c, from);
    var o := c.(mode := O1);
    LookOk(t, b + 1, o, from);
    n := o.(vs := b + 2, mode := O2);
    NameScanned(t, b, name, lines, 0, n, from);
    n := n.(ve := d.ve, ms := d.ms, mode := MD);
    LookOk(t, d.ms, n, from);
  }

  /** The lines of a block, if there are any, begin at a line. */
  lemma LinesAt(t: string, b: nat, name: string, lines: string, n: Scan, from: nat)
    requires DocAt(t, b, name, lines) && lines != ""
    requires var d := Read(b, name, lines); n == d.(mode := MD, me := n.me) && ScanOk(t, d.ms + 1, n, from)
    ensures var d := Read(b, name, lines);
            AtLine(t, d.ms + 1, d.me - 1, n, from) && t[d.ms + 1..d.me - 1] == Text(lines)
  {
    hide Opened, DocAt, ScanOk;
    DocChars(t, b, name, lines);
    var d := Read(b, name, lines);
    Shorter(t, d.ms + 1, d.me);
  }

  lemma Shorter(t: string, a: nat, b: nat)
    requires a < b <= |t|
    ensures t[a..b - 1] == t[a..b][..b - a - 1]
  {
  }

  /** No line of the text closes the block: the scanner gets to the closing line. */
  lemma TextScanned(t: string, b: nat, name: string, lines: string, n: Scan, from: nat) returns (c: Scan)
    requires DocAt(t, b, name, lines) && StaysOpen(Text(lines), false)
    requires var d := Read(b, name, lines); n == d.(mode := MD, me := n.me) && ScanOk(t, d.ms + 1, n, from)
    ensures var d := Read(b, name, lines);
            && c == n.(me := c.me, tick := OddTicks(Text(lines))) && ScanOk(t, d.me, c, from)
            && Expand(t, d.ms + 1, n, from) == Expand(t, d.me, c, from)
  {
    hide Opened, DocAt, Expand, StaysOpen, ScanOk, OddTicks;
    var d := Read(b, name, lines);
    c := n;
    if lines == "" {
      NoTicks();
    } else {
      LinesAt(t, b, name, lines, n, from);
      c := LinesScanned(t, d.ms + 1, d.me - 1, n, from);
    }
  }

  lemma NoTicks()
    ensures !OddTicks("") && StaysOpen("", false)
  {
    var s: string := "";
    assert s[..0] == s;
  }

  /** A block at the start of a line outside a template literal, wherever it is, is the one thing expanded next. */
  lemma BlockExpands(t: string, b: nat, name: string, lines: string, c: Scan, from: nat)
    requires DocAt(t, b, name, lines) && GoodName(name) && GoodLines(lines)
    requires c.mode.JS? && !c.tick && ScanOk(t, b, c, from) && (b > 0 ==> t[b - 1] == '\n')
    ensures var d := Read(b, name, lines);
            && d.me + 2 == b + |Opened(name, lines)| < |t|
            && Expand(t, b, c, from) == Keep(from, b) + Block(t, d) + Expand(t, d.me + 5, d.(mode := JS), d.me + 3)
    ensures Edited(t, Read(b, name, lines)) == Replacement(name, lines)
  {
    hide Snippet, Block, Edited, Replacement, Opened, DocAt, StaysOpen, GoodName, Text;
    DocChars(t, b, name, lines);
    var d := Read(b, name, lines);
    var n := OpeningScanned(t, b, name, lines, c, from);
    n := TextScanned(t, b, name, lines, n, from);
    var at, e := ClosingScanned(t, b, name, lines, n, from);
    LookOk(t, at, e, from);
    SameBlock(t, e, d);
    hide ScanOk;
    ReplacementAt(t, b, name, lines);
  }

  /** A block is told by its positions. */
  lemma SameBlock(t: string, c: Scan, d: Scan)
    requires c.vs <= c.ve < c.ms < c.me <= |t| && c == d.(mode := c.mode)
    ensures Block(t, c) == Block(t, d)
  {
    hide Snippet;
  }

  function Commented(name: string, lines: string): string {
    if Echo(name) then "\n" + lines + "   " else name + "[\n" + lines + "]" + "*/"
  }

  /** The statement, and the block as a comment with its line breaks where they were. */
  function Replacement(name: string, lines: string): string {
    Snippet(name, Text(lines)) + Commented(name, lines)
  }

  lemma ReplacementAt(t: string, b: nat, name: string, lines: string)
    requires DocAt(t, b, name, lines)
    ensures Edited(t, Read(b, name, lines)) == Replacement(name, lines)
  {
    hide Snippet, Opened, DocAt, Comment, Commented;
    DocChars(t, b, name, lines);
    var d := Read(b, name, lines);
    assert Name(t, d) == name;
    TextAt(t, d, lines);
    CommentAt(t, d, name, lines);
  }

  lemma TextAt(t: string, d: Scan, lines: string)
    requires d.ms < d.me <= |t| && t[d.ms + 1..d.me] == lines
    ensures Body(t, d) == Text(lines)
  {
    if lines != "" {
      Shorter(t, d.ms + 1, d.me);
    }
  }

  lemma CommentAt(t: string, d: Scan, name: string, lines: string)
    requires d.vs <= d.ve < d.ms < d.me < |t| && d.ms == d.ve + 1 && d.ve == d.vs + |name|
    requires t[d.vs..d.ve] == name && t[d.ve] == '[' && t[d.ms] == '\n' && t[d.ms + 1..d.me] == lines && t[d.me] == ']'
    ensures Comment(t, d) == Commented(name, lines)
  {
    BrokenLines(t, d, lines);
    if !Echo(name) {
      NamedLines(t, d, name, lines);
    }
  }

  lemma BrokenLines(t: string, d: Scan, lines: string)
    requires d.ms < d.me < |t| && t[d.ms] == '\n' && t[d.ms + 1..d.me] == lines
    ensures t[d.ms..d.me] == "\n" + lines
  {
  }

  lemma NamedLines(t: string, d: Scan, name: string, lines: string)
    requires d.vs <= d.ve < d.ms < d.me < |t| && d.ms == d.ve + 1
    requires t[d.vs..d.ve] == name && t[d.ve] == '[' && t[d.ms..d.me] == "\n" + lines && t[d.me] == ']'
    ensures t[d.vs..d.me + 1] == name + "[\n" + lines + "]"
  {
    Cut(t, d.vs, d.ve, d.me + 1);
    Cut(t, d.ve, d.ms, d.me + 1);
    Cut(t, d.ms, d.me, d.me + 1);
    assert t[d.ve..d.ms] == "[" && t[d.me..d.me + 1] == "]";
    assert name + ("[" + ("\n" + lines + "]")) == name + "[\n" + lines + "]";
  }

  lemma Cut(t: string, a: nat, b: nat, c: nat)
    requires a <= b <= c <= |t|
    ensures t[a..c] == t[a..b] + t[b..c]
  {
  }

  /** A snippet is the text of the block as a string literal, or an echo of it, between two parts of its own. */
  function SnippetHead(name: string): string {
    if name == "!" || name == "" then "print($("
    else if name == ":" then "print[':']($("
    else (if name[0] == '!' then "export const " + name[1..] else "const " + name) + " = $("
  }

  function Quoted(name: string, body: string): string {
    if Echo(name) then "```js!noplay\n" + body + "\n```" else body
  }

  function SnippetTail(name: string): string {
    if Echo(name) then "));" else if name != "" && name != ":" then ");/*" else "));/*"
  }

  lemma SnippetParts(name: string, body: string)
    ensures Snippet(name, body) == SnippetHead(name) + Quote(Quoted(name, body)) + SnippetTail(name)
  {
    hide Quote;
  }

  /** A snippet tells the text of its block, whatever follows it. */
  lemma SnippetTells(name: string, a: string, x: string, b: string, y: string)
    requires Snippet(name, a) + x == Snippet(name, b) + y
    ensures a == b
  {
    SnippetParts(name, a);
    SnippetParts(name, b);
    hide Snippet, SnippetHead, SnippetTail;
    var h, p, q, l := SnippetHead(name), Quoted(name, a), Quoted(name, b), SnippetTail(name);
    QuoteSplit(h, p, l, x);
    QuoteSplit(h, q, l, y);
    QuotedFirst(p, l + x, q, l + y);
    if Echo(name) {
      assert |a| == |b|;
      PartOf("```js!noplay\n", a, "\n```");
      PartOf("```js!noplay\n", b, "\n```");
    }
  }

  lemma QuoteSplit(h: string, p: string, l: string, x: string)
    ensures (h + Quote(p) + l + x)[|h| + 1..] == Escapes(p) + "\"" + (l + x)
  {
    var e, q := Escapes(p), "\"";
    hide Escapes;
    Regroup(h, q, e, l, x);
    assert (h + q + (e + q + (l + x)))[|h + q|..] == e + q + (l + x);
  }

  lemma Regroup(h: string, q: string, e: string, l: string, x: string)
    ensures h + (q + e + q) + l + x == h + q + (e + q + (l + x))
  {
    assert h + (q + e + q) == h + q + (e + q);
    assert h + q + (e + q) + l == h + q + (e + q + l);
    assert h + q + (e + q + l) + x == h + q + (e + q + l + x) && e + q + l + x == e + q + (l + x);
  }

  // ----- a block behind a quiet text -----

  /** Over a stretch without an opening line the scanner stays in its initial state, but for the backticks. */
  lemma {:induction false} QuietStretch(t: string, i: nat, j: nat, c: Scan, from: nat)
    requires i <= j <= |t| && ScanOk(t, i, c, from) && c.mode.JS?
    requires forall k :: i <= k < j && t[k] == '<' ==> k > 0 && t[k - 1] != '\n'
    ensures var c' := c.(tick := c.tick != OddTicks(t[i..j]));
            ScanOk(t, j, c', from) && Expand(t, i, c, from) == Expand(t, j, c', from)
    decreases j - i
  {
    if i < j {
      LookOk(t, i, c, from);
      assert t[i..j][0] == t[i] && t[i..j][1..] == t[i + 1..j];
      QuietStretch(t, i + 1, j, Look(t, i, c), from);
    }
  }

  /** How a text can end behind the second bracket of its last block. */
  predicate TextEnd(end: string) {
    end == ">\n" || (|end| == 1 && end != "`")
  }

  /** A text, of whole lines, that a block can follow: it opens none, and no template literal. */
  predicate Before(pre: string) {
    Quiet(pre, 0) && !OddTicks(pre) && (pre != "" ==> pre[|pre| - 1] == '\n')
  }

  /** A text with a block at its end. */
  predicate BlockEnds(t: string, pre: string, name: string, lines: string, end: string) {
    && |pre| <= |t| && t[..|pre|] == pre && DocAt(t, |pre|, name, lines) && TextEnd(end)
    && t[|pre| + |Opened(name, lines)|..] == end
  }

  lemma TextEnds(pre: string, name: string, lines: string, end: string)
    requires WholeLines(lines) && TextEnd(end)
    ensures BlockEnds(pre + (Opened(name, lines) + end), pre, name, lines, end)
  {
    hide Opened, DocAt;
    var doc := Opened(name, lines);
    var t := pre + (doc + end);
    assert t[|pre|..] == doc + end;
    DocThen(t, |pre|, name, lines, end);
    assert t[|pre| + |doc|..] == t[|pre|..][|doc|..];
  }

  lemma BeforeScanned(t: string, pre: string)
    requires Before(pre) && |pre| <= |t| && t[..|pre|] == pre
    ensures ScanOk(t, |pre|, START, 0) && Expand(t, 0, START, 0) == Expand(t, |pre|, START, 0)
    ensures |pre| > 0 ==> t[|pre| - 1] == '\n'
  {
    hide Expand, OddTicks;
    forall k | 0 <= k < |pre| && t[k] == '<' ensures k > 0 && t[k - 1] != '\n' {
      assert t[k] == pre[k] && (k > 0 ==> t[k - 1] == pre[k - 1]);
    }
    assert t[0..|pre|] == pre;
    hide Quiet;
    QuietStretch(t, 0, |pre|, START, 0);
    if |pre| > 0 {
      assert t[|pre| - 1] == pre[|pre| - 1];
    }
  }

  lemma DocThen(t: string, b: nat, name: string, lines: string, end: string)
    requires b <= |t| && t[b..] == Opened(name, lines) + end && WholeLines(lines) && TextEnd(end)
    ensures DocAt(t, b, name, lines)
  {
    hide Opened;
    var e := b + |Opened(name, lines)|;
    assert t[b..e] == t[b..][..|Opened(name, lines)|] == Opened(name, lines);
    assert t[e] == t[b..][|Opened(name, lines)|] == end[0];
    assert e + 1 < |t| ==> t[e + 1] == t[b..][|Opened(name, lines)| + 1] == end[1];
  }

  /** What is kept before a block, the block, and the rest, put together. */
  lemma RenderBehind(t: string, pre: string, block: seq<Mark>, rest: seq<Mark>)
    requires |pre| <= |t| && t[..|pre|] == pre
    ensures Render(t, Keep(0, |pre|) + block + rest) == pre + (Render(t, block) + Render(t, rest))
  {
    hide Render, Keep;
    RenderConcat(t, Keep(0, |pre|) + block, rest);
    RenderConcat(t, Keep(0, |pre|), block);
    RenderKeep(t, 0, |pre|);
    assert t[0..|pre|] == pre;
    assert pre + Render(t, block) + Render(t, rest) == pre + (Render(t, block) + Render(t, rest));
  }

  /** The block is expanded. */
  lemma GoodBehind(t: string, pre: string, name: string, lines: string, end: string)
    requires BlockEnds(t, pre, name, lines, end) && Before(pre) && GoodName(name) && GoodLines(lines)
    ensures Expansion(t) == pre + (Replacement(name, lines) + end[1..])
  {
    hide Before, GoodName, GoodLines, Opened, DocAt, Block, Render, Keep, Replacement, Edited, Expand;
    var d := Read(|pre|, name, lines);
    BeforeScanned(t, pre);
    BlockExpands(t, |pre|, name, lines, START, 0);
    DocChars(t, |pre|, name, lines);
    EndKept(t, d, end[1..]);
    hide ScanOk;
    RenderBehind(t, pre, Block(t, d), Keep(d.me + 3, |t|));
    RenderBlock(t, d);
    RenderKeep(t, d.me + 3, |t|);
    assert t[d.me + 3..|t|] == t[d.me + 2..][1..] == end[1..];
  }

  /** Behind a block at the end of the text only its line break is left. */
  lemma EndKept(t: string, d: Scan, end: string)
    requires d.me + 3 + |end| == |t| && |end| <= 1
    ensures ScanOk(t, d.me + 5, d.(mode := JS), d.me + 3)
    ensures Expand(t, d.me + 5, d.(mode := JS), d.me + 3) == Keep(d.me + 3, |t|)
  {
  }

  /** A block that a line of its own text closes has less text in its snippet. */
  lemma ClosedEarly(t: string, pre: string, name: string, lines: string, end: string)
    returns (less: string, rest: string)
    requires BlockEnds(t, pre, name, lines, end) && Before(pre) && GoodName(name) && !StaysOpen(Text(lines), false)
    ensures Expansion(t) == pre + (Snippet(name, less) + rest) && |less| < |Text(lines)|
  {
    hide Before, Block, Expand, Render, Snippet, Opened, DocAt, StaysOpen, GoodName, Keep;
    BeforeScanned(t, pre);
    var c, at := EarlyCloser(t, |pre|, name, lines, START, 0);
    LookOk(t, at, c, 0);
    var more := Expand(t, at + 2, c.(mode := JS), c.me + 3);
    EarlyExpands(t, at, c, |pre|);
    RenderBehind(t, pre, Block(t, c), more);
    RenderBlock(t, c);
    less, rest := Body(t, c), Comment(t, c) + Render(t, more);
    hide Body, Comment, ScanOk;
    assert Snippet(name, less) + Comment(t, c) + Render(t, more) == Snippet(name, less) + rest;
  }

  /** Where the block is closed by a line of its text. */
  lemma EarlyCloser(t: string, b: nat, name: string, lines: string, c: Scan, from: nat) returns (e: Scan, at: nat)
    requires DocAt(t, b, name, lines) && GoodName(name) && !StaysOpen(Text(lines), false)
    requires c.mode.JS? && !c.tick && ScanOk(t, b, c, from) && (b > 0 ==> t[b - 1] == '\n')
    ensures at < |t| && ScanOk(t, at, e, from) && Closes(t, at, e) && Expand(t, b, c, from) == Expand(t, at, e, from)
    ensures e.vs == b + 2 && e.ve <= |t| && e.vs <= e.ve && e.ms < e.me < |t| && t[e.vs..e.ve] == name
    ensures |Body(t, e)| < |Text(lines)|
  {
    hide Block, Expand, Opened, DocAt, StaysOpen, GoodName, ScanOk, Closes;
    var d := Read(b, name, lines);
    var n := OpeningScanned(t, b, name, lines, c, from);
    NoTicks();
    LinesAt(t, b, name, lines, n, from);
    e, at := LineCloser(t, d.ms + 1, d.me - 1, n, from);
    DocChars(t, b, name, lines);
  }

  lemma EarlyExpands(t: string, at: nat, c: Scan, b: nat)
    requires at < |t| && ScanOk(t, at, c, 0) && Closes(t, at, c) && c.vs == b + 2
    ensures c.vs <= c.ve < c.ms < c.me < |t| && ScanOk(t, at + 2, c.(mode := JS), c.me + 3)
    ensures Expand(t, at, c, 0) == Keep(0, b) + Block(t, c) + Expand(t, at + 2, c.(mode := JS), c.me + 3)
  {
    hide Block;
    LookOk(t, at, c, 0);
  }

  /** A block whose closing line is inside a template literal stays as it is. */
  lemma Unclosed(t: string, pre: string, name: string, lines: string, end: string)
    requires BlockEnds(t, pre, name, lines, end) && Before(pre) && GoodName(name)
    requires StaysOpen(Text(lines), false) && OddTicks(Text(lines))
    ensures Expansion(t) == t
  {
    hide Before, Block, Render, Opened, DocAt, StaysOpen, GoodName, Keep, OddTicks, Text, Expand, ScanOk;
    var d := Read(|pre|, name, lines);
    BeforeScanned(t, pre);
    var n := OpeningScanned(t, |pre|, name, lines, START, 0);
    n := TextScanned(t, |pre|, name, lines, n, 0);
    DocChars(t, |pre|, name, lines);
    NoTicksBehind(t, d.me, end);
    TickedToEnd(t, d.me, n, 0);
    RenderKeep(t, 0, |t|);
    assert t[0..|t|] == t;
  }

  lemma NoTicksBehind(t: string, i: nat, end: string)
    requires i + 2 <= |t| && t[i] == t[i + 1] == ']' && t[i + 2..] == end && TextEnd(end)
    ensures forall k :: i <= k < |t| ==> t[k] != '`'
  {
    forall k | i + 2 <= k < |t| ensures t[k] != '`' {
      assert t[k] == t[i + 2..][k - i - 2];
    }
  }

  /** In a block and inside a template literal nothing more happens if no backtick follows. */
  lemma {:induction false} TickedToEnd(t: string, i: nat, c: Scan, from: nat)
    requires ScanOk(t, i, c, from) && c.mode.MD? && c.tick && forall k :: i <= k < |t| ==> t[k] != '`'
    ensures Expand(t, i, c, from) == Keep(from, |t|)
    decreases |t| - i
  {
    if i < |t| {
      LookOk(t, i, c, from);
      TickedToEnd(t, i + 1, c, from);
    }
  }

  /**
   A block at the end of a text, with or without a last line break, behind lines that open none: it becomes its snippet
   and its commented source exactly if its own closing line closes it, which is if the backticks in its text are even
   in number and no line before, outside a template literal, is a closing line. Without a last line break, the last
   character need not be a bracket.
   */
  lemma LastBlock(pre: string, name: string, lines: string, end: string)
    requires Before(pre) && GoodName(name) && WholeLines(lines) && TextEnd(end)
    ensures Expansion(pre + (Opened(name, lines) + end)) == pre + (Replacement(name, lines) + end[1..])
       <==> GoodLines(lines)
  {
    hide Expansion, Before, Opened, GoodName, StaysOpen, OddTicks, Snippet, Commented, Text;
    var t, r := pre + (Opened(name, lines) + end), Replacement(name, lines) + end[1..];
    TextEnds(pre, name, lines, end);
    hide BlockEnds;
    if GoodLines(lines) {
      GoodBehind(t, pre, name, lines, end);
    } else if StaysOpen(Text(lines), false) {
      Unclosed(t, pre, name, lines, end);
      ReplacementDiffers(name, lines, end[1..], end);
      Behind(pre, Opened(name, lines) + end, r);
    } else {
      var less, rest := ClosedEarly(t, pre, name, lines, end);
      var more := Commented(name, lines) + end[1..];
      assert r == Snippet(name, Text(lines)) + more;
      Behind(pre, Snippet(name, less) + rest, r);
      if Snippet(name, less) + rest == Snippet(name, Text(lines)) + more {
        SnippetTells(name, less, rest, Text(lines), more);
        assert false;
      }
    }
  }

  lemma Behind(pre: string, a: string, b: string)
    ensures pre + a == pre + b <==> a == b
  {
    assert (pre + a)[|pre|..] == a && (pre + b)[|pre|..] == b;
  }

  lemma ReplacementDiffers(name: string, lines: string, x: string, y: string)
    ensures Replacement(name, lines) + x != Opened(name, lines) + y
  {
    hide Quote, Commented, Text;
    var body := Text(lines);
    assert Snippet(name, body)[0] != '<' == (Opened(name, lines) + y)[0];
    assert (Replacement(name, lines) + x)[0] == Snippet(name, body)[0];
  }

  /** One block alone. */
  lemma OneBlock(name: string, lines: string, end: string)
    requires GoodName(name) && WholeLines(lines) && TextEnd(end)
    ensures Expansion(Opened(name, lines) + end) == Replacement(name, lines) + end[1..] <==> GoodLines(lines)
  {
    hide Expansion, Opened, Replacement, GoodName, GoodLines;
    LastBlock("", name, lines, end);
    assert "" + (Opened(name, lines) + end) == Opened(name, lines) + end;
    assert "" + (Replacement(name, lines) + end[1..]) == Replacement(name, lines) + end[1..];
  }

  // ----- what each kind of block becomes -----

  lemma GoodLine(line: string)
    requires '\n' !in line && '`' !in line && (line != "" ==> line[0] != ']')
    ensures GoodLines(line + "\n") && Text(line + "\n") == line && WholeLines(line + "\n")
  {
    assert (line + "\n")[..|line|] == line;
    forall k | 0 <= k < |line| ensures line[k] != '\n' {
      assert line[k] in line;
    }
    assert line[..LineEnd(line)] == line;
    NoOddTicks(line);
  }

  lemma {:induction false} NoOddTicks(s: string)
    requires '`' !in s
    ensures !OddTicks(s)
  {
    if s != "" {
      assert s[0] in s;
      NoOddTicks(s[1..]);
    }
  }

  /** A block without text. */
  lemma EmptyBlock()
    ensures Expansion("<[[\n]]>") == "print($(\"\"));/*[\n]*/"
  {
    NoTicks();
    hide Expansion;
    OneBlock("", "", ">");
    assert Opened("", "") + ">" == "<[[\n]]>" && ">"[1..] == "";
    hide GoodLines, Opened;
    assert Replacement("", "") + "" == "print($(\"\"));/*[\n]*/";
  }

  /**
   What a block of each kind of name makes of its text: a name binds it, with `!` before it exports it; `:` prints it
   as a slide, and no name prints it.
   */
  predicate Kind(name: string, id: string, head: string, tail: string) {
    || (name == id && id != "" && id[0] != '!' && id[0] != ':' && head == "const " + id + " = $(" && tail == ");")
    || (name == "!" + id && id != "" && head == "export const " + id + " = $(" && tail == ");")
    || (name == ":" && head == "print[':']($(" && tail == "));")
    || (name == "" && head == "print($(" && tail == "));")
  }

  lemma KindSnippet(name: string, id: string, head: string, tail: string, text: string)
    requires Kind(name, id, head, tail)
    ensures !Echo(name) && Snippet(name, text) == head + Quote(text) + tail + "/*"
  {
    hide Quote;
    if name == "!" + id && id != "" {
      assert name[1..] == id;
    }
  }

  /** A block of one line at the end of a text: the statement, and the block commented out. */
  lemma KindsOfBlock(name: string, id: string, head: string, tail: string, line: string)
    requires Kind(name, id, head, tail) && GoodName(name)
    requires '\n' !in line && '`' !in line && (line != "" ==> line[0] != ']')
    ensures Expansion("<[" + name + "[\n" + line + "\n]]>")
         == head + Quote(line) + tail + "/*" + name + "[\n" + line + "\n]*/"
  {
    KindSnippet(name, id, head, tail, line);
    GoodLine(line);
    hide GoodLines, Text, WholeLines, Expansion, Snippet, GoodName, Quote, Kind;
    var lines := line + "\n";
    OneBlock(name, lines, ">");
    assert ">"[1..] == "";
    DocLine(name, line);
    var snippet := head + Quote(line) + tail + "/*";
    ReplacementLine(name, line, snippet);
    hide Replacement, Opened;
    Flatten(snippet, name, "[\n", line, "\n]*/");
  }

  lemma Flatten(a: string, b: string, c: string, d: string, e: string)
    ensures a + (b + c + d + e) == a + b + c + d + e
  {
    assert a + (b + c + d + e) == a + (b + c + d) + e;
    assert a + (b + c + d) == a + (b + c) + d && a + (b + c) == a + b + c;
  }

  lemma ReplacementLine(name: string, line: string, snippet: string)
    requires !Echo(name) && Text(line + "\n") == line && snippet == Snippet(name, line)
    ensures Replacement(name, line + "\n") + "" == snippet + (name + "[\n" + line + "\n]*/")
  {
    hide Snippet, Text, Echo;
    CommentLine(name, line);
  }

  lemma DocLine(name: string, line: string)
    ensures Opened(name, line + "\n") + ">" == "<[" + name + "[\n" + line + "\n]]>"
  {
    assert "<[" + name + "[\n" + (line + "\n") + "]]" + ">" == "<[" + name + "[\n" + line + "\n]]>";
  }

  lemma CommentLine(name: string, line: string)
    ensures name + "[\n" + (line + "\n") + "]" + "*/" == name + "[\n" + line + "\n]*/"
  {
  }

  /** A block named `!` prints its text as a listing, and the text itself is left to run. */
  lemma EchoBlock(line: string)
    requires '\n' !in line && '`' !in line && (line != "" ==> line[0] != ']')
    ensures Expansion("<[" + "!" + "[\n" + line + "\n]]>")
         == "print($(" + Quote("```js!noplay\n" + line + "\n```") + "));" + ("\n" + line + "\n" + "   ")
  {
    GoodLine(line);
    hide GoodLines, Text, WholeLines, Expansion, Quote;
    var lines := line + "\n";
    OneBlock("!", lines, ">");
    assert ">"[1..] == "";
    DocLine("!", line);
    var snippet := "print($(" + Quote("```js!noplay\n" + line + "\n```") + "));";
    assert Snippet("!", line) == snippet;
    hide Snippet, Opened;
    assert "\n" + (line + "\n") + "   " == "\n" + line + "\n" + "   ";
    assert Replacement("!", lines) + "" == snippet + ("\n" + line + "\n" + "   ");
  }

  // ----- which names open a block -----

  /** A name: letters, digits but for the first place, and `:` or `!` only in that. */
  lemma NamesExactly(name: string)
    ensures GoodName(name) <==>
              forall k :: 0 <= k < |name| ==>
                || name[k] in LOWER || name[k] in UPPER || name[k] == '_'
                || (name[k] in DIGITS && k > 0) || ((name[k] == ':' || name[k] == '!') && k == 0)
  {
    forall c: char ensures c in LOWER <==> 'a' <= c <= 'z' {
      IsLower(c);
    }
    forall c: char ensures c in UPPER <==> 'A' <= c <= 'Z' {
      IsUpper(c);
    }
    forall c: char ensures c in DIGITS <==> '0' <= c <= '9' {
      IsDigit(c);
    }
    hide LOWER, UPPER, DIGITS;
  }

  /** A character that no name can have there, and no block is opened. */
  lemma BadName(name: string, bad: char, rest: string)
    requires GoodName(name) && !GoodName(name + [bad]) && bad != '[' && bad != '`'
    requires Quiet("<[" + name + [bad] + rest, 1)
    ensures var t := "<[" + name + [bad] + rest; Expansion(t) == t
  {
    var t := "<[" + name + [bad] + rest;
    hide Expand, Quiet;
    ExpandLooks(t, 0, START, 0);
    ExpandLooks(t, 1, START.(mode := O1), 0);
    var c := START.(mode := O2, vs := 2);
    NameLooked(t, name, bad, 0, c);
    QuietLater(t, |name| + 3);
    QuietRest(t, |name| + 3, c.(mode := JS), 0);
    RenderKeep(t, 0, |t|);
    assert t[0..|t|] == t;
  }

  lemma QuietLater(t: string, i: nat)
    requires Quiet(t, 1) && i >= 1
    ensures Quiet(t, i)
  {
  }

  lemma {:induction false} NameLooked(t: string, name: string, bad: char, k: nat, c: Scan)
    requires k <= |name| && |name| + 2 < |t| && t[2..|name| + 2] == name && t[|name| + 2] == bad
    requires GoodName(name) && !GoodName(name + [bad]) && bad != '[' && bad != '`'
    requires c == START.(mode := O2, vs := 2)
    ensures Expand(t, k + 2, c, 0) == Expand(t, |name| + 3, c.(mode := JS), 0)
    decreases |name| - k
  {
    hide Expand;
    ExpandLooks(t, k + 2, c, 0);
    if k < |name| {
      assert t[k + 2] == t[2..|name| + 2][k] == name[k];
      NameLooked(t, name, bad, k + 1, c);
    } else {
      assert forall i :: 0 <= i < |name| ==> (name + [bad])[i] == name[i];
      assert !JsChar(bad, |name|);
    }
  }

  // ----- a second block -----

  lemma QuietAfter(doc: string, rest: string)
    requires Quiet(rest, 2)
    ensures Quiet(doc + rest, |doc| + 2)
  {
    var t, n := doc + rest, |doc| + 2;
    forall k | n <= k < |t| && t[k] == '<' ensures t[k - 1] != '\n' {
      assert t[k] == rest[k - |doc|] && t[k - 1] == rest[k - 1 - |doc|];
    }
  }

  /** The scan goes on behind a block at the start of the text, two characters after its last. */
  lemma FirstBlock(name: string, lines: string, rest: string)
    requires GoodName(name) && WholeLines(lines) && GoodLines(lines) && (rest != "" ==> rest[0] == '\n')
    ensures var t, d := Doc(name, lines) + rest, Read(0, name, lines);
            && d.me + 3 == |Doc(name, lines)| <= |t| && ScanOk(t, d.me + 5, d.(mode := JS), d.me + 3)
            && Expand(t, 0, START, 0) == Block(t, d) + Expand(t, d.me + 5, d.(mode := JS), d.me + 3)
            && Render(t, Block(t, d)) == Replacement(name, lines)
            && t[d.me + 3..] == rest
  {
    hide Snippet, Block, Edited, Replacement, Expand, Render, Quiet, Opened, GoodLines;
    var t, d := Doc(name, lines) + rest, Read(0, name, lines);
    assert t[0..|Opened(name, lines)|] == Opened(name, lines);
    assert DocAt(t, 0, name, lines);
    BlockExpands(t, 0, name, lines, START, 0);
    DocChars(t, 0, name, lines);
    assert Keep(0, 0) == [];
    assert [] + Block(t, d) == Block(t, d);
    RenderBlock(t, d);
  }

  /** A block, and behind it a text in which no further line starts with `<`, the next one not being looked at. */
  lemma BlockThenQuiet(name: string, lines: string, rest: string)
    requires GoodName(name) && WholeLines(lines) && GoodLines(lines)
    requires (rest != "" ==> rest[0] == '\n') && Quiet(rest, 2)
    ensures Expansion(Doc(name, lines) + rest) == Replacement(name, lines) + rest
  {
    hide Snippet, Block, Replacement, Expand, Render, Keep, Quiet, Doc, GoodLines;
    var t, d := Doc(name, lines) + rest, Read(0, name, lines);
    FirstBlock(name, lines, rest);
    QuietAfter(Doc(name, lines), rest);
    QuietRest(t, d.me + 5, d.(mode := JS), d.me + 3);
    RenderConcat(t, Block(t, d), Keep(d.me + 3, |t|));
    RenderKeep(t, d.me + 3, |t|);
    assert t[d.me + 3..|t|] == t[d.me + 3..];
  }

  /** Where the scanner gets to behind a closed block and a quiet text. */
  lemma GapScanned(name: string, lines: string, gap: string, second: string)
    requires GoodName(name) && WholeLines(lines) && GoodLines(lines) && gap != "" && Quiet(gap, 1)
    ensures var t, d := Doc(name, lines) + ("\n" + gap + second), Read(0, name, lines);
            var j, c := |Doc(name, lines)| + 1 + |gap|, d.(mode := JS, tick := OddTicks(gap[1..]));
            && ScanOk(t, j, c, d.me + 3)
            && Expand(t, 0, START, 0) == Block(t, d) + Expand(t, j, c, d.me + 3)
            && Render(t, Block(t, d)) == Replacement(name, lines)
            && t[d.me + 3..j] == "\n" + gap && t[j - 1] == gap[|gap| - 1] && t[j..] == second
  {
    hide Block, Replacement, Expand, Render, Doc, OddTicks, GoodName, GoodLines;
    var doc, rest := Doc(name, lines), "\n" + gap + second;
    var t, d, n := doc + rest, Read(0, name, lines), |doc| + 1;
    FirstBlock(name, lines, rest);
    forall k | n + 1 <= k < n + |gap| && t[k] == '<' ensures t[k - 1] != '\n' {
      assert t[k] == gap[k - n] && t[k - 1] == gap[k - 1 - n];
    }
    QuietStretch(t, n + 1, n + |gap|, d.(mode := JS), d.me + 3);
    assert t[n + 1..n + |gap|] == gap[1..];
    assert t[d.me + 3..n + |gap|] == t[d.me + 3..][..1 + |gap|];
  }

  /** What both outcomes have in common when they are put together. */
  lemma RenderThree(t: string, a: seq<Mark>, from: nat, to: nat, b: seq<Mark>)
    requires from <= to <= |t|
    ensures Render(t, a + (Keep(from, to) + b)) == Render(t, a) + t[from..to] + Render(t, b)
  {
    hide Render, Keep;
    RenderConcat(t, a, Keep(from, to) + b);
    RenderConcat(t, Keep(from, to), b);
    RenderKeep(t, from, to);
    assert Render(t, a) + (t[from..to] + Render(t, b)) == Render(t, a) + t[from..to] + Render(t, b);
  }

  lemma RestRendered(t: string, e: Scan, name: string, lines: string, end: string)
    requires 2 <= e.vs <= e.ve && e.ms == e.ve + 1 && e.ms < e.me && e.me + 3 + |end| == |t| && t[e.me + 3..] == end
    requires t[e.ve] == '[' && e.me < |t| && Edited(t, e) == Replacement(name, lines)
    ensures Render(t, Block(t, e) + Keep(e.me + 3, |t|)) == Replacement(name, lines) + end
  {
    hide Block, Replacement, Render, Edited, Keep;
    RenderConcat(t, Block(t, e), Keep(e.me + 3, |t|));
    RenderBlock(t, e);
    RenderKeep(t, e.me + 3, |t|);
    assert t[e.me + 3..|t|] == end;
  }

  /** A block at the end of the text, met outside a template literal. */
  lemma RestExpands(t: string, j: nat, name: string, lines: string, end: string, c: Scan, from: nat)
    returns (rest: seq<Mark>)
    requires DocAt(t, j, name, lines) && t[j..] == Opened(name, lines) + end && TextEnd(end)
    requires GoodName(name) && GoodLines(lines)
    requires c.mode.JS? && !c.tick && ScanOk(t, j, c, from) && from <= j && j > 0 && t[j - 1] == '\n'
    ensures Expand(t, j, c, from) == Keep(from, j) + rest && Render(t, rest) == Replacement(name, lines) + end[1..]
  {
    hide Block, Replacement, Render, Opened, DocAt, GoodName, GoodLines, Edited, Keep, Expand, ScanOk;
    BlockExpands(t, j, name, lines, c, from);
    var e := Read(j, name, lines);
    DocChars(t, j, name, lines);
    assert t[e.me + 3..] == t[j..][|Opened(name, lines)| + 1..] == end[1..];
    EndKept(t, e, end[1..]);
    var block, last := Block(t, e), Keep(e.me + 3, |t|);
    rest := block + last;
    assert Keep(from, j) + block + last == Keep(from, j) + rest;
    RestRendered(t, e, name, lines, end[1..]);
  }

  /** The second block is met outside a template literal. */
  lemma SecondExpands(name: string, lines: string, gap: string, name': string, lines': string, end: string)
    requires GoodName(name) && WholeLines(lines) && GoodLines(lines)
    requires GoodName(name') && WholeLines(lines') && GoodLines(lines') && TextEnd(end)
    requires gap != "" && gap[|gap| - 1] == '\n' && Quiet(gap, 1) && !OddTicks(gap[1..])
    ensures Expansion(Doc(name, lines) + ("\n" + gap + (Opened(name', lines') + end)))
         == Replacement(name, lines) + ("\n" + gap) + (Replacement(name', lines') + end[1..])
  {
    hide Block, Replacement, Render, Doc, Opened, OddTicks, GoodName, GoodLines, Edited, Keep, Expand, Quiet;
    var second := Opened(name', lines') + end;
    var t, d := Doc(name, lines) + ("\n" + gap + second), Read(0, name, lines);
    var j, c := |Doc(name, lines)| + 1 + |gap|, d.(mode := JS, tick := OddTicks(gap[1..]));
    GapScanned(name, lines, gap, second);
    DocThen(t, j, name', lines', end);
    var rest := RestExpands(t, j, name', lines', end, c, d.me + 3);
    RenderThree(t, Block(t, d), d.me + 3, j, rest);
  }

  /** Inside a template literal `<` opens nothing. */
  lemma ExpandTicked(t: string, j: nat, c: Scan, from: nat)
    requires j < |t| && ScanOk(t, j, c, from) && c.mode.JS? && c.tick && t[j] == '<'
    ensures ScanOk(t, j + 1, c, from) && Expand(t, j, c, from) == Expand(t, j + 1, c, from)
  {
    LookOk(t, j, c, from);
  }

  lemma QuietTail(t: string, j: nat, second: string)
    requires j <= |t| && t[j..] == second && Quiet(second, 1)
    ensures Quiet(t, j + 1)
  {
    forall k | j + 1 <= k < |t| && t[k] == '<' ensures t[k - 1] != '\n' {
      assert t[k] == second[k - j] && t[k - 1] == second[k - 1 - j];
    }
  }

  /** A block met inside a template literal, and no line behind that starts with `<`. */
  lemma RestQuoted(t: string, j: nat, c: Scan, from: nat)
    requires j < |t| && c.mode.JS? && c.tick && ScanOk(t, j, c, from) && t[j] == '<' && Quiet(t[j..], 1)
    ensures Expand(t, j, c, from) == Keep(from, |t|)
  {
    QuietTail(t, j, t[j..]);
    ExpandTicked(t, j, c, from);
    hide Expand, Quiet;
    QuietRest(t, j + 1, c, from);
  }

  /** The second block is met inside a template literal. */
  lemma SecondQuoted(name: string, lines: string, gap: string, name': string, lines': string, end: string)
    requires GoodName(name) && WholeLines(lines) && GoodLines(lines)
    requires gap != "" && Quiet(gap, 1) && OddTicks(gap[1..]) && Quiet(Opened(name', lines') + end, 1)
    ensures Expansion(Doc(name, lines) + ("\n" + gap + (Opened(name', lines') + end)))
         == Replacement(name, lines) + ("\n" + gap) + (Opened(name', lines') + end)
  {
    hide Block, Replacement, Render, OddTicks, GoodName, GoodLines, Keep, Snippet, Doc, Opened, Expand, Quiet;
    var second := Opened(name', lines') + end;
    DocParts(name', lines');
    var t, d := Doc(name, lines) + ("\n" + gap + second), Read(0, name, lines);
    var j, c := |Doc(name, lines)| + 1 + |gap|, d.(mode := JS, tick := OddTicks(gap[1..]));
    GapScanned(name, lines, gap, second);
    assert t[j] == t[j..][0];
    RestQuoted(t, j, c, d.me + 3);
    RenderConcat(t, Block(t, d), Keep(d.me + 3, |t|));
    RenderKeep(t, d.me + 3, |t|);
    assert t[d.me + 3..|t|] == t[d.me + 3..j] + t[j..];
    assert Replacement(name, lines) + ("\n" + gap + second) == Replacement(name, lines) + ("\n" + gap) + second;
  }

  /**
   A block behind a closed one, with text between them in which no line but the first starts with `<`: it is expanded if
   and only if the text between is not empty and, behind its first character, leaves no template literal open.
   */
  lemma SecondBlock(name: string, lines: string, gap: string, name': string, lines': string, end: string)
    requires GoodName(name) && WholeLines(lines) && GoodLines(lines)
    requires GoodName(name') && WholeLines(lines') && GoodLines(lines') && TextEnd(end)
    requires Quiet(Opened(name', lines') + end, 1) && (gap != "" ==> gap[|gap| - 1] == '\n') && Quiet(gap, 1)
    ensures var expanded := gap != "" && !OddTicks(gap[1..]);
            && Expansion(Doc(name, lines) + ("\n" + gap + (Opened(name', lines') + end)))
               == Replacement(name, lines) + ("\n" + gap)
                  + (if expanded then Replacement(name', lines') + end[1..] else Opened(name', lines') + end)
            && Replacement(name', lines') + end[1..] != Opened(name', lines') + end
  {
    hide Expansion, Replacement, Doc, Opened, GoodName, GoodLines, OddTicks;
    ReplacementDiffers(name', lines', end[1..], end);
    if gap == "" {
      AdjacentBlockKept(name, lines, name', lines', end);
      var second := Opened(name', lines') + end;
      assert "\n" + gap == "\n" && "\n" + gap + second == "\n" + second;
      assert Replacement(name, lines) + ("\n" + second) == Replacement(name, lines) + "\n" + second;
    } else if OddTicks(gap[1..]) {
      SecondQuoted(name, lines, gap, name', lines', end);
    } else {
      SecondExpands(name, lines, gap, name', lines', end);
    }
  }

  /**
   A second block on the line right after a closed one is not expanded: the scan goes
   on one character too far to see its `<`.
   */
  lemma AdjacentBlockKept(name: string, lines: string, name': string, lines': string, end: string)
    requires GoodName(name) && WholeLines(lines) && GoodLines(lines) && Quiet(Opened(name', lines') + end, 1)
    ensures Expansion(Doc(name, lines) + ("\n" + (Opened(name', lines') + end)))
         == Replacement(name, lines) + ("\n" + (Opened(name', lines') + end))
  {
    hide Doc, Opened, GoodLines, Replacement, Expansion;
    var second := Opened(name', lines') + end;
    forall k | 2 <= k < |"\n" + second| && ("\n" + second)[k] == '<' ensures ("\n" + second)[k - 1] != '\n' {
      assert ("\n" + second)[k] == second[k - 1] && ("\n" + second)[k - 1] == second[k - 2];
    }
    BlockThenQuiet(name, lines, "\n" + second);
  }
}

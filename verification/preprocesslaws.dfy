/** What the expansion does to a text, beyond the text it produces. */
module PreprocessLaws {
  import opened Json
  import opened Wrappers
  import opened Preprocess

  // ----- line numbers -----

  function Breaks(s: string): nat {
    if s == "" then 0 else (if s[0] == '\n' then 1 else 0) + Breaks(s[1..])
  }

  lemma {:induction false} BreaksConcat(a: string, b: string)
    ensures Breaks(a + b) == Breaks(a) + Breaks(b)
  {
    if a == "" {
      assert a + b == b;
    } else {
      assert (a + b)[1..] == a[1..] + b;
      BreaksConcat(a[1..], b);
    }
  }

  lemma BreaksSplit(t: string, a: nat, b: nat, c: nat)
    requires a <= b <= c <= |t|
    ensures Breaks(t[a..c]) == Breaks(t[a..b]) + Breaks(t[b..c])
  {
    assert t[a..c] == t[a..b] + t[b..c];
    BreaksConcat(t[a..b], t[b..c]);
  }

  predicate NoBreak(t: string, a: nat, b: nat) {
    forall k :: a <= k < b && k < |t| ==> t[k] != '\n'
  }

  lemma {:induction false} NoBreaks(s: string)
    requires '\n' !in s
    ensures Breaks(s) == 0
  {
    if s != "" {
      NoBreaks(s[1..]);
    }
  }

  lemma NoBreaksIn(t: string, a: nat, b: nat)
    requires a <= b <= |t| && NoBreak(t, a, b)
    ensures Breaks(t[a..b]) == 0
  {
    NoBreaks(t[a..b]);
  }

  /** Every kept character of `m`, output for the text from `from` on, is as many lines down as in the text. */
  predicate Aligned(t: string, m: seq<Mark>, from: nat) {
    forall k :: 0 <= k < |m| && m[k].Kept? ==>
      from <= m[k].at < |t| && Breaks(Render(t, m[..k])) == Breaks(t[from..m[k].at])
  }

  lemma AlignedConcat(t: string, a: seq<Mark>, b: seq<Mark>, from: nat, mid: nat)
    requires from <= mid <= |t| && Aligned(t, a, from) && Aligned(t, b, mid)
    requires Breaks(Render(t, a)) == Breaks(t[from..mid])
    ensures Aligned(t, a + b, from)
  {
    var m := a + b;
    forall k | 0 <= k < |m| && m[k].Kept?
      ensures from <= m[k].at < |t| && Breaks(Render(t, m[..k])) == Breaks(t[from..m[k].at])
    {
      if k < |a| {
        assert m[..k] == a[..k];
      } else {
        assert m[..k] == a + b[..k - |a|];
        RenderConcat(t, a, b[..k - |a|]);
        BreaksConcat(Render(t, a), Render(t, b[..k - |a|]));
        BreaksSplit(t, from, mid, m[k].at);
      }
    }
  }

  lemma AlignedKeep(t: string, a: nat, b: nat)
    requires a <= b <= |t|
    ensures Aligned(t, Keep(a, b), a) && Render(t, Keep(a, b)) == t[a..b]
  {
    RenderKeep(t, a, b);
    forall k | 0 <= k < b - a ensures Breaks(Render(t, Keep(a, b)[..k])) == Breaks(t[a..a + k]) {
      assert Keep(a, b)[..k] == Keep(a, a + k);
      RenderKeep(t, a, a + k);
    }
  }

  /** New characters before and after a stretch that is kept, none of them a line break. */
  lemma AlignedAround(t: string, s: string, a: nat, b: nat, s': string, from: nat)
    requires from <= a <= b <= |t| && NoBreak(t, from, a) && '\n' !in s && '\n' !in s'
    ensures var m := Puts(s) + Keep(a, b) + Puts(s');
            Aligned(t, m, from) && Breaks(Render(t, m)) == Breaks(t[from..b])
  {
    RenderPuts(t, s);
    RenderPuts(t, s');
    AlignedKeep(t, a, b);
    NoBreaksIn(t, from, a);
    NoBreaks(s);
    NoBreaks(s');
    BreaksSplit(t, from, a, b);
    AlignedConcat(t, Puts(s), Keep(a, b), from, a);
    RenderConcat(t, Puts(s), Keep(a, b));
    BreaksConcat(s, t[a..b]);
    RenderConcat(t, Puts(s) + Keep(a, b), Puts(s'));
    BreaksConcat(s + t[a..b], s');
    AlignedConcat(t, Puts(s) + Keep(a, b), Puts(s'), from, b);
  }

  /** The characters of an opening and of a closing bracket hold no line break. */
  predicate ScanLines(t: string, i: nat, c: Scan) {
    match c.mode
    case JS => true
    case O1 => 1 <= i <= |t| && t[i - 1] != '\n'
    case O2 => 2 <= c.vs && NoBreak(t, c.vs - 2, i)
    case MD => 2 <= c.vs && NoBreak(t, c.vs - 2, c.ms)
    case _ => 2 <= c.vs && NoBreak(t, c.vs - 2, c.ms) && NoBreak(t, c.me, i)
  }

  lemma LookLines(t: string, i: nat, c: Scan, from: nat)
    requires i < |t| && ScanOk(t, i, c, from) && ScanLines(t, i, c)
    ensures ScanLines(t, i + 1, Look(t, i, c))
  {
  }

  lemma NoBreakBetween(a: string, b: string, c: string)
    requires '\n' !in a && '\n' !in b && '\n' !in c
    ensures '\n' !in a + b + c
  {
  }

  lemma SnippetNoBreak(name: string, body: string)
    requires '\n' !in name
    ensures '\n' !in Snippet(name, body)
  {
    hide Quote;
    if Echo(name) {
      var quoted := "```js!noplay\n" + body + "\n```";
      NoRawLineBreak(quoted);
      hide Echo;
      NoBreakBetween("print($(", Quote(quoted), "));");
    } else {
      NoRawLineBreak(body);
      if name != "" && name != ":" {
        NamedNoBreak(name, Quote(body));
      } else {
        NoBreakBetween(if name == ":" then "print[':']($(" else "print($(", Quote(body), "));/*");
      }
    }
  }

  lemma NamedNoBreak(name: string, quoted: string)
    requires name != "" && '\n' !in name && '\n' !in quoted
    ensures '\n' !in (if name[0] == '!' then "export const " + name[1..] else "const " + name)
                + " = $(" + quoted + ");/*"
  {
    var head := if name[0] == '!' then "export const " + name[1..] else "const " + name;
    assert '\n' !in head;
    NoBreakBetween(head, " = $(", quoted);
    NoBreakBetween(head + " = $(" + quoted, ");/*", "");
    assert head + " = $(" + quoted + ");/*" + "" == head + " = $(" + quoted + ");/*";
  }

  lemma BlockAligned(t: string, i: nat, c: Scan, from: nat)
    requires i < |t| && ScanOk(t, i, c, from) && ScanLines(t, i, c) && Closes(t, i, c)
    ensures c.ms < c.me && c.me + 2 <= i
    ensures Aligned(t, Block(t, c), c.vs - 2)
    ensures Breaks(Render(t, Block(t, c))) == Breaks(t[c.vs - 2..c.me])
    ensures NoBreak(t, c.me, i)
  {
    hide Snippet, Render, Breaks, Aligned, Look, Keep, Puts;
    var name := Name(t, c);
    assert '\n' !in name;
    var s := Snippet(name, Body(t, c));
    SnippetNoBreak(name, Body(t, c));
    if Echo(name) {
      AlignedAround(t, s, c.vs + 2, c.me, "   ", c.vs - 2);
      assert Block(t, c) == Puts(s) + Keep(c.vs + 2, c.me) + Puts("   ");
    } else {
      AlignedAround(t, s, c.vs, c.me + 1, "*/", c.vs - 2);
      assert Block(t, c) == Puts(s) + Keep(c.vs, c.me + 1) + Puts("*/");
      BreaksSplit(t, c.vs - 2, c.me, c.me + 1);
      NoBreaksIn(t, c.me, c.me + 1);
    }
  }

  /** The scanner as it gets to the last character, if it does not skip it. */
  function Ending(t: string, i: nat, c: Scan): Option<Scan>
    decreases |t| + 2 - i
  {
    if i >= |t| then None
    else if i == |t| - 1 then Some(c)
    else if Closes(t, i, c) then Ending(t, i + 2, c.(mode := JS))
    else Ending(t, i + 1, Look(t, i, c))
  }

  /** The text ends in `]]` and a line break, inside an open block whose closing line these begin. */
  predicate LosesBreak(t: string, i: nat, c: Scan) {
    var e := Ending(t, i, c);
    t != "" && t[|t| - 1] == '\n' && e.Some? && e.value.mode.C2? && e.value.me + 3 == |t|
  }

  /** The closing bracket holds a line break only where the text ends with one it loses. */
  lemma LastBreak(t: string, i: nat, c: Scan, from: nat)
    requires i < |t| && ScanOk(t, i, c, from) && ScanLines(t, i, c) && Closes(t, i, c)
    ensures c.me + 3 <= |t|
    ensures NoBreak(t, c.me, c.me + 3) ==> (LosesBreak(t, i, c) <==> LosesBreak(t, i + 2, c.(mode := JS)))
    ensures !NoBreak(t, c.me, c.me + 3) ==> LosesBreak(t, i, c) && i == |t| - 1 && c.me + 3 == |t|
  {
  }

  /** The output up to and with a block that closes, for the text up to the end of its bracket. */
  lemma HeadAligned(t: string, i: nat, c: Scan, from: nat)
    requires i < |t| && ScanOk(t, i, c, from) && ScanLines(t, i, c) && Closes(t, i, c)
    ensures c.ms < c.me && c.me + 3 <= |t|
    ensures var head := Keep(from, c.vs - 2) + Block(t, c);
            Aligned(t, head, from) && Breaks(Render(t, head)) == Breaks(t[from..c.me])
  {
    hide Block, Render, Keep, Breaks, Aligned;
    LastBreak(t, i, c, from);
    BlockAligned(t, i, c, from);
    assert from + 2 <= c.vs <= c.me;
    hide ScanOk, ScanLines, Closes;
    AlignedKeep(t, from, c.vs - 2);
    AlignedConcat(t, Keep(from, c.vs - 2), Block(t, c), from, c.vs - 2);
    RenderConcat(t, Keep(from, c.vs - 2), Block(t, c));
    BreaksConcat(Render(t, Keep(from, c.vs - 2)), Render(t, Block(t, c)));
    BreaksSplit(t, from, c.vs - 2, c.me);
  }

  lemma CloseLines(t: string, i: nat, c: Scan, from: nat, rest: seq<Mark>)
    requires i < |t| && ScanOk(t, i, c, from) && ScanLines(t, i, c) && Closes(t, i, c)
    requires c.ms < c.me && c.me + 3 <= |t| && Aligned(t, rest, c.me + 3)
    requires Breaks(Render(t, rest)) + (if LosesBreak(t, i + 2, c.(mode := JS)) then 1 else 0) == Breaks(t[c.me + 3..])
    requires c.me + 3 == |t| ==> rest == []
    ensures var m := Keep(from, c.vs - 2) + Block(t, c) + rest;
            Aligned(t, m, from)
            && Breaks(Render(t, m)) + (if LosesBreak(t, i, c) then 1 else 0) == Breaks(t[from..])
  {
    hide Block, Render, Keep, LosesBreak;
    var head, next := Keep(from, c.vs - 2) + Block(t, c), c.me + 3;
    HeadAligned(t, i, c, from);
    LastBreak(t, i, c, from);
    RenderConcat(t, head, rest);
    BreaksConcat(Render(t, head), Render(t, rest));
    BreaksSplit(t, from, c.me, next);
    BreaksSplit(t, from, next, |t|);
    assert t[next..|t|] == t[next..] && t[from..|t|] == t[from..];
    if NoBreak(t, c.me, next) {
      NoBreaksIn(t, c.me, next);
      AlignedConcat(t, head, rest, from, next);
    } else {
      assert head + [] == head;
      assert t[c.me..next] == t[c.me..i] + "\n" && Breaks("\n") == 1;
      NoBreaksIn(t, c.me, i);
      BreaksConcat(t[c.me..i], "\n");
    }
  }

  lemma LosesLater(t: string, i: nat, c: Scan)
    requires i < |t| && !Closes(t, i, c)
    ensures LosesBreak(t, i, c) <==> LosesBreak(t, i + 1, Look(t, i, c))
  {
  }

  lemma {:induction false} ExpandLines(t: string, i: nat, c: Scan, from: nat)
    requires ScanOk(t, i, c, from) && ScanLines(t, i, c)
    ensures Aligned(t, Expand(t, i, c, from), from)
    ensures Breaks(Render(t, Expand(t, i, c, from))) + (if LosesBreak(t, i, c) then 1 else 0) == Breaks(t[from..])
    decreases |t| + 2 - i
  {
    hide Look, Block, Render;
    if i >= |t| {
      AlignedKeep(t, from, |t|);
      assert t[from..|t|] == t[from..];
    } else {
      LookOk(t, i, c, from);
      if !Closes(t, i, c) {
        LosesLater(t, i, c);
        LookLines(t, i, c, from);
        ExpandLines(t, i + 1, Look(t, i, c), from);
      } else {
        ExpandLines(t, i + 2, c.(mode := JS), c.me + 3);
        CloseLines(t, i, c, from, Expand(t, i + 2, c.(mode := JS), c.me + 3));
      }
    }
  }

  /**
   Every character that survives the expansion stays on its line, and no line break is
   added or lost, but for the last one of a text that ends in `]]` and that break with
   a block still open.
   */
  lemma LinesKept(t: string)
    ensures var m := Expand(t, 0, START, 0);
            forall k :: 0 <= k < |m| && m[k].Kept? ==>
              m[k].at < |t| && Breaks(Expansion(t)[..k]) == Breaks(t[..m[k].at])
    ensures Breaks(Expansion(t)) + (if LosesBreak(t, 0, START) then 1 else 0) == Breaks(t)
  {
    hide Expand, Render, Look, LosesBreak;
    var m := Expand(t, 0, START, 0);
    ExpandLines(t, 0, START, 0);
    assert t[0..] == t;
    forall k | 0 <= k < |m| && m[k].Kept? ensures Breaks(Expansion(t)[..k]) == Breaks(t[..m[k].at]) {
      RenderPrefix(t, m, k);
      assert t[0..m[k].at] == t[..m[k].at];
    }
  }

  lemma LosesAfterBrackets(t: string)
    requires LosesBreak(t, 0, START)
    ensures |t| >= 3 && t[|t| - 3..] == "]]\n"
  {
    EndingBrackets(t, 0, START);
    assert t[|t| - 3..] == [t[|t| - 3], t[|t| - 2], t[|t| - 1]];
  }

  lemma RenderPrefix(t: string, m: seq<Mark>, k: nat)
    requires k <= |m|
    ensures Render(t, m[..k]) == Render(t, m)[..k]
  {
  }

  /** In a block that is closing, the bracket is where the scanner has it. */
  predicate Closing(t: string, i: nat, c: Scan) {
    match c.mode
    case C1 => c.me < i <= |t| && t[c.me] == ']'
    case C2 => c.me + 2 <= i <= |t| && t[c.me] == ']' && (c.me + 2 == i ==> t[i - 1] == ']')
    case _ => true
  }

  lemma {:induction false} EndingBrackets(t: string, i: nat, c: Scan)
    requires i <= |t| + 1 && Closing(t, i, c)
    ensures var e := Ending(t, i, c); e.Some? ==> t != "" && Closing(t, |t| - 1, e.value)
    decreases |t| + 2 - i
  {
    if i < |t| - 1 {
      if Closes(t, i, c) {
        EndingBrackets(t, i + 2, c.(mode := JS));
      } else {
        EndingBrackets(t, i + 1, Look(t, i, c));
      }
    }
  }

  // ----- what survives, and in which order -----

  predicate Ordered(m: seq<Mark>, from: nat, to: nat) {
    && (forall k :: 0 <= k < |m| && m[k].Kept? ==> from <= m[k].at < to)
    && (forall j, k :: 0 <= j < k < |m| && m[j].Kept? && m[k].Kept? ==> m[j].at < m[k].at)
  }

  lemma OrderedConcat(a: seq<Mark>, b: seq<Mark>, from: nat, mid: nat, to: nat)
    requires from <= mid <= to && Ordered(a, from, mid) && Ordered(b, mid, to)
    ensures Ordered(a + b, from, to)
  {
  }

  lemma KeepOrdered(a: nat, b: nat)
    requires a <= b
    ensures Ordered(Keep(a, b), a, b)
  {
  }

  lemma BlockOrdered(t: string, c: Scan)
    requires 2 <= c.vs <= c.ve < c.ms < c.me < |t|
    ensures Ordered(Block(t, c), c.vs - 2, c.me + 3)
  {
    hide Snippet;
  }

  /** Input characters survive at most once each and in their order. */
  lemma {:induction false} ExpandOrdered(t: string, i: nat, c: Scan, from: nat)
    requires ScanOk(t, i, c, from)
    ensures Ordered(Expand(t, i, c, from), from, |t|)
    decreases |t| + 2 - i
  {
    hide Look, Block, Ordered;
    if i >= |t| {
      KeepOrdered(from, |t|);
    } else {
      LookOk(t, i, c, from);
      if Closes(t, i, c) {
        ExpandOrdered(t, i + 2, c.(mode := JS), c.me + 3);
        KeepOrdered(from, c.vs - 2);
        BlockOrdered(t, c);
        OrderedConcat(Keep(from, c.vs - 2), Block(t, c), from, c.vs - 2, c.me + 3);
        OrderedConcat(Keep(from, c.vs - 2) + Block(t, c), Expand(t, i + 2, c.(mode := JS), c.me + 3),
              from, c.me + 3, |t|);
      } else {
        ExpandOrdered(t, i + 1, Look(t, i, c), from);
      }
    }
  }
}

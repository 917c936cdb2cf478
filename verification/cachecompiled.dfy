/** What compiling a notebook gives, cell by cell. */
module CodeCompiled {
  import Preprocess
  import opened CodeCache
  import opened Wrappers

  type Compiler<!B> = (seq<string>, string) -> Option<B>

  /** The cells that are not disabled, in their order. */
  function Live(cells: Text): Text {
    if cells == [] then [] else (if cells[0].disabled then [] else [cells[0]]) + Live(cells[1..])
  }

  function Sources(cells: Text): (ss: seq<string>)
    ensures |ss| == |cells|
  {
    seq(|cells|, k requires 0 <= k < |cells| => Preprocess.Expansion(cells[k].code))
  }

  /** Each source compiles, behind those before it. */
  ghost predicate Compiles<B>(compile: Compiler<B>, sources: seq<string>, code: seq<B>) {
    |code| == |sources| && forall k :: 0 <= k < |sources| ==> compile(sources[..k], sources[k]) == Some(code[k])
  }

  ghost predicate FailsAt<B>(compile: Compiler<B>, sources: seq<string>, k: nat) {
    k < |sources| && compile(sources[..k], sources[k]).None?
  }

  // ----- which cells -----

  lemma {:induction false} LiveConcat(a: Text, b: Text)
    ensures Live(a + b) == Live(a) + Live(b)
  {
    if a == [] {
      assert a + b == b;
    } else {
      assert (a + b)[1..] == a[1..] + b;
      LiveConcat(a[1..], b);
    }
  }

  /** All cells of a text that has none disabled are live, and a disabled cell makes no difference. */
  lemma {:induction false} LiveAll(cells: Text)
    requires forall k :: 0 <= k < |cells| ==> !cells[k].disabled
    ensures Live(cells) == cells
  {
    if cells != [] {
      LiveAll(cells[1..]);
      assert cells == [cells[0]] + cells[1..];
    }
  }

  lemma DisabledSkipped<B>(compile: Compiler<B>, a: Text, code: string, b: Text)
    ensures Compiled(compile, [], a + [Cell(code, true)] + b) == Compiled(compile, [], a + b)
  {
    var cell := Cell(code, true);
    LiveConcat(a + [cell], b);
    LiveConcat(a, [cell]);
    LiveConcat(a, b);
    assert Live([cell]) == [] && Live(a) + [] == Live(a);
    CompiledLive(compile, [], a + [cell] + b);
    CompiledLive(compile, [], a + b);
  }

  lemma {:induction false} CompiledLive<B>(compile: Compiler<B>, before: seq<string>, cells: Text)
    ensures Compiled(compile, before, cells) == Compiled(compile, before, Live(cells))
    decreases |cells|
  {
    if cells != [] {
      var rest := Live(cells[1..]);
      if cells[0].disabled {
        assert [] + rest == rest;
        CompiledLive(compile, before, cells[1..]);
      } else {
        assert Live(cells)[1..] == rest;
        CompiledLive(compile, before + [Preprocess.Expansion(cells[0].code)], cells[1..]);
      }
    }
  }

  // ----- what of them -----

  lemma {:induction false} CompiledLength<B>(compile: Compiler<B>, before: seq<string>, cells: Text)
    requires forall k :: 0 <= k < |cells| ==> !cells[k].disabled
    ensures var r := Compiled(compile, before, cells); r.Some? ==> |r.value| == |cells|
    decreases |cells|
  {
    if cells != [] {
      CompiledLength(compile, before + [Preprocess.Expansion(cells[0].code)], cells[1..]);
    }
  }

  /** The sources compiled so far, and those of the cells that follow. */
  lemma {:induction false} CompiledFrom<B>(compile: Compiler<B>, before: seq<string>, cells: Text, code: seq<B>)
    requires forall k :: 0 <= k < |cells| ==> !cells[k].disabled
    ensures var ss := Sources(cells);
            Compiled(compile, before, cells) == Some(code) <==>
              |code| == |ss| && forall k :: 0 <= k < |ss| ==> compile(before + ss[..k], ss[k]) == Some(code[k])
    decreases |cells|
  {
    var ss := Sources(cells);
    CompiledLength(compile, before, cells);
    if cells == [] {
    } else {
      var rest := Sources(cells[1..]);
      assert ss[1..] == rest;
      assert before + ss[..0] == before;
      if |code| == |ss| {
        CompiledFrom(compile, before + [ss[0]], cells[1..], code[1..]);
        Shifted(compile, before, ss, code);
        assert code == [code[0]] + code[1..];
      }
    }
  }

  /** Looking at the sources from the second on. */
  lemma Shifted<B>(compile: Compiler<B>, before: seq<string>, ss: seq<string>, code: seq<B>)
    requires ss != [] && |code| == |ss|
    ensures (forall k :: 0 <= k < |ss| ==> compile(before + ss[..k], ss[k]) == Some(code[k])) <==>
              && compile(before, ss[0]) == Some(code[0])
              && forall k :: 0 <= k < |ss[1..]| ==>
                   compile(before + [ss[0]] + ss[1..][..k], ss[1..][k]) == Some(code[1..][k])
  {
    var rest, next := ss[1..], code[1..];
    assert before + ss[..0] == before;
    forall k | 0 <= k < |rest| ensures before + [ss[0]] + rest[..k] == before + ss[..k + 1] {
      assert [ss[0]] + rest[..k] == ss[..k + 1];
    }
    forall k | 0 < k < |ss| ensures before + [ss[0]] + rest[..k - 1] == before + ss[..k] && rest[k - 1] == ss[k] {
    }
  }

  /**
   A notebook compiles exactly if each cell that is not disabled does, behind those before it, and its code is theirs
   in order; it fails exactly if one of these cells does.
   */
  lemma CompiledExactly<B>(compile: Compiler<B>, cells: Text)
    ensures var ss := Sources(Live(cells));
            && (forall code :: Compiled(compile, [], cells) == Some(code) <==> Compiles(compile, ss, code))
            && (Compiled(compile, [], cells).None? <==> exists k :: FailsAt(compile, ss, k))
  {
    var live := Live(cells);
    var ss := Sources(live);
    CompiledLive(compile, [], cells);
    LiveOnly(cells);
    forall code ensures Compiled(compile, [], cells) == Some(code) <==> Compiles(compile, ss, code) {
      CompiledFrom(compile, [], live, code);
      forall k | 0 <= k < |ss| ensures [] + ss[..k] == ss[..k] {
      }
    }
    if Compiled(compile, [], cells).Some? {
      assert Compiles(compile, ss, Compiled(compile, [], cells).value);
    }
    NothingFails(compile, ss);
  }

  lemma NothingFails<B>(compile: Compiler<B>, ss: seq<string>)
    ensures (forall k :: !FailsAt(compile, ss, k)) ==> exists code :: Compiles(compile, ss, code)
  {
    if forall k :: !FailsAt(compile, ss, k) {
      var code := AllCode(compile, ss, |ss|);
      assert ss[..|ss|] == ss;
    }
  }

  lemma {:induction false} LiveOnly(cells: Text)
    ensures forall k :: 0 <= k < |Live(cells)| ==> !Live(cells)[k].disabled
  {
    if cells != [] {
      LiveOnly(cells[1..]);
    }
  }

  /** If nothing fails there is code for the first `n` sources. */
  lemma {:induction false} AllCode<B>(compile: Compiler<B>, ss: seq<string>, n: nat) returns (code: seq<B>)
    requires n <= |ss| && forall k :: !FailsAt(compile, ss, k)
    ensures Compiles(compile, ss[..n], code)
  {
    code := [];
    if n > 0 {
      code := AllCode(compile, ss, n - 1);
      assert !FailsAt(compile, ss, n - 1);
      forall k | 0 <= k < n - 1 ensures ss[..n][..k] == ss[..n - 1][..k] && ss[..n][k] == ss[..n - 1][k] {
      }
      assert ss[..n][..n - 1] == ss[..n - 1];
      code := code + [compile(ss[..n - 1], ss[n - 1]).value];
    }
  }
}

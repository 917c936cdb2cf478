/**
 When the table is in the order that the search needs: exactly when no two paths first differ across octet 128,
 where `char` is signed.
 */
module RoutingOrder {
  import opened Bytes
  import opened Lexicographic
  import opened Routing
  import opened RoutingLaws

  /** Every range that a search may narrow to is ordered for it, whatever the request. */
  ghost predicate AlwaysOrdered(signed: bool, t: seq<Route>) {
    forall v, i: nat, l: nat, u: nat :: l <= u <= |t| && InRange(t, l, u, v, i) ==> Ordered(signed, t, l, u, v, i)
  }

  ghost predicate InRange(t: seq<Route>, l: nat, u: nat, v: Path, i: nat)
    requires u <= |t|
  {
    forall k :: l <= k < u ==> Under(t[k].path, v, i)
  }

  lemma {:induction false} AlikeSymmetric(p: Path, q: Path, i: nat)
    ensures Alike(p, q, i) == Alike(q, p, i)
    decreases |p| - i
  {
    if i < |p| && i < |q| && p[i] == q[i] {
      AlikeSymmetric(p, q, i + 1);
    }
  }

  lemma {:induction false} AlikeItself(p: Path, i: nat)
    ensures Alike(p, p, i)
    decreases |p| - i
  {
    if i < |p| {
      AlikeItself(p, i + 1);
    }
  }

  /** Where two paths that are not alike first differ: the smaller has an octet below 128, the other not. */
  lemma {:induction false} FirstDifference(p: Path, q: Path, i: nat) returns (d: nat)
    requires i <= |p| && i <= |q| && LessFrom(p, q, i) && !Alike(p, q, i)
    ensures i <= d < |p| && d < |q| && p[i..d] == q[i..d] && p[d] < 128 <= q[d]
    decreases |p| - i
  {
    if p[i] != q[i] {
      d := i;
    } else {
      d := FirstDifference(p, q, i + 1);
      assert p[i..d] == [p[i]] + p[i + 1..d] && q[i..d] == [q[i]] + q[i + 1..d];
    }
  }

  /** Where the segment around position `d` begins. */
  function Begin(p: Path, d: nat): (i: nat)
    requires 1 <= d <= |p| && p[0] == SLASH
    ensures 1 <= i <= d && p[i - 1] == SLASH && SLASH !in p[i..d]
  {
    if p[d - 1] == SLASH then d
    else
      var i := Begin(p, d - 1);
      assert p[i..d] == p[i..d - 1] + [p[d - 1]];
      i
  }

  lemma {:induction false} CompareAtDifference(p: Path, v: Path, i: nat, d: nat)
    requires i <= d < |p| && d < |v| && p[i..d] == v[i..d] && SLASH !in v[i..d] && p[d] != v[d]
    ensures Compare(true, p, v, i) == Rank(true, p[d]) - Rank(true, v[d])
    decreases d - i
  {
    if i < d {
      assert p[i] == p[i..d][0] && v[i] == v[i..d][0];
      assert p[i + 1..d] == p[i..d][1..] && v[i + 1..d] == v[i..d][1..];
      CompareAtDifference(p, v, i + 1, d);
    }
  }

  /** A path between two others in order has their common start. */
  lemma {:induction false} Between(p: Path, m: Path, q: Path, i: nat, n: nat)
    requires i <= n <= |p| && n <= |q| && i <= |m| && p[..n] == q[..n] && p[..i] == m[..i]
    requires (p == m || LessFrom(p, m, i)) && (m == q || LessFrom(m, q, i))
    ensures n <= |m| && m[..n] == p[..n]
    decreases n - i
  {
    if i < n {
      assert p[i] == p[..n][i] && q[i] == q[..n][i];
      assert p[..i + 1] == p[..i] + [p[i]];
      assert m != p && m != q ==> i < |m| && m[i] == p[i];
      if m != p && m != q {
        assert m[..i + 1] == m[..i] + [m[i]];
        Between(p, m, q, i + 1, n);
      }
    }
  }

  /** Two paths that are not alike make a range that is out of order for the smaller of them as request. */
  lemma MixedDisorder(t: seq<Route>, j: nat, k: nat) returns (v: Path, i: nat)
    requires Sorted(t) && AllProper(t) && j < k < |t| && !Alike(t[j].path, t[k].path, 0)
    ensures InRange(t, j, k + 1, v, i) && !Ordered(true, t, j, k + 1, v, i)
  {
    hide Compare, LessFrom, Alike;
    var p, q := t[j].path, t[k].path;
    assert Less(p, q);
    var d := FirstDifference(p, q, 0);
    assert Proper(p) && Proper(q) && p[0] == q[0];
    i := Begin(p, d);
    v := p;
    assert p[..d] == p[0..d] == q[0..d] == q[..d];
    assert p[i..d] == p[..d][i..] && q[i..d] == q[..d][i..];
    CompareAtDifference(q, p, i, d);
    SameCompares(true, p, i);
    forall m | j <= m < k + 1 ensures Under(t[m].path, p, i) {
      MiddleUnder(t, j, m, k, d, i);
    }
    assert InRange(t, j, k + 1, p, i);
    assert Compare(true, t[k].path, p, i) < 0 && Compare(true, t[j].path, p, i) == 0;
    assert !Ordered(true, t, j, k + 1, p, i);
  }

  lemma MiddleUnder(t: seq<Route>, j: nat, m: nat, k: nat, d: nat, i: nat)
    requires Sorted(t) && j <= m <= k < |t| && 1 <= i <= d <= |t[j].path| && d <= |t[k].path|
    requires t[j].path[..d] == t[k].path[..d] && t[j].path[i - 1] == SLASH
    ensures Under(t[m].path, t[j].path, i)
  {
    hide LessFrom;
    var p, q := t[j].path, t[k].path;
    assert p[..0] == t[m].path[..0];
    assert j < m ==> Less(p, t[m].path);
    assert m < k ==> Less(t[m].path, q);
    Between(p, t[m].path, q, 0, d);
    assert forall x :: 0 <= x < d ==> t[m].path[x] == t[m].path[..d][x] && p[x] == p[..d][x];
  }

  /**
   The condition is exact: on a sorted table of proper paths, all ranges are ordered for all requests if and only if
   `char` is unsigned or no two paths first differ in octets of which one is below 128 and the other is not.
   */
  lemma OrderExactly(signed: bool, t: seq<Route>)
    requires Sorted(t) && AllProper(t)
    ensures AlwaysOrdered(signed, t) <==> (signed ==> AllAlike(t))
  {
    hide Compare, Sorted, Alike, Under, Ordered, AllProper;
    if signed ==> AllAlike(t) {
      forall v, i: nat, l: nat, u: nat | l <= u <= |t| && InRange(t, l, u, v, i)
        ensures Ordered(signed, t, l, u, v, i)
      {
        OrderedRange(signed, t, l, u, v, i);
      }
    } else {
      var a, b :| a in t && b in t && !Alike(a.path, b.path, 0);
      var j :| 0 <= j < |t| && t[j] == a;
      var k :| 0 <= k < |t| && t[k] == b;
      AlikeItself(a.path, 0);
      AlikeSymmetric(a.path, b.path, 0);
      var lo, hi := if j < k then j else k, if j < k then k else j;
      var v, i := MixedDisorder(t, lo, hi);
      assert !AlwaysOrdered(true, t);
    }
  }

  /** A declared path and one with an octet above 127 in its first segment. */
  function Mixed(): seq<Route> {
    [Route([SLASH, 0x61], 0), Route([SLASH, 0xC3, 0xA9], 1)]
  }

  /**
   A table of which `find` misses a declared path where `char` is signed: the searches leave nothing of it, so that
   the answer is `NotFound`, although the route compares equal and filtering finds it.
   */
  lemma HighOctetMissed()
    ensures IsTable(Mixed(), [[SLASH, 0x61], [SLASH, 0xC3, 0xA9]]) && AllProper(Mixed()) && PrefixFree(Mixed())
    ensures !AllAlike(Mixed()) && Halved(true, Mixed(), [SLASH, 0x61], 1, 0, 2) == (2, 2)
    ensures Equal(true, Mixed(), [SLASH, 0x61], 1) == [Mixed()[0]]
    ensures Resolve(true, Mixed(), [SLASH, 0x61]) == Found(0, [])
  {
    MixedTable();
    MixedCompares();
    MixedEqual();
    LowerTurn(true, Mixed(), [SLASH, 0x61], 1, 0, 2);
  }

  lemma MixedTable()
    ensures IsTable(Mixed(), [[SLASH, 0x61], [SLASH, 0xC3, 0xA9]]) && AllProper(Mixed()) && PrefixFree(Mixed())
    ensures !AllAlike(Mixed())
  {
    var a, b: Path := [SLASH, 0x61], [SLASH, 0xC3, 0xA9];
    assert LessFrom(a, b, 1);
    assert !Alike(a, b, 1);
    assert Mixed()[0] in Mixed() && Mixed()[1] in Mixed();
  }

  lemma MixedCompares()
    ensures Compare(true, Mixed()[1].path, [SLASH, 0x61], 1) < 0
      && Compare(true, Mixed()[0].path, [SLASH, 0x61], 1) == 0
  {
    assert Compare(true, Mixed()[0].path, [SLASH, 0x61], 2) == 0;
  }

  lemma MixedEqual()
    ensures Equal(true, Mixed(), [SLASH, 0x61], 1) == [Mixed()[0]]
    ensures Resolve(true, Mixed(), [SLASH, 0x61]) == Found(0, [])
  {
    MixedCompares();
    hide Compare;
    assert Mixed()[1..] == [Mixed()[1]];
    var a: Path := [SLASH, 0x61];
    assert a[|a|..] == [];
  }
}

/** Which route a request gets. */
module RoutingLaws {
  import opened Bytes
  import opened Lexicographic
  import opened Routing

  /** The path is the request, or, unless it is the root, ends in a slash and begins the request. */
  predicate Matches(p: Path, v: Path) {
    p == v || (|p| > 1 && p[|p| - 1] == SLASH && p <= v)
  }

  /** No path that ends in a slash, except the root, is a proper prefix of another. */
  predicate PrefixFree(t: seq<Route>) {
    forall a, b :: a in t && b in t && |a.path| > 1 && a.path[|a.path| - 1] == SLASH && a.path <= b.path ==> a == b
  }

  // ----- filtering -----

  lemma {:induction false} EqualMembers(signed: bool, t: seq<Route>, v: Path, i: nat)
    ensures forall r :: r in Equal(signed, t, v, i) <==> r in t && Compare(signed, r.path, v, i) == 0
    ensures Sorted(t) ==> Sorted(Equal(signed, t, v, i))
    decreases |t|
  {
    hide Compare, Less;
    if t != [] {
      EqualMembers(signed, t[1..], v, i);
      var rest := Equal(signed, t[1..], v, i);
      assert t == [t[0]] + t[1..];
      if Sorted(t) {
        forall k | 0 <= k < |rest| ensures Less(t[0].path, rest[k].path) {
          assert rest[k] in t[1..];
        }
      }
    }
  }

  /** What every range that `Settle` sees is like. */
  ghost predicate Range(signed: bool, t: seq<Route>, v: Path, i: nat) {
    && Searchable(signed, t) && PrefixFree(t)
    && forall r :: r in t ==> Under(r.path, v, i) && Compare(signed, r.path, v, i) == 0
  }

  /** A sorted part of a table can be searched like the table. */
  lemma PartSearchable(signed: bool, t: seq<Route>, part: seq<Route>)
    requires Searchable(signed, t) && Sorted(part) && forall r :: r in part ==> r in t
    ensures Searchable(signed, part)
  {
    hide Alike, Sorted, Proper;
    forall k | 0 <= k < |part| ensures Proper(part[k].path) {
      assert part[k] in t;
    }
  }

  lemma FirstRange(signed: bool, t: seq<Route>, v: Path)
    requires Searchable(signed, t) && PrefixFree(t)
    ensures Range(signed, Equal(signed, t, v, 1), v, 1)
  {
    hide Compare, Sorted, Proper, Alike;
    EqualMembers(signed, t, v, 1);
    RootRange(signed, t, v);
    PartSearchable(signed, t, Equal(signed, t, v, 1));
  }

  predicate Rooted(v: Path) {
    v != [] && v[0] == SLASH
  }

  lemma WholePrefix(p: Path, v: Path, n: nat)
    requires Proper(p) && Under(p, v, n) && Rooted(v)
    ensures 1 <= n <= |v| && n <= |p| && p[..n] == v[..n] && v[n - 1] == SLASH
  {
  }

  /**
   One step of the narrowing: all routes of the range go on below the next segment, and what compares equal there is
   a range.
   */
  lemma NextRange(signed: bool, t: seq<Route>, v: Path, i: nat)
    requires Range(signed, t, v, i) && |t| > 1 && Rooted(v)
    ensures i + 1 <= |v| && FirstSlash(v, i + 1) < |v| && FirstSlash(v, i) == FirstSlash(v, i + 1)
    ensures var next := FirstSlash(v, i + 1) + 1;
            && v[next - 1] == SLASH
            && (forall r :: r in t ==> Under(r.path, v, next) && |r.path| > next && r.path[..next] == v[..next])
            && Range(signed, Equal(signed, t, v, next), v, next)
            && Settle(signed, t, v, i) == Settle(signed, Equal(signed, t, v, next), v, next)
  {
    hide Compare, Under, Less, Equal, Proper, Alike;
    NextSegment(signed, t, 0, |t|, v, i);
    SharedSegment(signed, t[0].path, v, i);
    var next := FirstSlash(v, i + 1) + 1;
    forall r | r in t ensures Under(r.path, v, next) && |r.path| >= next && r.path[..next] == v[..next] {
      var k :| 0 <= k < |t| && t[k] == r;
      WholePrefix(r.path, v, next);
    }
    GoesOn(t, v, next);
    EqualMembers(signed, t, v, next);
    PartSearchable(signed, t, Equal(signed, t, v, next));
  }

  lemma GoesOn(t: seq<Route>, v: Path, n: nat)
    requires Sorted(t) && PrefixFree(t) && |t| > 1 && 1 < n <= |v| && v[n - 1] == SLASH
    requires forall r :: r in t ==> |r.path| >= n && r.path[..n] == v[..n]
    ensures forall r :: r in t ==> |r.path| > n
  {
    hide LessFrom;
    Trichotomy(t[0].path, t[1].path, 0);
    assert Less(t[0].path, t[1].path);
    forall r | r in t ensures |r.path| > n {
      var q := if r == t[0] then t[1] else t[0];
      assert q in t && q != r;
      assert !(r.path[|r.path| - 1] == SLASH && r.path <= q.path);
      assert r.path[..n] <= q.path && r.path[..n][n - 1] == v[..n][n - 1] == SLASH;
      assert r.path[..|r.path|] == r.path;
    }
  }

  // ----- a match is found -----

  /** Agreeing through a slash is comparing equal. */
  lemma {:induction false} AgreeCompares(signed: bool, p: Path, v: Path, i: nat, s: nat)
    requires i <= s < |p| && s < |v| && p[s] == SLASH && forall k :: i <= k <= s ==> p[k] == v[k]
    ensures Compare(signed, p, v, i) == 0
    decreases s - i
  {
    if i < s {
      AgreeCompares(signed, p, v, i + 1, s);
    }
  }

  lemma {:induction false} SameCompares(signed: bool, v: Path, i: nat)
    requires i <= |v|
    ensures Compare(signed, v, v, i) == 0
    decreases |v| - i
  {
    if i < |v| {
      SameCompares(signed, v, i + 1);
    }
  }

  lemma MatchCompares(signed: bool, p: Path, v: Path, i: nat)
    requires Matches(p, v) && (i < |p| || p == v) && i <= |p|
    ensures Compare(signed, p, v, i) == 0
  {
    if p == v {
      SameCompares(signed, v, i);
    } else {
      assert forall k :: i <= k < |p| ==> p[k] == v[..|p|][k];
      AgreeCompares(signed, p, v, i, |p| - 1);
    }
  }

  lemma {:induction false} MatchSettles(signed: bool, t: seq<Route>, r: Route, v: Path, i: nat)
    requires Range(signed, t, v, i) && Rooted(v) && r in t && Matches(r.path, v)
    ensures Settle(signed, t, v, i) == Found(r.number, v[|r.path|..])
    decreases |v| - i
  {
    hide Compare, Range, Equal, Matches, Settle;
    if |t| == 1 {
      OneSettles(signed, t, v, i);
      assert |r.path| <= |v| by { MatchFits(r.path, v); }
    } else {
      NextRange(signed, t, v, i);
      var next := FirstSlash(v, i + 1) + 1;
      MatchCompares(signed, r.path, v, next);
      EqualMembers(signed, t, v, next);
      MatchSettles(signed, Equal(signed, t, v, next), r, v, next);
    }
  }

  lemma MatchFits(p: Path, v: Path)
    requires Matches(p, v)
    ensures |p| <= |v|
  {
  }

  lemma OneSettles(signed: bool, t: seq<Route>, v: Path, i: nat)
    requires |t| == 1
    ensures Settle(signed, t, v, i) == Rest(t[0], v)
  {
  }

  /**
   Of distinct rooted paths without empty segments, of which none that ends in a slash,
   the root apart, begins another: a declared path that is the request, or ends in a slash and
   begins it, is the one that `Find` gives, with the rest of the request.
   */
  lemma DeclaredPathFound(signed: bool, t: seq<Route>, paths: seq<Path>, k: nat, v: Path)
    requires IsTable(t, paths) && Searchable(signed, t) && PrefixFree(t)
    requires k < |paths| && Matches(paths[k], v)
    ensures Resolve(signed, t, v) == Found(k, v[|paths[k]|..])
  {
    hide Compare, Sorted, Equal, Range, Less, Settle, PrefixFree;
    var r := Route(paths[k], k);
    assert r in t;
    assert Proper(r.path) && Rooted(v);
    FirstRange(signed, t, v);
    MatchCompares(signed, r.path, v, 1);
    EqualMembers(signed, t, v, 1);
    MatchSettles(signed, Equal(signed, t, v, 1), r, v, 1);
  }

  // ----- when nothing but a match is found -----

  /** A slash that is neither the first octet nor the last. */
  predicate Inner(p: Path, s: int) {
    1 <= s < |p| - 1 && p[s] == SLASH
  }

  ghost predicate Shared(t: seq<Route>, r: Route, s: int)
    requires 0 <= s < |r.path|
  {
    exists q :: q in t && q != r && r.path[..s + 1] <= q.path
  }

  /** Below every slash inside a path there is another path too. */
  ghost predicate Branching(t: seq<Route>) {
    forall r, s :: r in t && Inner(r.path, s) ==> Shared(t, r, s)
  }

  /** The request goes with `r` through a slash inside it, where no other route does, and then leaves it. */
  ghost predicate Strays(t: seq<Route>, r: Route, s: int, v: Path) {
    r in t && Inner(r.path, s) && r.path[..s + 1] <= v && !Shared(t, r, s) && !Matches(r.path, v)
  }

  /** The outcome is a route that matches, or none. */
  ghost predicate Faithful(t: seq<Route>, v: Path, o: Outcome) {
    o == NotFound || exists r :: r in t && Matches(r.path, v) && o == Found(r.number, v[|r.path|..])
  }

  /** A range misses no route that agrees with the request so far. */
  ghost predicate Complete(signed: bool, all: seq<Route>, t: seq<Route>, v: Path, i: nat) {
    forall r :: r in t <==> r in all && Under(r.path, v, i) && Compare(signed, r.path, v, i) == 0
  }

  /** What agrees with the request further on agrees with it so far. */
  lemma FurtherOn(signed: bool, p: Path, v: Path, i: nat, next: nat)
    requires Proper(p) && Rooted(v) && Under(p, v, next) && 1 <= i < next && v[i - 1] == SLASH
    ensures Under(p, v, i) && Compare(signed, p, v, i) == 0
  {
    assert i > 1 ==> p[i - 1] == v[i - 1];
    AgreeCompares(signed, p, v, i, next - 1);
  }

  lemma NextComplete(signed: bool, all: seq<Route>, t: seq<Route>, v: Path, i: nat)
    requires Range(signed, t, v, i) && Complete(signed, all, t, v, i) && |t| > 1 && Rooted(v) && Searchable(signed, all)
    ensures i + 1 <= |v| && FirstSlash(v, i + 1) < |v|
    ensures var next := FirstSlash(v, i + 1) + 1; Complete(signed, all, Equal(signed, t, v, next), v, next)
  {
    hide Compare, Equal, Settle, Sorted, Under, Proper, PrefixFree;
    NextRange(signed, t, v, i);
    var next := FirstSlash(v, i + 1) + 1;
    EqualMembers(signed, t, v, next);
    assert t[0] in t;
    WholePrefix(t[0].path, v, i);
    forall r | r in all && Under(r.path, v, next) ensures r in t {
      FurtherOn(signed, r.path, v, i, next);
    }
  }

  /** A lone route is a match, unless the request strays from it. */
  lemma LoneMatches(signed: bool, all: seq<Route>, t: seq<Route>, v: Path, i: nat) returns (s: nat)
    requires Range(signed, t, v, i) && Complete(signed, all, t, v, i) && Searchable(signed, all)
    requires |t| == 1 && Rooted(v)
    ensures Matches(t[0].path, v) || Strays(all, t[0], s, v)
  {
    hide Compare, Under, Sorted, PrefixFree;
    var r := t[0];
    assert r in t;
    WholePrefix(r.path, v, i);
    SharedSegment(signed, r.path, v, i);
    s := FirstSlash(v, i);
    if s == |v| {
      SamePath(r.path, v, v);
    } else {
      WholePrefix(r.path, v, s + 1);
      if s < |r.path| - 1 {
        assert r.path[s] == r.path[..s + 1][s] == v[..s + 1][s];
        assert t == [r];
        NotShared(signed, all, r, t, v, i, s);
      }
    }
  }

  lemma NotShared(signed: bool, all: seq<Route>, r: Route, t: seq<Route>, v: Path, i: nat, s: nat)
    requires Searchable(signed, all) && Complete(signed, all, t, v, i) && t == [r] && 1 <= i <= s < |v| && s < |r.path|
    requires Rooted(v) && v[i - 1] == v[s] == SLASH && r.path[..s + 1] == v[..s + 1]
    ensures !Shared(all, r, s)
  {
    hide Compare, Sorted;
    forall q | q in all && r.path[..s + 1] <= q.path ensures q == r {
      var p := q.path;
      var k :| 0 <= k < |all| && all[k] == q;
      assert p[..s + 1] == v[..s + 1];
      assert forall k :: 0 <= k < s + 1 ==> p[k] == p[..s + 1][k] && v[k] == v[..s + 1][k];
      assert Under(p, v, s + 1);
      FurtherOn(signed, p, v, i, s + 1);
      assert q in t;
    }
  }

  /** Unless the request strays from some route, it gets a match or none. */
  lemma {:induction false} SettleFaithful(signed: bool, all: seq<Route>, t: seq<Route>, v: Path, i: nat)
    requires Range(signed, t, v, i) && Complete(signed, all, t, v, i) && Searchable(signed, all) && Rooted(v)
    ensures Faithful(all, v, Settle(signed, t, v, i)) || exists r, s :: Strays(all, r, s, v)
    decreases |v| - i
  {
    hide Compare, Range, Equal, Matches, Settle, Searchable, Strays;
    if |t| == 1 {
      var s := LoneMatches(signed, all, t, v, i);
      OneSettles(signed, t, v, i);
      if Matches(t[0].path, v) {
        MatchFits(t[0].path, v);
        assert t[0] in t;
      }
    } else if |t| > 1 {
      NextRange(signed, t, v, i);
      NextComplete(signed, all, t, v, i);
      var next := FirstSlash(v, i + 1) + 1;
      SettleFaithful(signed, all, Equal(signed, t, v, next), v, next);
    } else {
      NoneSettles(signed, v, i);
    }
  }

  lemma NoneSettles(signed: bool, v: Path, i: nat)
    ensures Settle(signed, [], v, i) == NotFound
  {
  }

  /** The route that a request strays from is the one that it gets, and no other route of the range matches. */
  lemma {:induction false} StraySettles(signed: bool, t: seq<Route>, r: Route, s: int, v: Path, i: nat)
    requires Range(signed, t, v, i) && Strays(t, r, s, v) && Rooted(v) && i <= s
    ensures Settle(signed, t, v, i) == Rest(r, v)
    ensures forall q :: q in t ==> !Matches(q.path, v)
    decreases |v| - i
  {
    hide Compare, Equal, Settle, PrefixFree, Proper, Alike, Under, Matches;
    if |t| == 1 {
      OneSettles(signed, t, v, i);
    } else {
      var next := FirstSlash(v, i + 1) + 1;
      NextRange(signed, t, v, i);
      StrayGoesOn(signed, t, r, s, v, i, next);
      EqualMembers(signed, t, v, next);
      forall q | q in t && Matches(q.path, v) ensures q in Equal(signed, t, v, next) {
        MatchCompares(signed, q.path, v, next);
      }
      StraySettles(signed, Equal(signed, t, v, next), r, s, v, next);
    }
  }

  lemma StrayGoesOn(signed: bool, t: seq<Route>, r: Route, s: int, v: Path, i: nat, next: nat)
    requires Sorted(t) && |t| > 1 && Strays(t, r, s, v) && i <= s && i + 1 <= |v|
      && next == FirstSlash(v, i + 1) + 1 <= |v|
    requires FirstSlash(v, i) == FirstSlash(v, i + 1)
    requires forall q :: q in t ==> |q.path| > next && q.path[..next] == v[..next]
    ensures next <= s && Compare(signed, r.path, v, next) == 0
  {
    hide LessFrom, Matches;
    Trichotomy(t[0].path, t[1].path, 0);
    assert Less(t[0].path, t[1].path);
    var q := if r == t[0] then t[1] else t[0];
    assert q in t && q != r;
    assert forall k :: 0 <= k <= s ==> r.path[k] == r.path[..s + 1][k] == v[k];
    NoSlashBefore(v, i, s);
    assert r.path[..s + 1] == v[..s + 1];
    assert q.path[..next] == v[..next] && q.path[..next] <= q.path;
    if next <= s {
      AgreeCompares(signed, r.path, v, next, s);
    }
  }

  lemma {:induction false} NoSlashBefore(v: Path, i: nat, s: nat)
    requires i <= s < |v| && v[s] == SLASH
    ensures FirstSlash(v, i) <= s
    decreases s - i
  {
    if v[i] != SLASH {
      NoSlashBefore(v, i + 1, s);
    }
  }

  lemma StrayAtRoot(signed: bool, t: seq<Route>, r: Route, s: int, v: Path)
    requires Searchable(signed, t) && PrefixFree(t) && Rooted(v) && Strays(t, r, s, v)
    ensures Resolve(signed, t, v) == Rest(r, v) && forall q :: q in t ==> !Matches(q.path, v)
  {
    hide Compare, Sorted, Equal, Settle, PrefixFree, Matches, Alike;
    FirstRange(signed, t, v);
    assert forall k :: 0 <= k <= s ==> r.path[k] == r.path[..s + 1][k] == v[k];
    AgreeCompares(signed, r.path, v, 1, s);
    EqualMembers(signed, t, v, 1);
    forall q | q in t && Matches(q.path, v) ensures q in Equal(signed, t, v, 1) {
      var k :| 0 <= k < |t| && t[k] == q;
      RootMatch(signed, q.path, v);
    }
    StraySettles(signed, Equal(signed, t, v, 1), r, s, v, 1);
  }

  lemma RootMatch(signed: bool, p: Path, v: Path)
    requires Proper(p) && Matches(p, v)
    ensures Compare(signed, p, v, 1) == 0
  {
    MatchCompares(signed, p, v, 1);
  }

  /**
   For every rooted request: the outcome is neither a match nor none if and only if the request strays from some
   route, and then it is that route, the rest taken from the request, or from behind its end.
   */
  lemma NoMatchExactly(signed: bool, t: seq<Route>, v: Path)
    requires Searchable(signed, t) && PrefixFree(t) && Rooted(v)
    ensures !Faithful(t, v, Resolve(signed, t, v)) <==> exists r, s :: Strays(t, r, s, v)
    ensures forall r, s :: Strays(t, r, s, v) ==> Resolve(signed, t, v) == Rest(r, v)
  {
    hide Compare, Equal, Settle, PrefixFree, Searchable, Strays, Matches;
    forall r, s | Strays(t, r, s, v) ensures Resolve(signed, t, v) == Rest(r, v) && !Faithful(t, v, Rest(r, v)) {
      StrayAtRoot(signed, t, r, s, v);
    }
    FirstRange(signed, t, v);
    RootRange(signed, t, v);
    EqualMembers(signed, t, v, 1);
    SettleFaithful(signed, t, Equal(signed, t, v, 1), v, 1);
  }

  /**
   Every rooted request gets a route that matches it or none, if and only if below every
   slash inside a declared path another path goes on too.
   */
  lemma FaithfulExactly(signed: bool, t: seq<Route>)
    requires Searchable(signed, t) && PrefixFree(t)
    ensures (forall v :: Rooted(v) ==> Faithful(t, v, Resolve(signed, t, v))) <==> Branching(t)
  {
    hide Compare, Equal, Settle, PrefixFree, Resolve, Faithful, Shared;
    if Branching(t) {
      forall v | Rooted(v) ensures Faithful(t, v, Resolve(signed, t, v)) {
        NoMatchExactly(signed, t, v);
      }
    } else {
      var r, s :| r in t && Inner(r.path, s) && !Shared(t, r, s);
      var v := r.path[..s + 1];
      assert Proper(r.path);
      assert Strays(t, r, s, v);
      NoMatchExactly(signed, t, v);
    }
  }
}

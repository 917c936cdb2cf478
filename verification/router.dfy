/**
 The table of request paths: `Router` sorts the declared paths by insertion and `Find`
 narrows a range of the table segment by segment, searching each range by halving.
 Paths are octet strings.
 */
module Routing {
  import opened Bytes
  import opened Lexicographic

  type Path = seq<byte>

  const SLASH: byte := 0x2F

  datatype Route = Route(path: Path, number: nat)

  // ----- the table -----

  predicate Distinct(paths: seq<Path>) {
    forall i, j :: 0 <= i < j < |paths| ==> paths[i] != paths[j]
  }

  predicate Sorted(t: seq<Route>) {
    forall i, j :: 0 <= i < j < |t| ==> Less(t[i].path, t[j].path)
  }

  /** `t` holds each path once, under the position at which it was declared, in order. */
  predicate IsTable(t: seq<Route>, paths: seq<Path>) {
    && |t| == |paths| && Sorted(t)
    && (forall r :: r in t ==> r.number < |paths| && paths[r.number] == r.path)
    && (forall k :: 0 <= k < |paths| ==> Route(paths[k], k) in t)
  }

  /** How many routes at the front come before `p`. */
  function Position(t: seq<Route>, p: Path): (j: nat)
    ensures j <= |t| && forall m :: 0 <= m < j ==> Less(t[m].path, p)
    ensures j < |t| ==> !Less(t[j].path, p)
  {
    if t == [] || !Less(t[0].path, p) then 0 else 1 + Position(t[1..], p)
  }

  lemma PositionIs(t: seq<Route>, p: Path, j: nat)
    requires j <= |t| && (forall m :: 0 <= m < j ==> Less(t[m].path, p)) && (j < |t| ==> !Less(t[j].path, p))
    ensures Position(t, p) == j
  {
    hide Less;
  }

  // ----- comparing -----

  /** How a `char` compares: above 127 it is negative where the platform's `char` is signed. */
  function Rank(signed: bool, b: byte): int {
    if signed && b >= 128 then b - 256 else b
  }

  /** The three-way form of both comparators: from position `i`, and up to a slash that both have, if one comes. */
  function Compare(signed: bool, p: Path, v: Path, i: nat): int
    decreases |p| - i
  {
    if i >= |p| || i >= |v| then |p| - |v|
    else if p[i] != v[i] then Rank(signed, p[i]) - Rank(signed, v[i])
    else if v[i] == SLASH then 0
    else Compare(signed, p, v, i + 1)
  }

  /** What a search for `v` needs of the range from `lo` to `hi`: below, then equal, then above. */
  ghost predicate Ordered(signed: bool, t: seq<Route>, lo: nat, hi: nat, v: Path, i: nat)
    requires hi <= |t|
  {
    forall j, k :: lo <= j < k < hi ==>
      && (Compare(signed, t[k].path, v, i) < 0 ==> Compare(signed, t[j].path, v, i) < 0)
      && (Compare(signed, t[k].path, v, i) <= 0 ==> Compare(signed, t[j].path, v, i) <= 0)
  }

  /** `std::lower_bound` among the `len` routes from `lo` on, by halving. */
  function Lower(signed: bool, t: seq<Route>, v: Path, i: nat, lo: nat, len: nat): (l: nat)
    requires lo + len <= |t|
    ensures lo <= l <= lo + len
    decreases len
  {
    if len == 0 then lo
    else if Compare(signed, t[lo + len / 2].path, v, i) < 0
        then Lower(signed, t, v, i, lo + len / 2 + 1, len - len / 2 - 1)
    else Lower(signed, t, v, i, lo, len / 2)
  }

  /** `std::upper_bound`. */
  function Upper(signed: bool, t: seq<Route>, v: Path, i: nat, lo: nat, len: nat): (u: nat)
    requires lo + len <= |t|
    ensures lo <= u <= lo + len
    decreases len
  {
    if len == 0 then lo
    else if Compare(signed, t[lo + len / 2].path, v, i) <= 0
        then Upper(signed, t, v, i, lo + len / 2 + 1, len - len / 2 - 1)
    else Upper(signed, t, v, i, lo, len / 2)
  }

  /** The range that both searches leave. */
  function Halved(signed: bool, t: seq<Route>, v: Path, i: nat, b: nat, e: nat): (r: (nat, nat))
    requires b <= e <= |t|
    ensures b <= r.0 <= r.1 <= e
  {
    var l := Lower(signed, t, v, i, b, e - b);
    (l, Upper(signed, t, v, i, l, e - l))
  }

  lemma LowerNone(signed: bool, t: seq<Route>, v: Path, i: nat)
    ensures forall lo: nat :: lo <= |t| ==> Lower(signed, t, v, i, lo, 0) == lo
    ensures forall lo: nat :: lo <= |t| ==> Upper(signed, t, v, i, lo, 0) == lo
  {
  }

  /** One turn of a search. */
  lemma {:induction false} LowerTurn(signed: bool, t: seq<Route>, v: Path, i: nat, lo: nat, len: nat)
    requires 0 < len && lo + len <= |t|
    ensures Lower(signed, t, v, i, lo, len) ==
            if Compare(signed, t[lo + len / 2].path, v, i) < 0
            then Lower(signed, t, v, i, lo + len / 2 + 1, len - len / 2 - 1)
            else Lower(signed, t, v, i, lo, len / 2)
  {
    hide Compare;
  }

  lemma {:induction false} UpperTurn(signed: bool, t: seq<Route>, v: Path, i: nat, lo: nat, len: nat)
    requires 0 < len && lo + len <= |t|
    ensures Upper(signed, t, v, i, lo, len) ==
            if Compare(signed, t[lo + len / 2].path, v, i) <= 0
            then Upper(signed, t, v, i, lo + len / 2 + 1, len - len / 2 - 1)
            else Upper(signed, t, v, i, lo, len / 2)
  {
    hide Compare;
  }

  /** What one route of an ordered range says of another. */
  lemma OrderedAt(signed: bool, t: seq<Route>, lo: nat, hi: nat, v: Path, i: nat, k: nat, mid: nat)
    requires lo <= k < hi <= |t| && lo <= mid < hi && Ordered(signed, t, lo, hi, v, i)
    ensures var a, b := Compare(signed, t[k].path, v, i), Compare(signed, t[mid].path, v, i);
            && (k <= mid && b < 0 ==> a < 0) && (k <= mid && b <= 0 ==> a <= 0)
            && (mid <= k && a < 0 ==> b < 0) && (mid <= k && a <= 0 ==> b <= 0)
  {
    hide Compare;
  }

  /** On an ordered range the search finds where the routes begin that are not below. */
  lemma {:induction false} LowerParts(signed: bool, t: seq<Route>, lo: nat, hi: nat, v: Path,
        i: nat, b: nat, len: nat, k: nat)
    requires lo <= b && b + len <= hi <= |t| && Ordered(signed, t, lo, hi, v, i) && b <= k < b + len
    ensures k < Lower(signed, t, v, i, b, len) <==> Compare(signed, t[k].path, v, i) < 0
    decreases len
  {
    hide Compare, Lower, Ordered;
    LowerTurn(signed, t, v, i, b, len);
    var mid := b + len / 2;
    OrderedAt(signed, t, lo, hi, v, i, k, mid);
    if Compare(signed, t[mid].path, v, i) < 0 {
      if mid < k {
        LowerParts(signed, t, lo, hi, v, i, mid + 1, len - len / 2 - 1, k);
      }
    } else if k < mid {
      LowerParts(signed, t, lo, hi, v, i, b, len / 2, k);
    }
  }

  /** And where those begin that are above. */
  lemma {:induction false} UpperParts(signed: bool, t: seq<Route>, lo: nat, hi: nat, v: Path,
        i: nat, b: nat, len: nat, k: nat)
    requires lo <= b && b + len <= hi <= |t| && Ordered(signed, t, lo, hi, v, i) && b <= k < b + len
    ensures k < Upper(signed, t, v, i, b, len) <==> Compare(signed, t[k].path, v, i) <= 0
    decreases len
  {
    hide Compare, Upper, Ordered;
    UpperTurn(signed, t, v, i, b, len);
    var mid := b + len / 2;
    OrderedAt(signed, t, lo, hi, v, i, k, mid);
    if Compare(signed, t[mid].path, v, i) <= 0 {
      if mid < k {
        UpperParts(signed, t, lo, hi, v, i, mid + 1, len - len / 2 - 1, k);
      }
    } else if k < mid {
      UpperParts(signed, t, lo, hi, v, i, b, len / 2, k);
    }
  }

  /** The routes of `t` that compare equal. */
  function Equal(signed: bool, t: seq<Route>, v: Path, i: nat): seq<Route>
    decreases |t|
  {
    if t == [] then []
    else (if Compare(signed, t[0].path, v, i) == 0 then [t[0]] else []) + Equal(signed, t[1..], v, i)
  }

  // ----- finding -----

  /** The first slash from position `i` on, or the length of `v`. */
  function FirstSlash(v: Path, i: nat): (s: nat)
    requires i <= |v|
    ensures i <= s <= |v| && SLASH !in v[i..s] && (s < |v| ==> v[s] == SLASH)
    decreases |v| - i
  {
    if i == |v| || v[i] == SLASH then i
    else
      var s := FirstSlash(v, i + 1);
      assert v[i..s] == [v[i]] + v[i + 1..s];
      s
  }

  /** `PastEnd`: the rest of the request was taken from behind its end. */
  datatype Outcome = NotFound | Found(number: nat, tail: Path) | PastEnd(number: nat)

  function Rest(r: Route, v: Path): Outcome {
    if |r.path| <= |v| then Found(r.number, v[|r.path|..]) else PastEnd(r.number)
  }

  /** What a request comes to once the routes `t` compare equal at `i`. */
  function Settle(signed: bool, t: seq<Route>, v: Path, i: nat): Outcome
    decreases |v| - i
  {
    if t == [] then NotFound
    else if |t| == 1 then Rest(t[0], v)
    else if i + 1 > |v| || FirstSlash(v, i + 1) == |v| then NotFound
    else
      var next := FirstSlash(v, i + 1) + 1;
      if |t[0].path| == next then Found(t[0].number, [])
      else Settle(signed, Equal(signed, t, v, next), v, next)
  }

  /** The route of a request among all routes, by filtering. */
  function Resolve(signed: bool, t: seq<Route>, v: Path): Outcome {
    Settle(signed, Equal(signed, t, v, 1), v, 1)
  }

  /** Rooted, and no segment but the last is empty. */
  predicate Proper(p: Path) {
    && p != [] && p[0] == SLASH
    && forall k :: 0 < k < |p| && p[k] == SLASH ==> p[k - 1] != SLASH
  }

  /** Where the paths first differ, from position `i` on, both octets are below 128 or both are not. */
  predicate Alike(p: Path, q: Path, i: nat)
    decreases |p| - i
  {
    if i >= |p| || i >= |q| then true
    else if p[i] != q[i] then p[i] < 128 <==> q[i] < 128
    else Alike(p, q, i + 1)
  }

  predicate AllAlike(t: seq<Route>) {
    forall a, b :: a in t && b in t ==> Alike(a.path, b.path, 0)
  }

  predicate AllProper(t: seq<Route>) {
    forall k :: 0 <= k < |t| ==> Proper(t[k].path)
  }

  /** Where `char` is signed, the paths must be sorted the way they are searched. */
  predicate Searchable(signed: bool, t: seq<Route>) {
    Sorted(t) && AllProper(t) && (signed ==> AllAlike(t))
  }

  /**
   `p` agrees with `v` before position `i`, where a segment of `p` begins. The first octet of `v` is not looked at.
   */
  predicate Under(p: Path, v: Path, i: nat) {
    && 1 <= i <= |p| && p[i - 1] == SLASH && (i == 1 || i <= |v|)
    && forall k :: 1 <= k < i ==> p[k] == v[k]
  }

  class Router {
    const routes: array<Route>
    const signed: bool
    ghost const paths: seq<Path>

    ghost predicate Valid()
      reads routes
    {
      IsTable(routes[..], paths)
    }

    constructor (given: seq<Path>, signedChars: bool)
      ensures paths == given && signed == signedChars && fresh(routes)
      ensures Distinct(given) ==> Valid()
    {
      paths, signed := given, signedChars;
      routes := new Route[|given|](_ => Route([], 0));
      new;
      hide Distinct, Sorted, Less;
      NoRoutes();
      var i := 0;
      while i < |given|
        invariant 0 <= i <= |given| == routes.Length
        invariant Distinct(given) ==> IsTable(routes[..i], given[..i])
      {
        ghost var t := routes[..i];
        Place(given[i], i);
        if Distinct(given) {
          PlacedTable(t, given, i);
        }
        i := i + 1;
      }
      assert routes[..|given|] == routes[..] && given[..|given|] == given;
    }

    /** One turn of the outer loop: room is made for a new path, an equal one is overwritten. */
    method Place(it: Path, i: nat)
      requires i < routes.Length
      modifies routes
      ensures var t := old(routes[..i]);
              var j := Position(t, it);
              routes[..i + 1] ==
                if j < i && t[j].path == it then old(routes[..i + 1])[j := Route(it, i)]
                else t[..j] + [Route(it, i)] + t[j..]
      ensures routes[i + 1..] == old(routes[i + 1..])
    {
      hide LessFrom, Position;
      ghost var t := routes[..i];
      ghost var was := routes[..];
      var j := 0;
      while j < i
        invariant 0 <= j <= i && routes[..] == was
        invariant forall m :: 0 <= m < j ==> Less(t[m].path, it)
      {
        assert t[j] == routes[j];
        Trichotomy(it, routes[j].path, 0);
        if Less(it, routes[j].path) || it == routes[j].path {
          break;
        }
        j := j + 1;
      }
      PositionIs(t, it, j);
      if j < i && it != routes[j].path {
        MakeRoom(j, i);
      }
      routes[j] := Route(it, i);
    }

    /** The innermost loop. */
    method MakeRoom(j: nat, i: nat)
      requires j < i < routes.Length
      modifies routes
      ensures routes[..] == old(routes[..j + 1] + routes[j..i] + routes[i + 1..])
    {
      var k := i;
      while k > j
        invariant j <= k <= i
        invariant forall m :: 0 <= m <= k ==> routes[m] == old(routes[m])
        invariant forall m :: k < m <= i ==> routes[m] == old(routes[m - 1])
        invariant forall m :: i < m < routes.Length ==> routes[m] == old(routes[m])
      {
        routes[k] := routes[k - 1];
        k := k - 1;
      }
      ghost var w := old(routes[..j + 1] + routes[j..i] + routes[i + 1..]);
      assert forall m :: 0 <= m < routes.Length ==> routes[m] == w[m];
    }

    /** `operator[]`: a declared path gives its position among the declared ones, any other their count. */
    method Number(v: Path) returns (n: nat)
      requires Valid()
      ensures forall k :: 0 <= k < |paths| && v == paths[k] ==> n == k
      ensures v !in paths ==> n == |paths|
    {
      hide LessFrom;
      var i := 0;
      while i < routes.Length && !Less(v, routes[i].path)
        invariant 0 <= i <= routes.Length
        invariant forall m :: 0 <= m < i ==> routes[m].path != v
      {
        if v == routes[i].path {
          assert routes[i] in routes[..];
          return routes[i].number;
        }
        i := i + 1;
      }
      forall m | 0 <= m < routes.Length ensures routes[m].path != v {
        if i <= m {
          assert Less(routes[i].path, routes[m].path) || i == m by {
            assert routes[i] == routes[..][i] && routes[m] == routes[..][m];
          }
          Trichotomy(v, v, 0);
          Trichotomy(v, routes[i].path, 0);
        }
      }
      forall k | 0 <= k < |paths| ensures v != paths[k] {
        var m :| 0 <= m < routes.Length && routes[..][m] == Route(paths[k], k);
        assert routes[m].path == paths[k];
      }
      n := routes.Length;
    }

    /** The first overload of the comparator. */
    method ElementLess(p: Path, v: Path, index: nat) returns (less: bool)
      ensures less <==> Compare(signed, p, v, index) < 0
    {
      var i := index;
      while i < |p| && i < |v|
        invariant Compare(signed, p, v, index) == Compare(signed, p, v, i)
        decreases |p| - i
      {
        if v[i] == SLASH { return Rank(signed, p[i]) < Rank(signed, SLASH); }
        if p[i] == SLASH { return Rank(signed, v[i]) > Rank(signed, SLASH); }
        if p[i] != v[i] { return Rank(signed, p[i]) < Rank(signed, v[i]); }
        i := i + 1;
      }
      return |p| < |v|;
    }

    /** The second overload. */
    method ValueLess(v: Path, p: Path, index: nat) returns (less: bool)
      ensures less <==> Compare(signed, p, v, index) > 0
    {
      var i := index;
      while i < |v| && i < |p|
        invariant Compare(signed, p, v, index) == Compare(signed, p, v, i)
        decreases |p| - i
      {
        if v[i] == SLASH { return Rank(signed, p[i]) > Rank(signed, SLASH); }
        if p[i] == SLASH { return Rank(signed, v[i]) < Rank(signed, SLASH); }
        if v[i] != p[i] { return Rank(signed, v[i]) < Rank(signed, p[i]); }
        i := i + 1;
      }
      return |v| < |p|;
    }

    /** `std::lower_bound`, as a loop. */
    method LowerBound(v: Path, index: nat, b: nat, e: nat) returns (l: nat)
      requires b <= e <= routes.Length
      ensures l == Lower(signed, routes[..], v, index, b, e - b)
    {
      hide Compare, Lower;
      LowerNone(signed, routes[..], v, index);
      l := b;
      var len := e - b;
      while len > 0
        invariant b <= l <= l + len <= e
        invariant Lower(signed, routes[..], v, index, b, e - b) == Lower(signed, routes[..], v, index, l, len)
      {
        LowerTurn(signed, routes[..], v, index, l, len);
        var half := len / 2;
        var less := ElementLess(routes[l + half].path, v, index);
        assert routes[l + half] == routes[..][l + half];
        if less {
          l, len := l + half + 1, len - half - 1;
        } else {
          len := half;
        }
      }
    }

    /** `std::upper_bound`, as a loop. */
    method UpperBound(v: Path, index: nat, b: nat, e: nat) returns (u: nat)
      requires b <= e <= routes.Length
      ensures u == Upper(signed, routes[..], v, index, b, e - b)
    {
      hide Compare, Upper;
      LowerNone(signed, routes[..], v, index);
      u := b;
      var len := e - b;
      while len > 0
        invariant b <= u <= u + len <= e
        invariant Upper(signed, routes[..], v, index, b, e - b) == Upper(signed, routes[..], v, index, u, len)
      {
        UpperTurn(signed, routes[..], v, index, u, len);
        var half := len / 2;
        var less := ValueLess(v, routes[u + half].path, index);
        assert routes[u + half] == routes[..][u + half];
        if !less {
          u, len := u + half + 1, len - half - 1;
        } else {
          len := half;
        }
      }
    }

    /** What the search leaves of the routes from `b` to `e`, in whatever order they are. */
    method EqualRange(v: Path, index: nat, b: nat, e: nat) returns (l: nat, u: nat)
      requires b <= e <= routes.Length
      ensures (l, u) == Halved(signed, routes[..], v, index, b, e)
    {
      l := LowerBound(v, index, b, e);
      u := UpperBound(v, index, l, e);
    }

    /**
     `find`: on a table in the order of the search, what the search by halving ends with is what filtering segment by
     segment gives. On any table, if the first search leaves one route or none, that is the answer.
     */
    method Find(v: Path) returns (r: Outcome)
      requires Searchable(signed, routes[..]) || Few(Halved(signed, routes[..], v, 1, 0, routes.Length))
      ensures Searchable(signed, routes[..]) ==> r == Resolve(signed, routes[..], v)
      ensures var (l, u) := Halved(signed, routes[..], v, 1, 0, routes.Length);
              u - l <= 1 ==> r == if l == u then NotFound else Rest(routes[l], v)
    {
      hide Compare, Equal, Searchable, Ordered, Under, Resolve, Settle, Halved, Narrowed;
      ghost var t := routes[..];
      var index := 1;
      var l, u := EqualRange(v, index, 0, routes.Length);
      if Searchable(signed, t) {
        FirstTurn(signed, t, v);
      }
      while u - l > 1
        invariant 0 <= l <= u <= routes.Length && 1 <= index
        invariant u - l > 1 ==> Searchable(signed, t)
        invariant Searchable(signed, t) ==>
                  Narrowed(signed, t, v, index, l, u) && Settle(signed, t[l..u], v, index) == Resolve(signed, t, v)
        invariant Few(Halved(signed, t, v, 1, 0, |t|)) ==> (l, u) == Halved(signed, t, v, 1, 0, |t|)
        decreases |v| - index
      {
        NextTurn(signed, t, v, index, l, u);
        index := FirstSlash(v, index + 1) + 1;
        if |routes[l].path| == index {
          return Found(routes[l].number, []);
        }
        l, u := EqualRange(v, index, l, u);
      }
      if Searchable(signed, t) {
        LastTurn(signed, t, v, index, l, u);
      }
      r := if l == u then NotFound else Rest(routes[l], v);
    }
  }

  /** The range of routes that compare equal, and agree with the request so far. */
  ghost predicate Narrowed(signed: bool, t: seq<Route>, v: Path, i: nat, l: nat, u: nat)
    requires u <= |t|
  {
    forall k :: l <= k < u ==> Under(t[k].path, v, i) && Compare(signed, t[k].path, v, i) == 0
  }

  lemma FirstTurn(signed: bool, t: seq<Route>, v: Path)
    requires Searchable(signed, t)
    ensures var (l, u) := Halved(signed, t, v, 1, 0, |t|);
            Narrowed(signed, t, v, 1, l, u) && Settle(signed, t[l..u], v, 1) == Resolve(signed, t, v)
  {
    hide Compare, Equal, Searchable, Ordered, Under, Settle, Halved;
    RootRange(signed, t, v);
    HalvedIsEqual(signed, t, v, 1, 0, |t|);
    assert t[0..|t|] == t;
    ResolveIs(signed, t, v);
  }

  /** One turn of the loop narrows the range by a segment, or finds a route that ends with it. */
  lemma NextTurn(signed: bool, t: seq<Route>, v: Path, i: nat, l: nat, u: nat)
    requires Searchable(signed, t) && l + 1 < u <= |t| && Narrowed(signed, t, v, i, l, u)
    ensures i + 1 <= |v| && FirstSlash(v, i + 1) < |v|
    ensures var next := FirstSlash(v, i + 1) + 1;
            var (l', u') := Halved(signed, t, v, next, l, u);
            && Settle(signed, t[l..u], v, i) ==
                 (if |t[l].path| == next then Found(t[l].number, []) else Settle(signed, t[l'..u'], v, next))
            && Narrowed(signed, t, v, next, l', u')
  {
    hide Compare, Equal, Searchable, Ordered, Under, Halved;
    NextSegment(signed, t, l, u, v, i);
    HalvedIsEqual(signed, t, v, FirstSlash(v, i + 1) + 1, l, u);
    assert t[l..u][0] == t[l];
  }

  lemma LastTurn(signed: bool, t: seq<Route>, v: Path, i: nat, l: nat, u: nat)
    requires l <= u <= |t| && u - l <= 1
    ensures Settle(signed, t[l..u], v, i) == if l == u then NotFound else Rest(t[l], v)
  {
    if l < u {
      assert t[l..u] == [t[l]];
    }
  }

  predicate Few(r: (nat, nat)) {
    r.1 - r.0 <= 1
  }

  lemma NoRoutes()
    ensures IsTable([], [])
  {
  }

  lemma PlacedTable(t: seq<Route>, given: seq<Path>, i: nat)
    requires i < |given| && Distinct(given) && IsTable(t, given[..i])
    ensures var j := Position(t, given[i]);
            && !(j < i && t[j].path == given[i])
            && IsTable(t[..j] + [Route(given[i], i)] + t[j..], given[..i + 1])
  {
    hide Less, Position;
    var it := given[i];
    var j := Position(t, it);
    forall r | r in t ensures r.path != it {
      assert given[..i][r.number] == given[r.number];
    }
    assert j < i ==> t[j] in t;
    PlacedSorted(t, Route(it, i));
    assert given[..i + 1] == given[..i] + [it];
    PlacedMembers(t, given[..i], it, j);
  }

  lemma PlacedMembers(t: seq<Route>, before: seq<Path>, it: Path, j: nat)
    requires IsTable(t, before) && j <= |t|
    ensures var u, paths := t[..j] + [Route(it, |before|)] + t[j..], before + [it];
            && (forall r :: r in u ==> r.number < |paths| && paths[r.number] == r.path)
            && (forall k :: 0 <= k < |paths| ==> Route(paths[k], k) in u)
  {
    hide Sorted;
    var u, paths := t[..j] + [Route(it, |before|)] + t[j..], before + [it];
    assert t == t[..j] + t[j..];
    forall k | 0 <= k < |paths| ensures Route(paths[k], k) in u {
      if k < |before| {
        assert Route(before[k], k) in t;
      }
    }
  }

  lemma PlacedSorted(t: seq<Route>, r: Route)
    requires Sorted(t) && forall q :: q in t ==> q.path != r.path
    ensures var j := Position(t, r.path); Sorted(t[..j] + [r] + t[j..])
  {
    hide LessFrom, Position;
    var j := Position(t, r.path);
    forall m | j <= m < |t| ensures Less(r.path, t[m].path) {
      Trichotomy(t[j].path, r.path, 0);
      if j < m {
        LessTransitive(r.path, t[j].path, t[m].path, 0);
      }
    }
  }

  lemma {:induction false} NoneEqual(signed: bool, t: seq<Route>, v: Path, i: nat)
    requires forall k :: 0 <= k < |t| ==> Compare(signed, t[k].path, v, i) != 0
    ensures Equal(signed, t, v, i) == []
  {
    hide Compare;
    if t != [] {
      NoneEqual(signed, t[1..], v, i);
    }
  }

  lemma {:induction false} AllEqual(signed: bool, t: seq<Route>, v: Path, i: nat)
    requires forall k :: 0 <= k < |t| ==> Compare(signed, t[k].path, v, i) == 0
    ensures Equal(signed, t, v, i) == t
  {
    hide Compare;
    if t != [] {
      AllEqual(signed, t[1..], v, i);
    }
  }

  lemma RoutesAssoc(a: seq<Route>, b: seq<Route>, c: seq<Route>)
    ensures a + b + c == a + (b + c)
  {
  }

  lemma {:induction false} EqualConcat(signed: bool, a: seq<Route>, b: seq<Route>, v: Path, i: nat)
    ensures Equal(signed, a + b, v, i) == Equal(signed, a, v, i) + Equal(signed, b, v, i)
    decreases |a|
  {
    hide Compare;
    if a == [] {
      assert a + b == b && [] + Equal(signed, b, v, i) == Equal(signed, b, v, i);
    } else {
      EqualTurn(signed, a, v, i);
      EqualTurn(signed, a + b, v, i);
      hide Equal;
      assert (a + b)[1..] == a[1..] + b;
      EqualConcat(signed, a[1..], b, v, i);
      var first := if Compare(signed, a[0].path, v, i) == 0 then [a[0]] else [];
      RoutesAssoc(first, Equal(signed, a[1..], v, i), Equal(signed, b, v, i));
    }
  }

  lemma EqualTurn(signed: bool, t: seq<Route>, v: Path, i: nat)
    requires t != []
    ensures Equal(signed, t, v, i)
         == (if Compare(signed, t[0].path, v, i) == 0 then [t[0]] else []) + Equal(signed, t[1..], v, i)
  {
    hide Compare;
  }

  /** On an ordered range, halving leaves what filtering leaves. */
  lemma HalvedIsEqual(signed: bool, t: seq<Route>, v: Path, i: nat, b: nat, e: nat)
    requires b <= e <= |t| && Ordered(signed, t, b, e, v, i)
    ensures var (l, u) := Halved(signed, t, v, i, b, e);
            && t[l..u] == Equal(signed, t[b..e], v, i)
            && forall k :: l <= k < u ==> Compare(signed, t[k].path, v, i) == 0
  {
    hide Compare, Equal, Lower, Upper, Ordered;
    var l := Lower(signed, t, v, i, b, e - b);
    forall k | b <= k < e {
      LowerParts(signed, t, b, e, v, i, b, e - b, k);
    }
    forall k | l <= k < e {
      UpperParts(signed, t, b, e, v, i, l, e - l, k);
    }
    EqualSlice(signed, t, b, e, l, Upper(signed, t, v, i, l, e - l), v, i);
  }

  lemma EqualSlice(signed: bool, t: seq<Route>, b: nat, e: nat, l: nat, u: nat, v: Path, i: nat)
    requires b <= l <= u <= e <= |t|
    requires forall k :: b <= k < l || u <= k < e ==> Compare(signed, t[k].path, v, i) != 0
    requires forall k :: l <= k < u ==> Compare(signed, t[k].path, v, i) == 0
    ensures Equal(signed, t[b..e], v, i) == t[l..u]
  {
    hide Compare, Equal;
    assert t[b..e] == t[b..l] + (t[l..u] + t[u..e]);
    EqualConcat(signed, t[b..l], t[l..u] + t[u..e], v, i);
    EqualConcat(signed, t[l..u], t[u..e], v, i);
    NoneEqual(signed, t[b..l], v, i);
    AllEqual(signed, t[l..u], v, i);
    NoneEqual(signed, t[u..e], v, i);
  }

  lemma ResolveIs(signed: bool, t: seq<Route>, v: Path)
    ensures Resolve(signed, t, v) == Settle(signed, Equal(signed, t, v, 1), v, 1)
  {
  }

  /** Of two paths in order that agree before position `i`, the first never compares above the second. */
  lemma {:induction false} Monotone(signed: bool, p: Path, q: Path, v: Path, i: nat)
    requires i <= |p| && i <= |q| && LessFrom(p, q, i)
    requires signed ==> Alike(p, q, i)
    ensures Compare(signed, q, v, i) < 0 ==> Compare(signed, p, v, i) < 0
    ensures Compare(signed, q, v, i) <= 0 ==> Compare(signed, p, v, i) <= 0
    decreases |p| - i
  {
    if i < |p| && i < |q| && p[i] == q[i] {
      Monotone(signed, p, q, v, i + 1);
    }
  }

  /** A common start says nothing about it. */
  lemma {:induction false} AlikeFrom(p: Path, q: Path, i: nat)
    requires i <= |p| && i <= |q| && p[..i] == q[..i]
    ensures Alike(p, q, 0) == Alike(p, q, i)
  {
    if i > 0 {
      assert p[..i][..i - 1] == p[..i - 1] && q[..i][..i - 1] == q[..i - 1];
      assert p[i - 1] == p[..i][i - 1] && q[i - 1] == q[..i][i - 1];
      AlikeFrom(p, q, i - 1);
    }
  }

  lemma OrderedRange(signed: bool, t: seq<Route>, l: nat, u: nat, v: Path, i: nat)
    requires Searchable(signed, t) && l <= u <= |t|
    requires forall k :: l <= k < u ==> Under(t[k].path, v, i)
    ensures Ordered(signed, t, l, u, v, i)
  {
    hide Compare, LessFrom, Alike;
    forall j, k | l <= j < k < u
      ensures Compare(signed, t[k].path, v, i) < 0 ==> Compare(signed, t[j].path, v, i) < 0
      ensures Compare(signed, t[k].path, v, i) <= 0 ==> Compare(signed, t[j].path, v, i) <= 0
    {
      var p, q := t[j].path, t[k].path;
      assert p[..i] == q[..i];
      assert Less(p, q);
      CommonStart(p, q, i);
      if signed {
        AlikeFrom(p, q, i);
      }
      Monotone(signed, p, q, v, i);
    }
  }

  lemma RootRange(signed: bool, t: seq<Route>, v: Path)
    requires Searchable(signed, t)
    ensures Ordered(signed, t, 0, |t|, v, 1)
    ensures forall k :: 0 <= k < |t| ==> Under(t[k].path, v, 1)
  {
    hide Compare, Sorted;
    OrderedRange(signed, t, 0, |t|, v, 1);
  }

  /** A path that compares equal agrees through the next slash, or to the end of both. */
  lemma {:induction false} EqualAgrees(signed: bool, p: Path, v: Path, i: nat)
    requires i <= |p| && Compare(signed, p, v, i) == 0
    ensures i <= |v|
    ensures var s := FirstSlash(v, i);
            && (forall k :: i <= k < s ==> k < |p| && p[k] == v[k])
            && (if s < |v| then s < |p| && p[s] == SLASH else |p| == |v|)
    decreases |p| - i
  {
    if i < |p| && i < |v| && p[i] == v[i] && v[i] != SLASH {
      EqualAgrees(signed, p, v, i + 1);
    }
  }

  /** The segment that a route which compares equal shares with the request. */
  lemma SharedSegment(signed: bool, p: Path, v: Path, i: nat)
    requires Proper(p) && Under(p, v, i) && Compare(signed, p, v, i) == 0
    ensures i <= |v| && (FirstSlash(v, i) == |v| ==> |p| == |v| && p[1..] == v[1..])
    ensures FirstSlash(v, i) < |v| ==>
              i + 1 <= |v| && FirstSlash(v, i) == FirstSlash(v, i + 1) && Under(p, v, FirstSlash(v, i) + 1)
  {
    hide Compare;
    EqualAgrees(signed, p, v, i);
  }

  /** Several routes that compare equal share a whole further segment with the request. */
  lemma NextSegment(signed: bool, t: seq<Route>, l: nat, u: nat, v: Path, i: nat)
    requires Searchable(signed, t) && l + 1 < u <= |t|
    requires forall k :: l <= k < u ==> Under(t[k].path, v, i) && Compare(signed, t[k].path, v, i) == 0
    ensures i + 1 <= |v| && FirstSlash(v, i + 1) < |v|
    ensures var next := FirstSlash(v, i + 1) + 1;
            && (forall k :: l <= k < u ==> Under(t[k].path, v, next))
            && Ordered(signed, t, l, u, v, next)
  {
    hide Compare, Under, LessFrom, Ordered;
    forall k | l <= k < u {
      SharedSegment(signed, t[k].path, v, i);
    }
    var p, q := t[l].path, t[l + 1].path;
    assert Less(p, q);
    Trichotomy(p, q, 0);
    if FirstSlash(v, i) == |v| {
      assert Proper(p) && Proper(q);
      SamePath(p, q, v);
    }
    OrderedRange(signed, t, l, u, v, FirstSlash(v, i) + 1);
  }

  lemma SamePath(p: Path, q: Path, v: Path)
    requires |p| == |q| == |v| > 0 && p[0] == q[0] && p[1..] == v[1..] && q[1..] == v[1..]
    ensures p == q
  {
    assert p == [p[0]] + p[1..] && q == [q[0]] + q[1..];
  }
}

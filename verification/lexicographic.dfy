/** The order of octet strings: at the first difference the smaller octet first, a prefix before what it prefixes. */
module Lexicographic {
  import opened Bytes

  /** `a` comes before `b`, told from position `i` on. */
  predicate LessFrom(a: seq<byte>, b: seq<byte>, i: nat)
    requires i <= |a| && i <= |b|
    decreases |a| - i
  {
    if i == |b| then false
    else if i == |a| then true
    else if a[i] != b[i] then a[i] < b[i]
    else LessFrom(a, b, i + 1)
  }

  predicate Less(a: seq<byte>, b: seq<byte>) {
    LessFrom(a, b, 0)
  }

  lemma {:induction false} LessTransitive(a: seq<byte>, b: seq<byte>, c: seq<byte>, i: nat)
    requires i <= |a| && i <= |b| && i <= |c| && LessFrom(a, b, i) && LessFrom(b, c, i)
    ensures LessFrom(a, c, i)
    decreases |a| - i
  {
    if i < |a| && a[i] == b[i] == c[i] {
      LessTransitive(a, b, c, i + 1);
    }
  }

  /** Of two strings exactly one holds: they are equal, or one of them comes first. */
  lemma {:induction false} Trichotomy(a: seq<byte>, b: seq<byte>, i: nat)
    requires i <= |a| && i <= |b| && a[..i] == b[..i]
    ensures LessFrom(a, b, i) ==> a != b && !LessFrom(b, a, i)
    ensures !LessFrom(a, b, i) ==> a == b || LessFrom(b, a, i)
    decreases |a| - i
  {
    if i < |a| && i < |b| && a[i] == b[i] {
      assert a[..i + 1] == a[..i] + [a[i]] && b[..i + 1] == b[..i] + [b[i]];
      Trichotomy(a, b, i + 1);
    } else {
      assert a[..i] == b[..i];
      assert i == |a| == |b| ==> a == a[..i] && b == b[..i];
    }
  }

  /** A common start decides nothing. */
  lemma {:induction false} CommonStart(a: seq<byte>, b: seq<byte>, i: nat)
    requires i <= |a| && i <= |b| && a[..i] == b[..i]
    ensures Less(a, b) == LessFrom(a, b, i)
  {
    if i > 0 {
      assert a[..i][..i - 1] == a[..i - 1] && b[..i][..i - 1] == b[..i - 1];
      assert a[i - 1] == a[..i][i - 1] && b[i - 1] == b[..i][i - 1];
      CommonStart(a, b, i - 1);
    }
  }
}

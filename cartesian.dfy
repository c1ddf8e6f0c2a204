/**
 * The Cartesian product of integer ranges, as `itertools.product(range(n0),
 * range(n1), ...)` enumerates it: index tuples in lexicographic order, the
 * first coordinate varying slowest and the last one fastest.
 */
module Cartesian {

  /** Product of the range sizes: the number of tuples the product yields. */
  function Prod(ns: seq<nat>): nat
  {
    if ns == [] then 1 else ns[0] * Prod(ns[1..])
  }

  /** `p` picks one index from each range: `p[d]` is in `range(ns[d])`. */
  predicate InRanges(p: seq<nat>, ns: seq<nat>)
  {
    |p| == |ns| && forall d :: 0 <= d < |p| ==> p[d] < ns[d]
  }

  /** Lexicographic order on tuples; the first coordinate is the most significant. */
  predicate LexLess(a: seq<int>, b: seq<int>)
  {
    |a| > 0 && |b| > 0 && (a[0] < b[0] || (a[0] == b[0] && LexLess(a[1..], b[1..])))
  }

  /** Every tuple of `s` comes lexicographically strictly before every later one. */
  predicate StrictlyIncreasing(s: seq<seq<nat>>)
  {
    forall i, j :: 0 <= i < j < |s| ==> LexLess(s[i], s[j])
  }

  /** Each tuple of `tails`, with `i` put in front. */
  function Cons(i: nat, tails: seq<seq<nat>>): (r: seq<seq<nat>>)
    ensures |r| == |tails|
    ensures forall k :: 0 <= k < |r| ==> |r[k]| == |tails[k]| + 1 && r[k][0] == i && r[k][1..] == tails[k]
  {
    seq(|tails|, k requires 0 <= k < |tails| => [i] + tails[k])
  }

  /** All tuples whose first index runs over `i .. n-1` and whose rest is one of `tails`. */
  function Prefixed(i: nat, n: nat, tails: seq<seq<nat>>): (r: seq<seq<nat>>)
    ensures forall k :: 0 <= k < |r| ==> |r[k]| > 0 && i <= r[k][0] < n && r[k][1..] in tails
    decreases n - i
  {
    if i >= n then [] else Cons(i, tails) + Prefixed(i + 1, n, tails)
  }

  /** `itertools.product(*[range(n) for n in ns])`, as a list. */
  function Product(ns: seq<nat>): (r: seq<seq<nat>>)
    ensures forall k :: 0 <= k < |r| ==> InRanges(r[k], ns)
    decreases |ns|
  {
    if ns == [] then [[]]
    else
      var rest := Product(ns[1..]);
      var r := Prefixed(0, ns[0], rest);
      assert forall k :: 0 <= k < |r| ==> InRanges(r[k], ns) by {
        forall k | 0 <= k < |r| ensures InRanges(r[k], ns) {
          var j :| 0 <= j < |rest| && rest[j] == r[k][1..];
          assert InRanges(rest[j], ns[1..]);
          forall d | 0 < d < |r[k]| ensures r[k][d] < ns[d] {
            assert r[k][d] == rest[j][d - 1];
          }
        }
      }
      r
  }

  lemma {:induction false} PrefixedLength(i: nat, n: nat, tails: seq<seq<nat>>)
    requires i <= n
    ensures |Prefixed(i, n, tails)| == (n - i) * |tails|
    decreases n - i
  {
    if i < n {
      PrefixedLength(i + 1, n, tails);
      calc {
        |Prefixed(i, n, tails)|;
        |tails| + (n - (i + 1)) * |tails|;
        (n - i) * |tails|;
      }
    }
  }

  /** The product yields exactly `Prod(ns)` tuples. */
  lemma {:induction false} ProductLength(ns: seq<nat>)
    ensures |Product(ns)| == Prod(ns)
    decreases |ns|
  {
    if ns != [] {
      ProductLength(ns[1..]);
      PrefixedLength(0, ns[0], Product(ns[1..]));
    }
  }

  lemma {:induction false} PrefixedComplete(i: nat, n: nat, tails: seq<seq<nat>>, p: seq<nat>)
    requires |p| > 0 && i <= p[0] < n && p[1..] in tails
    ensures p in Prefixed(i, n, tails)
    decreases n - i
  {
    if p[0] == i {
      var k :| 0 <= k < |tails| && tails[k] == p[1..];
      var c := Cons(i, tails);
      assert c[k] == [i] + p[1..] == p;
      assert c[k] == Prefixed(i, n, tails)[k];
    } else {
      PrefixedComplete(i + 1, n, tails, p);
      var rest := Prefixed(i + 1, n, tails);
      var k :| 0 <= k < |rest| && rest[k] == p;
      assert Prefixed(i, n, tails)[|tails| + k] == p;
    }
  }

  /** Every tuple of in-range indices is yielded. */
  lemma {:induction false} ProductComplete(ns: seq<nat>, p: seq<nat>)
    requires InRanges(p, ns)
    ensures p in Product(ns)
    decreases |ns|
  {
    if ns == [] {
      assert p == [];
    } else {
      assert InRanges(p[1..], ns[1..]);
      ProductComplete(ns[1..], p[1..]);
      PrefixedComplete(0, ns[0], Product(ns[1..]), p);
    }
  }

  lemma {:induction false} LexLessIrreflexive(a: seq<int>)
    ensures !LexLess(a, a)
    decreases |a|
  {
    if |a| > 0 {
      LexLessIrreflexive(a[1..]);
    }
  }

  lemma ConsIncreasing(i: nat, tails: seq<seq<nat>>)
    requires StrictlyIncreasing(tails)
    ensures StrictlyIncreasing(Cons(i, tails))
  {
    var c := Cons(i, tails);
    forall a, b | 0 <= a < b < |c| ensures LexLess(c[a], c[b]) {
      assert c[a][1..] == tails[a] && c[b][1..] == tails[b];
    }
  }

  lemma ConcatIncreasing(s: seq<seq<nat>>, t: seq<seq<nat>>)
    requires StrictlyIncreasing(s) && StrictlyIncreasing(t)
    requires forall a, b :: 0 <= a < |s| && 0 <= b < |t| ==> LexLess(s[a], t[b])
    ensures StrictlyIncreasing(s + t)
  {
    var u := s + t;
    forall a, b | 0 <= a < b < |u| ensures LexLess(u[a], u[b]) {
      if b < |s| {
        assert LexLess(s[a], s[b]);
      } else if a < |s| {
        assert LexLess(s[a], t[b - |s|]);
      } else {
        assert LexLess(t[a - |s|], t[b - |s|]);
      }
    }
  }

  lemma {:induction false} PrefixedIncreasing(i: nat, n: nat, tails: seq<seq<nat>>)
    requires StrictlyIncreasing(tails)
    ensures StrictlyIncreasing(Prefixed(i, n, tails))
    decreases n - i
  {
    if i < n {
      var c := Cons(i, tails);
      var rest := Prefixed(i + 1, n, tails);
      ConsIncreasing(i, tails);
      PrefixedIncreasing(i + 1, n, tails);
      forall a, b | 0 <= a < |c| && 0 <= b < |rest| ensures LexLess(c[a], rest[b]) {
        assert c[a][0] == i < rest[b][0];
      }
      ConcatIncreasing(c, rest);
    }
  }

  /** The tuples come in lexicographic (row-major) order, so none repeats. */
  lemma {:induction false} ProductIncreasing(ns: seq<nat>)
    ensures StrictlyIncreasing(Product(ns))
    decreases |ns|
  {
    if ns != [] {
      ProductIncreasing(ns[1..]);
      PrefixedIncreasing(0, ns[0], Product(ns[1..]));
    }
  }

  /** A strictly increasing list holds each tuple at one position only. */
  lemma IncreasingDistinct(s: seq<seq<nat>>, i: int, j: int)
    requires StrictlyIncreasing(s)
    requires 0 <= i < |s| && 0 <= j < |s| && s[i] == s[j]
    ensures i == j
  {
    if i < j {
      LexLessIrreflexive(s[i]);
    } else if j < i {
      LexLessIrreflexive(s[j]);
    }
  }
}

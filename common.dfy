/** Small numeric helpers shared by the detector's services: the parts of
    numpy the services rely on (clip, mean, population variance) and an
    Option type for calls that may raise. */
module Common {

  datatype Option<T> = None | Some(value: T)

  function Min(a: real, b: real): real { if a <= b then a else b }

  function Max(a: real, b: real): real { if a >= b then a else b }

  /** numpy.clip(x, lo, hi), which numpy computes as min(max(x, lo), hi). */
  function Clip(x: real, lo: real, hi: real): (r: real)
    requires lo <= hi
    ensures lo <= r <= hi
    ensures lo <= x <= hi ==> r == x
    ensures x <= lo ==> r == lo
    ensures x >= hi ==> r == hi
  {
    Min(Max(x, lo), hi)
  }

  /** The sum of f over the elements of xs, in order. */
  function Total<T>(xs: seq<T>, f: T -> real): real
  {
    if xs == [] then 0.0 else f(xs[0]) + Total(xs[1..], f)
  }

  function AsReal(x: nat): real { x as real }

  /** numpy.mean over a non-empty list of counts. */
  function Mean(xs: seq<nat>): real
    requires xs != []
  {
    Total(xs, AsReal) / |xs| as real
  }

  /** d * d, with its sign facts stated once. */
  function Square(d: real): (s: real)
    ensures s >= 0.0
    ensures d != 0.0 ==> s > 0.0
  {
    if d >= 0.0 then Mul(d, d) else Mul(-d, -d)
  }

  /** The product of two non-negative reals. */
  function Mul(a: real, b: real): (p: real)
    requires a >= 0.0 && b >= 0.0
    ensures p >= 0.0
    ensures a > 0.0 && b > 0.0 ==> p > 0.0
  {
    a * b
  }

  /** numpy.var (population variance, ddof = 0) over a non-empty list of counts. */
  function Variance(xs: seq<nat>): real
    requires xs != []
  {
    var m := Mean(xs);
    Total(xs, x => Square(x as real - m)) / |xs| as real
  }

  lemma {:induction false} TotalAppend<T>(a: seq<T>, b: seq<T>, f: T -> real)
    ensures Total(a + b, f) == Total(a, f) + Total(b, f)
  {
    if a == [] {
      assert a + b == b;
    } else {
      assert (a + b)[1..] == a[1..] + b;
      TotalAppend(a[1..], b, f);
    }
  }

  /** Removing the element at position i takes exactly f(xs[i]) off the total. */
  lemma TotalRemove<T>(xs: seq<T>, i: nat, f: T -> real)
    requires i < |xs|
    ensures Total(xs, f) == f(xs[i]) + Total(xs[..i] + xs[i + 1..], f)
  {
    var before, after := xs[..i], xs[i + 1..];
    SplitAround(xs, i);
    TotalAppend(before + [xs[i]], after, f);
    TotalAppend(before, [xs[i]], f);
    TotalAppend(before, after, f);
    assert Total([xs[i]], f) == f(xs[i]) + Total([xs[i]][1..], f);
  }

  /** A total depends only on the multiset of its elements: reordering changes nothing. */
  lemma {:induction false} TotalPermutation<T>(xs: seq<T>, ys: seq<T>, f: T -> real)
    requires multiset(xs) == multiset(ys)
    ensures Total(xs, f) == Total(ys, f)
    decreases |xs|
  {
    if xs == [] {
      assert |ys| == |multiset(ys)| == 0;
    } else {
      var x := xs[0];
      assert x in multiset(ys);
      var i :| 0 <= i < |ys| && ys[i] == x;
      TotalRemove(ys, i, f);
      MultisetRemove(xs, ys, i);
      TotalPermutation(xs[1..], ys[..i] + ys[i + 1..], f);
    }
  }

  /** A lower bound on every term bounds the total from below. */
  lemma {:induction false} TotalAtLeast<T>(xs: seq<T>, f: T -> real, lo: real)
    requires forall i :: 0 <= i < |xs| ==> lo <= f(xs[i])
    ensures |xs| as real * lo <= Total(xs, f)
  {
    if xs != [] {
      TotalAtLeast(xs[1..], f, lo);
    }
  }

  /** An upper bound on every term bounds the total from above. */
  lemma {:induction false} TotalAtMost<T>(xs: seq<T>, f: T -> real, hi: real)
    requires forall i :: 0 <= i < |xs| ==> f(xs[i]) <= hi
    ensures Total(xs, f) <= |xs| as real * hi
  {
    if xs != [] {
      TotalAtMost(xs[1..], f, hi);
    }
  }

  /** The mean lies between any lower and upper bound of the elements,
      in particular between their minimum and maximum. */
  lemma MeanBounds(xs: seq<nat>, lo: real, hi: real)
    requires xs != []
    requires forall i :: 0 <= i < |xs| ==> lo <= xs[i] as real <= hi
    ensures lo <= Mean(xs) <= hi
  {
    forall i | 0 <= i < |xs| ensures lo <= AsReal(xs[i]) <= hi {
    }
    TotalAtLeast(xs, AsReal, lo);
    TotalAtMost(xs, AsReal, hi);
    QuotientBounds(Total(xs, AsReal), |xs| as real, lo, hi);
  }

  /** If n * lo <= t <= n * hi for a positive n, then t / n lies in [lo, hi]. */
  lemma QuotientBounds(t: real, n: real, lo: real, hi: real)
    requires n > 0.0 && n * lo <= t <= n * hi
    ensures lo <= t / n <= hi
  {
    var q := t / n;
    assert q * n == t;
    assert (q - lo) * n == t - lo * n;
    assert (hi - q) * n == hi * n - t;
    if q < lo { NegativeTimesPositive(q - lo, n); }
    if q > hi { NegativeTimesPositive(hi - q, n); }
  }

  /** The ratio a / b of two counts with 0 < b and a <= b. */
  lemma CountRatio(a: nat, b: nat)
    requires 0 < b && a <= b
    ensures 0.0 <= a as real / b as real <= 1.0
    ensures a as real / b as real == 1.0 <==> a == b
    ensures a as real / b as real == 0.0 <==> a == 0
  {
    var q := a as real / b as real;
    QuotientBounds(a as real, b as real, 0.0, 1.0);
    assert q * b as real == a as real;
  }

  /** Taking reciprocals reverses the order of positive reals. */
  lemma ReciprocalAntitone(a: real, b: real)
    requires 0.0 < a <= b
    ensures 1.0 / b <= 1.0 / a
  {
    var x, y := 1.0 / a, 1.0 / b;
    assert x * a == 1.0 && y * b == 1.0;
    assert (x - y) * b == x * (b - a) + x * a - y * b;
  }

  /** A share of a positive whole lies between 0 and 1. */
  lemma UnitShare(x: real, w: real)
    requires w > 0.0 && 0.0 <= x <= w
    ensures 0.0 <= x / w <= 1.0
  {
    var q := x / w;
    assert q * w == x;
    if q < 0.0 {
      NegativeTimesPositive(q, w);
    }
    if q > 1.0 {
      NegativeTimesPositive(1.0 - q, w);
    }
  }

  /** Multiplying by a non-zero factor and dividing by it again is the identity. */
  lemma CancelFactor(a: real, d: real)
    requires d != 0.0
    ensures (a * d) / d == a
  {
    var q := (a * d) / d;
    assert q * d == a * d;
    assert (q - a) * d == 0.0;
    if q < a {
      if d > 0.0 { NegativeTimesPositive(q - a, d); } else { NegativeTimesPositive(d, a - q); }
    } else if q > a {
      if d > 0.0 { NegativeTimesPositive(a - q, d); } else { NegativeTimesPositive(d, q - a); }
    }
  }

  lemma NegativeTimesPositive(a: real, b: real)
    requires a < 0.0 && b > 0.0
    ensures a * b < 0.0
  {
  }

  /** The population variance is never negative. */
  lemma VarianceNonNegative(xs: seq<nat>)
    requires xs != []
    ensures Variance(xs) >= 0.0
  {
    var m := Mean(xs);
    var f := x => Square(x as real - m);
    forall i | 0 <= i < |xs| ensures 0.0 <= f(xs[i]) {
    }
    TotalAtLeast(xs, f, 0.0);
    QuotientBounds(Total(xs, f), |xs| as real, 0.0, Total(xs, f) / |xs| as real);
  }

  /** A positive total over a positive count has a positive quotient. */
  lemma PositiveQuotient(t: real, n: real)
    requires t > 0.0 && n > 0.0
    ensures t / n > 0.0
  {
    var q := t / n;
    assert q * n == t;
    if q <= 0.0 {
      if q < 0.0 { NegativeTimesPositive(q, n); }
    }
  }

  /** An element of at least 1 makes the mean positive. */
  lemma PositiveMean(xs: seq<nat>, i: nat)
    requires i < |xs| && xs[i] >= 1
    ensures Mean(xs) > 0.0
  {
    var rest := xs[..i] + xs[i + 1..];
    TotalRemove(xs, i, AsReal);
    TotalAtLeast(rest, AsReal, 0.0);
    PositiveQuotient(Total(xs, AsReal), |xs| as real);
  }

  /** Two different elements make the variance positive. */
  lemma PositiveVariance(xs: seq<nat>, i: nat, j: nat)
    requires i < |xs| && j < |xs| && xs[i] != xs[j]
    ensures Variance(xs) > 0.0
  {
    var m := Mean(xs);
    var f := x => Square(x as real - m);
    var k := if xs[i] as real != m then i else j;
    var rest := xs[..k] + xs[k + 1..];
    TotalRemove(xs, k, f);
    forall r | 0 <= r < |rest| ensures 0.0 <= f(rest[r]) {
    }
    TotalAtLeast(rest, f, 0.0);
    PositiveQuotient(Total(xs, f), |xs| as real);
  }

  /** When every element is the same count c, the mean is c and the variance is 0. */
  lemma ConstantMoments(xs: seq<nat>, c: nat)
    requires xs != []
    requires forall i :: 0 <= i < |xs| ==> xs[i] == c
    ensures Mean(xs) == c as real
    ensures Variance(xs) == 0.0
  {
    MeanBounds(xs, c as real, c as real);
    var m := Mean(xs);
    var f := x => Square(x as real - m);
    forall i | 0 <= i < |xs| ensures f(xs[i]) == 0.0 {
    }
    TotalAtLeast(xs, f, 0.0);
    TotalAtMost(xs, f, 0.0);
  }

  /** Mean and variance depend only on the multiset of elements. */
  lemma MomentsPermutation(xs: seq<nat>, ys: seq<nat>)
    requires xs != [] && multiset(xs) == multiset(ys)
    ensures ys != [] && |xs| == |ys|
    ensures Mean(xs) == Mean(ys) && Variance(xs) == Variance(ys)
  {
    assert |xs| == |multiset(xs)| == |multiset(ys)| == |ys|;
    TotalPermutation(xs, ys, AsReal);
    var m := Mean(xs);
    TotalPermutation(xs, ys, x => Square(x as real - m));
  }

  /** The elements of xs that satisfy p, in their original order (a list comprehension with a condition). */
  function Filter<T>(xs: seq<T>, p: T -> bool): (r: seq<T>)
    ensures |r| <= |xs|
    ensures forall k :: 0 <= k < |r| ==> p(r[k])
  {
    if xs == [] then [] else (if p(xs[0]) then [xs[0]] else []) + Filter(xs[1..], p)
  }

  /** Every kept element comes from the input. */
  lemma FilterFromInput<T>(xs: seq<T>, p: T -> bool)
    ensures forall k :: 0 <= k < |Filter(xs, p)| ==> Filter(xs, p)[k] in xs
  {
    forall k | 0 <= k < |Filter(xs, p)| ensures Filter(xs, p)[k] in xs {
      FilterMembership(xs, p, Filter(xs, p)[k]);
    }
  }

  lemma {:induction false} FilterAppend<T>(xs: seq<T>, ys: seq<T>, p: T -> bool)
    ensures Filter(xs + ys, p) == Filter(xs, p) + Filter(ys, p)
  {
    if xs == [] {
      assert xs + ys == ys;
    } else {
      assert (xs + ys)[1..] == xs[1..] + ys;
      FilterAppend(xs[1..], ys, p);
    }
  }

  /** An element is kept exactly when it occurs in the input and satisfies p. */
  lemma {:induction false} FilterMembership<T>(xs: seq<T>, p: T -> bool, x: T)
    ensures x in Filter(xs, p) <==> x in xs && p(x)
  {
    if xs != [] {
      FilterMembership(xs[1..], p, x);
      assert xs == [xs[0]] + xs[1..];
    }
  }

  /** Filter keeps everything exactly when every element satisfies p. */
  lemma {:induction false} FilterKeepsAll<T>(xs: seq<T>, p: T -> bool)
    ensures Filter(xs, p) == xs <==> forall k :: 0 <= k < |xs| ==> p(xs[k])
    ensures |Filter(xs, p)| == |xs| <==> forall k :: 0 <= k < |xs| ==> p(xs[k])
  {
    if xs != [] {
      FilterKeepsAll(xs[1..], p);
      if !p(xs[0]) {
        assert |Filter(xs, p)| < |xs|;
      } else if forall k :: 0 <= k < |xs[1..]| ==> p(xs[1..][k]) {
        assert forall k :: 0 <= k < |xs| ==> p(xs[k]) by {
          forall k | 0 <= k < |xs| ensures p(xs[k]) {
            if k > 0 { assert xs[k] == xs[1..][k - 1]; }
          }
        }
      } else {
        var k :| 0 <= k < |xs[1..]| && !p(xs[1..][k]);
        assert !p(xs[k + 1]);
        assert |Filter(xs, p)| < |xs|;
      }
    }
  }

  /** Filter keeps nothing exactly when no element satisfies p. */
  lemma {:induction false} FilterDropsAll<T>(xs: seq<T>, p: T -> bool)
    ensures Filter(xs, p) == [] <==> forall k :: 0 <= k < |xs| ==> !p(xs[k])
  {
    if xs != [] {
      FilterDropsAll(xs[1..], p);
      if p(xs[0]) {
        assert Filter(xs, p)[0] == xs[0];
      } else {
        assert forall k :: 1 <= k < |xs| ==> xs[k] == xs[1..][k - 1];
      }
    }
  }

  /** A prefix whose elements all satisfy p is kept whole. */
  lemma FilterKeepsPrefix<T>(xs: seq<T>, p: T -> bool, n: nat)
    requires n <= |xs|
    requires forall i :: 0 <= i < n ==> p(xs[i])
    ensures Filter(xs[..n], p) == xs[..n]
  {
    var kept := xs[..n];
    assert forall k :: 0 <= k < |kept| ==> p(kept[k]) by {
      forall k | 0 <= k < |kept| ensures p(kept[k]) { assert kept[k] == xs[k]; }
    }
    FilterKeepsAll(kept, p);
  }

  /** A slice none of whose elements satisfies p is dropped whole. */
  lemma FilterDropsRange<T>(xs: seq<T>, p: T -> bool, i: nat, j: nat)
    requires i <= j <= |xs|
    requires forall c :: i <= c < j ==> !p(xs[c])
    ensures Filter(xs[i..j], p) == []
  {
    var skipped := xs[i..j];
    assert forall k :: 0 <= k < |skipped| ==> !p(skipped[k]) by {
      forall k | 0 <= k < |skipped| ensures !p(skipped[k]) { assert skipped[k] == xs[i + k]; }
    }
    FilterDropsAll(skipped, p);
  }

  /** Filtering three consecutive slices, the first kept whole and the second dropped whole. */
  lemma FilterThreeParts<T>(xs: seq<T>, p: T -> bool, i: nat, j: nat)
    requires i <= j <= |xs|
    requires Filter(xs[..i], p) == xs[..i] && Filter(xs[i..j], p) == []
    ensures Filter(xs, p) == xs[..i] + Filter(xs[j..], p)
  {
    var kept, skipped, after := xs[..i], xs[i..j], xs[j..];
    ThreeParts(xs, i, j);
    FilterAppend(kept + skipped, after, p);
    FilterAppend(kept, skipped, p);
    assert kept + [] == kept;
  }

  lemma SliceThenSuffix<T>(xs: seq<T>, i: nat, j: nat)
    requires i <= j <= |xs|
    ensures xs[i..] == xs[i..j] + xs[j..]
  {
  }

  /** A sequence is its three consecutive slices at positions i and j. */
  lemma ThreeParts<T>(xs: seq<T>, i: nat, j: nat)
    requires i <= j <= |xs|
    ensures xs == xs[..i] + xs[i..j] + xs[j..]
  {
  }

  /** Filter on a non-empty sequence: its head, if kept, then the filtered tail. */
  lemma FilterCons<T>(xs: seq<T>, p: T -> bool)
    requires xs != []
    ensures Filter(xs, p) == if p(xs[0]) then [xs[0]] + Filter(xs[1..], p) else Filter(xs[1..], p)
  {
  }

  /** The set of distinct elements of xs (the keys of a Counter, or set(xs)). */
  function Distinct<T>(xs: seq<T>): set<T>
  {
    set x | x in xs
  }

  predicate AllDistinct<T(==)>(xs: seq<T>)
  {
    forall i, j :: 0 <= i < j < |xs| ==> xs[i] != xs[j]
  }

  /** A sequence has at most as many distinct elements as entries, at least
      one when it is non-empty, and exactly as many when no entry repeats. */
  lemma {:induction false} DistinctCard<T>(xs: seq<T>)
    ensures |Distinct(xs)| <= |xs|
    ensures xs != [] ==> 1 <= |Distinct(xs)|
    ensures |Distinct(xs)| == |xs| <==> AllDistinct(xs)
  {
    if xs == [] {
      assert Distinct(xs) == {};
    } else {
      var x := xs[0];
      var rest := xs[1..];
      DistinctCard(rest);
      assert x in Distinct(xs);
      if x in rest {
        assert Distinct(xs) == Distinct(rest);
        var j :| 0 <= j < |rest| && rest[j] == x;
        assert xs[0] == xs[j + 1];
        assert !AllDistinct(xs);
      } else {
        assert Distinct(xs) == Distinct(rest) + {x};
        if AllDistinct(rest) {
          forall i, j | 0 <= i < j < |xs| ensures xs[i] != xs[j] {
            if i == 0 {
              assert xs[j] == rest[j - 1];
            } else {
              assert xs[i] == rest[i - 1] && xs[j] == rest[j - 1];
            }
          }
        } else {
          var i, j :| 0 <= i < j < |rest| && rest[i] == rest[j];
          assert xs[i + 1] == xs[j + 1];
        }
      }
    }
  }

  /** [f(x) for x in xs] */
  function MapSeq<A, B>(xs: seq<A>, f: A -> B): (r: seq<B>)
    ensures |r| == |xs|
    ensures forall i :: 0 <= i < |xs| ==> r[i] == f(xs[i])
  {
    seq(|xs|, i requires 0 <= i < |xs| => f(xs[i]))
  }

  lemma SliceOfSlice<T>(s: seq<T>, i: nat, j: nat, a: nat, b: nat)
    requires i <= j <= |s| && a <= b <= j - i
    ensures s[i..j][a..b] == s[i + a..i + b]
  {
    var u, v := s[i..j][a..b], s[i + a..i + b];
    assert |u| == b - a == |v|;
    forall t | 0 <= t < |u| ensures u[t] == v[t] {
      assert u[t] == s[i..j][a + t] == s[i + a + t];
    }
  }

  lemma ConcatAssociative<T>(a: seq<T>, b: seq<T>, c: seq<T>)
    ensures (a + b) + c == a + (b + c)
  {
  }

  lemma EmptyPrefixConcat<T>(xs: seq<T>, ys: seq<T>)
    ensures xs[..0] + ys == ys
  {
  }

  /** A non-empty prefix is the first element followed by a prefix of the tail. */
  lemma PrefixCons<T>(xs: seq<T>, n: nat)
    requires 0 < n <= |xs|
    ensures xs[..n] == [xs[0]] + xs[1..][..n - 1]
  {
  }

  /** A sequence is its part before position n, the element at n, and its part after. */
  lemma SplitAround<T>(s: seq<T>, n: nat)
    requires n < |s|
    ensures s == s[..n] + [s[n]] + s[n + 1..]
  {
  }

  lemma SuffixOfSuffix<T>(s: seq<T>, i: nat, j: nat)
    requires i <= j <= |s|
    ensures s[i..][j - i..] == s[j..]
  {
  }

  lemma MapSeqAppend<A, B>(xs: seq<A>, ys: seq<A>, f: A -> B)
    ensures MapSeq(xs + ys, f) == MapSeq(xs, f) + MapSeq(ys, f)
  {
  }

  lemma MapSeqTail<A, B>(xs: seq<A>, f: A -> B)
    requires xs != []
    ensures MapSeq(xs, f)[1..] == MapSeq(xs[1..], f)
  {
  }

  /** Taking the first element off one of two permutations of one another, and
      one equal element off the other, leaves permutations of one another. */
  lemma MultisetRemove<T>(xs: seq<T>, ys: seq<T>, i: nat)
    requires multiset(xs) == multiset(ys)
    requires xs != [] && i < |ys| && ys[i] == xs[0]
    ensures multiset(xs[1..]) == multiset(ys[..i] + ys[i + 1..])
  {
    var x := xs[0];
    assert ys == ys[..i] + [x] + ys[i + 1..];
    assert xs == [x] + xs[1..];
    assert multiset(ys) == multiset(ys[..i]) + multiset{x} + multiset(ys[i + 1..]);
    forall y ensures multiset(xs[1..])[y] == multiset(ys[..i] + ys[i + 1..])[y] {
      assert multiset(xs)[y] == multiset(ys)[y];
    }
  }

  /** Summing over mapped elements is summing the composed function. */
  lemma {:induction false} TotalMap<A, B>(xs: seq<A>, g: A -> B, f: B -> real, h: A -> real)
    requires forall x :: h(x) == f(g(x))
    ensures Total(MapSeq(xs, g), f) == Total(xs, h)
  {
    if xs != [] {
      TotalMap(xs[1..], g, f, h);
      assert MapSeq(xs, g)[1..] == MapSeq(xs[1..], g);
    }
  }
}

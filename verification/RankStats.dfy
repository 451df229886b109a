/**
 Agreement statistics between two score lists over the same candidates
 (scripts/rerank_judge_bench.py). Scores are reals, so the statistics are the values
 before the final rounding.
 */
module RankStats {
  import opened Finite

  /** Position order used by the stable descending sort: higher score first, ties by index. */
  predicate Before(xs: seq<real>, i: nat, j: nat)
    requires i < |xs| && j < |xs|
  {
    xs[i] > xs[j] || (xs[i] == xs[j] && i < j)
  }

  ghost function Predecessors(xs: seq<real>, i: nat): set<nat>
    requires i < |xs|
  {
    set j: nat | j < |xs| && Before(xs, j, i)
  }

  /** The rank of a candidate: how many candidates come before it. */
  ghost function RankOf(xs: seq<real>, i: nat): nat
    requires i < |xs|
  {
    |Predecessors(xs, i)|
  }

  ghost function RankVector(xs: seq<real>): (r: seq<int>)
    ensures |r| == |xs|
  {
    seq(|xs|, i requires 0 <= i < |xs| => RankOf(xs, i))
  }

  ghost predicate IsPermutation(p: seq<int>) {
    && (forall i :: 0 <= i < |p| ==> 0 <= p[i] < |p|)
    && (forall i, j :: 0 <= i < j < |p| ==> p[i] != p[j])
  }

  // ----- ranks are a permutation that sorts by Before

  lemma RankOrder(xs: seq<real>, i: nat, j: nat)
    requires i < |xs| && j < |xs|
    ensures RankOf(xs, i) < RankOf(xs, j) <==> Before(xs, i, j)
  {
    if Before(xs, i, j) {
      StrictlyMore(xs, i, j);
    } else if i != j {
      StrictlyMore(xs, j, i);
    }
  }

  lemma StrictlyMore(xs: seq<real>, i: nat, j: nat)
    requires i < |xs| && j < |xs| && Before(xs, i, j)
    ensures RankOf(xs, i) < RankOf(xs, j)
  {
    var p, q := Predecessors(xs, i), Predecessors(xs, j);
    assert p <= q;
    assert i in q && i !in p;
    SubsetCard(p, q);
  }

  /** `_ranks` yields a permutation of 0..n-1 whatever the scores, ties included. */
  lemma RanksArePermutation(xs: seq<real>)
    ensures IsPermutation(RankVector(xs))
  {
    var r := RankVector(xs);
    forall i | 0 <= i < |r|
      ensures 0 <= r[i] < |r|
    {
      SubsetCard(Predecessors(xs, i), Below(|xs|) - {i});
    }
    forall i, j | 0 <= i < j < |r|
      ensures r[i] != r[j]
    {
      RankOrder(xs, i, j);
      RankOrder(xs, j, i);
    }
  }

  // ----- the stable descending sort of the index list

  function InsertIndex(xs: seq<real>, order: seq<nat>, i: nat): (r: seq<nat>)
    requires i < |xs| && forall p :: 0 <= p < |order| ==> order[p] < |xs|
    ensures |r| == |order| + 1
    ensures forall p :: 0 <= p < |r| ==> r[p] < |xs| && (r[p] == i || r[p] in order)
  {
    if order == [] then [i]
    else if Before(xs, order[0], i) then [order[0]] + InsertIndex(xs, order[1..], i)
    else [i] + order
  }

  /** `sorted(range(n), key=lambda i: -xs[i])` restricted to the first n indices. */
  function OrderOf(xs: seq<real>, n: nat): (r: seq<nat>)
    requires n <= |xs|
    ensures |r| == n
    ensures forall p :: 0 <= p < |r| ==> r[p] < n
  {
    if n == 0 then [] else InsertIndex(xs, OrderOf(xs, n - 1), n - 1)
  }

  ghost predicate SortedBefore(xs: seq<real>, order: seq<nat>) {
    && (forall p :: 0 <= p < |order| ==> order[p] < |xs|)
    && (forall p, q :: 0 <= p < q < |order| ==> Before(xs, order[p], order[q]))
  }

  lemma {:induction false} InsertKeepsSorted(xs: seq<real>, order: seq<nat>, i: nat)
    requires i < |xs| && i !in order && SortedBefore(xs, order)
    ensures SortedBefore(xs, InsertIndex(xs, order, i))
  {
    if order != [] && Before(xs, order[0], i) {
      InsertKeepsSorted(xs, order[1..], i);
    }
  }

  lemma {:induction false} OrderIsSorted(xs: seq<real>, n: nat)
    requires n <= |xs|
    ensures SortedBefore(xs, OrderOf(xs, n))
  {
    if n != 0 {
      var order := OrderOf(xs, n - 1);
      OrderIsSorted(xs, n - 1);
      forall p | 0 <= p < |order| ensures order[p] < n - 1 {
      }
      assert n - 1 !in order && OrderOf(xs, n) == InsertIndex(xs, order, n - 1);
      InsertKeepsSorted(xs, order, n - 1);
    }
  }

  lemma SortedIsDistinct(xs: seq<real>, order: seq<nat>)
    requires SortedBefore(xs, order)
    ensures Distinct(order)
  {
  }

  lemma OrderIsOnto(xs: seq<real>)
    ensures Elements(OrderOf(xs, |xs|)) == Below(|xs|)
  {
    var order := OrderOf(xs, |xs|);
    OrderIsSorted(xs, |xs|);
    DistinctCard(order);
    assert Elements(order) <= Below(|xs|);
    SubsetCard(Elements(order), Below(|xs|));
  }

  lemma PrefixIsPredecessors(xs: seq<real>, order: seq<nat>, p: nat)
    requires p < |order| && SortedBefore(xs, order)
    requires forall j: nat :: j < |xs| ==> j in order
    ensures Elements(order[..p]) == Predecessors(xs, order[p])
  {
    var prefix := order[..p];
    forall j: nat | j < |xs|
      ensures j in prefix <==> Before(xs, j, order[p])
    {
      assert j in order;
      var q :| 0 <= q < |order| && order[q] == j;
      if q < p {
        assert prefix[q] == j;
      }
    }
  }

  /** The candidate sorted into position p has rank p. */
  lemma RankAtPosition(xs: seq<real>, p: nat)
    requires p < |xs|
    ensures RankOf(xs, OrderOf(xs, |xs|)[p]) == p
  {
    var order := OrderOf(xs, |xs|);
    OrderIsSorted(xs, |xs|);
    SortedIsDistinct(xs, order);
    OrderCovers(xs);
    PrefixIsPredecessors(xs, order, p);
    DistinctCard(order[..p]);
  }

  lemma OrderCovers(xs: seq<real>)
    ensures forall j: nat :: j < |xs| ==> j in OrderOf(xs, |xs|)
  {
    OrderIsOnto(xs);
    forall j: nat | j < |xs| ensures j in OrderOf(xs, |xs|) {
      assert j in Elements(OrderOf(xs, |xs|));
    }
  }

  /** A list that inverts the sorted order is the rank vector. */
  lemma InverseIsRanks(xs: seq<real>, r: seq<int>)
    requires |r| == |xs|
    requires forall p :: 0 <= p < |xs| ==> r[OrderOf(xs, |xs|)[p]] == p
    ensures r == RankVector(xs)
  {
    var order := OrderOf(xs, |xs|);
    OrderIsOnto(xs);
    forall i: nat | i < |xs| ensures r[i] == RankOf(xs, i) {
      assert i in Elements(order);
      var p :| 0 <= p < |order| && order[p] == i;
      RankAtPosition(xs, p);
    }
  }

  lemma OrderIsDistinct(xs: seq<real>)
    ensures forall p, q :: 0 <= p < q < |xs| ==> OrderOf(xs, |xs|)[p] != OrderOf(xs, |xs|)[q]
  {
    OrderIsSorted(xs, |xs|);
  }

  /** `_ranks`: the rank counts the candidates with a higher score and the equal ones listed earlier. */
  method Ranks(xs: seq<real>) returns (r: seq<int>)
    ensures r == RankVector(xs)
    ensures forall i :: 0 <= i < |xs| ==>
              r[i] == |set j: nat | j < |xs| && (xs[j] > xs[i] || (xs[j] == xs[i] && j < i))|
  {
    var order := OrderOf(xs, |xs|);
    var a := new int[|xs|](_ => 0);
    OrderIsDistinct(xs);
    for pos := 0 to |xs|
      invariant forall p :: 0 <= p < pos ==> a[order[p]] == p
    {
      a[order[pos]] := pos;
    }
    r := a[..];
    InverseIsRanks(xs, r);
    forall i: nat | i < |xs|
      ensures r[i] == |set j: nat | j < |xs| && (xs[j] > xs[i] || (xs[j] == xs[i] && j < i))|
    {
      assert Predecessors(xs, i) == set j: nat | j < |xs| && (xs[j] > xs[i] || (xs[j] == xs[i] && j < i));
    }
  }

  // ----- sums over permutations

  function Sum(s: seq<int>): int {
    if s == [] then 0 else s[0] + Sum(s[1..])
  }

  function Squares(s: seq<int>): (r: seq<int>)
    ensures |r| == |s|
  {
    seq(|s|, i requires 0 <= i < |s| => s[i] * s[i])
  }

  lemma {:induction false} SumRemove(s: seq<int>, k: nat)
    requires k < |s|
    ensures Sum(s) == s[k] + Sum(s[..k] + s[k + 1..])
  {
    if k == 0 {
      assert s[..0] + s[1..] == s[1..];
    } else {
      SumRemove(s[1..], k - 1);
      var rest := s[..k] + s[k + 1..];
      assert rest[1..] == s[1..][..k - 1] + s[1..][k..];
    }
  }

  /** An injective list of n numbers below n attains its maximum n-1. */
  lemma AttainsTop(p: seq<int>) returns (k: nat)
    requires IsPermutation(p) && |p| > 0
    ensures k < |p| && p[k] == |p| - 1
  {
    if forall i :: 0 <= i < |p| ==> p[i] != |p| - 1 {
      DistinctCard(p);
      SubsetCard(Elements(p), Below(|p| - 1));
      assert false;
    }
    k :| 0 <= k < |p| && p[k] == |p| - 1;
  }

  /** Twice the sum and six times the sum of squares of any permutation of 0..n-1. */
  lemma {:induction false} PermutationSums(p: seq<int>)
    requires IsPermutation(p)
    ensures 2 * Sum(p) == |p| * (|p| - 1)
    ensures 6 * Sum(Squares(p)) == (|p| - 1) * |p| * (2 * |p| - 1)
    decreases |p|
  {
    var n := |p|;
    if n != 0 {
      var k := AttainsTop(p);
      var rest := p[..k] + p[k + 1..];
      assert IsPermutation(rest) by {
        forall i | 0 <= i < |rest| ensures 0 <= rest[i] < n - 1 {
          assert rest[i] == p[if i < k then i else i + 1];
        }
      }
      PermutationSums(rest);
      SumRemove(p, k);
      SumRemove(Squares(p), k);
      assert Squares(rest) == Squares(p)[..k] + Squares(p)[k + 1..];
      SquareStep(n);
    }
  }

  lemma SquareStep(n: int)
    ensures n * (n - 1) == (n - 1) * (n - 2) + 2 * (n - 1)
    ensures (n - 1) * n * (2 * n - 1) == (n - 2) * (n - 1) * (2 * n - 3) + 6 * ((n - 1) * (n - 1))
  {
  }

  // ----- Spearman

  function SquaredDistance(p: seq<int>, q: seq<int>): int
    requires |p| == |q|
  {
    if p == [] then 0
    else (p[0] - q[0]) * (p[0] - q[0]) + SquaredDistance(p[1..], q[1..])
  }

  /** Distance of p from the reversal of q, with m = n - 1. */
  function ReversalGap(p: seq<int>, q: seq<int>, m: int): int
    requires |p| == |q|
  {
    if p == [] then 0
    else (p[0] + q[0] - m) * (p[0] + q[0] - m) + ReversalGap(p[1..], q[1..], m)
  }

  lemma {:induction false} DistanceIsZero(p: seq<int>, q: seq<int>)
    requires |p| == |q|
    ensures SquaredDistance(p, q) >= 0
    ensures SquaredDistance(p, q) == 0 <==> p == q
  {
    if p != [] {
      DistanceIsZero(p[1..], q[1..]);
      SquareSign(p[0] - q[0]);
      assert p == [p[0]] + p[1..] && q == [q[0]] + q[1..];
    }
  }

  lemma SquareSign(x: int)
    ensures x * x >= 0 && (x * x == 0 <==> x == 0)
  {
  }

  ghost predicate Reversed(p: seq<int>, q: seq<int>, m: int)
    requires |p| == |q|
  {
    forall i :: 0 <= i < |p| ==> p[i] + q[i] == m
  }

  lemma {:induction false} GapIsZero(p: seq<int>, q: seq<int>, m: int)
    requires |p| == |q|
    ensures ReversalGap(p, q, m) >= 0
    ensures ReversalGap(p, q, m) == 0 <==> Reversed(p, q, m)
  {
    if p != [] {
      GapIsZero(p[1..], q[1..], m);
      SquareSign(p[0] + q[0] - m);
      if Reversed(p[1..], q[1..], m) && p[0] + q[0] == m {
        forall i | 0 <= i < |p| ensures p[i] + q[i] == m {
          if i > 0 { assert p[i] == p[1..][i - 1] && q[i] == q[1..][i - 1]; }
        }
      }
      if Reversed(p, q, m) {
        forall i | 0 <= i < |p| - 1 ensures p[1..][i] + q[1..][i] == m {
          assert p[i + 1] + q[i + 1] == m;
        }
      }
    }
  }

  /** Parallelogram identity, term by term. */
  lemma {:induction false} DistancePlusGap(p: seq<int>, q: seq<int>, m: int)
    requires |p| == |q|
    ensures SquaredDistance(p, q) + ReversalGap(p, q, m)
         == 2 * Sum(Squares(p)) + 2 * Sum(Squares(q)) - 2 * m * (Sum(p) + Sum(q)) + |p| * (m * m)
  {
    if p != [] {
      var p', q' := p[1..], q[1..];
      DistancePlusGap(p', q', m);
      assert Squares(p)[1..] == Squares(p') && Squares(q)[1..] == Squares(q');
      DistanceStep(p[0], q[0], m, SquaredDistance(p', q'), ReversalGap(p', q', m),
                   Sum(Squares(p')), Sum(Squares(q')), Sum(p'), Sum(q'), |p'|);
    }
  }

  lemma Parallelogram(a: int, b: int, m: int)
    ensures (a - b) * (a - b) + (a + b - m) * (a + b - m) == 2 * (a * a) + 2 * (b * b) - 2 * m * (a + b) + m * m
  {
    var c := a + b;
    assert (c - m) * (c - m) == c * c - 2 * m * c + m * m;
    assert c * c == a * a + 2 * (a * b) + b * b;
    assert (a - b) * (a - b) == a * a - 2 * (a * b) + b * b;
  }

  lemma DistanceStep(a: int, b: int, m: int, d: int, g: int, s2: int, t2: int, s: int, t: int, k: int)
    requires d + g == 2 * s2 + 2 * t2 - 2 * m * (s + t) + k * (m * m)
    ensures (a - b) * (a - b) + d + ((a + b - m) * (a + b - m) + g)
         == 2 * (a * a + s2) + 2 * (b * b + t2) - 2 * m * (a + s + (b + t)) + (k + 1) * (m * m)
  {
    Parallelogram(a, b, m);
    Distribute(2 * m, a + b, s + t);
    assert a + s + (b + t) == (a + b) + (s + t);
    Distribute(m * m, k, 1);
  }

  lemma Distribute(f: int, x: int, y: int)
    ensures f * (x + y) == f * x + f * y
    ensures (x + y) * f == x * f + y * f
  {
  }

  lemma SumsOf(p: seq<int>, n: int)
    requires IsPermutation(p) && n == |p|
    ensures 2 * Sum(p) == n * (n - 1) && 6 * Sum(Squares(p)) == (n - 1) * n * (2 * n - 1)
  {
    PermutationSums(p);
  }

  lemma DistanceOf(p: seq<int>, q: seq<int>, n: int)
    requires |p| == |q| == n
    ensures SquaredDistance(p, q) + ReversalGap(p, q, n - 1)
         == 2 * Sum(Squares(p)) + 2 * Sum(Squares(q)) - 2 * (n - 1) * (Sum(p) + Sum(q)) + n * ((n - 1) * (n - 1))
  {
    DistancePlusGap(p, q, n - 1);
  }

  lemma SharedTotalOf(p: seq<int>, q: seq<int>, n: int)
    requires IsPermutation(p) && IsPermutation(q) && |p| == |q| == n
    ensures 3 * (SquaredDistance(p, q) + ReversalGap(p, q, n - 1)) == n * (n * n - 1)
  {
    SumsOf(p, n);
    SumsOf(q, n);
    DistanceOf(p, q, n);
    TotalAlgebra(n, Sum(p), Sum(Squares(p)), Sum(q), Sum(Squares(q)), SquaredDistance(p, q) + ReversalGap(p, q, n - 1));
  }

  /** The two distances of a pair of permutations share a fixed total: 3(d2 + gap) = n(n^2 - 1). */
  lemma SharedTotal(p: seq<int>, q: seq<int>)
    requires IsPermutation(p) && IsPermutation(q) && |p| == |q|
    ensures 3 * (SquaredDistance(p, q) + ReversalGap(p, q, |p| - 1)) == |p| * (|p| * |p| - 1)
  {
    SharedTotalOf(p, q, |p|);
  }

  lemma TotalAlgebra(n: int, s: int, s2: int, t: int, t2: int, d: int)
    requires 2 * s == n * (n - 1) && 2 * t == n * (n - 1)
    requires 6 * s2 == (n - 1) * n * (2 * n - 1) && 6 * t2 == (n - 1) * n * (2 * n - 1)
    requires d == 2 * s2 + 2 * t2 - 2 * (n - 1) * (s + t) + n * ((n - 1) * (n - 1))
    ensures 3 * d == n * (n * n - 1)
  {
    var c := n * (n - 1);
    assert s + t == c;
    assert 3 * d == 2 * (6 * s2) - 6 * (n - 1) * c + 3 * (n * ((n - 1) * (n - 1)));
    assert n * ((n - 1) * (n - 1)) == (n - 1) * c;
    assert 6 * s2 == c * (2 * n - 1);
    assert 3 * d == 2 * (c * (2 * n - 1)) - 3 * ((n - 1) * c);
    assert 2 * (c * (2 * n - 1)) - 3 * ((n - 1) * c) == c * (n + 1);
    assert c * (n + 1) == n * (n * n - 1);
  }

  ghost function Spearman(a: seq<real>, b: seq<real>): real
    requires |a| == |b|
  {
    var n := |a|;
    if n < 2 then 1.0
    else
      CubePositive(n);
      1.0 - 6.0 * SquaredDistance(RankVector(a), RankVector(b)) as real / (n * (n * n - 1)) as real
  }

  lemma CubePositive(n: int)
    requires n >= 2
    ensures n * (n * n - 1) > 0
  {
    assert n * n >= 2 * 2;
  }

  lemma RatioBounds(d: int, m: int)
    requires m > 0 && 0 <= 3 * d <= m
    ensures -1.0 <= 1.0 - 6.0 * d as real / m as real <= 1.0
    ensures 1.0 - 6.0 * d as real / m as real == 1.0 <==> d == 0
    ensures 1.0 - 6.0 * d as real / m as real == -1.0 <==> 3 * d == m
  {
    DivideCompare(6.0 * d as real, 0.0, m as real);
    DivideCompare(6.0 * d as real, 2.0, m as real);
  }

  lemma DivideCompare(x: real, y: real, m: real)
    requires m > 0.0
    ensures x / m < y <==> x < y * m
    ensures x / m == y <==> x == y * m
  {
    var q := x / m;
    assert q * m == x;
    MulCompare(q, y, m);
  }

  lemma MulCompare(q: real, y: real, m: real)
    requires m > 0.0
    ensures q < y <==> q * m < y * m
    ensures q == y <==> q * m == y * m
  {
    ProductSign(y - q, m);
    assert (y - q) * m == y * m - q * m;
  }

  /**
   Spearman's value is in [-1, 1]; it is 1 exactly on equal rank vectors and -1 exactly
   when one rank vector is the reversal of the other.
   */
  lemma SpearmanBounds(a: seq<real>, b: seq<real>)
    requires |a| == |b| && |a| >= 2
    ensures -1.0 <= Spearman(a, b) <= 1.0
    ensures Spearman(a, b) == 1.0 <==> RankVector(a) == RankVector(b)
    ensures Spearman(a, b) == -1.0 <==> Reversed(RankVector(a), RankVector(b), |a| - 1)
  {
    var p, q, n := RankVector(a), RankVector(b), |a|;
    RanksArePermutation(a);
    RanksArePermutation(b);
    SharedTotal(p, q);
    DistanceIsZero(p, q);
    GapIsZero(p, q, n - 1);
    CubePositive(n);
    RatioBounds(SquaredDistance(p, q), n * (n * n - 1));
  }

  /** The two lists put every pair of candidates in the same tie-broken order. */
  ghost predicate SameOrder(a: seq<real>, b: seq<real>)
    requires |a| == |b|
  {
    forall i: nat, j: nat :: i < j < |a| ==> (a[i] >= a[j] <==> b[i] >= b[j])
  }

  lemma SameOrderIsSameRanks(a: seq<real>, b: seq<real>)
    requires |a| == |b|
    ensures SameOrder(a, b) <==> RankVector(a) == RankVector(b)
  {
    if SameOrder(a, b) {
      forall i: nat | i < |a| ensures RankVector(a)[i] == RankVector(b)[i] {
        assert Predecessors(a, i) == Predecessors(b, i);
      }
    }
    if RankVector(a) == RankVector(b) {
      forall i: nat, j: nat | i < j < |a| ensures a[i] >= a[j] <==> b[i] >= b[j] {
        RankOrder(a, i, j);
        RankOrder(b, i, j);
        assert RankVector(a)[i] == RankVector(b)[i] && RankVector(a)[j] == RankVector(b)[j];
      }
    }
  }

  /** Four times the sum of products of the deviations from the mean m/2. */
  function Covariance(p: seq<int>, q: seq<int>, m: int): int
    requires |p| == |q|
  {
    if p == [] then 0 else (2 * p[0] - m) * (2 * q[0] - m) + Covariance(p[1..], q[1..], m)
  }

  lemma FourProducts(x: int, y: int, m: int)
    ensures (2 * x - m) * (2 * y - m) == (x + y - m) * (x + y - m) - (x - y) * (x - y)
  {
    var u, v := x + y - m, x - y;
    assert 2 * x - m == u + v && 2 * y - m == u - v;
    assert (u + v) * (u - v) == u * u - v * v;
  }

  lemma {:induction false} CovarianceIsGap(p: seq<int>, q: seq<int>, m: int)
    requires |p| == |q|
    ensures Covariance(p, q, m) == ReversalGap(p, q, m) - SquaredDistance(p, q)
  {
    if p != [] {
      FourProducts(p[0], q[0], m);
      CovarianceIsGap(p[1..], q[1..], m);
    }
  }

  /** Spearman's value is Pearson's correlation of the two rank vectors, whose variances are equal. */
  lemma SpearmanIsPearson(a: seq<real>, b: seq<real>)
    requires |a| == |b|
    ensures |a| < 2 ==> Spearman(a, b) == 1.0
    ensures |a| >= 2 ==>
              var p, q, m := RankVector(a), RankVector(b), |a| - 1;
              && Covariance(p, p, m) == Covariance(q, q, m) > 0
              && Spearman(a, b) == Covariance(p, q, m) as real / Covariance(p, p, m) as real
  {
    if |a| >= 2 {
      var p, q, n := RankVector(a), RankVector(b), |a|;
      RanksArePermutation(a);
      RanksArePermutation(b);
      CubePositive(n);
      RanksCovary(p, q, n);
      PearsonRatio(SquaredDistance(p, q), Covariance(p, q, n - 1), Covariance(p, p, n - 1), n * (n * n - 1));
    }
  }

  lemma RanksCovary(p: seq<int>, q: seq<int>, n: int)
    requires IsPermutation(p) && IsPermutation(q) && |p| == |q| == n
    ensures 3 * Covariance(p, p, n - 1) == n * (n * n - 1) == 3 * Covariance(q, q, n - 1)
    ensures Covariance(p, q, n - 1) == Covariance(p, p, n - 1) - 2 * SquaredDistance(p, q)
  {
    SharedTotalOf(p, p, n);
    SharedTotalOf(q, q, n);
    SharedTotalOf(p, q, n);
    CovarianceIsGap(p, p, n - 1);
    CovarianceIsGap(q, q, n - 1);
    CovarianceIsGap(p, q, n - 1);
    DistanceIsZero(p, p);
    DistanceIsZero(q, q);
  }

  lemma PearsonRatio(d: int, cov: int, v: int, m: int)
    requires 3 * v == m && m > 0 && cov == v - 2 * d
    ensures v > 0 && 1.0 - 6.0 * d as real / m as real == cov as real / v as real
  {
    var r := cov as real / v as real;
    assert r * v as real == cov as real;
    assert m as real == 3.0 * v as real;
    DivideCompare(6.0 * d as real, 1.0 - r, m as real);
  }

  // ----- Kendall

  /** The pair is ordered alike by both lists, or oppositely, strictly in both cases. */
  predicate Paired(a: seq<real>, b: seq<real>, alike: bool, i: nat, j: nat)
    requires |a| == |b| && i < |a| && j < |a|
  {
    if alike then (a[i] < a[j] && b[i] < b[j]) || (a[i] > a[j] && b[i] > b[j])
    else (a[i] < a[j] && b[i] > b[j]) || (a[i] > a[j] && b[i] < b[j])
  }

  /** Pairs scanned before the nested loops reach (i, j). */
  ghost function PairsUpTo(a: seq<real>, b: seq<real>, alike: bool, i: nat, j: nat): set<(nat, nat)>
    requires |a| == |b|
  {
    set k: nat, l: nat | k < l < |a| && (k < i || (k == i && l < j)) && Paired(a, b, alike, k, l) :: (k, l)
  }

  ghost function Pairs(a: seq<real>, b: seq<real>, alike: bool): set<(nat, nat)>
    requires |a| == |b|
  {
    set k: nat, l: nat | k < l < |a| && Paired(a, b, alike, k, l) :: (k, l)
  }

  lemma ScanOne(a: seq<real>, b: seq<real>, alike: bool, i: nat, j: nat)
    requires |a| == |b| && i < j < |a|
    ensures (i, j) !in PairsUpTo(a, b, alike, i, j)
    ensures PairsUpTo(a, b, alike, i, j + 1)
         == PairsUpTo(a, b, alike, i, j) + (if Paired(a, b, alike, i, j) then {(i, j)} else {})
  {
    var before, after := PairsUpTo(a, b, alike, i, j), PairsUpTo(a, b, alike, i, j + 1);
    forall p ensures p in after <==> p in before || (p == (i, j) && Paired(a, b, alike, i, j)) {
    }
  }

  lemma ScanPair(a: seq<real>, b: seq<real>, alike: bool, i: nat, j: nat)
    requires |a| == |b| && i < j < |a|
    ensures |PairsUpTo(a, b, alike, i, j + 1)|
         == |PairsUpTo(a, b, alike, i, j)| + (if Paired(a, b, alike, i, j) then 1 else 0)
  {
    ScanOne(a, b, alike, i, j);
    OneMore(PairsUpTo(a, b, alike, i, j), (i, j));
  }

  lemma OneMore(s: set<(nat, nat)>, p: (nat, nat))
    requires p !in s
    ensures |s + {p}| == |s| + 1 && s + {} == s
  {
  }

  lemma ScanRowEnd(a: seq<real>, b: seq<real>, alike: bool, i: nat)
    requires |a| == |b| && i < |a|
    ensures PairsUpTo(a, b, alike, i, |a|) == PairsUpTo(a, b, alike, i + 1, i + 2)
  {
  }

  lemma ScanEnds(a: seq<real>, b: seq<real>, alike: bool)
    requires |a| == |b|
    ensures |PairsUpTo(a, b, alike, 0, 1)| == 0
    ensures PairsUpTo(a, b, alike, |a|, |a| + 1) == Pairs(a, b, alike)
  {
    assert PairsUpTo(a, b, alike, 0, 1) == {};
  }

  lemma PairProduct(a: seq<real>, b: seq<real>, i: nat, j: nat)
    requires |a| == |b| && i < |a| && j < |a|
    ensures (a[i] - a[j]) * (b[i] - b[j]) > 0.0 <==> Paired(a, b, true, i, j)
    ensures (a[i] - a[j]) * (b[i] - b[j]) < 0.0 <==> Paired(a, b, false, i, j)
  {
    ProductSign(a[i] - a[j], b[i] - b[j]);
  }

  ghost function Kendall(a: seq<real>, b: seq<real>): real
    requires |a| == |b|
  {
    var c, d := |Pairs(a, b, true)|, |Pairs(a, b, false)|;
    if c + d == 0 then 1.0 else (c - d) as real / (c + d) as real
  }

  lemma ProductSign(x: real, y: real)
    ensures x * y > 0.0 <==> (x > 0.0 && y > 0.0) || (x < 0.0 && y < 0.0)
    ensures x * y < 0.0 <==> (x > 0.0 && y < 0.0) || (x < 0.0 && y > 0.0)
  {
  }

  method KendallTau(a: seq<real>, b: seq<real>) returns (tau: real)
    requires |a| == |b|
    ensures tau == Kendall(a, b)
    ensures var alike, opposed := |Agreements(a, b)|, |Inversions(a, b)|;
            if alike + opposed == 0 then tau == 1.0 else tau * (alike + opposed) as real == (alike - opposed) as real
  {
    var n := |a|;
    InversionsAreOpposed(a, b);
    var conc, disc := 0, 0;
    ScanEnds(a, b, true);
    ScanEnds(a, b, false);
    for i := 0 to n
      invariant conc == |PairsUpTo(a, b, true, i, i + 1)|
      invariant disc == |PairsUpTo(a, b, false, i, i + 1)|
    {
      for j := i + 1 to n
        invariant conc == |PairsUpTo(a, b, true, i, j)|
        invariant disc == |PairsUpTo(a, b, false, i, j)|
      {
        var s := (a[i] - a[j]) * (b[i] - b[j]);
        PairProduct(a, b, i, j);
        ScanPair(a, b, true, i, j);
        ScanPair(a, b, false, i, j);
        if s > 0.0 {
          conc := conc + 1;
        } else if s < 0.0 {
          disc := disc + 1;
        }
      }
      ScanRowEnd(a, b, true, i);
      ScanRowEnd(a, b, false, i);
    }
    var tot := conc + disc;
    assert tot != 0 ==> (conc - disc) as real / tot as real * tot as real == (conc - disc) as real;
    tau := if tot != 0 then (conc - disc) as real / tot as real else 1.0;
  }

  lemma FractionBounds(c: nat, d: nat)
    requires c + d > 0
    ensures -1.0 <= (c - d) as real / (c + d) as real <= 1.0
    ensures (c - d) as real / (c + d) as real == 1.0 <==> d == 0
    ensures (c - d) as real / (c + d) as real == -1.0 <==> c == 0
  {
    DivideCompare((c - d) as real, 1.0, (c + d) as real);
    DivideCompare((c - d) as real, -1.0, (c + d) as real);
  }

  /**
   Kendall's value is in [-1, 1] and symmetric; it is 1 exactly when no pair is ordered oppositely, and -1
   exactly when some pair is and none is ordered alike.
   */
  lemma KendallBounds(a: seq<real>, b: seq<real>)
    requires |a| == |b|
    ensures -1.0 <= Kendall(a, b) <= 1.0
    ensures Kendall(a, b) == Kendall(b, a)
    ensures Kendall(a, b) == 1.0 <==> forall i: nat, j: nat :: i < j < |a| ==> Product(a, b, i, j) >= 0.0
    ensures Kendall(a, b) == -1.0 <==>
            && (exists i: nat, j: nat :: i < j < |a| && Product(a, b, i, j) < 0.0)
            && (forall i: nat, j: nat :: i < j < |a| ==> Product(a, b, i, j) <= 0.0)
  {
    assert Pairs(a, b, true) == Pairs(b, a, true);
    assert Pairs(a, b, false) == Pairs(b, a, false);
    var cs, ds := Pairs(a, b, true), Pairs(a, b, false);
    if |cs| + |ds| > 0 {
      FractionBounds(|cs|, |ds|);
    }
    NoPairs(a, b);
  }

  /** Positive when the pair is ordered alike by both lists, negative when oppositely. */
  function Product(a: seq<real>, b: seq<real>, i: nat, j: nat): real
    requires |a| == |b| && i < |a| && j < |a|
  {
    (a[i] - a[j]) * (b[i] - b[j])
  }

  lemma NoPairs(a: seq<real>, b: seq<real>)
    requires |a| == |b|
    ensures |Pairs(a, b, true)| == 0 <==> forall i: nat, j: nat :: i < j < |a| ==> Product(a, b, i, j) <= 0.0
    ensures |Pairs(a, b, false)| == 0 <==> forall i: nat, j: nat :: i < j < |a| ==> Product(a, b, i, j) >= 0.0
  {
    var cs, ds := Pairs(a, b, true), Pairs(a, b, false);
    forall i: nat, j: nat | i < j < |a|
      ensures (i, j) in cs <==> Product(a, b, i, j) > 0.0
      ensures (i, j) in ds <==> Product(a, b, i, j) < 0.0
    {
      PairProduct(a, b, i, j);
    }
    if |cs| != 0 {
      var p :| p in cs;
      assert Product(a, b, p.0, p.1) > 0.0;
    }
    if |ds| != 0 {
      var p :| p in ds;
      assert Product(a, b, p.0, p.1) < 0.0;
    }
  }

  lemma KendallOne(a: seq<real>, b: seq<real>)
    requires |a| == |b|
    ensures Kendall(a, b) == 1.0 <==> forall i: nat, j: nat :: i < j < |a| ==> !Paired(a, b, false, i, j)
  {
    KendallBounds(a, b);
    forall i: nat, j: nat | i < j < |a| ensures Paired(a, b, false, i, j) <==> Product(a, b, i, j) < 0.0 {
      PairProduct(a, b, i, j);
    }
  }

  function Negated(a: seq<real>): (r: seq<real>)
    ensures |r| == |a|
  {
    seq(|a|, i requires 0 <= i < |a| => -a[i])
  }

  /** Reversing one list changes the sign, whenever some pair is strictly ordered in both. */
  lemma KendallNegates(a: seq<real>, b: seq<real>)
    requires |a| == |b|
    requires exists i: nat, j: nat :: i < j < |a| && a[i] != a[j] && b[i] != b[j]
    ensures Kendall(a, Negated(b)) == -Kendall(a, b)
  {
    assert Pairs(a, Negated(b), true) == Pairs(a, b, false);
    assert Pairs(a, Negated(b), false) == Pairs(a, b, true);
    var i: nat, j: nat :| i < j < |a| && a[i] != a[j] && b[i] != b[j];
    assert (i, j) in Pairs(a, b, true) || (i, j) in Pairs(a, b, false);
    NegateFraction(|Pairs(a, b, true)|, |Pairs(a, b, false)|);
  }

  lemma NegateFraction(c: nat, d: nat)
    requires c + d > 0
    ensures (d - c) as real / (d + c) as real == -((c - d) as real / (c + d) as real)
  {
    assert (d - c) as real == -((c - d) as real);
  }

  // ----- the value on lists without ties

  ghost function AllPairs(n: nat): set<(nat, nat)> {
    set i: nat, j: nat | i < j < n :: (i, j)
  }

  lemma {:induction false} RowCard(k: nat, j: nat)
    ensures |set i: nat | i < k :: (i, j)| == k
  {
    if k > 0 {
      RowCard(k - 1, j);
      var row := set i: nat | i < k - 1 :: (i, j);
      assert (set i: nat | i < k :: (i, j)) == row + {(k - 1, j)};
    }
  }

  lemma {:induction false} PairCount(n: nat)
    ensures 2 * |AllPairs(n)| == n * (n - 1)
  {
    if n == 0 {
      assert AllPairs(0) == {};
    } else {
      var m := n - 1;
      PairCount(m);
      RowCard(m, m);
      var row := set i: nat | i < m :: (i, m);
      assert AllPairs(n) == AllPairs(m) + row && AllPairs(m) !! row;
      Triangle(m);
    }
  }

  lemma Triangle(m: int)
    ensures m * (m - 1) + 2 * m == (m + 1) * m
  {
  }

  /** Pairs that the two lists order oppositely. */
  ghost function Inversions(a: seq<real>, b: seq<real>): set<(nat, nat)>
    requires |a| == |b|
  {
    set i: nat, j: nat | i < j < |a| && Product(a, b, i, j) < 0.0 :: (i, j)
  }

  /** Pairs that the two lists order alike. */
  ghost function Agreements(a: seq<real>, b: seq<real>): set<(nat, nat)>
    requires |a| == |b|
  {
    set i: nat, j: nat | i < j < |a| && Product(a, b, i, j) > 0.0 :: (i, j)
  }

  lemma InversionsAreOpposed(a: seq<real>, b: seq<real>)
    requires |a| == |b|
    ensures Inversions(a, b) == Pairs(a, b, false) && Agreements(a, b) == Pairs(a, b, true)
  {
    forall i: nat, j: nat | i < j < |a|
      ensures (i, j) in Inversions(a, b) <==> (i, j) in Pairs(a, b, false)
      ensures (i, j) in Agreements(a, b) <==> (i, j) in Pairs(a, b, true)
    {
      PairProduct(a, b, i, j);
    }
  }

  lemma PairsWithoutTies(a: seq<real>, b: seq<real>)
    requires |a| == |b| && NoTies(a) && NoTies(b)
    ensures |Pairs(a, b, true)| + |Pairs(a, b, false)| == |AllPairs(|a|)|
  {
    var cs, ds := Pairs(a, b, true), Pairs(a, b, false);
    forall i: nat, j: nat | i < j < |a| ensures ((i, j) in cs || (i, j) in ds) && !((i, j) in cs && (i, j) in ds) {
      assert a[i] != a[j] && b[i] != b[j];
    }
    assert cs + ds == AllPairs(|a|) && cs !! ds;
  }

  /** Without ties Kendall's value is 1 - 4 * inversions / (n(n - 1)). */
  lemma KendallCountsInversions(a: seq<real>, b: seq<real>)
    requires |a| == |b| && |a| >= 2 && NoTies(a) && NoTies(b)
    ensures var n := |a|; Kendall(a, b) == 1.0 - 4.0 * (|Inversions(a, b)| as real / (n * (n - 1)) as real)
  {
    InversionsAreOpposed(a, b);
    PairsWithoutTies(a, b);
    PairCount(|a|);
    InversionFraction(|Pairs(a, b, true)|, |Pairs(a, b, false)|, |a| * (|a| - 1));
  }

  lemma InversionFraction(c: nat, d: nat, m: int)
    requires 2 * (c + d) == m && (c + d > 0 || m > 0)
    ensures c + d > 0 && m > 0
    ensures (c - d) as real / (c + d) as real == 1.0 - 4.0 * (d as real / m as real)
  {
    var t, q := (c + d) as real, d as real / m as real;
    assert m as real == 2.0 * t && q * (2.0 * t) == d as real;
    assert (1.0 - 4.0 * q) * t == t - 2.0 * (q * (2.0 * t));
    DivideCompare((c - d) as real, 1.0 - 4.0 * q, t);
  }

  ghost predicate NoTies(a: seq<real>) {
    forall i: nat, j: nat :: i < j < |a| ==> a[i] != a[j]
  }

  /**
   Equal ranks always force Kendall 1. The converse needs that no pair is tied in one list
   and ascending in the other: together with Kendall 1 that is exactly equal ranks.
   */
  lemma SpearmanOneIffKendallOne(a: seq<real>, b: seq<real>)
    requires |a| == |b| && |a| >= 2
    ensures Spearman(a, b) == 1.0 <==>
            Kendall(a, b) == 1.0 &&
            forall i: nat, j: nat :: i < j < |a| ==> !(a[i] == a[j] && b[i] < b[j]) && !(b[i] == b[j] && a[i] < a[j])
    ensures NoTies(a) && NoTies(b) ==> (Spearman(a, b) == 1.0 <==> Kendall(a, b) == 1.0)
  {
    SpearmanBounds(a, b);
    SameOrderIsSameRanks(a, b);
    KendallOne(a, b);
    var tieSafe := forall i: nat, j: nat :: i < j < |a| ==>
      !(a[i] == a[j] && b[i] < b[j]) && !(b[i] == b[j] && a[i] < a[j]);
    if SameOrder(a, b) {
      forall i: nat, j: nat | i < j < |a|
        ensures !Paired(a, b, false, i, j) && !(a[i] == a[j] && b[i] < b[j]) && !(b[i] == b[j] && a[i] < a[j])
      {
        assert a[i] >= a[j] <==> b[i] >= b[j];
      }
    }
    if tieSafe && Kendall(a, b) == 1.0 {
      forall i: nat, j: nat | i < j < |a| ensures a[i] >= a[j] <==> b[i] >= b[j] {
        assert !Paired(a, b, false, i, j);
      }
    }
  }

  /** With a tie the two statistics can disagree completely. */
  lemma TiesSeparateTheStatistics()
    ensures Kendall([1.0, 1.0], [1.0, 2.0]) == 1.0
    ensures Spearman([1.0, 1.0], [1.0, 2.0]) == -1.0
  {
    var a, b := [1.0, 1.0], [1.0, 2.0];
    KendallBounds(a, b);
    SpearmanBounds(a, b);
    assert Predecessors(a, 0) == {} && Predecessors(a, 1) == {0};
    assert Predecessors(b, 0) == {1} && Predecessors(b, 1) == {};
  }

  /** Two lists that order every pair alike, ties included. */
  ghost predicate OrderIsomorphic(a: seq<real>, a': seq<real>) {
    |a| == |a'| && forall i: nat, j: nat :: i < |a| && j < |a| ==> (a[i] < a[j] <==> a'[i] < a'[j])
  }

  function MapReal(f: real -> real, a: seq<real>): (r: seq<real>)
    ensures |r| == |a|
  {
    seq(|a|, i requires 0 <= i < |a| => f(a[i]))
  }

  ghost predicate StrictlyIncreasing(f: real -> real) {
    forall x, y :: x < y ==> f(x) < f(y)
  }

  /** Both statistics see only the order of the scores. */
  lemma OnlyOrderMatters(a: seq<real>, a': seq<real>, b: seq<real>, b': seq<real>)
    requires |a| == |b| && OrderIsomorphic(a, a') && OrderIsomorphic(b, b')
    ensures Spearman(a, b) == Spearman(a', b')
    ensures Kendall(a, b) == Kendall(a', b')
  {
    forall i: nat | i < |a| ensures RankVector(a)[i] == RankVector(a')[i] {
      assert Predecessors(a, i) == Predecessors(a', i);
    }
    forall i: nat | i < |b| ensures RankVector(b)[i] == RankVector(b')[i] {
      assert Predecessors(b, i) == Predecessors(b', i);
    }
    assert RankVector(a) == RankVector(a') && RankVector(b) == RankVector(b');
    assert Pairs(a, b, true) == Pairs(a', b', true);
    assert Pairs(a, b, false) == Pairs(a', b', false);
  }

  /** Rescaling either list by a strictly increasing function changes neither statistic. */
  lemma MonotoneInvariance(f: real -> real, g: real -> real, a: seq<real>, b: seq<real>)
    requires |a| == |b| && StrictlyIncreasing(f) && StrictlyIncreasing(g)
    ensures Spearman(MapReal(f, a), MapReal(g, b)) == Spearman(a, b)
    ensures Kendall(MapReal(f, a), MapReal(g, b)) == Kendall(a, b)
  {
    MappedIsomorphic(f, a);
    MappedIsomorphic(g, b);
    OnlyOrderMatters(a, MapReal(f, a), b, MapReal(g, b));
  }

  lemma MappedIsomorphic(f: real -> real, a: seq<real>)
    requires StrictlyIncreasing(f)
    ensures OrderIsomorphic(a, MapReal(f, a))
  {
    forall i: nat, j: nat | i < |a| && j < |a|
      ensures a[i] < a[j] <==> f(a[i]) < f(a[j])
    {
      if a[i] > a[j] { assert f(a[j]) < f(a[i]); }
    }
  }

  // ----- top-k overlap

  function Max(a: nat, b: nat): nat { if a < b then b else a }

  /** `set(order[:k])`. */
  function TopSet(xs: seq<real>, k: nat): set<nat> {
    set i | i in OrderOf(xs, |xs|)[..Min(k, |xs|)]
  }

  function TopkOverlap(a: seq<real>, b: seq<real>, k: nat): real
    requires |a| == |b|
  {
    |TopSet(a, k) * TopSet(b, k)| as real / Max(1, Min(k, |a|)) as real
  }

  /** The top set holds exactly the candidates of rank below k. */
  lemma TopSetIsLowRanks(xs: seq<real>, k: nat)
    ensures forall i: nat :: i in TopSet(xs, k) <==> i < |xs| && RankOf(xs, i) < k
    ensures |TopSet(xs, k)| == Min(k, |xs|)
    ensures forall i, j: nat :: i in TopSet(xs, k) && j < |xs| && j !in TopSet(xs, k) ==>
              xs[i] > xs[j] || (xs[i] == xs[j] && i < j)
  {
    var order, m := OrderOf(xs, |xs|), Min(k, |xs|);
    OrderIsDistinct(xs);
    DistinctCard(order[..m]);
    assert TopSet(xs, k) == Elements(order[..m]);
    forall i: nat | i < |xs| ensures i in TopSet(xs, k) <==> RankOf(xs, i) < k {
      OrderIsOnto(xs);
      assert i in Elements(order);
      var p :| 0 <= p < |order| && order[p] == i;
      RankAtPosition(xs, p);
      InPrefix(order, m, p);
    }
    forall i, j: nat | i in TopSet(xs, k) && j < |xs| && j !in TopSet(xs, k)
      ensures xs[i] > xs[j] || (xs[i] == xs[j] && i < j)
    {
      RankOrder(xs, i, j);
    }
  }

  lemma InPrefix(order: seq<nat>, m: nat, p: nat)
    requires Distinct(order) && m <= |order| && p < |order|
    ensures order[p] in order[..m] <==> p < m
  {
    if p < m { assert order[..m][p] == order[p]; }
  }

  /**
   Overlap is symmetric and in [0, 1]; it is 1 exactly when the two top sets coincide and are not empty.
   Equal rankings give 1 if and only if the top is not empty, and 0 otherwise: on empty lists the two rank
   statistics are 1. At least 2k - n candidates are shared.
   */
  lemma OverlapBounds(a: seq<real>, b: seq<real>, k: nat)
    requires |a| == |b|
    ensures TopkOverlap(a, b, k) == TopkOverlap(b, a, k)
    ensures 0.0 <= TopkOverlap(a, b, k) <= 1.0
    ensures TopkOverlap(a, b, k) == 1.0 <==> k >= 1 && |a| >= 1 && TopSet(a, k) == TopSet(b, k)
    ensures RankVector(a) == RankVector(b) ==> (TopkOverlap(a, b, k) == 1.0 <==> k >= 1 && |a| >= 1)
    ensures k == 0 || |a| == 0 ==> TopkOverlap(a, b, k) == 0.0
    ensures |a| == 0 ==> Spearman(a, b) == Kendall(a, b) == 1.0
    ensures k <= |a| ==> |TopSet(a, k) * TopSet(b, k)| >= 2 * k - |a|
  {
    var s, t, n := TopSet(a, k), TopSet(b, k), |a|;
    SharedTop(a, b, k);
    OverlapFraction(|s * t|, Max(1, Min(k, n)));
    assert s * t == t * s;
    if RankVector(a) == RankVector(b) {
      SameRanksSameTop(a, b, k);
    }
    if n == 0 {
      KendallBounds(a, b);
    }
  }

  /** The overlap of a nonempty top is one less the share that only the first list ranks there. */
  lemma OverlapIsShare(a: seq<real>, b: seq<real>, k: nat)
    requires |a| == |b| && k >= 1 && |a| >= 1
    ensures TopkOverlap(a, b, k) == 1.0 - |TopSet(a, k) - TopSet(b, k)| as real / Min(k, |a|) as real
  {
    var s, t := TopSet(a, k), TopSet(b, k);
    TopSetIsLowRanks(a, k);
    assert s == s * t + (s - t);
    assert |s| == |s * t| + |s - t|;
    Complement(|s * t|, |s - t|, Min(k, |a|));
  }

  lemma Complement(x: nat, y: nat, m: nat)
    requires x + y == m && m >= 1
    ensures x as real / m as real == 1.0 - y as real / m as real
  {
    DivideCompare(x as real, 1.0 - y as real / m as real, m as real);
    DivideCompare(y as real, y as real / m as real, m as real);
  }

  /** Inclusion and exclusion for the two top sets. */
  lemma SharedTop(a: seq<real>, b: seq<real>, k: nat)
    requires |a| == |b|
    ensures var s, t := TopSet(a, k), TopSet(b, k);
            && |s * t| <= Min(k, |a|) && (|s * t| == Min(k, |a|) <==> s == t)
            && |s * t| >= 2 * Min(k, |a|) - |a|
  {
    var s, t := TopSet(a, k), TopSet(b, k);
    TopSetIsLowRanks(a, k);
    TopSetIsLowRanks(b, k);
    SubsetCard(s * t, s);
    SubsetCard(s * t, t);
    SubsetCard(s + t, Below(|a|));
    assert |s + t| + |s * t| == |s| + |t|;
    if s == t { assert s * t == s; }
  }

  lemma SameRanksSameTop(a: seq<real>, b: seq<real>, k: nat)
    requires |a| == |b| && RankVector(a) == RankVector(b)
    ensures TopSet(a, k) == TopSet(b, k)
  {
    TopSetIsLowRanks(a, k);
    TopSetIsLowRanks(b, k);
    forall i: nat | i < |a| ensures RankOf(a, i) == RankOf(b, i) {
      assert RankVector(a)[i] == RankVector(b)[i];
    }
  }

  lemma OverlapFraction(x: nat, den: nat)
    requires den >= 1 && x <= den
    ensures 0.0 <= x as real / den as real <= 1.0
    ensures x as real / den as real == 1.0 <==> x == den
    ensures x == 0 ==> x as real / den as real == 0.0
  {
  }
}

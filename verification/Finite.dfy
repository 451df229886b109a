/** Facts about finite sets, sequences and division. */
module Finite {

  datatype Option<+T> = None | Some(value: T)

  lemma {:induction false} SubsetCard<T>(a: set<T>, b: set<T>)
    requires a <= b
    ensures |a| <= |b|
    ensures |a| == |b| ==> a == b
    decreases b
  {
    if a != {} {
      var x :| x in a;
      SubsetCard(a - {x}, b - {x});
      assert a == (a - {x}) + {x} && b == (b - {x}) + {x};
    }
  }

  function Min(a: nat, b: nat): nat { if a < b then a else b }

  ghost function Below(n: nat): (s: set<nat>)
    ensures forall x: nat :: x in s <==> x < n
    ensures |s| == n
  {
    if n == 0 then {} else Below(n - 1) + {n - 1}
  }

  ghost function Elements<T>(s: seq<T>): set<T> {
    set x | x in s
  }

  ghost predicate Distinct<T>(s: seq<T>) {
    forall i, j :: 0 <= i < j < |s| ==> s[i] != s[j]
  }

  lemma {:induction false} DistinctCard<T>(s: seq<T>)
    requires Distinct(s)
    ensures |Elements(s)| == |s|
  {
    if s != [] {
      var t, x := s[..|s| - 1], s[|s| - 1];
      DistinctCard(t);
      assert s == t + [x];
      assert x !in Elements(t);
      assert Elements(s) == Elements(t) + {x};
    }
  }

  lemma ElementsSnoc<T>(s: seq<T>, x: T)
    ensures Elements(s + [x]) == Elements(s) + {x}
  {
  }

  lemma DistinctConcat<T>(a: seq<T>, b: seq<T>)
    requires Distinct(a) && Distinct(b) && Elements(a) !! Elements(b)
    ensures Distinct(a + b) && Elements(a + b) == Elements(a) + Elements(b)
  {
    forall i, j | 0 <= i < |a| && 0 <= j < |b| ensures a[i] != b[j] {
      assert a[i] in Elements(a) && b[j] in Elements(b);
    }
  }

  /** A distinct sequence splits into a distinct front and a new last element. */
  lemma DistinctLast<T>(s: seq<T>) returns (front: seq<T>, x: T)
    requires Distinct(s) && s != []
    ensures front == s[..|s| - 1] && x == s[|s| - 1] && s == front + [x]
    ensures Distinct(front) && x !in Elements(front) && Elements(s) == Elements(front) + {x}
  {
    front, x := s[..|s| - 1], s[|s| - 1];
  }

  /** In a permutation of a nonempty list the last element has a place, and the rest are permuted too. */
  lemma MatchLast<T>(a: seq<T>, b: seq<T>) returns (front: seq<T>, last: T, k: nat)
    requires multiset(a) == multiset(b) && a != []
    ensures a == front + [last] && front == a[..|a| - 1] && k < |b| && b[k] == last
    ensures multiset(front) == multiset(b[..k] + b[k + 1..])
  {
    front, last := a[..|a| - 1], a[|a| - 1];
    assert a == front + [last];
    assert last in multiset(b);
    k :| 0 <= k < |b| && b[k] == last;
    assert b == b[..k] + [last] + b[k + 1..];
    BagCancel(multiset(front), multiset(b[..k] + b[k + 1..]), multiset{last});
  }

  lemma BagCancel<T>(x: multiset<T>, y: multiset<T>, z: multiset<T>)
    requires x + z == y + z
    ensures x == y
  {
    assert x == (x + z) - z && y == (y + z) - z;
  }

  lemma BagSwap<T>(x: multiset<T>, y: multiset<T>, z: multiset<T>)
    ensures x + y + z == x + z + y
  {
  }

  /** A sequence longer than the set its elements come from repeats an element. */
  lemma Pigeonhole<T>(s: seq<T>, u: set<T>) returns (i: nat, j: nat)
    requires Elements(s) <= u && |s| > |u|
    ensures i < j < |s| && s[i] == s[j]
  {
    if Distinct(s) {
      DistinctCard(s);
      SubsetCard(Elements(s), u);
      assert false;
    }
    i, j :| 0 <= i < j < |s| && s[i] == s[j];
  }

  // ----- division

  lemma ModUnique(a: nat, n: nat, q: nat, r: nat)
    requires n > 0 && r < n && a == n * q + r
    ensures a / n == q && a % n == r
  {
    var q', r' := a / n, a % n;
    assert a == n * q' + r';
    if q' < q {
      Multiples(n, q', q);
    } else if q < q' {
      Multiples(n, q, q');
    }
  }

  lemma Multiples(n: nat, x: nat, y: nat)
    requires x < y
    ensures n * x + n <= n * y
  {
    var d: nat := y - x - 1;
    ProductIsNat(n, d);
    assert n * (x + 1 + d) == n * x + n + n * d;
  }

  lemma ProductIsNat(n: nat, d: nat)
    ensures n * d >= 0
  {
  }
}

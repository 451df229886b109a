/** Code-point order on strings, sorted lists of ids, and entry lists sorted by key. */
module Lex {
  import opened Finite

  predicate Less(a: string, b: string) {
    if b == [] then false
    else if a == [] then true
    else a[0] < b[0] || (a[0] == b[0] && Less(a[1..], b[1..]))
  }

  /** The strings first differ at k, where a has the smaller character. */
  ghost predicate SmallerAt(a: string, b: string, k: nat) {
    k < |a| && k < |b| && a[k] < b[k] && forall i :: 0 <= i < k ==> a[i] == b[i]
  }

  /** Code-point order: a proper prefix, or a smaller character at the first difference. */
  ghost predicate Precedes(a: string, b: string) {
    (|a| < |b| && forall i :: 0 <= i < |a| ==> a[i] == b[i]) || exists k: nat :: SmallerAt(a, b, k)
  }

  lemma {:induction false} LessThenPrecedes(a: string, b: string)
    requires Less(a, b)
    ensures Precedes(a, b)
  {
    if a != [] {
      if a[0] < b[0] {
        assert SmallerAt(a, b, 0);
      } else {
        LessThenPrecedes(a[1..], b[1..]);
        if k: nat :| SmallerAt(a[1..], b[1..], k) {
          assert SmallerAt(a, b, k + 1);
        } else {
          forall i | 0 <= i < |a| ensures a[i] == b[i] {
            assert i == 0 || a[1..][i - 1] == b[1..][i - 1];
          }
        }
      }
    }
  }

  lemma {:induction false} PrecedesThenLess(a: string, b: string)
    requires Precedes(a, b)
    ensures Less(a, b)
  {
    if a != [] && a[0] == b[0] {
      if k: nat :| SmallerAt(a, b, k) {
        assert k > 0 && SmallerAt(a[1..], b[1..], k - 1);
      }
      PrecedesThenLess(a[1..], b[1..]);
    }
  }

  /** The recursive comparison is code-point order. */
  lemma LessIsPrecedes(a: string, b: string)
    ensures Less(a, b) <==> Precedes(a, b)
  {
    if Less(a, b) { LessThenPrecedes(a, b); }
    if Precedes(a, b) { PrecedesThenLess(a, b); }
  }

  lemma {:induction false} Trichotomy(a: string, b: string)
    ensures a == b || Less(a, b) || Less(b, a)
    ensures !(Less(a, b) && Less(b, a)) && !Less(a, a)
  {
    if a != [] {
      Trichotomy(a[1..], if b == [] then [] else b[1..]);
      if b != [] && a[1..] == b[1..] && a[0] == b[0] {
        assert a == [a[0]] + a[1..] && b == [b[0]] + b[1..];
      }
    }
  }

  lemma {:induction false} Transitive(a: string, b: string, c: string)
    requires Less(a, b) && Less(b, c)
    ensures Less(a, c)
  {
    if a != [] && a[0] == b[0] == c[0] {
      Transitive(a[1..], b[1..], c[1..]);
    }
  }

  // ----- entries sorted by key

  datatype Entry<+V> = Entry(key: string, value: V)

  ghost predicate DistinctKeys<V>(es: seq<Entry<V>>) {
    forall i, j :: 0 <= i < j < |es| ==> es[i].key != es[j].key
  }

  ghost predicate Ascending<V>(es: seq<Entry<V>>) {
    forall i, j :: 0 <= i < j < |es| ==> Less(es[i].key, es[j].key)
  }

  function InsertEntry<V>(e: Entry<V>, es: seq<Entry<V>>): (r: seq<Entry<V>>)
    ensures |r| == |es| + 1
  {
    if es == [] || Less(e.key, es[0].key) then [e] + es
    else [es[0]] + InsertEntry(e, es[1..])
  }

  /** `sorted(d.items())` of a dictionary given by its items in insertion order. */
  function SortEntries<V>(es: seq<Entry<V>>): (r: seq<Entry<V>>)
    ensures |r| == |es|
  {
    if es == [] then [] else InsertEntry(es[0], SortEntries(es[1..]))
  }

  lemma {:induction false} InsertMember<V>(e: Entry<V>, es: seq<Entry<V>>, x: Entry<V>)
    ensures x in InsertEntry(e, es) <==> x == e || x in es
  {
    if es != [] && !Less(e.key, es[0].key) {
      InsertMember(e, es[1..], x);
      assert es == [es[0]] + es[1..];
    }
  }

  /** Sorting keeps exactly the items. */
  lemma {:induction false} SortMember<V>(es: seq<Entry<V>>, x: Entry<V>)
    ensures x in SortEntries(es) <==> x in es
  {
    if es != [] {
      SortMember(es[1..], x);
      InsertMember(es[0], SortEntries(es[1..]), x);
      assert es == [es[0]] + es[1..];
    }
  }

  lemma {:induction false} InsertAscending<V>(e: Entry<V>, es: seq<Entry<V>>)
    requires Ascending(es) && forall i :: 0 <= i < |es| ==> es[i].key != e.key
    ensures Ascending(InsertEntry(e, es))
  {
    if es != [] && !Less(e.key, es[0].key) {
      var rest := InsertEntry(e, es[1..]);
      InsertAscending(e, es[1..]);
      Trichotomy(e.key, es[0].key);
      forall j | 0 <= j < |rest| ensures Less(es[0].key, rest[j].key) {
        InsertMember(e, es[1..], rest[j]);
        if rest[j] != e {
          var k :| 0 <= k < |es[1..]| && es[1..][k] == rest[j];
          assert Less(es[0].key, es[k + 1].key);
        }
      }
    } else if es != [] {
      forall j | 0 <= j < |es| ensures Less(e.key, es[j].key) {
        if j > 0 { Transitive(e.key, es[0].key, es[j].key); }
      }
    }
  }

  lemma {:induction false} SortAscending<V>(es: seq<Entry<V>>)
    requires DistinctKeys(es)
    ensures Ascending(SortEntries(es))
  {
    if es != [] {
      var rest := SortEntries(es[1..]);
      SortAscending(es[1..]);
      forall i | 0 <= i < |rest| ensures rest[i].key != es[0].key {
        SortMember(es[1..], rest[i]);
        var k :| 0 <= k < |es[1..]| && es[1..][k] == rest[i];
        assert es[k + 1].key != es[0].key;
      }
      InsertAscending(es[0], rest);
    }
  }

  lemma AscendingHead<V>(s: seq<Entry<V>>, t: seq<Entry<V>>)
    requires Ascending(s) && Ascending(t) && s != [] && t != []
    requires s[0] in t && t[0] in s
    ensures s[0] == t[0]
  {
    var j :| 0 <= j < |t| && t[j] == s[0];
    var i :| 0 <= i < |s| && s[i] == t[0];
    Trichotomy(s[0].key, t[0].key);
    assert i > 0 ==> Less(s[0].key, s[i].key);
  }

  lemma AscendingTail<V>(s: seq<Entry<V>>, x: Entry<V>)
    requires Ascending(s) && s != []
    ensures x in s[1..] <==> x in s && x != s[0]
  {
    assert s == [s[0]] + s[1..];
    if x in s[1..] {
      var k :| 0 <= k < |s[1..]| && s[1..][k] == x;
      assert Less(s[0].key, s[k + 1].key);
      Trichotomy(s[0].key, s[0].key);
    }
  }

  /** Ascending lists with the same elements are equal. */
  lemma {:induction false} AscendingUnique<V>(s: seq<Entry<V>>, t: seq<Entry<V>>)
    requires Ascending(s) && Ascending(t) && forall x :: x in s <==> x in t
    ensures s == t
  {
    var head := if t == [] then None else Some(t[0]);
    assert head.Some? ==> head.value in t;
    if s != [] {
      assert s[0] in s;
      assert t != [] && t[0] in t;
      AscendingHead(s, t);
      forall x ensures x in s[1..] <==> x in t[1..] {
        AscendingTail(s, x);
        AscendingTail(t, x);
      }
      AscendingUnique(s[1..], t[1..]);
      assert s == [s[0]] + s[1..] && t == [t[0]] + t[1..];
    }
  }

  /** An ascending list of the same items is the sorted one. */
  lemma SortIs<V>(s: seq<Entry<V>>, t: seq<Entry<V>>)
    requires DistinctKeys(s) && Ascending(t) && forall x :: x in s <==> x in t
    ensures SortEntries(s) == t
  {
    SortAscending(s);
    forall x ensures x in SortEntries(s) <==> x in t {
      SortMember(s, x);
    }
    AscendingUnique(SortEntries(s), t);
  }

  /** The sorted items do not depend on the insertion order of a dictionary. */
  lemma SortIgnoresOrder<V>(s: seq<Entry<V>>, t: seq<Entry<V>>)
    requires DistinctKeys(s) && DistinctKeys(t) && forall x :: x in s <==> x in t
    ensures SortEntries(s) == SortEntries(t)
  {
    SortAscending(s);
    SortAscending(t);
    forall x ensures x in SortEntries(s) <==> x in SortEntries(t) {
      SortMember(s, x);
      SortMember(t, x);
    }
    AscendingUnique(SortEntries(s), SortEntries(t));
  }

  /** Lookup in a dictionary given by its items. */
  function Lookup<V>(es: seq<Entry<V>>, key: string): (r: Option<V>)
    ensures r.Some? ==> Entry(key, r.value) in es
    ensures r.None? ==> forall i :: 0 <= i < |es| ==> es[i].key != key
  {
    if es == [] then None
    else if es[0].key == key then Some(es[0].value)
    else Lookup(es[1..], key)
  }

  // ----- sorted ids

  ghost predicate Increasing(s: seq<string>) {
    forall i, j :: 0 <= i < j < |s| ==> Less(s[i], s[j])
  }

  predicate IsMin(ids: set<string>, m: string) {
    m in ids && forall x :: x in ids ==> x == m || Less(m, x)
  }

  lemma {:induction false} MinExists(ids: set<string>) returns (m: string)
    requires ids != {}
    ensures IsMin(ids, m)
    decreases ids
  {
    var x :| x in ids;
    if ids == {x} {
      m := x;
    } else {
      var rest := MinExists(ids - {x});
      Trichotomy(rest, x);
      m := if Less(x, rest) then x else rest;
      forall y | y in ids ensures y == m || Less(m, y) {
        if y != x && y != rest && Less(x, rest) { Transitive(x, rest, y); }
      }
    }
  }

  function Least(ids: set<string>): (m: string)
    requires ids != {}
    ensures IsMin(ids, m)
  {
    MinWitness(ids);
    MinUnique(ids);
    var m :| m in ids && IsMin(ids, m);
    m
  }

  lemma MinUnique(ids: set<string>)
    ensures forall m, m' :: IsMin(ids, m) && IsMin(ids, m') ==> m == m'
  {
    forall m, m' | IsMin(ids, m) && IsMin(ids, m') ensures m == m' {
      Trichotomy(m, m');
    }
  }

  lemma MinWitness(ids: set<string>)
    requires ids != {}
    ensures exists m :: IsMin(ids, m)
  {
    var m := MinExists(ids);
  }

  /** `ORDER BY id` over a finite set of ids. */
  function Sorted(ids: set<string>): (r: seq<string>)
    ensures |r| == |ids| && forall x :: x in r <==> x in ids
    decreases ids
  {
    if ids == {} then [] else [Least(ids)] + Sorted(ids - {Least(ids)})
  }

  lemma {:induction false} SortedIncreasing(ids: set<string>)
    ensures Increasing(Sorted(ids))
    decreases ids
  {
    if ids != {} {
      var m := Least(ids);
      var rest := Sorted(ids - {m});
      SortedIncreasing(ids - {m});
      forall j | 0 <= j < |rest| ensures Less(m, rest[j]) {
        assert rest[j] in rest;
      }
    }
  }
}

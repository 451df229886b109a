/**
 The two-pass picker inside `build` of scripts/chat_baseline.py: one candidate per document
 first, then any others, up to `per_corpus`.
 */
module Picker {
  import opened Finite

  datatype Candidate = Candidate(doc: string, parent: string, term: string)

  ghost function Docs(xs: seq<Candidate>): set<string> { set x | x in xs :: x.doc }

  /** The quota the loops actually stop at: the first append happens before the first test. */
  function Quota(perCorpus: int): nat { if perCorpus < 1 then 1 else perCorpus }

  function Take(xs: seq<Candidate>, n: nat): seq<Candidate> { if |xs| <= n then xs else xs[..n] }

  /** The first candidate of each document, in order. */
  ghost function Openers(cands: seq<Candidate>): seq<Candidate> {
    if cands == [] then []
    else
      var front, x := cands[..|cands| - 1], cands[|cands| - 1];
      Openers(front) + if x.doc in Docs(front) then [] else [x]
  }

  /** The other candidates, each once, in order. */
  ghost function Others(cands: seq<Candidate>, openers: set<Candidate>): seq<Candidate> {
    if cands == [] then []
    else
      var front, x := cands[..|cands| - 1], cands[|cands| - 1];
      Others(front, openers) + if x in openers || x in front then [] else [x]
  }

  /** The order in which candidates are taken. */
  ghost function Ranked(cands: seq<Candidate>): seq<Candidate> {
    Openers(cands) + Others(cands, Elements(Openers(cands)))
  }

  lemma DocsSnoc(xs: seq<Candidate>, x: Candidate)
    ensures Docs(xs + [x]) == Docs(xs) + {x.doc}
  {
    assert forall y :: y in xs + [x] <==> y in xs || y == x;
    assert x in xs + [x];
  }

  lemma OpenersSnoc(cands: seq<Candidate>, x: Candidate)
    ensures Openers(cands + [x]) == Openers(cands) + if x.doc in Docs(cands) then [] else [x]
    ensures Openers(cands) <= Openers(cands + [x])
  {
    assert (cands + [x])[..|cands|] == cands;
  }

  lemma OthersSnoc(cands: seq<Candidate>, x: Candidate, openers: set<Candidate>)
    ensures Others(cands + [x], openers) == Others(cands, openers) + if x in openers || x in cands then [] else [x]
    ensures Others(cands, openers) <= Others(cands + [x], openers)
  {
    assert (cands + [x])[..|cands|] == cands;
  }

  lemma {:induction false} OpenersPrefix(cands: seq<Candidate>, i: nat)
    requires i <= |cands|
    ensures Openers(cands[..i]) <= Openers(cands)
    decreases |cands| - i
  {
    if i == |cands| {
      assert cands[..i] == cands;
    } else {
      OpenersPrefix(cands, i + 1);
      OpenersSnoc(cands[..i], cands[i]);
      assert cands[..i] + [cands[i]] == cands[..i + 1];
    }
  }

  lemma OpenersNext(cands: seq<Candidate>, i: nat)
    requires i < |cands|
    ensures Docs(cands[..i + 1]) == Docs(cands[..i]) + {cands[i].doc}
    ensures Openers(cands[..i + 1]) == if cands[i].doc in Docs(cands[..i]) then Openers(cands[..i])
                                       else Openers(cands[..i]) + [cands[i]]
  {
    assert cands[..i + 1] == cands[..i] + [cands[i]];
    DocsSnoc(cands[..i], cands[i]);
    OpenersSnoc(cands[..i], cands[i]);
    assert Openers(cands[..i]) + [] == Openers(cands[..i]);
  }

  /** What the first pass holds after i candidates. */
  ghost predicate Scanned(cands: seq<Candidate>, i: nat, picked: seq<Candidate>, seen: set<string>)
    requires i <= |cands|
  {
    picked == Openers(cands[..i]) && seen == Docs(cands[..i])
  }

  lemma ScanNext(cands: seq<Candidate>, i: nat, picked: seq<Candidate>, seen: set<string>)
    requires i < |cands| && Scanned(cands, i, picked, seen)
    ensures var x := cands[i];
            if x.doc in seen then Scanned(cands, i + 1, picked, seen)
            else Scanned(cands, i + 1, picked + [x], seen + {x.doc})
  {
    OpenersNext(cands, i);
    if cands[i].doc in seen {
      assert seen + {cands[i].doc} == seen;
    }
  }

  lemma OpenersCut(cands: seq<Candidate>, i: nat)
    requires i <= |cands|
    ensures Take(Openers(cands), |Openers(cands[..i])|) == Openers(cands[..i])
  {
    OpenersPrefix(cands, i);
  }

  lemma {:induction false} OthersPrefix(cands: seq<Candidate>, i: nat, openers: set<Candidate>)
    requires i <= |cands|
    ensures Others(cands[..i], openers) <= Others(cands, openers)
    decreases |cands| - i
  {
    if i == |cands| {
      assert cands[..i] == cands;
    } else {
      OthersPrefix(cands, i + 1, openers);
      OthersSnoc(cands[..i], cands[i], openers);
      assert cands[..i] + [cands[i]] == cands[..i + 1];
    }
  }

  // ----- what the two lists are

  ghost predicate OneEach(xs: seq<Candidate>) {
    forall i, j :: 0 <= i < j < |xs| ==> xs[i].doc != xs[j].doc
  }

  lemma OneEachSnoc(xs: seq<Candidate>, x: Candidate)
    requires OneEach(xs) && x.doc !in Docs(xs)
    ensures OneEach(xs + [x])
  {
    forall i | 0 <= i < |xs| ensures xs[i].doc != x.doc {
      assert xs[i] in xs;
    }
  }

  lemma {:induction false} OneEachCard(xs: seq<Candidate>)
    requires OneEach(xs)
    ensures |Docs(xs)| == |xs| && Distinct(xs)
  {
    if xs != [] {
      var front, x := xs[..|xs| - 1], xs[|xs| - 1];
      assert xs == front + [x];
      OneEachCard(front);
      DocsSnoc(front, x);
      assert x.doc !in Docs(front);
    }
  }

  lemma {:induction false} OpenersDocs(cands: seq<Candidate>)
    ensures Docs(Openers(cands)) == Docs(cands) && OneEach(Openers(cands))
    ensures Elements(Openers(cands)) <= Elements(cands)
  {
    if cands != [] {
      var front, x := cands[..|cands| - 1], cands[|cands| - 1];
      assert cands == front + [x];
      OpenersDocs(front);
      DocsSnoc(front, x);
      if x.doc in Docs(front) {
        assert Openers(cands) == Openers(front);
      } else {
        assert Openers(cands) == Openers(front) + [x];
        DocsSnoc(Openers(front), x);
        OneEachSnoc(Openers(front), x);
        ElementsSnoc(Openers(front), x);
        ElementsSnoc(front, x);
      }
    }
  }

  /** One candidate per document: no two share one, and all documents are met. */
  lemma OpenersFacts(cands: seq<Candidate>)
    ensures Docs(Openers(cands)) == Docs(cands) && |Openers(cands)| == |Docs(cands)|
    ensures OneEach(Openers(cands)) && Distinct(Openers(cands)) && Elements(Openers(cands)) <= Elements(cands)
  {
    OpenersDocs(cands);
    OneEachCard(Openers(cands));
  }

  /** A candidate that opens a document stands behind as many openers as documents come before it. */
  lemma {:induction false} OpenerPosition(cands: seq<Candidate>, k: nat, n: nat)
    requires k < n <= |cands| && forall j :: 0 <= j < k ==> cands[j].doc != cands[k].doc
    ensures var p := |Docs(cands[..k])|; p < |Openers(cands[..n])| && Openers(cands[..n])[p] == cands[k]
    decreases n
  {
    assert cands[..n] == cands[..n - 1] + [cands[n - 1]];
    OpenersSnoc(cands[..n - 1], cands[n - 1]);
    if k < n - 1 {
      OpenerPosition(cands, k, n - 1);
    } else {
      OpenersFacts(cands[..k]);
      forall x | x in cands[..k] ensures x.doc != cands[k].doc {
        var j :| 0 <= j < k && cands[..k][j] == x;
        assert cands[j] == x;
      }
    }
  }

  lemma {:induction false} OthersFacts(cands: seq<Candidate>, openers: set<Candidate>)
    ensures Distinct(Others(cands, openers)) && Elements(Others(cands, openers)) == Elements(cands) - openers
  {
    if cands == [] {
      assert Elements(Others(cands, openers)) == Elements(cands) - openers;
    } else {
      var front, x := cands[..|cands| - 1], cands[|cands| - 1];
      var others := Others(front, openers);
      assert cands == front + [x];
      OthersFacts(front, openers);
      ElementsSnoc(front, x);
      if x in openers || x in front {
        assert Elements(front) + {x} - openers == Elements(front) - openers;
        assert others + [] == others;
      } else {
        assert x !in Elements(others);
        DistinctConcat(others, [x]);
        ElementsSnoc(others, x);
        assert Elements(front) + {x} - openers == (Elements(front) - openers) + {x};
      }
    }
  }

  /** Any other candidate stands, at its first occurrence, behind as many others as come before it. */
  lemma {:induction false} OtherPosition(cands: seq<Candidate>, openers: set<Candidate>, k: nat, n: nat)
    requires k < n <= |cands| && cands[k] !in openers && cands[k] !in cands[..k]
    ensures var p := |Elements(cands[..k]) - openers|;
            p < |Others(cands[..n], openers)| && Others(cands[..n], openers)[p] == cands[k]
    decreases n
  {
    assert cands[..n] == cands[..n - 1] + [cands[n - 1]];
    OthersSnoc(cands[..n - 1], cands[n - 1], openers);
    if k < n - 1 {
      OtherPosition(cands, openers, k, n - 1);
    } else {
      OthersFacts(cands[..k], openers);
      DistinctCard(Others(cands[..k], openers));
    }
  }

  // ----- the two passes

  /** One candidate per document, up to the quota. */
  method FirstPass(cands: seq<Candidate>, perCorpus: int) returns (picked: seq<Candidate>)
    ensures picked == Take(Openers(cands), Quota(perCorpus))
  {
    picked := [];
    var seen: set<string> := {};
    for i := 0 to |cands|
      invariant Scanned(cands, i, picked, seen) && |picked| < Quota(perCorpus)
    {
      var x := cands[i];
      ScanNext(cands, i, picked, seen);
      if x.doc in seen {
        continue;
      }
      seen := seen + {x.doc};
      picked := picked + [x];
      if |picked| >= perCorpus {
        OpenersCut(cands, i + 1);
        return;
      }
    }
    assert cands[..|cands|] == cands;
  }

  /**
   Both passes take the first candidate of each document in order, then the others in order, up to the
   quota. So the result has as many distinct candidates as the quota allows, and as many distinct
   documents as any selection of that size can have. A quota below one still picks one candidate.
   */
  method Pick(cands: seq<Candidate>, perCorpus: int) returns (picked: seq<Candidate>)
    ensures picked == Take(Ranked(cands), Quota(perCorpus))
    ensures Distinct(picked) && Elements(picked) <= Elements(cands)
    ensures |picked| == Min(if perCorpus < 1 then 1 else perCorpus, |Elements(cands)|)
    ensures |Docs(picked)| == Min(if perCorpus < 1 then 1 else perCorpus, |Docs(cands)|)
    ensures forall other :: Elements(other) <= Elements(cands) && |other| <= Quota(perCorpus) ==>
              |Docs(other)| <= |Docs(picked)|
  {
    picked := FirstPass(cands, perCorpus);
    picked := SecondPass(cands, perCorpus, picked);
    PickMeaning(cands, Quota(perCorpus));
  }

  /** What is picked when the second pass comes to candidate i. */
  ghost predicate Filling(cands: seq<Candidate>, i: nat, quota: nat, picked: seq<Candidate>)
    requires i <= |cands|
  {
    var openers := Openers(cands);
    if |openers| >= quota then picked == openers[..quota]
    else |picked| <= quota && picked == openers + Others(cands[..i], Elements(openers))
  }

  lemma FillingStep(cands: seq<Candidate>, i: nat, quota: nat, picked: seq<Candidate>)
    requires i < |cands| && Filling(cands, i, quota, picked) && |picked| < quota
    ensures Filling(cands, i + 1, quota, if cands[i] in picked then picked else picked + [cands[i]])
  {
    var openers, x, front := Openers(cands), cands[i], cands[..i];
    var others := Others(front, Elements(openers));
    assert cands[..i + 1] == front + [x];
    OthersSnoc(front, x, Elements(openers));
    OthersFacts(front, Elements(openers));
    assert x in picked <==> x in Elements(openers) || x in Elements(others);
    assert openers + others + [x] == openers + (others + [x]);
  }

  lemma FillingDone(cands: seq<Candidate>, i: nat, quota: nat, picked: seq<Candidate>)
    requires i <= |cands| && Filling(cands, i, quota, picked) && (|picked| >= quota || i == |cands|)
    ensures picked == Take(Ranked(cands), quota)
  {
    var openers := Openers(cands);
    OthersPrefix(cands, i, Elements(openers));
    assert cands[..|cands|] == cands;
  }

  method SecondPass(cands: seq<Candidate>, perCorpus: int, first: seq<Candidate>) returns (picked: seq<Candidate>)
    requires first == Take(Openers(cands), Quota(perCorpus))
    ensures picked == Take(Ranked(cands), Quota(perCorpus))
  {
    picked := first;
    SomeOpener(cands);
    assert first + [] == first;
    for i := 0 to |cands|
      invariant Filling(cands, i, Quota(perCorpus), picked) && (cands == [] || picked != [])
    {
      if |picked| >= perCorpus {
        FillingDone(cands, i, Quota(perCorpus), picked);
        return;
      }
      FillingStep(cands, i, Quota(perCorpus), picked);
      var x := cands[i];
      if x !in picked {
        picked := picked + [x];
      }
    }
    FillingDone(cands, |cands|, Quota(perCorpus), picked);
  }

  lemma SomeOpener(cands: seq<Candidate>)
    ensures cands != [] ==> Openers(cands) != []
  {
    OpenersFacts(cands);
    if cands != [] { assert cands[0].doc in Docs(cands); }
  }

  lemma DocsMonotone(xs: seq<Candidate>, ys: seq<Candidate>)
    requires Elements(xs) <= Elements(ys)
    ensures Docs(xs) <= Docs(ys) && |Docs(xs)| <= |Docs(ys)|
  {
    forall d | d in Docs(xs) ensures d in Docs(ys) {
      var x :| x in xs && x.doc == d;
      assert x in Elements(ys);
    }
    SubsetCard(Docs(xs), Docs(ys));
  }

  lemma {:induction false} DocsAtMostLength(xs: seq<Candidate>)
    ensures |Docs(xs)| <= |xs|
  {
    if xs != [] {
      var n := |xs| - 1;
      assert xs == xs[..n] + [xs[n]];
      DocsSnoc(xs[..n], xs[n]);
      DocsAtMostLength(xs[..n]);
    }
  }

  /** The order of taking lists every candidate once. */
  lemma RankedFacts(cands: seq<Candidate>)
    ensures Distinct(Ranked(cands)) && Elements(Ranked(cands)) == Elements(cands)
    ensures |Ranked(cands)| == |Elements(cands)|
  {
    var openers := Openers(cands);
    var all := Elements(openers);
    OpenersFacts(cands);
    OthersFacts(cands, all);
    DistinctConcat(openers, Others(cands, all));
    assert all + (Elements(cands) - all) == Elements(cands);
    DistinctCard(Ranked(cands));
  }

  lemma TakenDocs(cands: seq<Candidate>, quota: nat)
    ensures |Docs(Take(Ranked(cands), quota))| == Min(quota, |Docs(cands)|)
    ensures Elements(Take(Ranked(cands), quota)) <= Elements(cands)
  {
    var openers, ranked, picked := Openers(cands), Ranked(cands), Take(Ranked(cands), quota);
    OpenersFacts(cands);
    RankedFacts(cands);
    forall x | x in picked ensures x in ranked {
    }
    if quota <= |openers| {
      assert picked == openers[..quota];
      OneEachCard(picked);
    } else {
      forall x | x in openers ensures x in picked {
        var i :| 0 <= i < |openers| && openers[i] == x;
        assert picked[i] == x;
      }
      DocsMonotone(openers, picked);
      DocsMonotone(picked, cands);
    }
  }

  lemma PickMeaning(cands: seq<Candidate>, quota: nat)
    ensures var picked := Take(Ranked(cands), quota);
            && Distinct(picked) && Elements(picked) <= Elements(cands)
            && |picked| == Min(quota, |Elements(cands)|) && |Docs(picked)| == Min(quota, |Docs(cands)|)
            && forall other :: Elements(other) <= Elements(cands) && |other| <= quota ==>
                 |Docs(other)| <= |Docs(picked)|
  {
    var picked := Take(Ranked(cands), quota);
    RankedFacts(cands);
    TakenDocs(cands, quota);
    forall other | Elements(other) <= Elements(cands) && |other| <= quota ensures |Docs(other)| <= |Docs(picked)| {
      DocsMonotone(other, cands);
      DocsAtMostLength(other);
    }
  }
}

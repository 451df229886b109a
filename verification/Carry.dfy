/**
 The carried-context builder `carry_for` of scripts/chat_carry_probe.py: newest answer first,
 no locator twice, capped.
 */
module Carry {
  import opened Finite

  /** Keys that are absent are None. */
  datatype Chunk = Chunk(locator: Option<string>, preview: string)
  datatype LegendEntry = LegendEntry(chunkId: Option<string>, locator: Option<string>)
  datatype Answer = Answer(chunks: seq<Chunk>, used: set<string>, legend: seq<LegendEntry>)

  datatype Item = Item(locator: Option<string>, preview: string, chunkId: Option<string>)

  datatype Policy = V1 | V2

  function Cap(policy: Policy): nat { if policy.V1? then 30 else 8 }

  /** A KeyError on an entry without a locator, or the carried items. */
  datatype Outcome = Raised | Carried(items: seq<Item>)

  /** `preview_by_loc.get(locator, "")`: the last chunk with a locator keeps it. */
  function PreviewFor(chunks: seq<Chunk>, locator: Option<string>): string {
    if chunks == [] then ""
    else
      var n := |chunks| - 1;
      if chunks[n].locator == locator then chunks[n].preview else PreviewFor(chunks[..n], locator)
  }

  /** The preview comes from the last chunk with the locator, and is empty when there is none. */
  lemma {:induction false} PreviewIsLast(chunks: seq<Chunk>, locator: Option<string>) returns (i: int)
    ensures i < |chunks| && forall j :: 0 <= j < |chunks| && i < j ==> chunks[j].locator != locator
    ensures if 0 <= i then chunks[i].locator == locator && PreviewFor(chunks, locator) == chunks[i].preview
            else PreviewFor(chunks, locator) == ""
  {
    i := -1;
    if chunks != [] {
      var n := |chunks| - 1;
      if chunks[n].locator == locator {
        i := n;
      } else {
        i := PreviewIsLast(chunks[..n], locator);
        forall j | 0 <= j < |chunks| && i < j ensures chunks[j].locator != locator {
          if j < n { assert chunks[..n][j] == chunks[j]; }
        }
      }
    }
  }

  function FromChunks(chunks: seq<Chunk>): seq<Item> {
    if chunks == [] then []
    else
      var n := |chunks| - 1;
      FromChunks(chunks[..n])
      + if chunks[n].locator.Some? && chunks[n].locator.value != ""
        then [Item(chunks[n].locator, chunks[n].preview, None)] else []
  }

  function FromLegend(a: Answer, legend: seq<LegendEntry>): seq<Item> {
    if legend == [] then []
    else
      var n := |legend| - 1;
      var e := legend[n];
      FromLegend(a, legend[..n])
      + if e.chunkId.Some? && e.chunkId.value in a.used
        then [Item(e.locator, PreviewFor(a.chunks, e.locator), e.chunkId)] else []
  }

  /** Items of one answer the policy may carry, in order. */
  function Eligible(policy: Policy, a: Answer): seq<Item> {
    if policy.V1? then FromChunks(a.chunks) else FromLegend(a, a.legend)
  }

  /** All of them, newest answer first. */
  function NewestFirst(policy: Policy, answers: seq<Answer>): seq<Item> {
    if answers == [] then []
    else Eligible(policy, answers[|answers| - 1]) + NewestFirst(policy, answers[..|answers| - 1])
  }

  function Locators(xs: seq<Item>): set<Option<string>> { set x | x in xs :: x.locator }

  /** First occurrence of each locator. */
  function FirstOccurrences(xs: seq<Item>): seq<Item> {
    if xs == [] then []
    else
      var kept := FirstOccurrences(xs[..|xs| - 1]);
      if xs[|xs| - 1].locator in Locators(kept) then kept else kept + [xs[|xs| - 1]]
  }

  function Take(xs: seq<Item>, n: nat): seq<Item> { if |xs| <= n then xs else xs[..n] }

  /** The simple form: list, keep first occurrences, cut at the cap. */
  function Simple(policy: Policy, answers: seq<Answer>): seq<Item> {
    Take(FirstOccurrences(NewestFirst(policy, answers)), Cap(policy))
  }

  // ----- the fused loop

  /** The loop state after the items xs: what is carried and which locators are taken. */
  ghost predicate Fused(xs: seq<Item>, cap: nat, out: seq<Item>, seen: set<Option<string>>) {
    && out == Take(FirstOccurrences(xs), cap) && seen == Locators(out)
    && forall i :: 0 <= i < |out| ==> out[i].locator.Some?
  }

  lemma LocatorsSnoc(xs: seq<Item>, x: Item)
    ensures Locators(xs + [x]) == Locators(xs) + {x.locator}
  {
    assert forall y :: y in xs + [x] <==> y in xs || y == x;
  }

  /** One candidate item: kept if new and below the cap, ignored otherwise. */
  lemma FusedStep(xs: seq<Item>, cap: nat, out: seq<Item>, seen: set<Option<string>>, x: Item)
    requires Fused(xs, cap, out, seen)
    ensures if x.locator !in seen && |out| < cap
            then Take(FirstOccurrences(xs + [x]), cap) == out + [x]
                 && (x.locator.Some? ==> Fused(xs + [x], cap, out + [x], seen + {x.locator}))
            else Fused(xs + [x], cap, out, seen)
  {
    assert (xs + [x])[..|xs|] == xs;
    LocatorsSnoc(out, x);
    var kept := FirstOccurrences(xs);
    if |out| == cap && |kept| > 0 {
      assert Take(kept + [x], cap) == Take(kept, cap);
    }
  }

  /** Once an item without a locator is kept, the simple form contains it too. */
  lemma {:induction false} KeptStays(xs: seq<Item>, ys: seq<Item>, cap: nat, i: nat)
    requires i < |Take(FirstOccurrences(xs), cap)|
    ensures i < |Take(FirstOccurrences(xs + ys), cap)|
    ensures Take(FirstOccurrences(xs + ys), cap)[i] == Take(FirstOccurrences(xs), cap)[i]
    decreases |ys|
  {
    if ys == [] {
      assert xs + ys == xs;
    } else {
      var n := |ys| - 1;
      assert (xs + ys)[..|xs + ys| - 1] == xs + ys[..n];
      KeptStays(xs, ys[..n], cap, i);
    }
  }

  /** The simple form over these items keeps one without a locator. */
  ghost predicate KeepsBare(xs: seq<Item>, cap: nat) {
    exists i :: 0 <= i < |Take(FirstOccurrences(xs), cap)| && Take(FirstOccurrences(xs), cap)[i].locator.None?
  }

  lemma NotBare(xs: seq<Item>, cap: nat, out: seq<Item>, seen: set<Option<string>>)
    requires Fused(xs, cap, out, seen)
    ensures !KeepsBare(xs, cap)
  {
  }

  lemma BareStays(xs: seq<Item>, ys: seq<Item>, cap: nat)
    requires KeepsBare(xs, cap)
    ensures KeepsBare(xs + ys, cap)
  {
    var i :| 0 <= i < |Take(FirstOccurrences(xs), cap)| && Take(FirstOccurrences(xs), cap)[i].locator.None?;
    KeptStays(xs, ys, cap, i);
  }

  /** One item after xs and before rest: kept, ignored, or the end when it is kept without a locator. */
  lemma ItemStep(xs: seq<Item>, x: Item, rest: seq<Item>, cap: nat, out: seq<Item>, seen: set<Option<string>>)
    requires Fused(xs, cap, out, seen)
    ensures if x.locator !in seen && |out| < cap
            then if x.locator.None? then KeepsBare(xs + [x] + rest, cap)
                 else Fused(xs + [x], cap, out + [x], seen + {x.locator})
            else Fused(xs + [x], cap, out, seen)
  {
    FusedStep(xs, cap, out, seen, x);
    if x.locator !in seen && |out| < cap && x.locator.None? {
      BareItem(xs + [x], rest, cap, out, x);
    }
  }

  lemma BareItem(xs: seq<Item>, ys: seq<Item>, cap: nat, out: seq<Item>, x: Item)
    requires Take(FirstOccurrences(xs), cap) == out + [x] && x.locator.None?
    ensures KeepsBare(xs + ys, cap)
  {
    assert (out + [x])[|out|] == x;
    BareStays(xs, ys, cap);
  }

  lemma Around(before: seq<Item>, items: seq<Item>, i: nat)
    requires i < |items|
    ensures before + items[..i] + [items[i]] == before + items[..i + 1]
    ensures before + items[..i] + [items[i]] + items[i + 1..] == before + items
  {
  }

  method CarryAnswer(policy: Policy, a: Answer, out: seq<Item>, seen: set<Option<string>>, ghost before: seq<Item>)
    returns (raised: bool, out': seq<Item>, seen': set<Option<string>>)
    requires Fused(before, Cap(policy), out, seen)
    ensures !raised ==> Fused(before + Eligible(policy, a), Cap(policy), out', seen')
    ensures raised ==> KeepsBare(before + Eligible(policy, a), Cap(policy))
  {
    out', seen' := out, seen;
    var items := Eligible(policy, a);
    assert before + items[..0] == before;
    for i := 0 to |items|
      invariant Fused(before + items[..i], Cap(policy), out', seen')
    {
      var x := items[i];
      ItemStep(before + items[..i], x, items[i + 1..], Cap(policy), out', seen');
      Around(before, items, i);
      if x.locator !in seen' && |out'| < Cap(policy) {
        if x.locator.None? {
          return true, out', seen';
        }
        seen' := seen' + {x.locator};
        out' := out' + [x];
      }
    }
    assert items[..|items|] == items;
    raised := false;
  }

  lemma NewestStep(policy: Policy, answers: seq<Answer>, k: nat, done: seq<Item>)
    requires 0 < k <= |answers|
    ensures done + NewestFirst(policy, answers[..k])
         == done + Eligible(policy, answers[k - 1]) + NewestFirst(policy, answers[..k - 1])
  {
    assert answers[..k][..k - 1] == answers[..k - 1];
    var first, rest := Eligible(policy, answers[k - 1]), NewestFirst(policy, answers[..k - 1]);
    assert done + (first + rest) == done + first + rest;
  }

  /**
   `carry_for` equals the simple form; it raises exactly when the simple form keeps an entry without a
   locator. At most 30 items are carried under the first policy and 8 under the second, fewer only when
   every locator that an answer offers is carried; no locator is carried twice, and each item comes from
   the newest answer that offers its locator.
   */
  method CarryFor(policy: Policy, answers: seq<Answer>) returns (r: Outcome)
    ensures r.Raised? <==> KeepsBare(NewestFirst(policy, answers), Cap(policy))
    ensures r.Carried? ==> r.items == Simple(policy, answers)
    ensures r.Carried? ==> |r.items| <= if policy.V1? then 30 else 8
    ensures r.Carried? && |r.items| < (if policy.V1? then 30 else 8) ==>
              forall a :: a in answers ==> Offered(policy, a) <= Locators(r.items)
    ensures r.Carried? ==> forall i, j :: 0 <= i < j < |r.items| ==> r.items[i].locator != r.items[j].locator
    ensures r.Carried? ==> forall x :: x in r.items ==> exists m: nat :: FromNewest(policy, answers, x, m)
  {
    r := CarryLoop(policy, answers);
    SimpleMeaning(policy, answers);
  }

  /** The loop over the answers, newest first. */
  method CarryLoop(policy: Policy, answers: seq<Answer>) returns (r: Outcome)
    ensures r.Raised? <==> KeepsBare(NewestFirst(policy, answers), Cap(policy))
    ensures r.Carried? ==> r.items == Simple(policy, answers)
  {
    var out: seq<Item>, seen: set<Option<string>> := [], {};
    var k := |answers|;
    ghost var done: seq<Item>, all := [], NewestFirst(policy, answers);
    assert answers[..k] == answers;
    while k > 0
      invariant 0 <= k <= |answers|
      invariant Fused(done, Cap(policy), out, seen)
      invariant done + NewestFirst(policy, answers[..k]) == all
    {
      NewestStep(policy, answers, k, done);
      var raised;
      raised, out, seen := CarryAnswer(policy, answers[k - 1], out, seen, done);
      done := done + Eligible(policy, answers[k - 1]);
      k := k - 1;
      if raised {
        BareStays(done, NewestFirst(policy, answers[..k]), Cap(policy));
        assert KeepsBare(all, Cap(policy));
        return Raised;
      }
    }
    assert done + [] == done;
    NotBare(all, Cap(policy), out, seen);
    return Carried(out);
  }

  // ----- properties of the simple form

  /** The first item listed with its locator. */
  ghost predicate FirstListed(xs: seq<Item>, x: Item) {
    exists p :: 0 <= p < |xs| && xs[p] == x && x.locator !in Locators(xs[..p])
  }

  /** The item is the first that answer m offers for its locator, and no newer answer offers it. */
  ghost predicate FromNewest(policy: Policy, answers: seq<Answer>, x: Item, m: nat) {
    && m < |answers| && FirstListed(Eligible(policy, answers[m]), x)
    && forall k :: m < k < |answers| ==> x.locator !in Offered(policy, answers[k])
  }

  /** The locators an answer offers. */
  function Offered(policy: Policy, a: Answer): set<Option<string>> { Locators(Eligible(policy, a)) }

  lemma LocatorsConcat(xs: seq<Item>, ys: seq<Item>)
    ensures Locators(xs + ys) == Locators(xs) + Locators(ys)
  {
    assert forall x :: x in xs + ys <==> x in xs || x in ys;
  }

  lemma FirstListedSnoc(xs: seq<Item>, y: Item, x: Item)
    ensures FirstListed(xs + [y], x) <==> FirstListed(xs, x) || (x == y && x.locator !in Locators(xs))
  {
    assert (xs + [y])[..|xs|] == xs && (xs + [y])[|xs|] == y;
    forall p | 0 <= p < |xs| ensures (xs + [y])[..p] == xs[..p] && (xs + [y])[p] == xs[p] {
    }
  }

  lemma ListedStep(listed: seq<Item>, y: Item, take: bool, x: Item)
    ensures var more := listed + if take then [y] else [];
            && (FirstListed(more, x) <==> FirstListed(listed, x) || (take && x == y && x.locator !in Locators(listed)))
            && (x.locator in Locators(more) <==> x.locator in Locators(listed) || (take && x.locator == y.locator))
  {
    FirstListedSnoc(listed, y, x);
    LocatorsSnoc(listed, y);
    assert listed + [] == listed;
  }

  /** A chunk whose locator is present and new in its answer. */
  ghost predicate NewChunk(chunks: seq<Chunk>, i: nat, x: Item) {
    && i < |chunks| && x == Item(chunks[i].locator, chunks[i].preview, None)
    && x.locator.Some? && x.locator.value != "" && forall j :: 0 <= j < i ==> chunks[j].locator != x.locator
  }

  ghost predicate SomeNewChunk(chunks: seq<Chunk>, x: Item) { exists i: nat :: NewChunk(chunks, i, x) }

  ghost predicate HasLocator(chunks: seq<Chunk>, locator: Option<string>) {
    exists i :: 0 <= i < |chunks| && chunks[i].locator == locator
  }

  /** What the first policy takes from an answer: for each locator its first chunk. */
  lemma {:induction false} ChunksOffered(chunks: seq<Chunk>, x: Item)
    ensures FirstListed(FromChunks(chunks), x) <==> SomeNewChunk(chunks, x)
    ensures x.locator in Locators(FromChunks(chunks)) <==>
            x.locator.Some? && x.locator.value != "" && HasLocator(chunks, x.locator)
  {
    if chunks != [] {
      var front, c := chunks[..|chunks| - 1], chunks[|chunks| - 1];
      ChunksOffered(front, x);
      ListedStep(FromChunks(front), Item(c.locator, c.preview, None), c.locator.Some? && c.locator.value != "", x);
      NewChunkSnoc(front, c, x);
      assert chunks == front + [c];
    }
  }

  lemma NewChunkSnoc(chunks: seq<Chunk>, c: Chunk, x: Item)
    ensures SomeNewChunk(chunks + [c], x) <==>
            || SomeNewChunk(chunks, x)
            || (x == Item(c.locator, c.preview, None) && x.locator.Some? && x.locator.value != ""
                && !HasLocator(chunks, x.locator))
    ensures HasLocator(chunks + [c], x.locator) <==> HasLocator(chunks, x.locator) || c.locator == x.locator
  {
    var longer := chunks + [c];
    assert longer[|chunks|] == c && forall j :: 0 <= j < |chunks| ==> longer[j] == chunks[j];
    forall i: nat | i < |chunks| ensures NewChunk(longer, i, x) <==> NewChunk(chunks, i, x) {
      assert longer[i] == chunks[i];
    }
    assert NewChunk(longer, |chunks|, x) <==>
           x == Item(c.locator, c.preview, None) && x.locator.Some? && x.locator.value != ""
           && !HasLocator(chunks, x.locator);
    if i :| 0 <= i < |chunks| && chunks[i].locator == x.locator {
      assert longer[i].locator == x.locator;
    }
  }

  /** A legend entry for a used chunk, the first of those with its locator. */
  ghost predicate NewEntry(a: Answer, legend: seq<LegendEntry>, i: nat, x: Item) {
    && i < |legend| && x == Item(legend[i].locator, PreviewFor(a.chunks, legend[i].locator), legend[i].chunkId)
    && Used(a, legend[i]) && forall j :: 0 <= j < i && Used(a, legend[j]) ==> legend[j].locator != x.locator
  }

  predicate Used(a: Answer, e: LegendEntry) { e.chunkId.Some? && e.chunkId.value in a.used }

  ghost predicate SomeNewEntry(a: Answer, legend: seq<LegendEntry>, x: Item) {
    exists i: nat :: NewEntry(a, legend, i, x)
  }

  ghost predicate HasUsed(a: Answer, legend: seq<LegendEntry>, locator: Option<string>) {
    exists i :: 0 <= i < |legend| && Used(a, legend[i]) && legend[i].locator == locator
  }

  /** What the second policy takes from an answer: for each locator the first entry of a used chunk. */
  lemma {:induction false} LegendOffered(a: Answer, legend: seq<LegendEntry>, x: Item)
    ensures FirstListed(FromLegend(a, legend), x) <==> SomeNewEntry(a, legend, x)
    ensures x.locator in Locators(FromLegend(a, legend)) <==> HasUsed(a, legend, x.locator)
  {
    if legend != [] {
      var front, e := legend[..|legend| - 1], legend[|legend| - 1];
      LegendOffered(a, front, x);
      ListedStep(FromLegend(a, front), Item(e.locator, PreviewFor(a.chunks, e.locator), e.chunkId), Used(a, e), x);
      NewEntrySnoc(a, front, e, x);
      assert legend == front + [e];
    }
  }

  lemma NewEntrySnoc(a: Answer, legend: seq<LegendEntry>, e: LegendEntry, x: Item)
    ensures SomeNewEntry(a, legend + [e], x) <==>
            || SomeNewEntry(a, legend, x)
            || (x == Item(e.locator, PreviewFor(a.chunks, e.locator), e.chunkId) && Used(a, e)
                && !HasUsed(a, legend, x.locator))
    ensures HasUsed(a, legend + [e], x.locator) <==>
            HasUsed(a, legend, x.locator) || (Used(a, e) && e.locator == x.locator)
  {
    var longer := legend + [e];
    assert longer[|legend|] == e && forall j :: 0 <= j < |legend| ==> longer[j] == legend[j];
    forall i: nat | i < |legend| ensures NewEntry(a, longer, i, x) <==> NewEntry(a, legend, i, x) {
      assert longer[i] == legend[i];
    }
    assert NewEntry(a, longer, |legend|, x) <==>
           x == Item(e.locator, PreviewFor(a.chunks, e.locator), e.chunkId) && Used(a, e)
           && !HasUsed(a, legend, x.locator);
    if i :| 0 <= i < |legend| && Used(a, legend[i]) && legend[i].locator == x.locator {
      assert Used(a, longer[i]) && longer[i].locator == x.locator;
    }
  }

  /** The kept items, in order, are the items at the given positions, each the first with its locator. */
  ghost predicate Picks(xs: seq<Item>, kept: seq<Item>, at: seq<nat>) {
    && |at| == |kept| && (forall p, q :: 0 <= p < q < |at| ==> at[p] < at[q])
    && forall p :: 0 <= p < |at| ==>
         at[p] < |xs| && kept[p] == xs[at[p]] && xs[at[p]].locator !in Locators(xs[..at[p]])
  }

  lemma PicksLonger(xs: seq<Item>, x: Item, kept: seq<Item>, at: seq<nat>)
    requires Picks(xs, kept, at)
    ensures Picks(xs + [x], kept, at)
    ensures x.locator !in Locators(xs) ==> Picks(xs + [x], kept + [x], at + [|xs|])
  {
    forall p | 0 <= p < |at| ensures (xs + [x])[..at[p]] == xs[..at[p]] {
    }
    assert (xs + [x])[..|xs|] == xs;
  }

  /** What is kept: one item per locator, the first one listed, in the order listed. */
  lemma {:induction false} FirstOccurrencesMeaning(xs: seq<Item>) returns (at: seq<nat>)
    ensures Picks(xs, FirstOccurrences(xs), at) && Locators(FirstOccurrences(xs)) == Locators(xs)
  {
    at := [];
    if xs != [] {
      var front, last := xs[..|xs| - 1], xs[|xs| - 1];
      at := FirstOccurrencesMeaning(front);
      assert xs == front + [last];
      PicksLonger(front, last, FirstOccurrences(front), at);
      LocatorsSnoc(front, last);
      LocatorsSnoc(FirstOccurrences(front), last);
      if last.locator !in Locators(front) {
        at := at + [|front|];
      }
    }
  }

  /** The first item listed with a locator comes from the newest answer that offers it. */
  lemma {:induction false} FirstIsNewest(policy: Policy, answers: seq<Answer>, i: nat) returns (m: nat)
    requires i < |NewestFirst(policy, answers)|
    requires NewestFirst(policy, answers)[i].locator !in Locators(NewestFirst(policy, answers)[..i])
    ensures FromNewest(policy, answers, NewestFirst(policy, answers)[i], m)
    decreases |answers|
  {
    var n := |answers| - 1;
    var newest, rest := Eligible(policy, answers[n]), NewestFirst(policy, answers[..n]);
    if i < |newest| {
      m := n;
      assert (newest + rest)[..i] == newest[..i] && newest[i] == (newest + rest)[i];
    } else {
      var k := i - |newest|;
      assert (newest + rest)[..i] == newest + rest[..k];
      LocatorsConcat(newest, rest[..k]);
      m := FirstIsNewest(policy, answers[..n], k);
      NewerStill(policy, answers, rest[k], m);
    }
  }

  lemma NewerStill(policy: Policy, answers: seq<Answer>, x: Item, m: nat)
    requires answers != [] && FromNewest(policy, answers[..|answers| - 1], x, m)
    requires x.locator !in Offered(policy, answers[|answers| - 1])
    ensures FromNewest(policy, answers, x, m)
  {
    var front := answers[..|answers| - 1];
    forall k | m < k < |answers| ensures x.locator !in Offered(policy, answers[k]) {
      if k < |front| { assert front[k] == answers[k]; }
    }
  }

  lemma {:induction false} AllListed(policy: Policy, answers: seq<Answer>, i: nat)
    requires i < |answers|
    ensures Offered(policy, answers[i]) <= Locators(NewestFirst(policy, answers))
    decreases |answers|
  {
    var n := |answers| - 1;
    var front := answers[..n];
    if i < n {
      assert front[i] == answers[i];
      AllListed(policy, front, i);
    }
    ListedGrow(policy, Eligible(policy, answers[n]), NewestFirst(policy, front), answers[i], i == n);
  }

  lemma ListedGrow(policy: Policy, newest: seq<Item>, rest: seq<Item>, a: Answer, last: bool)
    requires if last then newest == Eligible(policy, a) else Offered(policy, a) <= Locators(rest)
    ensures Offered(policy, a) <= Locators(newest + rest)
  {
    LocatorsConcat(newest, rest);
  }

  lemma SimpleMeaning(policy: Policy, answers: seq<Answer>)
    ensures |Simple(policy, answers)| <= Cap(policy)
    ensures |Simple(policy, answers)| < Cap(policy) ==>
              forall a :: a in answers ==> Offered(policy, a) <= Locators(Simple(policy, answers))
    ensures forall i, j :: 0 <= i < j < |Simple(policy, answers)| ==>
              Simple(policy, answers)[i].locator != Simple(policy, answers)[j].locator
    ensures forall x :: x in Simple(policy, answers) ==> exists m: nat :: FromNewest(policy, answers, x, m)
  {
    var all, items := NewestFirst(policy, answers), Simple(policy, answers);
    var at := FirstOccurrencesMeaning(all);
    forall i, j | 0 <= i < j < |items| ensures items[i].locator != items[j].locator {
      assert all[..at[j]][at[i]] in all[..at[j]];
    }
    forall x | x in items ensures exists m: nat :: FromNewest(policy, answers, x, m) {
      var p :| 0 <= p < |items| && items[p] == x;
      var m := FirstIsNewest(policy, answers, at[p]);
    }
    forall a | a in answers ensures Offered(policy, a) <= Locators(all) {
      var i :| 0 <= i < |answers| && answers[i] == a;
      AllListed(policy, answers, i);
    }
  }

  lemma {:induction false} KeptAreListed(xs: seq<Item>, x: Item)
    requires x in FirstOccurrences(xs)
    ensures x in xs
  {
    var n := |xs| - 1;
    if x in FirstOccurrences(xs[..n]) { KeptAreListed(xs[..n], x); }
  }

  lemma {:induction false} LegendItemsAreUsed(a: Answer, legend: seq<LegendEntry>, x: Item)
    requires x in FromLegend(a, legend)
    ensures x.chunkId.Some? && x.chunkId.value in a.used && LegendEntry(x.chunkId, x.locator) in legend
  {
    var n := |legend| - 1;
    if x in FromLegend(a, legend[..n]) {
      LegendItemsAreUsed(a, legend[..n], x);
    } else {
      assert legend[n] == LegendEntry(x.chunkId, x.locator);
    }
  }

  lemma {:induction false} ListedComeFromAnAnswer(policy: Policy, answers: seq<Answer>, x: Item)
    requires x in NewestFirst(policy, answers)
    ensures exists a :: a in answers && x in Eligible(policy, a)
  {
    var n := |answers| - 1;
    if x in Eligible(policy, answers[n]) {
      assert answers[n] in answers;
    } else {
      ListedComeFromAnAnswer(policy, answers[..n], x);
      var a :| a in answers[..n] && x in Eligible(policy, a);
      assert a in answers;
    }
  }

  /** Under the second policy every carried chunk was marked as used by the answer it comes from. */
  lemma OnlyUsedChunks(answers: seq<Answer>, x: Item)
    requires x in Simple(V2, answers)
    ensures exists a :: a in answers && x.chunkId.Some? && x.chunkId.value in a.used
                        && LegendEntry(x.chunkId, x.locator) in a.legend
  {
    var all := NewestFirst(V2, answers);
    assert x in FirstOccurrences(all);
    KeptAreListed(all, x);
    ListedComeFromAnAnswer(V2, answers, x);
    var a :| a in answers && x in Eligible(V2, a);
    LegendItemsAreUsed(a, a.legend, x);
  }
}

/**
 The per-document grouping step of scripts/backfill_document_chunk_summary.py. Its keyset loop
 is the one in module Keyset; here each document's summary is shown not to depend on which page
 the document falls in, nor on the order in which the database returns the chunks of that page.
 */
module ChunkSummary {
  import opened Finite
  import Keyset

  /** A region role may be NULL. */
  type Role = Option<string>

  datatype ChunkRow = ChunkRow(doc: string, tier: string, role: Role)
  datatype Bucket = Bucket(children: seq<Role>, parents: seq<Role>)

  /** Region roles of one document's chunks, in row order; every tier but "child" counts as parent. */
  function RolesOf(rows: seq<ChunkRow>, doc: string, child: bool): seq<Role> {
    if rows == [] then []
    else
      var r := rows[|rows| - 1];
      RolesOf(rows[..|rows| - 1], doc, child) + if r.doc == doc && (r.tier == "child" <==> child) then [r.role] else []
  }

  function BucketOf(rows: seq<ChunkRow>, doc: string): Bucket {
    Bucket(RolesOf(rows, doc, true), RolesOf(rows, doc, false))
  }

  function AddRow(b: Bucket, r: ChunkRow): Bucket {
    if r.tier == "child" then b.(children := b.children + [r.role]) else b.(parents := b.parents + [r.role])
  }

  lemma BucketSnoc(rows: seq<ChunkRow>, i: nat, doc: string)
    requires i < |rows|
    ensures BucketOf(rows[..i + 1], doc)
         == if rows[i].doc == doc then AddRow(BucketOf(rows[..i], doc), rows[i]) else BucketOf(rows[..i], doc)
  {
    assert rows[..i + 1][..i] == rows[..i];
  }

  ghost function Grouped(docIds: set<string>, rows: seq<ChunkRow>): map<string, Bucket> {
    map d | d in docIds :: BucketOf(rows, d)
  }

  lemma GroupStep(docIds: set<string>, rows: seq<ChunkRow>, i: nat)
    requires i < |rows|
    ensures var now, r := Grouped(docIds, rows[..i]), rows[i];
            Grouped(docIds, rows[..i + 1]) == if r.doc in now then now[r.doc := AddRow(now[r.doc], r)] else now
  {
    forall d | d in docIds
      ensures BucketOf(rows[..i + 1], d)
           == if rows[i].doc == d then AddRow(BucketOf(rows[..i], d), rows[i]) else BucketOf(rows[..i], d)
    {
      BucketSnoc(rows, i, d);
    }
  }

  /** The `by_doc` dictionary: one bucket per document of the page, filled in row order. */
  method Group(docIds: set<string>, rows: seq<ChunkRow>) returns (byDoc: map<string, Bucket>)
    ensures byDoc.Keys == docIds && forall d :: d in docIds ==> byDoc[d] == BucketOf(rows, d)
  {
    byDoc := map d | d in docIds :: Bucket([], []);
    assert byDoc == Grouped(docIds, rows[..0]);
    for i := 0 to |rows|
      invariant byDoc == Grouped(docIds, rows[..i])
    {
      var r := rows[i];
      GroupStep(docIds, rows, i);
      if r.doc in byDoc {
        byDoc := byDoc[r.doc := AddRow(byDoc[r.doc], r)];
      }
    }
    assert rows[..|rows|] == rows;
  }

  /** `WHERE doc_id = ANY(ids)`. */
  function RowsOf(rows: seq<ChunkRow>, ids: set<string>): seq<ChunkRow> {
    if rows == [] then []
    else RowsOf(rows[..|rows| - 1], ids) + if rows[|rows| - 1].doc in ids then [rows[|rows| - 1]] else []
  }

  lemma {:induction false} RowsKeepBucket(rows: seq<ChunkRow>, ids: set<string>, doc: string)
    requires doc in ids
    ensures BucketOf(RowsOf(rows, ids), doc) == BucketOf(rows, doc)
  {
    if rows != [] {
      var n := |rows| - 1;
      var front := RowsOf(rows[..n], ids);
      RowsKeepBucket(rows[..n], ids, doc);
      if rows[n].doc in ids {
        assert (front + [rows[n]])[..|front|] == front;
      } else {
        assert front + [] == front;
      }
    }
  }

  // ----- row order

  /** What one row contributes to the roles of a document's tier. */
  function RoleBag(r: ChunkRow, doc: string, child: bool): multiset<Role> {
    if r.doc == doc && (r.tier == "child" <==> child) then multiset{r.role} else multiset{}
  }

  lemma RolesSnoc(rows: seq<ChunkRow>, r: ChunkRow, doc: string, child: bool)
    ensures multiset(RolesOf(rows + [r], doc, child)) == multiset(RolesOf(rows, doc, child)) + RoleBag(r, doc, child)
  {
    assert (rows + [r])[..|rows|] == rows;
  }

  /** Taking a row out of the middle takes its role out of the bag. */
  lemma {:induction false} RolesWithout(rows: seq<ChunkRow>, k: nat, doc: string, child: bool)
    requires k < |rows|
    ensures multiset(RolesOf(rows, doc, child))
         == multiset(RolesOf(rows[..k] + rows[k + 1..], doc, child)) + RoleBag(rows[k], doc, child)
  {
    var n := |rows| - 1;
    var front, last := rows[..n], rows[n];
    assert rows == front + [last];
    RolesSnoc(front, last, doc, child);
    if k == n {
      assert rows[..k] + rows[k + 1..] == front;
    } else {
      var rest := front[..k] + front[k + 1..];
      assert rows[..k] + rows[k + 1..] == rest + [last];
      RolesWithout(front, k, doc, child);
      RolesSnoc(rest, last, doc, child);
      BagSwap(multiset(RolesOf(rest, doc, child)), RoleBag(rows[k], doc, child), RoleBag(last, doc, child));
    }
  }

  /** Reading the same rows in another order permutes each list of roles. */
  lemma {:induction false} RolesPermuted(a: seq<ChunkRow>, b: seq<ChunkRow>, doc: string, child: bool)
    requires multiset(a) == multiset(b)
    ensures multiset(RolesOf(a, doc, child)) == multiset(RolesOf(b, doc, child))
    decreases |a|
  {
    if a != [] {
      var front, last, k := MatchLast(a, b);
      RolesPermuted(front, b[..k] + b[k + 1..], doc, child);
      RolesSnoc(front, last, doc, child);
      RolesWithout(b, k, doc, child);
    } else {
      assert |multiset(b)| == 0;
    }
  }

  ghost predicate SamePermuted(b: Bucket, b': Bucket) {
    multiset(b.children) == multiset(b'.children) && multiset(b.parents) == multiset(b'.parents)
  }

  /**
   A document gets the same bucket, up to the order of its two lists, in whatever page it is read and in
   whatever order the rows of that page come back.
   */
  lemma PageIrrelevant(rows: seq<ChunkRow>, ids: set<string>, read: seq<ChunkRow>, doc: string)
    requires doc in ids && multiset(read) == multiset(RowsOf(rows, ids))
    ensures SamePermuted(BucketOf(read, doc), BucketOf(rows, doc))
  {
    RolesPermuted(read, RowsOf(rows, ids), doc, true);
    RolesPermuted(read, RowsOf(rows, ids), doc, false);
    RowsKeepBucket(rows, ids, doc);
  }

  // ----- the summary

  datatype Summary = Summary(childCount: nat, parentCount: nat, mapEligible: nat)

  function CountEligible(roles: seq<Role>, noisy: Role -> bool): nat {
    if roles == [] then 0
    else CountEligible(roles[..|roles| - 1], noisy) + if noisy(roles[|roles| - 1]) then 0 else 1
  }

  /** `compute_chunk_summary`; `noisy` is the imported `is_noisy`. */
  function Summarize(b: Bucket, noisy: Role -> bool): Summary {
    Summary(|b.children|, |b.parents|, CountEligible(b.parents, noisy))
  }

  lemma {:induction false} EligibleWithout(roles: seq<Role>, k: nat, noisy: Role -> bool)
    requires k < |roles|
    ensures CountEligible(roles, noisy)
         == CountEligible(roles[..k] + roles[k + 1..], noisy) + if noisy(roles[k]) then 0 else 1
  {
    var n := |roles| - 1;
    if k == n {
      assert roles[..k] + roles[k + 1..] == roles[..n];
    } else {
      var front := roles[..n];
      var rest := front[..k] + front[k + 1..];
      assert roles[..k] + roles[k + 1..] == rest + [roles[n]] && (rest + [roles[n]])[..n - 1] == rest;
      EligibleWithout(front, k, noisy);
    }
  }

  lemma {:induction false} EligiblePermuted(a: seq<Role>, b: seq<Role>, noisy: Role -> bool)
    requires multiset(a) == multiset(b)
    ensures |a| == |b| && CountEligible(a, noisy) == CountEligible(b, noisy)
    decreases |a|
  {
    if a != [] {
      var front, _, k := MatchLast(a, b);
      EligiblePermuted(front, b[..k] + b[k + 1..], noisy);
      EligibleWithout(b, k, noisy);
    } else {
      assert |multiset(b)| == 0;
    }
  }

  lemma SummaryPermuted(b: Bucket, b': Bucket, noisy: Role -> bool)
    requires SamePermuted(b, b')
    ensures Summarize(b, noisy) == Summarize(b', noisy)
  {
    EligiblePermuted(b.children, b'.children, noisy);
    EligiblePermuted(b.parents, b'.parents, noisy);
  }

  // ----- what the counts are

  /** Rows of a document in the child tier, or outside it. */
  ghost function TierRows(rows: seq<ChunkRow>, doc: string, child: bool): set<nat> {
    set i: nat | i < |rows| && rows[i].doc == doc && (child <==> rows[i].tier == "child")
  }

  /** Rows outside the child tier whose role is not noisy. */
  ghost function EligibleRows(rows: seq<ChunkRow>, doc: string, noisy: Role -> bool): set<nat> {
    set i: nat | i < |rows| && rows[i].doc == doc && rows[i].tier != "child" && !noisy(rows[i].role)
  }

  lemma TierRowsSnoc(rows: seq<ChunkRow>, r: ChunkRow, doc: string, child: bool)
    ensures |TierRows(rows + [r], doc, child)|
         == |TierRows(rows, doc, child)| + if r.doc == doc && (child <==> r.tier == "child") then 1 else 0
  {
    var more := if r.doc == doc && (child <==> r.tier == "child") then {|rows|} else {};
    assert TierRows(rows + [r], doc, child) == TierRows(rows, doc, child) + more;
  }

  lemma EligibleRowsSnoc(rows: seq<ChunkRow>, r: ChunkRow, doc: string, noisy: Role -> bool)
    ensures |EligibleRows(rows + [r], doc, noisy)|
         == |EligibleRows(rows, doc, noisy)| + if r.doc == doc && r.tier != "child" && !noisy(r.role) then 1 else 0
  {
    var more := if r.doc == doc && r.tier != "child" && !noisy(r.role) then {|rows|} else {};
    assert EligibleRows(rows + [r], doc, noisy) == EligibleRows(rows, doc, noisy) + more;
  }

  lemma RolesOfSnoc(rows: seq<ChunkRow>, r: ChunkRow, doc: string, child: bool, noisy: Role -> bool)
    ensures var roles, hit := RolesOf(rows, doc, child), r.doc == doc && (child <==> r.tier == "child");
            && |RolesOf(rows + [r], doc, child)| == |roles| + (if hit then 1 else 0)
            && CountEligible(RolesOf(rows + [r], doc, child), noisy)
               == CountEligible(roles, noisy) + if hit && !noisy(r.role) then 1 else 0
  {
    var roles := RolesOf(rows, doc, child);
    assert (rows + [r])[..|rows|] == rows;
    assert (roles + [r.role])[..|roles|] == roles && roles + [] == roles;
  }

  /** The lists of a bucket are as long as the tiers, and the eligible parents are counted. */
  lemma {:induction false} BucketCounts(rows: seq<ChunkRow>, doc: string, child: bool, noisy: Role -> bool)
    ensures |RolesOf(rows, doc, child)| == |TierRows(rows, doc, child)|
    ensures CountEligible(RolesOf(rows, doc, false), noisy) == |EligibleRows(rows, doc, noisy)|
  {
    if rows == [] {
      assert TierRows(rows, doc, child) == {} && EligibleRows(rows, doc, noisy) == {};
    } else {
      var front, last := rows[..|rows| - 1], rows[|rows| - 1];
      assert rows == front + [last];
      BucketCounts(front, doc, child, noisy);
      TierRowsSnoc(front, last, doc, child);
      EligibleRowsSnoc(front, last, doc, noisy);
      RolesOfSnoc(front, last, doc, child, noisy);
      RolesOfSnoc(front, last, doc, false, noisy);
    }
  }

  /**
   The driving table of the summary pass: every document, the bucket it gets from the rows read with its
   page, and its summary if present.
   */
  function Jobs(docs: set<string>, read: string -> seq<ChunkRow>, summaries: map<string, Summary>)
    : Keyset.Table<Bucket, Summary>
  {
    map d | d in docs :: Keyset.Job(true, BucketOf(read(d), d), if d in summaries then Some(summaries[d]) else None)
  }

  /**
   After a complete pass every document has a summary, kept or computed from its own chunks, except one
   with an empty id. `page(d)` are the ids of the page of d and `read(d)` the rows read with it, in any order.
   */
  lemma SummariesAfterPass(docs: set<string>, chunks: seq<ChunkRow>, summaries: map<string, Summary>,
                           noisy: Role -> bool, page: string -> set<string>, read: string -> seq<ChunkRow>, d: string)
    requires d in docs && d in page(d) && multiset(read(d)) == multiset(RowsOf(chunks, page(d)))
    ensures var after := Keyset.Full(Jobs(docs, read, summaries), b => Some(Summarize(b, noisy)));
            && d in after
            && after[d].output == if d in summaries then Some(summaries[d])
                                  else if d == "" then None
                                  else Some(Summarize(BucketOf(chunks, d), noisy))
    ensures var after := Keyset.Full(Jobs(docs, read, summaries), b => Some(Summarize(b, noisy)));
            d !in summaries && d != "" ==>
              && after[d].output.Some?
              && var s := after[d].output.value;
                 && s.childCount == |TierRows(chunks, d, true)| && s.parentCount == |TierRows(chunks, d, false)|
                 && s.mapEligible == |EligibleRows(chunks, d, noisy)|
  {
    BucketCounts(chunks, d, true, noisy);
    BucketCounts(chunks, d, false, noisy);
    var t := Jobs(docs, read, summaries);
    assert d in Keyset.Todo(t) <==> d !in summaries && d != "";
    PageIrrelevant(chunks, page(d), read(d), d);
    SummaryPermuted(BucketOf(read(d), d), BucketOf(chunks, d), noisy);
  }
}

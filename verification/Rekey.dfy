/**
 The one-time identity re-key of scripts/migrate_enrichment_identity.py: rows whose input hash
 is not the lane-free hash of their source are updated in batches, skipping rows that other
 transactions hold locked. Which rows are locked at each batch is up to an adversary.
 */
module Rekey {
  import opened Finite

  datatype Enrichment = Enrichment(source: string, inputHash: string, status: string, provenance: string)

  type Table = map<string, Enrichment>

  predicate IsStale(laneFree: string -> string, e: Enrichment) { e.inputHash != laneFree(e.source) }

  function Stale(t: Table, laneFree: string -> string): set<string> {
    set id | id in t && IsStale(laneFree, t[id])
  }

  /** The UPDATE: only `input_hash` of the given rows changes. */
  function Update(t: Table, laneFree: string -> string, ids: set<string>): Table {
    map id | id in t :: if id in ids then t[id].(inputHash := laneFree(t[id].source)) else t[id]
  }

  /** `changed`: how many rows of each status were re-keyed; the total is its cardinality. */
  datatype Report = Report(rows: nat, same: nat, changed: multiset<string>, skipped: nat)

  ghost predicate CountsStatuses(changed: multiset<string>, t: Table, ids: set<string>) {
    |changed| == |ids| && forall s :: changed[s] == |WithStatus(t, ids, s)|
  }

  function WithStatus(t: Table, ids: set<string>, s: string): set<string> {
    set id | id in ids && id in t && t[id].status == s
  }

  /** Statuses of a list of rows, with multiplicity. */
  function Bag(t: Table, ids: seq<string>): multiset<string> {
    if ids == [] then multiset{}
    else
      var id := ids[|ids| - 1];
      Bag(t, ids[..|ids| - 1]) + if id in t then multiset{t[id].status} else multiset{}
  }

  lemma {:induction false} BagConcat(t: Table, a: seq<string>, b: seq<string>)
    ensures Bag(t, a + b) == Bag(t, a) + Bag(t, b)
  {
    if b == [] {
      assert a + b == a;
    } else {
      var n := |b| - 1;
      assert (a + b)[..|a + b| - 1] == a + b[..n];
      BagConcat(t, a, b[..n]);
    }
  }

  lemma StatusOne(t: Table, ids: set<string>, id: string, s: string)
    requires id in t && id !in ids
    ensures |WithStatus(t, ids + {id}, s)| == |WithStatus(t, ids, s)| + if t[id].status == s then 1 else 0
  {
    assert WithStatus(t, ids + {id}, s) == WithStatus(t, ids, s) + if t[id].status == s then {id} else {};
  }

  lemma {:induction false} BagCounts(t: Table, ids: seq<string>, s: string)
    requires Distinct(ids) && Elements(ids) <= t.Keys
    ensures |Bag(t, ids)| == |ids| && Bag(t, ids)[s] == |WithStatus(t, Elements(ids), s)|
  {
    if ids == [] {
      assert WithStatus(t, Elements(ids), s) == {};
    } else {
      var rest, id := DistinctLast(ids);
      assert id in Elements(ids);
      BagCounts(t, rest, s);
      StatusOne(t, Elements(rest), id, s);
    }
  }

  lemma BagCountsAll(t: Table, ids: seq<string>)
    requires Distinct(ids) && Elements(ids) <= t.Keys
    ensures CountsStatuses(Bag(t, ids), t, Elements(ids))
  {
    BagCounts(t, ids, "");
    DistinctCard(ids);
    forall s ensures Bag(t, ids)[s] == |WithStatus(t, Elements(ids), s)| {
      BagCounts(t, ids, s);
    }
  }

  /** `[... for ... in chunk if eid in free]`. */
  function KeepFree(chunk: seq<string>, free: set<string>): seq<string> {
    if chunk == [] then []
    else KeepFree(chunk[..|chunk| - 1], free) + if chunk[|chunk| - 1] in free then [chunk[|chunk| - 1]] else []
  }

  lemma {:induction false} KeepFreeFacts(chunk: seq<string>, free: set<string>)
    requires Distinct(chunk)
    ensures Distinct(KeepFree(chunk, free)) && Elements(KeepFree(chunk, free)) == Elements(chunk) * free
  {
    if chunk == [] {
      assert Elements(chunk) * free == Elements(KeepFree(chunk, free));
    } else {
      var rest, id := DistinctLast(chunk);
      var kept := KeepFree(rest, free);
      KeepFreeFacts(rest, free);
      if id in free {
        assert id !in Elements(kept);
        DistinctConcat(kept, [id]);
        ElementsSnoc(kept, id);
        assert (Elements(rest) + {id}) * free == Elements(rest) * free + {id};
      } else {
        assert (Elements(rest) + {id}) * free == Elements(rest) * free;
        assert kept + [] == kept;
      }
    }
  }

  lemma UpdateStale(t: Table, laneFree: string -> string, ids: set<string>)
    ensures Stale(Update(t, laneFree, ids), laneFree) == Stale(t, laneFree) - ids
  {
  }

  lemma UpdateTwice(t: Table, laneFree: string -> string, a: set<string>, b: set<string>)
    ensures Update(Update(t, laneFree, a), laneFree, b) == Update(t, laneFree, a + b)
  {
  }

  /** The stale ids in the order the SELECT returned them. */
  function TodoList(t: Table, laneFree: string -> string, order: seq<string>): seq<string> {
    if order == [] then []
    else
      var id := order[|order| - 1];
      TodoList(t, laneFree, order[..|order| - 1]) + if id in t && IsStale(laneFree, t[id]) then [id] else []
  }

  /** Where the batch that starts at i ends. */
  function BatchEnd(n: nat, i: nat, batch: nat): (j: nat)
    requires batch >= 1 && i < n
    ensures i < j <= n
  {
    if i + batch < n then i + batch else n
  }

  /** The ids from position i on that are locked while their own batch runs, the next batch being b. */
  ghost function Held(todo: seq<string>, i: nat, batch: nat, locked: nat -> set<string>, b: nat): set<string>
    requires batch >= 1 && i <= |todo|
    decreases |todo| - i
  {
    if i == |todo| then {}
    else
      var j := BatchEnd(|todo|, i, batch);
      Elements(todo[i..j]) * locked(b) + Held(todo, j, batch, locked, b + 1)
  }

  /** Only locked ids are held, and only ids on the list. */
  lemma {:induction false} HeldIsLocked(todo: seq<string>, i: nat, batch: nat, locked: nat -> set<string>, b: nat,
                                        id: string)
    requires batch >= 1 && i <= |todo| && id in Held(todo, i, batch, locked, b)
    ensures id in Elements(todo) && exists n: nat :: id in locked(n)
    decreases |todo| - i
  {
    var j := BatchEnd(|todo|, i, batch);
    if id !in Elements(todo[i..j]) * locked(b) {
      HeldIsLocked(todo, j, batch, locked, b + 1, id);
    }
  }

  lemma TodoSnoc(t: Table, laneFree: string -> string, order: seq<string>, i: nat)
    requires i < |order|
    ensures TodoList(t, laneFree, order[..i + 1])
         == TodoList(t, laneFree, order[..i])
            + if order[i] in t && IsStale(laneFree, t[order[i]]) then [order[i]] else []
  {
    assert order[..i + 1][..i] == order[..i];
  }

  lemma {:induction false} TodoFacts(t: Table, laneFree: string -> string, order: seq<string>)
    requires Distinct(order)
    ensures Distinct(TodoList(t, laneFree, order))
    ensures Elements(TodoList(t, laneFree, order)) == Elements(order) * Stale(t, laneFree)
  {
    if order == [] {
      assert Elements(order) * Stale(t, laneFree) == Elements(TodoList(t, laneFree, order));
    } else {
      var front, id := DistinctLast(order);
      var todo := TodoList(t, laneFree, front);
      TodoFacts(t, laneFree, front);
      if id in t && IsStale(laneFree, t[id]) {
        DistinctConcat(todo, [id]);
        ElementsSnoc(todo, id);
        assert (Elements(front) + {id}) * Stale(t, laneFree) == Elements(front) * Stale(t, laneFree) + {id};
      } else {
        assert (Elements(front) + {id}) * Stale(t, laneFree) == Elements(front) * Stale(t, laneFree);
        assert todo + [] == todo;
      }
    }
  }

  /** Positions before k whose row has another hash than the lane-free one. */
  ghost function StaleBefore(t: Table, laneFree: string -> string, order: seq<string>, k: nat): set<nat>
    requires k <= |order|
  {
    set q: nat | q < k && order[q] in t && t[order[q]].inputHash != laneFree(t[order[q]].source)
  }

  lemma {:induction false} TodoCount(t: Table, laneFree: string -> string, order: seq<string>, k: nat)
    requires k <= |order|
    ensures |TodoList(t, laneFree, order[..k])| == |StaleBefore(t, laneFree, order, k)|
  {
    if k == 0 {
      assert StaleBefore(t, laneFree, order, 0) == {};
    } else {
      TodoCount(t, laneFree, order, k - 1);
      TodoSnoc(t, laneFree, order, k - 1);
      StaleBeforeNext(t, laneFree, order, k - 1);
    }
  }

  lemma StaleBeforeNext(t: Table, laneFree: string -> string, order: seq<string>, k: nat)
    requires k < |order|
    ensures |StaleBefore(t, laneFree, order, k + 1)|
         == |StaleBefore(t, laneFree, order, k)| + if order[k] in t && IsStale(laneFree, t[order[k]]) then 1 else 0
  {
    var more := if order[k] in t && IsStale(laneFree, t[order[k]]) then {k} else {};
    assert StaleBefore(t, laneFree, order, k + 1) == StaleBefore(t, laneFree, order, k) + more;
  }

  /** A stale row stands on the list behind the stale rows before it. */
  lemma {:induction false} TodoPosition(t: Table, laneFree: string -> string, order: seq<string>, k: nat, n: nat)
    requires k < n <= |order| && order[k] in t && IsStale(laneFree, t[order[k]])
    ensures var p, todo := |TodoList(t, laneFree, order[..k])|, TodoList(t, laneFree, order[..n]);
            p < |todo| && todo[p] == order[k]
    decreases n
  {
    TodoSnoc(t, laneFree, order, n - 1);
    if k < n - 1 {
      TodoPosition(t, laneFree, order, k, n - 1);
    }
  }

  /** Number of the batch that position p falls in: p / batch. */
  function BatchOf(p: nat, batch: nat): nat
    requires batch >= 1
  {
    if p < batch then 0 else 1 + BatchOf(p - batch, batch)
  }

  lemma {:induction false} BatchOfIsQuotient(p: nat, batch: nat)
    requires batch >= 1
    ensures BatchOf(p, batch) == p / batch
  {
    if p >= batch {
      BatchOfIsQuotient(p - batch, batch);
      var q, r := (p - batch) / batch, (p - batch) % batch;
      assert batch * (q + 1) == batch * q + batch;
      ModUnique(p, batch, q + 1, r);
    } else {
      ModUnique(p, batch, 0, p);
    }
  }

  /** The id stands at position p of the list and is locked while the batch of that position runs. */
  ghost predicate HeldAt(todo: seq<string>, batch: nat, locked: nat -> set<string>, id: string, p: nat)
    requires batch >= 1
  {
    p < |todo| && todo[p] == id && id in locked(BatchOf(p, batch))
  }

  lemma FirstBatch(todo: seq<string>, i: nat, j: nat, batch: nat, locked: nat -> set<string>, b: nat, id: string)
    requires batch >= 1 && i <= j <= |todo| && forall p: nat :: i <= p < j ==> BatchOf(p, batch) == b
    ensures id in Elements(todo[i..j]) * locked(b) <==>
            exists p: nat :: i <= p < j && HeldAt(todo, batch, locked, id, p)
  {
    if id in Elements(todo[i..j]) * locked(b) {
      var q :| 0 <= q < j - i && todo[i..j][q] == id;
      assert BatchOf(i + q, batch) == b && HeldAt(todo, batch, locked, id, i + q);
    }
    if p: nat :| i <= p < j && HeldAt(todo, batch, locked, id, p) {
      assert todo[i..j][p - i] == id;
    }
  }

  /** Batch b starts at position i. */
  ghost predicate BatchStarts(n: nat, batch: nat, i: nat, b: nat)
    requires batch >= 1
  {
    forall p: nat :: i <= p < n ==> BatchOf(p, batch) == b + BatchOf(p - i, batch)
  }

  lemma NextBatch(n: nat, batch: nat, i: nat, b: nat)
    requires batch >= 1 && i < n && BatchStarts(n, batch, i, b)
    ensures BatchStarts(n, batch, BatchEnd(n, i, batch), b + 1)
    ensures forall p: nat :: i <= p < BatchEnd(n, i, batch) ==> BatchOf(p, batch) == b
  {
    forall p: nat | BatchEnd(n, i, batch) <= p < n
      ensures BatchOf(p, batch) == b + 1 + BatchOf(p - BatchEnd(n, i, batch), batch)
    {
      assert BatchOf(p - i, batch) == 1 + BatchOf(p - i - batch, batch);
    }
    forall p: nat | i <= p < BatchEnd(n, i, batch) ensures BatchOf(p, batch) == b {
      assert BatchOf(p - i, batch) == 0;
    }
  }

  lemma {:induction false} HeldMeaning(todo: seq<string>, i: nat, batch: nat, locked: nat -> set<string>, b: nat,
                                       id: string)
    requires batch >= 1 && i <= |todo| && BatchStarts(|todo|, batch, i, b)
    ensures id in Held(todo, i, batch, locked, b) <==> exists p: nat :: i <= p && HeldAt(todo, batch, locked, id, p)
    decreases |todo| - i
  {
    if i < |todo| {
      var j := BatchEnd(|todo|, i, batch);
      NextBatch(|todo|, batch, i, b);
      FirstBatch(todo, i, j, batch, locked, b, id);
      HeldMeaning(todo, j, batch, locked, b + 1, id);
    }
  }

  /** Split the rows read by the SELECT into those already lane-free and those to do. */
  method Scan(t: Table, laneFree: string -> string, order: seq<string>) returns (todo: seq<string>, same: nat)
    requires Distinct(order) && Elements(order) == t.Keys
    ensures todo == TodoList(t, laneFree, order) && same + |todo| == |order|
    ensures Distinct(todo) && Elements(todo) == Stale(t, laneFree)
  {
    todo, same := [], 0;
    for i := 0 to |order|
      invariant todo == TodoList(t, laneFree, order[..i]) && same + |todo| == i
    {
      var id := order[i];
      assert id in Elements(order);
      TodoSnoc(t, laneFree, order, i);
      if laneFree(t[id].source) == t[id].inputHash {
        same := same + 1;
      } else {
        todo := todo + [id];
      }
    }
    assert order[..|order|] == order;
    TodoFacts(t, laneFree, order);
    assert t.Keys * Stale(t, laneFree) == Stale(t, laneFree);
  }

  lemma KeepOne(t: Table, chunk: seq<string>, id: string, free: set<string>)
    requires id in t
    ensures Bag(t, KeepFree(chunk + [id], free))
         == Bag(t, KeepFree(chunk, free)) + if id in free then multiset{t[id].status} else multiset{}
  {
    var kept := KeepFree(chunk, free);
    assert (chunk + [id])[..|chunk|] == chunk;
    if id in free {
      assert (kept + [id])[..|kept|] == kept;
    } else {
      assert kept + [] == kept;
    }
  }

  /** Count the statuses of the rows of one chunk that were free. */
  method CountChunk(t: Table, chunk: seq<string>, free: set<string>, changed: multiset<string>)
    returns (changed': multiset<string>)
    requires Elements(chunk) <= t.Keys
    ensures changed' == changed + Bag(t, KeepFree(chunk, free))
  {
    changed' := changed;
    ghost var bag: multiset<string> := multiset{};
    for i := 0 to |chunk|
      invariant bag == Bag(t, KeepFree(chunk[..i], free)) && changed' == changed + bag
    {
      var id := chunk[i];
      assert id in Elements(chunk);
      assert chunk[..i + 1] == chunk[..i] + [id];
      KeepOne(t, chunk[..i], id, free);
      if id in free {
        var one := multiset{t[id].status};
        AddLast(changed, bag, one);
        changed' := changed' + one;
        bag := bag + one;
      }
    }
    assert chunk[..|chunk|] == chunk;
  }

  lemma AddLast(a: multiset<string>, b: multiset<string>, c: multiset<string>)
    ensures a + b + c == a + (b + c)
  {
  }

  /** A dry run counts every stale row as if it were free. */
  method CountAll(t: Table, todo: seq<string>) returns (changed: multiset<string>)
    requires Distinct(todo) && Elements(todo) <= t.Keys
    ensures CountsStatuses(changed, t, Elements(todo))
  {
    var all := set id | id in todo;
    changed := CountChunk(t, todo, all, multiset{});
    KeepEverything(todo, all);
    BagCountsAll(t, todo);
    assert multiset{} + Bag(t, todo) == Bag(t, todo);
  }

  lemma {:induction false} KeepEverything(chunk: seq<string>, free: set<string>)
    requires forall i :: 0 <= i < |chunk| ==> chunk[i] in free
    ensures KeepFree(chunk, free) == chunk
  {
    if chunk != [] {
      var front, id := chunk[..|chunk| - 1], chunk[|chunk| - 1];
      assert chunk == front + [id];
      KeepEverything(front, free);
    }
  }

  class Migration {
    var rows: Table

    constructor (rows: Table)
      ensures this.rows == rows
    {
      this.rows := rows;
    }

    /**
     `rekey`. Rows are either already lane-free, re-keyed or skipped; an executed run skips exactly the
     stale rows that are locked while their own batch runs, and exactly those stay stale; only the input
     hash of the re-keyed rows has changed. `locked(b)` is what other transactions hold during batch b.
     */
    method Rekey(laneFree: string -> string, order: seq<string>, execute: bool, batch: nat, locked: nat -> set<string>)
      returns (report: Report, ghost skipped: set<string>)
      requires batch >= 1 && Distinct(order) && Elements(order) == rows.Keys
      modifies this
      ensures report.rows == |order| == report.same + |report.changed| + report.skipped
      ensures report.same == |order| - |Stale(old(rows), laneFree)|
      ensures skipped == if execute then Held(TodoList(old(rows), laneFree, order), 0, batch, locked, 0) else {}
      ensures skipped <= Stale(old(rows), laneFree) && report.skipped == |skipped|
      ensures CountsStatuses(report.changed, old(rows), Stale(old(rows), laneFree) - skipped)
      ensures rows == if execute then RunOnce(old(rows), laneFree, order, batch, locked) else old(rows)
      ensures rows.Keys == old(rows).Keys
      ensures forall id :: id in rows ==>
                rows[id] == if execute && id !in skipped
                            then old(rows)[id].(inputHash := laneFree(old(rows)[id].source)) else old(rows)[id]
      ensures execute ==> Stale(rows, laneFree) == skipped
      ensures execute && (forall b: nat :: locked(b) !! Stale(old(rows), laneFree)) ==> Stale(rows, laneFree) == {}
    {
      var fetched := rows;
      var todo, same := Scan(fetched, laneFree, order);
      DistinctCard(todo);
      DistinctCard(order);
      ghost var stale := Stale(rows, laneFree);
      if !execute {
        var changed := CountAll(fetched, todo);
        assert stale - {} == stale;
        assert forall id :: id in rows ==> rows[id] == old(rows)[id];
        return Report(|order|, same, changed, 0), {};
      }
      var changed, skippedCount;
      changed, skippedCount, skipped := Execute(laneFree, fetched, todo, batch, locked);
      ExecutedRun(fetched, laneFree, todo, batch, locked);
      UpdateMeaning(fetched, laneFree, skipped);
      report := Report(|order|, same, changed, skippedCount);
    }

    /** One batch: lock what is free, update it, count it. */
    method RunBatch(laneFree: string -> string, fetched: Table, chunk: seq<string>, lockedNow: set<string>,
                    changed: multiset<string>, count: nat,
                    ghost done: seq<string>, ghost skipped: set<string>, ghost seen: set<string>)
      returns (changed': multiset<string>, count': nat, ghost done': seq<string>, ghost skipped': set<string>)
      requires Batched(fetched, rows, laneFree, changed, count, done, skipped, seen)
      requires Distinct(chunk) && Elements(chunk) <= fetched.Keys && seen !! Elements(chunk)
      modifies this
      ensures Batched(fetched, rows, laneFree, changed', count', done', skipped', seen + Elements(chunk))
      ensures skipped' == skipped + Elements(chunk) * lockedNow
    {
      var free := (set id | id in chunk) - lockedNow;
      ghost var held, kept := Elements(chunk) * lockedNow, KeepFree(chunk, free);
      KeepFreeFacts(chunk, free);
      HeldCard(chunk, free, held);
      ChunkSets(seen, Elements(chunk), Elements(done), skipped, free, held);
      count' := count + (|chunk| - |free|);
      UpdateTwice(fetched, laneFree, Elements(done), free);
      rows := Update(rows, laneFree, free);
      changed' := CountChunk(fetched, chunk, free, changed);
      BagConcat(fetched, done, kept);
      DistinctConcat(done, kept);
      done', skipped' := done + kept, skipped + held;
    }

    /** The batches of an executed run. */
    method Execute(laneFree: string -> string, fetched: Table, todo: seq<string>, batch: nat,
                   locked: nat -> set<string>)
      returns (changed: multiset<string>, skippedCount: nat, ghost skipped: set<string>)
      requires batch >= 1 && rows == fetched && Distinct(todo) && Elements(todo) <= fetched.Keys
      modifies this
      ensures skipped == Held(todo, 0, batch, locked, 0)
      ensures skipped <= Elements(todo) && skippedCount == |skipped|
      ensures CountsStatuses(changed, fetched, Elements(todo) - skipped)
      ensures rows == Update(fetched, laneFree, Elements(todo) - skipped)
    {
      changed, skippedCount, skipped := multiset{}, 0, {};
      var i, b := 0, 0;
      ghost var done: seq<string>, held := [], Held(todo, 0, batch, locked, 0);
      assert Update(rows, laneFree, Elements(done)) == rows;
      while i < |todo|
        invariant 0 <= i <= |todo|
        invariant Batched(fetched, rows, laneFree, changed, skippedCount, done, skipped, Elements(todo[..i]))
        invariant skipped + Held(todo, i, batch, locked, b) == held
      {
        var j := BatchEnd(|todo|, i, batch);
        Chunk(todo, i, j);
        ghost var now := Elements(todo[i..j]) * locked(b);
        JoinHeld(skipped, now, Held(todo, j, batch, locked, b + 1));
        changed, skippedCount, done, skipped :=
          RunBatch(laneFree, fetched, todo[i..j], locked(b), changed, skippedCount, done, skipped, Elements(todo[..i]));
        i, b := j, b + 1;
      }
      assert todo[..|todo|] == todo;
      AllBatched(fetched, rows, laneFree, changed, skippedCount, done, skipped, Elements(todo));
    }
  }

  lemma AllBatched(fetched: Table, now: Table, laneFree: string -> string, changed: multiset<string>, count: nat,
                   done: seq<string>, skipped: set<string>, seen: set<string>)
    requires Batched(fetched, now, laneFree, changed, count, done, skipped, seen) && seen <= fetched.Keys
    ensures skipped <= seen && count == |skipped|
    ensures CountsStatuses(changed, fetched, seen - skipped) && now == Update(fetched, laneFree, seen - skipped)
  {
    assert Elements(done) == seen - skipped;
    BagCountsAll(fetched, done);
  }

  /** The ids seen so far are re-keyed or skipped, and everything counted says so. */
  ghost predicate Batched(fetched: Table, now: Table, laneFree: string -> string, changed: multiset<string>, count: nat,
                          done: seq<string>, skipped: set<string>, seen: set<string>)
  {
    && Distinct(done) && Elements(done) !! skipped && Elements(done) + skipped == seen
    && count == |skipped| && changed == Bag(fetched, done) && now == Update(fetched, laneFree, Elements(done))
  }

  lemma JoinHeld(a: set<string>, b: set<string>, c: set<string>)
    ensures a + (b + c) == a + b + c
  {
  }

  lemma SplitCard(all: set<string>, part: set<string>)
    requires part <= all
    ensures |all - part| + |part| == |all|
  {
    assert all == (all - part) + part;
  }

  lemma ChunkSets(before: set<string>, chunk: set<string>, done: set<string>, skipped: set<string>,
                  free: set<string>, held: set<string>)
    requires before !! chunk && done !! skipped && done + skipped == before && free !! held && free + held == chunk
    ensures (done + free) !! (skipped + held) && done + free + (skipped + held) == before + chunk
    ensures chunk * free == free && done !! free && |skipped + held| == |skipped| + |held|
  {
  }

  lemma Chunk(todo: seq<string>, i: nat, j: nat)
    requires Distinct(todo) && i <= j <= |todo|
    ensures Distinct(todo[i..j]) && Elements(todo[..j]) == Elements(todo[..i]) + Elements(todo[i..j])
    ensures Elements(todo[..i]) !! Elements(todo[i..j]) && Elements(todo[i..j]) <= Elements(todo)
  {
    assert todo[..j] == todo[..i] + todo[i..j];
    forall id | id in todo[i..j] ensures id in todo {
    }
  }

  lemma HeldCard(chunk: seq<string>, free: set<string>, held: set<string>)
    requires Distinct(chunk) && free + held == Elements(chunk) && free !! held
    ensures |chunk| - |free| == |held|
  {
    DistinctCard(chunk);
    assert |free + held| == |free| + |held|;
  }

  // ----- repeated runs

  /** Executed runs, each skipping some set of ids. */
  function Runs(t: Table, laneFree: string -> string, skips: seq<set<string>>): Table
    decreases |skips|
  {
    if skips == [] then t
    else Runs(Update(t, laneFree, Stale(t, laneFree) - skips[0]), laneFree, skips[1..])
  }

  /** A row is stale after a series of runs exactly when it was stale before and every run skipped it. */
  lemma {:induction false} StaleAfterRuns(t: Table, laneFree: string -> string, skips: seq<set<string>>, id: string)
    ensures id in Stale(Runs(t, laneFree, skips), laneFree) <==>
            id in Stale(t, laneFree) && forall i :: 0 <= i < |skips| ==> id in skips[i]
    ensures id in t ==> id in Runs(t, laneFree, skips)
                        && Runs(t, laneFree, skips)[id].(inputHash := "") == t[id].(inputHash := "")
    decreases |skips|
  {
    if skips != [] {
      var next := Update(t, laneFree, Stale(t, laneFree) - skips[0]);
      UpdateStale(t, laneFree, Stale(t, laneFree) - skips[0]);
      StaleAfterRuns(next, laneFree, skips[1..], id);
      assert skips == [skips[0]] + skips[1..];
    }
  }

  lemma UnlockedHoldsNothing(todo: seq<string>, batch: nat, locked: nat -> set<string>)
    requires batch >= 1
    ensures (forall b: nat :: locked(b) !! Elements(todo)) ==> Held(todo, 0, batch, locked, 0) == {}
  {
    forall id | id in Held(todo, 0, batch, locked, 0) ensures exists b: nat :: id in locked(b) && id in Elements(todo) {
      HeldIsLocked(todo, 0, batch, locked, 0, id);
    }
  }

  /** A stale row is held exactly when it is locked during the batch that the stale rows before it fill up to. */
  lemma SkippedMeaning(t: Table, laneFree: string -> string, order: seq<string>, batch: nat, locked: nat -> set<string>,
                       k: nat)
    requires batch >= 1 && Distinct(order) && k < |order| && order[k] in t
    requires t[order[k]].inputHash != laneFree(t[order[k]].source)
    ensures order[k] in Held(TodoList(t, laneFree, order), 0, batch, locked, 0) <==>
            order[k] in locked(BatchOf(|StaleBefore(t, laneFree, order, k)|, batch))
  {
    var todo, p := TodoList(t, laneFree, order), |StaleBefore(t, laneFree, order, k)|;
    TodoFacts(t, laneFree, order);
    TodoCount(t, laneFree, order, k);
    TodoPosition(t, laneFree, order, k, |order|);
    assert order[..|order|] == order;
    HeldWhere(todo, batch, locked, p);
  }

  /** On a list without repetition the one position of an id decides. */
  lemma HeldWhere(todo: seq<string>, batch: nat, locked: nat -> set<string>, p: nat)
    requires batch >= 1 && Distinct(todo) && p < |todo|
    ensures todo[p] in Held(todo, 0, batch, locked, 0) <==> todo[p] in locked(BatchOf(p, batch))
  {
    HeldMeaning(todo, 0, batch, locked, 0, todo[p]);
    assert HeldAt(todo, batch, locked, todo[p], p) <==> todo[p] in locked(BatchOf(p, batch));
  }

  /** The table after a run: every row not skipped has the lane-free hash, nothing else changes. */
  lemma UpdateMeaning(t: Table, laneFree: string -> string, skipped: set<string>)
    ensures var after := Update(t, laneFree, Stale(t, laneFree) - skipped);
            && after.Keys == t.Keys
            && forall id :: id in after ==>
                 after[id] == if id !in skipped then t[id].(inputHash := laneFree(t[id].source)) else t[id]
  {
  }

  /** What the held rows decide about an executed run. */
  lemma ExecutedRun(t: Table, laneFree: string -> string, todo: seq<string>, batch: nat, locked: nat -> set<string>)
    requires batch >= 1 && Elements(todo) == Stale(t, laneFree)
    ensures var stale, held := Stale(t, laneFree), Held(todo, 0, batch, locked, 0);
            && held <= stale && |stale - held| + |held| == |stale|
            && Stale(Update(t, laneFree, stale - held), laneFree) == held
            && ((forall b: nat :: locked(b) !! stale) ==> held == {})
  {
    var stale, held := Stale(t, laneFree), Held(todo, 0, batch, locked, 0);
    forall id | id in held ensures id in stale {
      HeldIsLocked(todo, 0, batch, locked, 0, id);
    }
    SplitCard(stale, held);
    UpdateStale(t, laneFree, stale - held);
    UnlockedHoldsNothing(todo, batch, locked);
    assert stale - (stale - held) == held;
  }

  /** The table after one executed run over the rows in the given order. */
  ghost function RunOnce(t: Table, laneFree: string -> string, order: seq<string>, batch: nat,
                         locked: nat -> set<string>): Table
    requires batch >= 1
  {
    Update(t, laneFree, Stale(t, laneFree) - Held(TodoList(t, laneFree, order), 0, batch, locked, 0))
  }

  lemma {:induction false} TodoAreStale(t: Table, laneFree: string -> string, order: seq<string>)
    ensures Elements(TodoList(t, laneFree, order)) <= Stale(t, laneFree)
  {
    if order != [] { TodoAreStale(t, laneFree, order[..|order| - 1]); }
  }

  /**
   A run during which no stale row is locked leaves nothing stale, and every later run, whatever is
   locked then, changes nothing.
   */
  lemma UnlockedRunIsFinal(t: Table, laneFree: string -> string,
                           order: seq<string>, batch: nat, locked: nat -> set<string>,
                           order': seq<string>, batch': nat, locked': nat -> set<string>)
    requires batch >= 1 && batch' >= 1 && forall b: nat :: locked(b) !! Stale(t, laneFree)
    ensures var done := RunOnce(t, laneFree, order, batch, locked);
            Stale(done, laneFree) == {} && RunOnce(done, laneFree, order', batch', locked') == done
  {
    var todo := TodoList(t, laneFree, order);
    TodoAreStale(t, laneFree, order);
    UnlockedHoldsNothing(todo, batch, locked);
    UpdateStale(t, laneFree, Stale(t, laneFree) - {});
    assert RunOnce(t, laneFree, order, batch, locked) == Update(t, laneFree, Stale(t, laneFree) - {});
  }

  /** Repeated runs never add a stale row, whatever is locked. */
  lemma StaleNeverGrows(t: Table, laneFree: string -> string, order: seq<string>, batch: nat,
                        locked: nat -> set<string>)
    requires batch >= 1
    ensures Stale(RunOnce(t, laneFree, order, batch, locked), laneFree)
         == Stale(t, laneFree) * Held(TodoList(t, laneFree, order), 0, batch, locked, 0)
  {
    UpdateStale(t, laneFree, Stale(t, laneFree) - Held(TodoList(t, laneFree, order), 0, batch, locked, 0));
  }

  /** One executed run: the order of its SELECT, its batch size, and what is locked during each batch. */
  datatype Round = Round(order: seq<string>, batch: nat, locked: nat -> set<string>)

  ghost function Rounds(t: Table, laneFree: string -> string, rounds: seq<Round>): Table
    requires forall i :: 0 <= i < |rounds| ==> rounds[i].batch >= 1
    decreases |rounds|
  {
    if rounds == [] then t
    else
      var r := rounds[0];
      Rounds(RunOnce(t, laneFree, r.order, r.batch, r.locked), laneFree, rounds[1..])
  }

  /** The rows each run finds stale and locked in their own batch. */
  ghost function HeldEach(t: Table, laneFree: string -> string, rounds: seq<Round>): (s: seq<set<string>>)
    requires forall i :: 0 <= i < |rounds| ==> rounds[i].batch >= 1
    ensures |s| == |rounds|
    decreases |rounds|
  {
    if rounds == [] then []
    else
      var r := rounds[0];
      [Held(TodoList(t, laneFree, r.order), 0, r.batch, r.locked, 0)]
      + HeldEach(RunOnce(t, laneFree, r.order, r.batch, r.locked), laneFree, rounds[1..])
  }

  lemma {:induction false} RoundsAreRuns(t: Table, laneFree: string -> string, rounds: seq<Round>)
    requires forall i :: 0 <= i < |rounds| ==> rounds[i].batch >= 1
    ensures Rounds(t, laneFree, rounds) == Runs(t, laneFree, HeldEach(t, laneFree, rounds))
    decreases |rounds|
  {
    if rounds != [] {
      var r := rounds[0];
      var next := RunOnce(t, laneFree, r.order, r.batch, r.locked);
      RoundsAreRuns(next, laneFree, rounds[1..]);
      assert HeldEach(t, laneFree, rounds)[1..] == HeldEach(next, laneFree, rounds[1..]);
    }
  }

  /** After any series of runs, exactly the rows stale at first and held by every run are stale. */
  lemma StaleAfterRounds(t: Table, laneFree: string -> string, rounds: seq<Round>, id: string)
    requires forall i :: 0 <= i < |rounds| ==> rounds[i].batch >= 1
    ensures id in Stale(Rounds(t, laneFree, rounds), laneFree) <==>
            id in Stale(t, laneFree) && forall i :: 0 <= i < |rounds| ==> id in HeldEach(t, laneFree, rounds)[i]
  {
    RoundsAreRuns(t, laneFree, rounds);
    StaleAfterRuns(t, laneFree, HeldEach(t, laneFree, rounds), id);
  }
}

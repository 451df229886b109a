/**
 The keyset-paginated backfill loop shared by scripts/backfill_extract_projection.py and
 scripts/backfill_document_chunk_summary.py. A job is a row of the driving table: whether the
 WHERE clause selects its kind, the input to derive from, and the derived columns, absent
 until the pass has filled them.
 */
module Keyset {
  import opened Finite
  import opened Lex

  datatype Job<I, O> = Job(selected: bool, input: I, output: Option<O>)

  type Table<I, O> = map<string, Job<I, O>>

  predicate Eligible<I, O>(j: Job<I, O>) { j.selected && j.output.None? }

  /** Ids the SELECT can return after `last`. */
  function Pending<I, O>(t: Table<I, O>, last: string): set<string> {
    set id | id in t && Eligible(t[id]) && Less(last, id)
  }

  /** Ids a full pass processes: it starts after the empty string. */
  function Todo<I, O>(t: Table<I, O>): set<string> { Pending(t, "") }

  predicate Derivable<I, O>(t: Table<I, O>, derive: I -> Option<O>, id: string) {
    id in t && derive(t[id].input).Some?
  }

  /** Write the derived columns of the given ids; a row whose derivation fails is left alone. */
  function Fill<I, O>(t: Table<I, O>, derive: I -> Option<O>, ids: set<string>): Table<I, O> {
    map id | id in t :: if id in ids && derive(t[id].input).Some? then t[id].(output := derive(t[id].input)) else t[id]
  }

  function Failing<I, O>(t: Table<I, O>, derive: I -> Option<O>, ids: set<string>): set<string> {
    set id | id in ids && !Derivable(t, derive, id)
  }

  /** The table after a complete pass. */
  function Full<I, O>(t: Table<I, O>, derive: I -> Option<O>): Table<I, O> { Fill(t, derive, Todo(t)) }

  // ----- resuming

  lemma FillTodo<I, O>(t: Table<I, O>, derive: I -> Option<O>, ids: set<string>)
    requires ids <= Todo(t)
    ensures Todo(Fill(t, derive, ids)) == Todo(t) - (ids - Failing(t, derive, ids))
  {
  }

  /** Filling some rows and then the rest is filling all of them. */
  lemma FillThenFull<I, O>(t: Table<I, O>, derive: I -> Option<O>, ids: set<string>)
    requires ids <= Todo(t)
    ensures Full(Fill(t, derive, ids), derive) == Full(t, derive)
  {
    var mid := Fill(t, derive, ids);
    FillTodo(t, derive, ids);
    forall id | id in t ensures Full(mid, derive)[id] == Full(t, derive)[id] {
      assert mid[id].input == t[id].input;
      if id in ids && derive(t[id].input).Some? {
        assert id !in Todo(mid);
      }
    }
    assert Full(mid, derive).Keys == t.Keys;
    assert Full(t, derive).Keys == t.Keys;
  }

  /** Runs that each died having committed some of the rows they were to process. */
  function Interrupted<I, O>(t: Table<I, O>, derive: I -> Option<O>, crashes: seq<set<string>>): Table<I, O>
    decreases |crashes|
  {
    if crashes == [] then t else Interrupted(Fill(t, derive, crashes[0] * Todo(t)), derive, crashes[1..])
  }

  /** Any series of interrupted runs followed by a complete one equals one uninterrupted run. */
  lemma {:induction false} ResumeEqualsOneRun<I, O>(t: Table<I, O>, derive: I -> Option<O>, crashes: seq<set<string>>)
    ensures Full(Interrupted(t, derive, crashes), derive) == Full(t, derive)
    decreases |crashes|
  {
    if crashes != [] {
      ResumeEqualsOneRun(Fill(t, derive, crashes[0] * Todo(t)), derive, crashes[1..]);
      FillThenFull(t, derive, crashes[0] * Todo(t));
    }
  }

  /** A later run sees only the rows whose derivation failed, and changes nothing. */
  lemma LaterRunSeesFailures<I, O>(t: Table<I, O>, derive: I -> Option<O>)
    ensures Todo(Full(t, derive)) == Failing(t, derive, Todo(t))
    ensures Full(Full(t, derive), derive) == Full(t, derive)
  {
    FillTodo(t, derive, Todo(t));
    FillThenFull(t, derive, Todo(t));
  }

  // ----- paging

  function PageSize(limit: nat, p: set<string>): nat { if limit < |p| then limit else |p| }

  /**
   `ORDER BY id LIMIT size` over the pending ids p: the page is full or exhausts p, and ends before every
   other id.
   */
  ghost predicate IsPage(page: seq<string>, p: set<string>, size: nat) {
    && Increasing(page) && Distinct(page) && Elements(page) <= p
    && |page| == PageSize(size, p)
    && (page != [] ==> forall id :: id in p ==> (id in Elements(page) <==> !Less(page[|page| - 1], id)))
  }

  lemma IncreasingDistinct(s: seq<string>)
    requires Increasing(s)
    ensures Distinct(s)
  {
    forall i, j | 0 <= i < j < |s| ensures s[i] != s[j] {
      Trichotomy(s[i], s[i]);
    }
  }

  lemma FirstOfIncreasing(s: seq<string>, p: set<string>, k: nat)
    requires Increasing(s) && Elements(s) == p && |s| == |p| && k <= |s|
    ensures IsPage(s[..k], p, k)
  {
    var page := s[..k];
    IncreasingDistinct(s);
    forall id | id in page ensures id in s {
    }
    if k > 0 {
      forall id | id in p ensures id in Elements(page) <==> !Less(page[k - 1], id) {
        PrefixIsUpTo(s, k, id);
      }
    }
  }

  lemma PrefixIsUpTo(s: seq<string>, k: nat, id: string)
    requires Increasing(s) && Distinct(s) && 0 < k <= |s| && id in s
    ensures id in Elements(s[..k]) <==> !Less(s[k - 1], id)
  {
    var i :| 0 <= i < |s| && s[i] == id;
    Trichotomy(s[i], s[k - 1]);
    if i < k {
      assert s[..k][i] == id;
      assert i < k - 1 ==> Less(s[i], s[k - 1]);
    } else {
      assert Less(s[k - 1], s[i]);
      assert id !in s[..k];
    }
  }

  /** Cursor invariant: exactly the finished ids are behind the cursor, and only they were written. */
  ghost predicate Progress<I, O>(start: Table<I, O>, now: Table<I, O>, derive: I -> Option<O>, dryRun: bool,
                                 done: set<string>, last: string)
  {
    && done <= Todo(start) && now == Written(start, derive, done, dryRun)
    && forall id :: id in Todo(start) ==> (id in done <==> !Less(last, id))
  }

  /** A dry run writes nothing. */
  function Written<I, O>(t: Table<I, O>, derive: I -> Option<O>, ids: set<string>, dryRun: bool): Table<I, O> {
    if dryRun then t else Fill(t, derive, ids)
  }

  lemma WrittenNone<I, O>(t: Table<I, O>, derive: I -> Option<O>, dryRun: bool)
    ensures Written(t, derive, {}, dryRun) == t
  {
    assert Fill(t, derive, {}) == t;
  }

  lemma WrittenOne<I, O>(t: Table<I, O>, derive: I -> Option<O>, ids: set<string>, id: string, dryRun: bool)
    requires id in t && id !in ids
    ensures var before := Written(t, derive, ids, dryRun);
            && id in before && before[id] == t[id]
            && Written(t, derive, ids + {id}, dryRun)
               == if dryRun || derive(t[id].input).None? then before
                  else before[id := t[id].(output := derive(t[id].input))]
  {
  }

  lemma WrittenTwice<I, O>(t: Table<I, O>, derive: I -> Option<O>, a: set<string>, b: set<string>, dryRun: bool)
    ensures Written(Written(t, derive, a, dryRun), derive, b, dryRun) == Written(t, derive, a + b, dryRun)
    ensures Written(t, derive, a, dryRun).Keys == t.Keys
    ensures forall id :: id in t ==> Written(t, derive, a, dryRun)[id].input == t[id].input
  {
  }

  lemma FailOne<I, O>(t: Table<I, O>, derive: I -> Option<O>, ids: set<string>, id: string)
    requires id in t && id !in ids
    ensures |Failing(t, derive, ids + {id})| == |Failing(t, derive, ids)| + if derive(t[id].input).Some? then 0 else 1
  {
    assert Failing(t, derive, ids + {id}) == Failing(t, derive, ids) + if derive(t[id].input).Some? then {} else {id};
  }

  lemma TakeOne(page: seq<string>, i: nat)
    requires Distinct(page) && i < |page|
    ensures Elements(page[..i + 1]) == Elements(page[..i]) + {page[i]} && page[i] !in Elements(page[..i])
  {
    assert page[..i + 1] == page[..i] + [page[i]];
  }

  /** What the next SELECT ranges over. */
  lemma Remaining<I, O>(start: Table<I, O>, now: Table<I, O>, derive: I -> Option<O>, dryRun: bool,
                        done: set<string>, last: string)
    requires Progress(start, now, derive, dryRun, done, last)
    ensures Pending(now, last) == Todo(start) - done
  {
    forall id ensures id in Pending(now, last) <==> id in Todo(start) && id !in done {
      if id in now && Eligible(now[id]) && Less(last, id) {
        assert id in start && (id in done ==> id in Todo(start));
        assert Eligible(start[id]);
        assert Less("", id);
      }
    }
  }

  /** A page moves the cursor past exactly its own rows. */
  lemma Advance<I, O>(start: Table<I, O>, now: Table<I, O>, derive: I -> Option<O>, dryRun: bool,
                      done: set<string>, last: string, page: seq<string>, size: nat)
    requires Progress(start, now, derive, dryRun, done, last)
    requires page != [] && IsPage(page, Pending(now, last), size)
    ensures done !! Elements(page) && Elements(page) <= now.Keys
    ensures Progress(start, Written(now, derive, Elements(page), dryRun), derive, dryRun,
                     done + Elements(page), page[|page| - 1])
  {
    Remaining(start, now, derive, dryRun, done, last);
    WrittenTwice(start, derive, done, Elements(page), dryRun);
    var top := page[|page| - 1];
    assert top in Elements(page);
    forall id | id in Todo(start) ensures id in done + Elements(page) <==> !Less(top, id) {
      if id in done {
        BehindStaysBehind(last, top, id);
      }
    }
  }

  lemma BehindStaysBehind(last: string, top: string, id: string)
    requires Less(last, top) && !Less(last, id)
    ensures !Less(top, id)
  {
    if Less(top, id) { Transitive(last, top, id); }
  }

  lemma CountAdds<I, O>(start: Table<I, O>, now: Table<I, O>, derive: I -> Option<O>, dryRun: bool,
                        done: set<string>, b: set<string>)
    requires now == Written(start, derive, done, dryRun) && done !! b
    ensures |Failing(start, derive, done + b)| == |Failing(start, derive, done)| + |Failing(now, derive, b)|
    ensures |done + b| == |done| + |b|
  {
    WrittenTwice(start, derive, done, b, dryRun);
    assert Failing(start, derive, done + b) == Failing(start, derive, done) + Failing(start, derive, b);
    assert Failing(now, derive, b) == Failing(start, derive, b);
  }

  datatype Totals = Totals(processed: nat, updated: nat, errors: nat)

  class Pass<I, O> {
    var rows: Table<I, O>

    constructor (rows: Table<I, O>)
      ensures this.rows == rows
    {
      this.rows := rows;
    }

    method Select(last: string, size: nat) returns (page: seq<string>)
      ensures IsPage(page, Pending(rows, last), size)
    {
      var pending := Pending(rows, last);
      var k := PageSize(size, pending);
      var ordered := Sorted(pending);
      SortedIncreasing(pending);
      FirstOfIncreasing(ordered, pending, k);
      page := ordered[..k];
    }

    /** The body of one page: derive, update, count. */
    method Process(derive: I -> Option<O>, page: seq<string>, dryRun: bool) returns (count: Totals)
      requires Distinct(page) && Elements(page) <= rows.Keys
      modifies this
      ensures rows == Written(old(rows), derive, Elements(page), dryRun)
      ensures count.processed == |page| == count.updated + count.errors
      ensures count.errors == |Failing(old(rows), derive, Elements(page))|
    {
      count := Totals(0, 0, 0);
      WrittenNone(rows, derive, dryRun);
      assert Elements(page[..0]) == {};
      ghost var start := rows;
      for i := 0 to |page|
        invariant rows == Written(start, derive, Elements(page[..i]), dryRun)
        invariant count.processed == i == count.updated + count.errors
        invariant count.errors == |Failing(start, derive, Elements(page[..i]))|
      {
        var id := page[i];
        assert id in Elements(page);
        TakeOne(page, i);
        WrittenOne(start, derive, Elements(page[..i]), id, dryRun);
        FailOne(start, derive, Elements(page[..i]), id);
        var derived := derive(rows[id].input);
        count := count.(processed := count.processed + 1);
        if derived.None? {
          count := count.(errors := count.errors + 1);
        } else {
          if !dryRun {
            rows := rows[id := rows[id].(output := derived)];
          }
          count := count.(updated := count.updated + 1);
        }
      }
      assert page[..|page|] == page;
    }

    /** One SELECT and its page; nothing is left when the page is empty. */
    method NextPage(derive: I -> Option<O>, batchSize: nat, dryRun: bool, last: string,
                    ghost start: Table<I, O>, ghost done: set<string>)
      returns (page: seq<string>, count: Totals)
      requires Progress(start, rows, derive, dryRun, done, last)
      modifies this
      ensures batchSize == 0 ==> page == []
      ensures page == [] ==> rows == old(rows) && (batchSize == 0 || done == Todo(start))
      ensures page != [] ==> Progress(start, rows, derive, dryRun, done + Elements(page), page[|page| - 1])
      ensures page != [] ==> Distinct(page) && done !! Elements(page)
      ensures Increasing(page) && forall id :: id in page ==> Less(last, id)
      ensures forall id :: id in page ==> id in old(rows) && old(rows)[id].selected && old(rows)[id].output.None?
      ensures |page| == PageSize(batchSize, Todo(start) - done)
      ensures page != [] ==> count.processed == |page| == count.updated + count.errors
      ensures page != [] ==>
                |Failing(start, derive, done + Elements(page))| == |Failing(start, derive, done)| + count.errors
    {
      page := Select(last, batchSize);
      count := Totals(0, 0, 0);
      Remaining(start, rows, derive, dryRun, done, last);
      forall id | id in page ensures id in Pending(rows, last) {
        assert id in Elements(page);
      }
      if page != [] {
        Advance(start, rows, derive, dryRun, done, last, page, batchSize);
        CountAdds(start, rows, derive, dryRun, done, Elements(page));
        count := Process(derive, page, dryRun);
      } else {
        assert batchSize == 0 || |Todo(start) - done| == 0;
      }
    }

    /**
     The whole pass. It visits, exactly once, every eligible row with a non-empty id (none at all
     with a batch size of zero); counts add up; a dry run changes nothing and counts the same. Every
     page ends with a commit (a rollback in a dry run), and a run that dies there loses nothing: a later
     full pass ends in the table this one would have reached.
     */
    method Backfill(derive: I -> Option<O>, batchSize: nat, dryRun: bool)
      returns (total: Totals, ghost visited: seq<string>, ghost commits: seq<Commit<I, O>>)
      modifies this
      ensures Distinct(visited) && Elements(visited) == if batchSize == 0 then {} else Todo(old(rows))
      ensures forall i, j :: 0 <= i < j < |visited| ==> Precedes(visited[i], visited[j])
      ensures batchSize >= 1 ==>
                forall id :: id in visited <==>
                  id in old(rows) && old(rows)[id].selected && old(rows)[id].output.None? && id != ""
      ensures rows == Written(old(rows), derive, Elements(visited), dryRun)
      ensures rows.Keys == old(rows).Keys
      ensures forall id :: id in rows ==>
                rows[id] == if !dryRun && id in visited && derive(old(rows)[id].input).Some?
                            then old(rows)[id].(output := derive(old(rows)[id].input)) else old(rows)[id]
      ensures total.processed == |visited| == total.updated + total.errors
      ensures total.errors == |set id | id in visited && id in old(rows) && derive(old(rows)[id].input).None?|
      ensures Committed(old(rows), rows, derive, batchSize, dryRun, commits, Elements(visited))
      ensures forall i :: 0 <= i < |commits| ==> Full(commits[i].table, derive) == Full(old(rows), derive)
      ensures commits != [] ==> |commits[0].ids| <= batchSize
      ensures forall i, j :: 0 <= i && j == i + 1 < |commits| ==>
                commits[i].ids < commits[j].ids && |commits[j].ids| <= |commits[i].ids| + batchSize
    {
      ghost var start := rows;
      var last;
      total, last, visited, commits := AllPages(derive, batchSize, dryRun);
      CommitsResume(start, derive, batchSize, dryRun, commits);
      CommitSizes(start, derive, batchSize, dryRun, commits);
      PassMeaning(start, rows, derive, dryRun, visited);
    }

    /** The loop over the pages. */
    method AllPages(derive: I -> Option<O>, batchSize: nat, dryRun: bool)
      returns (total: Totals, last: string, ghost visited: seq<string>, ghost commits: seq<Commit<I, O>>)
      modifies this
      ensures Running(old(rows), rows, derive, batchSize, dryRun, last, total, visited, commits)
      ensures Elements(visited) == if batchSize == 0 then {} else Todo(old(rows))
    {
      total, visited, commits := Totals(0, 0, 0), [], [];
      ghost var start := rows;
      var more := true;
      last := "";
      WrittenNone(rows, derive, dryRun);
      while more
        invariant Running(start, rows, derive, batchSize, dryRun, last, total, visited, commits)
        invariant !more ==> Elements(visited) == if batchSize == 0 then {} else Todo(start)
        decreases more, |Todo(start)| - |Elements(visited)|
      {
        more, last, total, visited, commits :=
          Step(derive, batchSize, dryRun, last, total, start, visited, commits);
      }
    }

    /** One turn of the loop: a page, its counts and its commit, or the end. */
    method Step(derive: I -> Option<O>, batchSize: nat, dryRun: bool, last: string, total: Totals,
                ghost start: Table<I, O>, ghost visited: seq<string>, ghost commits: seq<Commit<I, O>>)
      returns (more: bool, last': string, total': Totals,
               ghost visited': seq<string>, ghost commits': seq<Commit<I, O>>)
      requires Running(start, rows, derive, batchSize, dryRun, last, total, visited, commits)
      modifies this
      ensures Running(start, rows, derive, batchSize, dryRun, last', total', visited', commits')
      ensures more ==> |Elements(visited)| < |Elements(visited')| <= |Todo(start)|
      ensures !more ==> Elements(visited') == if batchSize == 0 then {} else Todo(start)
    {
      more, last', total', visited', commits' := true, last, total, visited, commits;
      ghost var done, was := Elements(visited), rows;
      var page, count := NextPage(derive, batchSize, dryRun, last, start, done);
      if page == [] {
        return false, last, total, visited, commits;
      }
      last' := page[|page| - 1];
      total' := Totals(total.processed + count.processed, total.updated + count.updated, total.errors + count.errors);
      VisitPage(visited, page, done, Todo(start));
      VisitedAscend(start, was, derive, dryRun, visited, page, last);
      PageGrows(Todo(start), batchSize, done, page);
      CommitPage(start, was, rows, derive, batchSize, dryRun, commits, done, done + Elements(page));
      visited' := visited + page;
      commits' := commits + [Commit(done + Elements(page), rows)];
    }
  }

  /** What holds at the head of the loop. */
  ghost predicate Running<I, O>(start: Table<I, O>, now: Table<I, O>, derive: I -> Option<O>, batchSize: nat,
                                dryRun: bool, last: string, total: Totals, visited: seq<string>,
                                commits: seq<Commit<I, O>>)
  {
    && Progress(start, now, derive, dryRun, Elements(visited), last) && Distinct(visited) && Increasing(visited)
    && (batchSize == 0 ==> visited == [])
    && total.processed == |visited| == total.updated + total.errors
    && total.errors == |Failing(start, derive, Elements(visited))|
    && Committed(start, now, derive, batchSize, dryRun, commits, Elements(visited))
  }

  /** The state at the end of a page: the ids processed so far and the table. */
  datatype Commit<I, O> = Commit(ids: set<string>, table: Table<I, O>)

  ghost predicate PartlyDone<I, O>(start: Table<I, O>, derive: I -> Option<O>, dryRun: bool, c: Commit<I, O>) {
    c.ids <= Todo(start) && c.table == Written(start, derive, c.ids, dryRun)
  }

  ghost function Reached<I, O>(commits: seq<Commit<I, O>>): set<string> {
    if commits == [] then {} else commits[|commits| - 1].ids
  }

  /**
   The commits of a pass: each one adds a full page of new ids, or all that are left, and nothing else of
   the table has changed.
   */
  ghost predicate Pages<I, O>(start: Table<I, O>, derive: I -> Option<O>, batchSize: nat, dryRun: bool,
                              commits: seq<Commit<I, O>>)
  {
    commits == [] ||
    var front, c := commits[..|commits| - 1], commits[|commits| - 1];
    && Pages(start, derive, batchSize, dryRun, front)
    && PartlyDone(start, derive, dryRun, c) && Grows(Todo(start), batchSize, Reached(front), c.ids)
  }

  /** The last commit is where the pass stands. */
  ghost predicate Committed<I, O>(start: Table<I, O>, now: Table<I, O>, derive: I -> Option<O>, batchSize: nat,
                                  dryRun: bool, commits: seq<Commit<I, O>>, done: set<string>)
  {
    && Pages(start, derive, batchSize, dryRun, commits) && Reached(commits) == done
    && if commits == [] then now == start else commits[|commits| - 1].table == now
  }

  /** One page of the remaining ids was added. */
  ghost predicate Grows(todo: set<string>, batchSize: nat, before: set<string>, after: set<string>) {
    before < after && |after| == |before| + PageSize(batchSize, todo - before)
  }

  lemma GrowsBounded(todo: set<string>, batchSize: nat, before: set<string>, after: set<string>)
    requires Grows(todo, batchSize, before, after)
    ensures before < after && |after| <= |before| + batchSize
  {
  }

  lemma PageGrows(todo: set<string>, batchSize: nat, done: set<string>, page: seq<string>)
    requires page != [] && done !! Elements(page) && Distinct(page) && |page| == PageSize(batchSize, todo - done)
    ensures Grows(todo, batchSize, done, done + Elements(page))
  {
    DistinctCard(page);
    assert page[0] in Elements(page);
    assert |done + Elements(page)| == |done| + |page|;
  }

  lemma CommitPage<I, O>(start: Table<I, O>, was: Table<I, O>, now: Table<I, O>, derive: I -> Option<O>, batchSize: nat,
                         dryRun: bool, commits: seq<Commit<I, O>>, done: set<string>, after: set<string>)
    requires Committed(start, was, derive, batchSize, dryRun, commits, done)
    requires PartlyDone(start, derive, dryRun, Commit(after, now)) && Grows(Todo(start), batchSize, done, after)
    ensures Committed(start, now, derive, batchSize, dryRun, commits + [Commit(after, now)], after)
  {
    assert (commits + [Commit(after, now)])[..|commits|] == commits;
  }

  lemma {:induction false} PagesAt<I, O>(start: Table<I, O>, derive: I -> Option<O>, batchSize: nat, dryRun: bool,
                                         commits: seq<Commit<I, O>>, i: nat)
    requires Pages(start, derive, batchSize, dryRun, commits) && i < |commits|
    ensures PartlyDone(start, derive, dryRun, commits[i])
  {
    var n := |commits| - 1;
    if i < n {
      PagesAt(start, derive, batchSize, dryRun, commits[..n], i);
    }
  }

  /** A commit adds at most one batch. */
  lemma {:induction false} CommitSizes<I, O>(start: Table<I, O>, derive: I -> Option<O>, batchSize: nat, dryRun: bool,
                                             commits: seq<Commit<I, O>>)
    requires Pages(start, derive, batchSize, dryRun, commits)
    ensures commits != [] ==> |commits[0].ids| <= batchSize
    ensures forall i, j :: 0 <= i && j == i + 1 < |commits| ==>
              commits[i].ids < commits[j].ids && |commits[j].ids| <= |commits[i].ids| + batchSize
  {
    if commits != [] {
      var n := |commits| - 1;
      var front := commits[..n];
      CommitSizes(start, derive, batchSize, dryRun, front);
      GrowsBounded(Todo(start), batchSize, Reached(front), commits[n].ids);
      forall i, j | 0 <= i && j == i + 1 < |commits|
        ensures commits[i].ids < commits[j].ids && |commits[j].ids| <= |commits[i].ids| + batchSize
      {
        if j < n {
          assert front[i] == commits[i] && front[j] == commits[j];
        } else {
          assert Reached(front) == commits[i].ids;
        }
      }
    }
  }

  /** A full pass over a committed table reaches the table of the uninterrupted pass. */
  lemma CommitResumes<I, O>(start: Table<I, O>, derive: I -> Option<O>, dryRun: bool, c: Commit<I, O>)
    requires PartlyDone(start, derive, dryRun, c)
    ensures Full(c.table, derive) == Full(start, derive)
    ensures !dryRun ==> c.table == Interrupted(start, derive, [c.ids])
  {
    FillThenFull(start, derive, c.ids);
    if !dryRun {
      var rest: seq<set<string>> := [c.ids][1..];
      assert c.ids * Todo(start) == c.ids && rest == [];
      assert Interrupted(c.table, derive, rest) == c.table;
    }
  }

  lemma CommitsResume<I, O>(start: Table<I, O>, derive: I -> Option<O>, batchSize: nat, dryRun: bool,
                            commits: seq<Commit<I, O>>)
    requires Pages(start, derive, batchSize, dryRun, commits)
    ensures forall i :: 0 <= i < |commits| ==> Full(commits[i].table, derive) == Full(start, derive)
  {
    forall i | 0 <= i < |commits| ensures Full(commits[i].table, derive) == Full(start, derive) {
      PagesAt(start, derive, batchSize, dryRun, commits, i);
      CommitResumes(start, derive, dryRun, commits[i]);
    }
  }

  /** Pages come after everything visited before. */
  lemma VisitedAscend<I, O>(start: Table<I, O>, now: Table<I, O>, derive: I -> Option<O>, dryRun: bool,
                            visited: seq<string>, page: seq<string>, last: string)
    requires Progress(start, now, derive, dryRun, Elements(visited), last) && Increasing(visited)
    requires Increasing(page) && forall id :: id in page ==> Less(last, id)
    ensures Increasing(visited + page)
  {
    forall i, j | 0 <= i < |visited| && 0 <= j < |page| ensures Less(visited[i], page[j]) {
      assert visited[i] in Elements(visited);
      Trichotomy(last, visited[i]);
      if visited[i] != last { Transitive(visited[i], last, page[j]); }
    }
  }

  lemma PassMeaning<I, O>(start: Table<I, O>, now: Table<I, O>, derive: I -> Option<O>, dryRun: bool,
                          visited: seq<string>)
    requires Increasing(visited) && Elements(visited) <= Todo(start)
    requires now == Written(start, derive, Elements(visited), dryRun)
    ensures now.Keys == start.Keys
    ensures forall id :: id in now ==>
              now[id] == if !dryRun && id in visited && derive(start[id].input).Some?
                         then start[id].(output := derive(start[id].input)) else start[id]
    ensures forall i, j :: 0 <= i < j < |visited| ==> Precedes(visited[i], visited[j])
    ensures forall id :: id in Todo(start) <==>
              id in start && start[id].selected && start[id].output.None? && id != ""
    ensures Failing(start, derive, Elements(visited))
         == set id | id in visited && id in start && derive(start[id].input).None?
  {
    forall i, j | 0 <= i < j < |visited| ensures Precedes(visited[i], visited[j]) {
      LessIsPrecedes(visited[i], visited[j]);
    }
    forall id | id in visited ensures id in start {
      assert id in Elements(visited);
    }
  }

  lemma VisitPage(visited: seq<string>, page: seq<string>, done: set<string>, todo: set<string>)
    requires Distinct(visited) && Elements(visited) == done && Distinct(page) && done !! Elements(page)
    requires page != [] && done + Elements(page) <= todo
    ensures Distinct(visited + page) && Elements(visited + page) == done + Elements(page)
    ensures |done| < |done + Elements(page)| == |done| + |page| <= |todo|
  {
    DistinctCard(page);
    DistinctConcat(visited, page);
    SubsetCard(done + Elements(page), todo);
  }
}

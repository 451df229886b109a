/**
 The ownership dependency check of scripts/repo_guard.py: a recursive depth-first search
 with `visiting` and `visited` sets over the `may_depend_on` lists.
 */
module DependencyGuard {
  import opened Finite
  import opened Digraph

  datatype Message =
    | NoOwners
    | UnknownDependency(owner: string, dependency: string)
    | InvalidPair(source: Option<string>, target: Option<string>)
    | CycleIncludes(owner: string)

  /** A KeyError escapes the check, or it returns its message list. */
  datatype Outcome = Raised | Report(messages: seq<Message>)

  // ----- the search as a function

  /** The sets and messages of the search, with the orders in which owners are opened and finished. */
  datatype Trace = Trace(visiting: set<string>, visited: set<string>, reported: seq<string>,
                         finished: seq<string>, expanded: seq<string>)

  const EMPTY := Trace({}, {}, [], [], [])

  function Opened(s: Trace, owner: string): Trace {
    s.(visiting := s.visiting + {owner}, expanded := s.expanded + [owner])
  }

  function Finish(s: Trace, owner: string): Trace {
    s.(visiting := s.visiting - {owner}, visited := s.visited + {owner}, finished := s.finished + [owner])
  }

  ghost function Untouched(g: Graph, s: Trace): set<string> { g.Keys - s.visiting - s.visited }

  /** `visit`; None is the KeyError. */
  function VisitOne(g: Graph, s: Trace, owner: string): (r: Option<Trace>)
    ensures r.Some? ==> r.value.visiting == s.visiting && s.visited <= r.value.visited
    decreases Untouched(g, s), 0, 0
  {
    if owner in s.visiting then Some(s.(reported := s.reported + [owner]))
    else if owner in s.visited then Some(s)
    else if owner !in g then None
    else
      assert owner in Untouched(g, s);
      match VisitList(g, Opened(s, owner), g[owner])
      case None => None
      case Some(t) => Some(Finish(t, owner))
  }

  function VisitList(g: Graph, s: Trace, list: seq<string>): (r: Option<Trace>)
    ensures r.Some? ==> r.value.visiting == s.visiting && s.visited <= r.value.visited
    decreases Untouched(g, s), 1, |list|
  {
    if list == [] then Some(s)
    else
      match VisitOne(g, s, list[0])
      case None => None
      case Some(t) => VisitList(g, t, list[1..])
  }

  /** The depth-first search; `stack` and `finished` are the history the proof needs. */
  class Search {
    const deps: Graph
    var visiting: set<string>
    var visited: set<string>
    var reported: seq<string>
    ghost var stack: seq<string>
    ghost var finished: seq<string>
    ghost var expanded: seq<string>

    constructor (deps: Graph)
      ensures Valid() && this.deps == deps
      ensures visiting == {} && visited == {} && reported == [] && stack == [] && Now() == EMPTY
    {
      this.deps := deps;
      visiting, visited, reported := {}, {}, [];
      stack, finished, expanded := [], [], [];
    }

    ghost function Now(): Trace
      reads this
    {
      Trace(visiting, visited, reported, finished, expanded)
    }

    ghost predicate Valid()
      reads this
    {
      && Distinct(stack) && Elements(stack) == visiting
      && Distinct(finished) && Elements(finished) == visited
      && Distinct(expanded) && Elements(expanded) == visiting + visited
      && visiting !! visited && visiting + visited <= deps.Keys
      && (stack != [] ==> Walk(deps, stack))
      && TopologicalUpTo(deps, finished, Elements(reported))
      && (forall v {:trigger OnCycle(deps, v)} :: v in reported ==> OnCycle(deps, v))
    }

    /**
     `visit(owner)`. A normal return leaves `visiting` as it was, with the owner either
     finished or reported; an exception means some owner lists an unknown dependency.
     */
    method Visit(owner: string) returns (raised: bool)
      requires Valid()
      requires if stack == [] then owner in deps else owner in deps[stack[|stack| - 1]]
      modifies this
      ensures raised ==> !Closed(deps)
      ensures !raised ==> Valid() && stack == old(stack) && visiting == old(visiting)
      ensures !raised ==> old(visited) <= visited && old(reported) <= reported
      ensures !raised ==> if owner in old(visiting) then owner in reported else owner in visited
      ensures VisitOne(deps, old(Now()), owner) == if raised then None else Some(Now())
      decreases deps.Keys - visiting - visited, 1
    {
      if owner in visiting {
        ReportCycle(owner);
        return false;
      }
      if owner in visited {
        return false;
      }
      if owner !in deps {
        return true;
      }
      raised := Expand(owner);
    }

    /** An owner met for the first time: open it, visit its dependencies, finish it. */
    method Expand(owner: string) returns (raised: bool)
      requires Valid() && owner in deps && owner !in visiting && owner !in visited
      requires stack != [] ==> owner in deps[stack[|stack| - 1]]
      modifies this
      ensures raised ==> !Closed(deps)
      ensures !raised ==> Valid() && stack == old(stack) && visiting == old(visiting)
      ensures !raised ==> old(visited) <= visited && old(reported) <= reported && owner in visited
      ensures VisitOne(deps, old(Now()), owner) == if raised then None else Some(Now())
      decreases deps.Keys - visiting - visited, 0
    {
      assert owner in deps.Keys - visiting - visited;
      Open(owner);
      raised := VisitDependencies(owner);
      if !raised {
        Close(owner);
      }
    }

    /** The loop over the dependencies of the owner just opened. */
    method VisitDependencies(owner: string) returns (raised: bool)
      requires Valid() && stack != [] && stack[|stack| - 1] == owner
      modifies this
      ensures raised ==> !Closed(deps)
      ensures !raised ==> Valid() && stack == old(stack) && visiting == old(visiting)
      ensures !raised ==> old(visited) <= visited && old(reported) <= reported
      ensures !raised ==> forall d :: d in deps[owner] ==> d in visited || d in reported
      ensures VisitList(deps, old(Now()), deps[owner]) == if raised then None else Some(Now())
      decreases deps.Keys - visiting - visited, 2
    {
      var list := deps[owner];
      assert list[0..] == list;
      for i := 0 to |list|
        invariant Valid() && stack == old(stack) && visiting == old(visiting)
        invariant old(visited) <= visited && old(reported) <= reported
        invariant forall k :: 0 <= k < i ==> list[k] in visited || list[k] in reported
        invariant VisitList(deps, old(Now()), list) == VisitList(deps, Now(), list[i..])
      {
        assert list[i..][1..] == list[i + 1..];
        raised := Visit(list[i]);
        if raised {
          return true;
        }
      }
      return false;
    }

    method ReportCycle(owner: string)
      requires Valid() && owner in visiting && owner in deps[stack[|stack| - 1]]
      modifies this`reported
      ensures Valid() && reported == old(reported) + [owner]
    {
      assert owner in Elements(stack);
      ghost var k :| 0 <= k < |stack| && stack[k] == owner;
      ghost var c := stack[k..] + [owner];
      assert Cycle(deps, c);
      assert c[0] in c;
      reported := reported + [owner];
      assert Elements(reported) == Elements(old(reported)) + {owner};
    }

    method Open(owner: string)
      requires Valid() && owner in deps && owner !in visiting && owner !in visited
      requires stack != [] ==> owner in deps[stack[|stack| - 1]]
      modifies this`visiting, this`stack, this`expanded
      ensures Valid() && visiting == old(visiting) + {owner}
      ensures stack == old(stack) + [owner] && Now() == Opened(old(Now()), owner)
    {
      assert owner !in Elements(stack) && owner !in Elements(expanded);
      visiting := visiting + {owner};
      stack := stack + [owner];
      expanded := expanded + [owner];
      assert Elements(stack) == Elements(old(stack)) + {owner};
      assert Elements(expanded) == Elements(old(expanded)) + {owner};
    }

    method Close(owner: string)
      requires Valid() && stack != [] && stack[|stack| - 1] == owner
      requires forall d :: d in deps[owner] ==> d in visited || d in reported
      modifies this`visiting, this`visited, this`stack, this`finished
      ensures Valid() && visiting == old(visiting) - {owner} && visited == old(visited) + {owner}
      ensures stack == old(stack)[..|old(stack)| - 1] && Now() == Finish(old(Now()), owner)
    {
      ghost var n := |stack| - 1;
      assert owner in Elements(stack);
      visiting := visiting - {owner};
      visited := visited + {owner};
      assert stack == stack[..n] + [owner];
      stack := stack[..n];
      finished := finished + [owner];
      assert Elements(old(stack)) == Elements(stack) + {owner};
      assert Elements(finished) == Elements(old(finished)) + {owner};
      ExtendOrder(deps, old(finished), owner, Elements(reported));
    }
  }

  // ----- what is reported, exactly

  ghost predicate Sane(s: Trace) {
    s.visiting !! s.visited && Elements(s.finished) == s.visited && Elements(s.expanded) == s.visiting + s.visited
  }

  lemma {:induction false} VisitSane(g: Graph, s: Trace, owner: string)
    requires Sane(s) && VisitOne(g, s, owner).Some?
    ensures var t := VisitOne(g, s, owner).value;
            Sane(t) && s.expanded <= t.expanded && (owner in t.visiting || owner in t.visited)
    decreases Untouched(g, s), 0, 0
  {
    if owner !in s.visiting && owner !in s.visited {
      assert owner in Untouched(g, s);
      var s1 := Opened(s, owner);
      ElementsSnoc(s.expanded, owner);
      ListSane(g, s1, g[owner]);
      var t1 := VisitList(g, s1, g[owner]).value;
      ElementsSnoc(t1.finished, owner);
      assert t1.visiting - {owner} + (t1.visited + {owner}) == t1.visiting + t1.visited;
    }
  }

  lemma {:induction false} ListSane(g: Graph, s: Trace, list: seq<string>)
    requires Sane(s) && VisitList(g, s, list).Some?
    ensures var t := VisitList(g, s, list).value;
            Sane(t) && s.expanded <= t.expanded && forall d :: d in list ==> d in t.visiting || d in t.visited
    decreases Untouched(g, s), 1, |list|
  {
    if list != [] {
      VisitSane(g, s, list[0]);
      ListSane(g, VisitOne(g, s, list[0]).value, list[1..]);
      assert list == [list[0]] + list[1..];
    }
  }

  function Only(d: string, hit: bool): multiset<string> { if hit then multiset{d} else multiset{} }

  /** Occurrences in a list of members of a set. */
  function Among(list: seq<string>, s: set<string>): multiset<string> {
    if list == [] then multiset{} else Only(list[0], list[0] in s) + Among(list[1..], s)
  }

  /** Occurrences in a list of what is not in a set. */
  function Outside(list: seq<string>, s: set<string>): multiset<string> {
    if list == [] then multiset{} else Only(list[0], list[0] !in s) + Outside(list[1..], s)
  }

  /** Dependencies, with multiplicity, that do not come before their owner in the order. */
  ghost function BackEdges(g: Graph, order: seq<string>): multiset<string> {
    if order == [] then multiset{}
    else
      var before, u := order[..|order| - 1], order[|order| - 1];
      BackEdges(g, before) + if u in g then Outside(g[u], Elements(before)) else multiset{}
  }

  lemma {:induction false} AmongIsOutside(list: seq<string>, s: set<string>, t: set<string>)
    requires forall d :: d in list ==> (d in s <==> d !in t)
    ensures Among(list, s) == Outside(list, t)
  {
    if list != [] {
      assert list == [list[0]] + list[1..];
      AmongIsOutside(list[1..], s, t);
    }
  }

  lemma BackEdgesSnoc(g: Graph, order: seq<string>, u: string)
    requires u in g
    ensures BackEdges(g, order + [u]) == BackEdges(g, order) + Outside(g[u], Elements(order))
  {
    assert (order + [u])[..|order|] == order;
  }

  /** Between two moments, reports and back edges of finished owners grow alike, but for the extra ones. */
  ghost predicate Accounts(g: Graph, s: Trace, t: Trace, extra: multiset<string>) {
    multiset(t.reported) + BackEdges(g, s.finished) == multiset(s.reported) + BackEdges(g, t.finished) + extra
  }

  lemma AccountsChain(g: Graph, r: Trace, s: Trace, t: Trace, x: multiset<string>, y: multiset<string>)
    requires Accounts(g, r, s, x) && Accounts(g, s, t, y)
    ensures Accounts(g, r, t, x + y)
  {
    var rr, rs, rt := multiset(r.reported), multiset(s.reported), multiset(t.reported);
    var br, bs, bt := BackEdges(g, r.finished), BackEdges(g, s.finished), BackEdges(g, t.finished);
    forall d ensures (rt + br)[d] == (rr + bt + (x + y))[d] {
      assert (rs + br)[d] == (rr + bs + x)[d] && (rt + bs)[d] == (rs + bt + y)[d];
    }
  }

  lemma {:induction false} VisitAccounts(g: Graph, s: Trace, owner: string)
    requires Sane(s) && VisitOne(g, s, owner).Some?
    ensures Accounts(g, s, VisitOne(g, s, owner).value, Only(owner, owner in s.visiting))
    decreases Untouched(g, s), 0, 0
  {
    if owner !in s.visiting && owner !in s.visited {
      assert owner in Untouched(g, s);
      var s1 := Opened(s, owner);
      ElementsSnoc(s.expanded, owner);
      ListAccounts(g, s1, g[owner]);
      ListSane(g, s1, g[owner]);
      var t1 := VisitList(g, s1, g[owner]).value;
      AmongIsOutside(g[owner], s1.visiting, t1.visited);
      BackEdgesSnoc(g, t1.finished, owner);
      FinishAccounts(g, s, t1, owner, Outside(g[owner], t1.visited));
    }
  }

  lemma FinishAccounts(g: Graph, s: Trace, t: Trace, owner: string, extra: multiset<string>)
    requires Accounts(g, s, t, extra) && BackEdges(g, t.finished + [owner]) == BackEdges(g, t.finished) + extra
    ensures Accounts(g, s, Finish(t, owner), multiset{})
  {
    var rs, bt := multiset(s.reported), BackEdges(g, t.finished);
    assert rs + (bt + extra) + multiset{} == rs + bt + extra;
  }

  lemma {:induction false} ListAccounts(g: Graph, s: Trace, list: seq<string>)
    requires Sane(s) && VisitList(g, s, list).Some?
    ensures Accounts(g, s, VisitList(g, s, list).value, Among(list, s.visiting))
    decreases Untouched(g, s), 1, |list|
  {
    if list != [] {
      var t := VisitOne(g, s, list[0]).value;
      VisitAccounts(g, s, list[0]);
      VisitSane(g, s, list[0]);
      ListAccounts(g, t, list[1..]);
      AccountsChain(g, s, t, VisitList(g, s, list).value, Only(list[0], list[0] in s.visiting),
                    Among(list[1..], s.visiting));
    }
  }

  // ----- the order of the search

  /** Every entry of the list has been met. */
  ghost predicate AllMet(list: seq<string>, met: seq<string>) { forall d :: d in list ==> d in met }

  /** The first entry of the list that has not been met. */
  ghost predicate FirstUnmet(list: seq<string>, met: seq<string>, v: string) {
    exists i :: 0 <= i < |list| && list[i] == v && v !in met && AllMet(list[..i], met)
  }

  /** The owner may be expanded after those met so far. */
  ghost predicate MayFollow(g: Graph, met: seq<string>, v: string) {
    met == [] || met[|met| - 1] !in g
    || AllMet(g[met[|met| - 1]], met) || FirstUnmet(g[met[|met| - 1]], met, v)
  }

  /** After an owner comes its first dependency not expanded before, if there is one. */
  ghost predicate Descends(g: Graph, order: seq<string>) {
    forall i :: 0 < i < |order| ==> MayFollow(g, order[..i], order[i])
  }

  lemma DescendsSnoc(g: Graph, order: seq<string>, v: string)
    requires Descends(g, order) && MayFollow(g, order, v)
    ensures Descends(g, order + [v])
  {
    var longer := order + [v];
    forall i | 0 < i < |longer| ensures MayFollow(g, longer[..i], longer[i]) {
      assert longer[..i] == order[..i];
      if i == |order| { assert order[..i] == order; }
    }
  }

  /** Nothing was expanded since, or the last owner expanded has all its dependencies met. */
  ghost predicate Grew(g: Graph, before: seq<string>, after: seq<string>) {
    && before <= after
    && (before == after || (after[|after| - 1] in g && AllMet(g[after[|after| - 1]], after)))
  }

  /** The list is what remains of the dependencies of the last owner expanded, or that owner has none unmet. */
  ghost predicate Next(g: Graph, met: seq<string>, list: seq<string>) {
    met == [] || met[|met| - 1] !in g || AllMet(g[met[|met| - 1]], met)
    || exists done :: g[met[|met| - 1]] == done + list && AllMet(done, met)
  }

  lemma HeadMayFollow(g: Graph, met: seq<string>, list: seq<string>)
    requires Next(g, met, list) && list != [] && list[0] !in met
    ensures MayFollow(g, met, list[0])
  {
    if met != [] && met[|met| - 1] in g && !AllMet(g[met[|met| - 1]], met) {
      var done :| g[met[|met| - 1]] == done + list && AllMet(done, met);
      var all := done + list;
      assert all[|done|] == list[0] && all[..|done|] == done;
    }
  }

  lemma NextAfterHead(g: Graph, met: seq<string>, list: seq<string>, met': seq<string>)
    requires Next(g, met, list) && list != [] && Grew(g, met, met') && list[0] in met'
    ensures Next(g, met', list[1..])
  {
    if met' == met && met != [] && met[|met| - 1] in g && !AllMet(g[met[|met| - 1]], met) {
      var done :| g[met[|met| - 1]] == done + list && AllMet(done, met);
      assert done + list == (done + [list[0]]) + list[1..];
      assert AllMet(done + [list[0]], met);
    }
  }

  ghost predicate Ordered(g: Graph, before: seq<string>, after: seq<string>) {
    Descends(g, after) && Grew(g, before, after)
  }

  lemma {:induction false} VisitDescends(g: Graph, s: Trace, owner: string)
    requires Sane(s) && Descends(g, s.expanded) && VisitOne(g, s, owner).Some?
    requires owner in s.expanded || MayFollow(g, s.expanded, owner)
    ensures Ordered(g, s.expanded, VisitOne(g, s, owner).value.expanded)
    ensures owner !in s.expanded ==> s.expanded + [owner] <= VisitOne(g, s, owner).value.expanded
    decreases Untouched(g, s), 0, 1
  {
    assert owner in s.expanded <==> owner in Elements(s.expanded);
    if owner !in s.visiting && owner !in s.visited {
      ExpandDescends(g, s, owner);
    }
  }

  lemma {:induction false} ExpandDescends(g: Graph, s: Trace, owner: string)
    requires Sane(s) && Descends(g, s.expanded) && MayFollow(g, s.expanded, owner)
    requires owner in g && owner !in s.visiting && owner !in s.visited
    requires VisitList(g, Opened(s, owner), g[owner]).Some?
    ensures var after := VisitList(g, Opened(s, owner), g[owner]).value.expanded;
            Ordered(g, s.expanded, after) && s.expanded + [owner] <= after
    decreases Untouched(g, s), 0, 0
  {
    assert owner in Untouched(g, s) && owner !in Elements(s.expanded);
    var s1 := Opened(s, owner);
    ElementsSnoc(s.expanded, owner);
    DescendsSnoc(g, s.expanded, owner);
    OpenNext(g, s.expanded, owner);
    ListDescends(g, s1, g[owner]);
    ListSane(g, s1, g[owner]);
    var t1 := VisitList(g, s1, g[owner]).value;
    forall d | d in g[owner] ensures d in t1.expanded {
      assert d in Elements(t1.expanded);
    }
    ExpandGrew(g, s.expanded, owner, t1.expanded);
  }

  lemma OpenNext(g: Graph, met: seq<string>, owner: string)
    requires owner in g
    ensures Next(g, met + [owner], g[owner])
  {
    assert g[owner] == [] + g[owner] && AllMet([], met + [owner]);
  }

  lemma ExpandGrew(g: Graph, met: seq<string>, owner: string, met': seq<string>)
    requires owner in g && Grew(g, met + [owner], met') && AllMet(g[owner], met')
    ensures Grew(g, met, met') && met + [owner] <= met'
  {
    assert (met + [owner])[|met|] == owner;
  }

  lemma {:induction false} ListDescends(g: Graph, s: Trace, list: seq<string>)
    requires Sane(s) && Descends(g, s.expanded) && Next(g, s.expanded, list) && VisitList(g, s, list).Some?
    ensures Ordered(g, s.expanded, VisitList(g, s, list).value.expanded)
    decreases Untouched(g, s), 1, |list|
  {
    if list != [] {
      if list[0] !in s.expanded { HeadMayFollow(g, s.expanded, list); }
      VisitDescends(g, s, list[0]);
      VisitSane(g, s, list[0]);
      var t := VisitOne(g, s, list[0]).value;
      assert list[0] in Elements(t.expanded);
      NextAfterHead(g, s.expanded, list, t.expanded);
      ListDescends(g, t, list[1..]);
    }
  }

  lemma ExtendOrder(g: Graph, order: seq<string>, v: string, excused: set<string>)
    requires TopologicalUpTo(g, order, excused)
    requires v in g && forall d :: d in g[v] ==> d in Elements(order) || d in excused
    ensures TopologicalUpTo(g, order + [v], excused)
  {
    var longer := order + [v];
    forall k, d | 0 <= k < |longer| && longer[k] in g && d in g[longer[k]]
      ensures d in longer[..k] || d in excused
    {
      if k < |order| {
        assert longer[..k] == order[..k] && longer[k] == order[k];
      } else {
        assert longer[..k] == order;
      }
    }
  }

  function UnknownOf(owner: string, list: seq<string>, deps: Graph): (r: seq<Message>)
    ensures r == [] <==> forall d :: d in list ==> d in deps
    ensures forall m :: m in r ==>
              m.UnknownDependency? && m.owner == owner && m.dependency in list && m.dependency !in deps
  {
    if list == [] then []
    else (if list[0] in deps then [] else [UnknownDependency(owner, list[0])]) + UnknownOf(owner, list[1..], deps)
  }

  function InvalidPairs(pairs: seq<(Option<string>, Option<string>)>, deps: Graph): (r: seq<Message>)
    ensures forall m :: m in r ==> m.InvalidPair?
    ensures forall a, b :: InvalidPair(a, b) in r <==> (a, b) in pairs && !(Known(a, deps) && Known(b, deps))
    ensures r == [] <==> forall p :: p in pairs ==> Known(p.0, deps) && Known(p.1, deps)
  {
    if pairs == [] then []
    else (if Known(pairs[0].0, deps) && Known(pairs[0].1, deps) then [] else [InvalidPair(pairs[0].0, pairs[0].1)])
         + InvalidPairs(pairs[1..], deps)
  }

  predicate Known(name: Option<string>, deps: Graph) {
    name.Some? && name.value in deps
  }

  function CycleMessages(owners: seq<string>): (r: seq<Message>)
    ensures |r| == |owners| && forall i :: 0 <= i < |r| ==> r[i] == CycleIncludes(owners[i])
  {
    seq(|owners|, i requires 0 <= i < |owners| => CycleIncludes(owners[i]))
  }

  ghost function ReportedOwners(messages: seq<Message>): set<string> {
    set m | m in messages && m.CycleIncludes? :: m.owner
  }

  /** Nodes that all lie on cycles and that together meet every cycle. */
  ghost predicate FeedbackSet(g: Graph, nodes: set<string>) {
    && (forall v {:trigger OnCycle(g, v)} :: v in nodes ==> OnCycle(g, v))
    && (forall c :: Cycle(g, c) ==> exists v :: v in c && v in nodes)
  }

  /** What a completed search proves about the graph. */
  lemma FullSearch(g: Graph, finished: seq<string>, reported: seq<string>)
    requires Distinct(finished) && g.Keys == Elements(finished)
    requires TopologicalUpTo(g, finished, Elements(reported))
    requires forall v {:trigger OnCycle(g, v)} :: v in reported ==> OnCycle(g, v)
    ensures Closed(g)
    ensures FeedbackSet(g, Elements(reported))
    ensures reported == [] <==> Acyclic(g)
  {
    forall u, d | u in g && d in g[u] ensures d in g {
      assert u in Elements(finished);
      var k :| 0 <= k < |finished| && finished[k] == u;
      if d in finished[..k] {
        assert d in Elements(finished);
      } else {
        assert d in Elements(reported) && OnCycle(g, d);
      }
    }
    forall c | Cycle(g, c) ensures exists v :: v in c && v in Elements(reported) {
      CycleMeetsExcused(g, finished, Elements(reported), c);
    }
    if reported != [] {
      assert reported[0] in reported && OnCycle(g, reported[0]);
    }
  }

  lemma ReadReported(errors: seq<Message>, reported: seq<string>)
    requires forall m :: m in errors ==> !m.CycleIncludes?
    ensures ReportedOwners(errors + CycleMessages(reported)) == Elements(reported)
  {
    var all := errors + CycleMessages(reported);
    forall v | v in reported ensures v in ReportedOwners(all) {
      var i :| 0 <= i < |reported| && reported[i] == v;
      assert all[|errors| + i] == CycleIncludes(v);
      assert CycleIncludes(v) in all;
    }
  }

  /**
   What a completed search did: it started at the first key and always went on to the first dependency not
   yet expanded; it finished every owner once; and it reported, as often as they are listed, exactly the
   dependencies that do not finish before their owner.
   */
  ghost predicate SearchOrder(g: Graph, keys: seq<string>, reported: seq<string>, expansions: seq<string>,
                              finish: seq<string>)
  {
    && Descends(g, expansions) && (keys != [] ==> expansions != [] && expansions[0] == keys[0])
    && Distinct(finish) && Elements(finish) == g.Keys && multiset(reported) == BackEdges(g, finish)
  }

  lemma SearchExact(g: Graph, keys: seq<string>)
    requires VisitList(g, EMPTY, keys).Some?
    ensures var t := VisitList(g, EMPTY, keys).value;
            && multiset(t.reported) == BackEdges(g, t.finished) && Descends(g, t.expanded)
            && (keys != [] ==> t.expanded != [] && t.expanded[0] == keys[0])
  {
    var t := VisitList(g, EMPTY, keys).value;
    ListAccounts(g, EMPTY, keys);
    NoneAmong(keys);
    FromScratch(g, t);
    ListDescends(g, EMPTY, keys);
    if keys != [] { FirstKeyFirst(g, keys); }
  }

  lemma FromScratch(g: Graph, t: Trace)
    requires Accounts(g, EMPTY, t, multiset{})
    ensures multiset(t.reported) == BackEdges(g, t.finished)
  {
    var r, b := multiset(t.reported), BackEdges(g, t.finished);
    assert r + multiset{} == r && multiset{} + b + multiset{} == b;
    assert multiset(EMPTY.reported) == multiset{};
  }

  lemma FirstKeyFirst(g: Graph, keys: seq<string>)
    requires keys != [] && VisitList(g, EMPTY, keys).Some?
    ensures [keys[0]] <= VisitList(g, EMPTY, keys).value.expanded
  {
    var t := VisitOne(g, EMPTY, keys[0]).value;
    VisitDescends(g, EMPTY, keys[0]);
    VisitSane(g, EMPTY, keys[0]);
    ListSane(g, t, keys[1..]);
    assert [] + [keys[0]] == [keys[0]];
  }

  lemma {:induction false} NoneAmong(list: seq<string>)
    ensures Among(list, {}) == multiset{}
  {
    if list != [] { NoneAmong(list[1..]); }
  }

  method UnknownDependencies(keys: seq<string>, deps: Graph) returns (errors: seq<Message>)
    requires Elements(keys) == deps.Keys
    ensures forall m :: m in errors ==> m.UnknownDependency?
    ensures errors == [] <==> Closed(deps)
  {
    errors := [];
    for i := 0 to |keys|
      invariant forall m :: m in errors ==> m.UnknownDependency?
      invariant errors == [] <==> forall k, d :: 0 <= k < i && keys[k] in deps && d in deps[keys[k]] ==> d in deps
    {
      assert keys[i] in Elements(keys);
      errors := errors + UnknownOf(keys[i], deps[keys[i]], deps);
    }
    forall u, d | u in deps && d in deps[u] && errors == [] ensures d in deps {
      assert u in Elements(keys);
    }
  }

  /** The search started from every owner in turn; `visiting` is empty between the starts. */
  method SearchAll(keys: seq<string>, deps: Graph)
    returns (raised: bool, reported: seq<string>, ghost expansions: seq<string>, ghost finish: seq<string>)
    requires Elements(keys) == deps.Keys
    ensures VisitList(deps, EMPTY, keys).None? <==> raised
    ensures !raised ==> SearchOrder(deps, keys, reported, expansions, finish)
    ensures raised <==> !Closed(deps)
    ensures !raised ==> Distinct(expansions) && Elements(expansions) == deps.Keys
    ensures !raised ==> FeedbackSet(deps, Elements(reported))
    ensures !raised ==> (reported == [] <==> Acyclic(deps))
  {
    var search := new Search(deps);
    reported, expansions, finish := [], [], [];
    assert keys[0..] == keys;
    for i := 0 to |keys|
      invariant search.Valid() && search.stack == [] && search.visiting == {} && search.deps == deps
      invariant forall k :: 0 <= k < i ==> keys[k] in search.visited
      invariant VisitList(deps, EMPTY, keys) == VisitList(deps, search.Now(), keys[i..])
    {
      assert keys[i..][1..] == keys[i + 1..];
      assert keys[i] in Elements(keys);
      raised := search.Visit(keys[i]);
      if raised {
        return;
      }
    }
    raised, reported, expansions, finish := false, search.reported, search.expanded, search.finished;
    SearchExact(deps, keys);
    forall v | v in deps.Keys ensures v in search.visited {
      assert v in Elements(keys);
    }
    FullSearch(deps, search.finished, reported);
  }

  /**
   The whole check over a dictionary with keys `keys` (in insertion order). It raises exactly
   when some dependency is unknown, so no returned list ever holds an unknown-dependency
   message. Otherwise the messages are the invalid pairs and one per back edge of the search; every owner
   is expanded exactly once, every reported owner lies on a cycle and every cycle passes through one.
   */
  method CheckDependencies(keys: seq<string>, deps: Graph, pairs: seq<(Option<string>, Option<string>)>)
    returns (out: Outcome, ghost reported: seq<string>, ghost expansions: seq<string>, ghost finish: seq<string>)
    requires Distinct(keys) && Elements(keys) == deps.Keys
    ensures keys == [] ==> out == Report([NoOwners])
    ensures out.Raised? <==> !Closed(deps)
    ensures out.Report? ==> forall m :: m in out.messages ==> !m.UnknownDependency?
    ensures out.Report? && keys != [] ==> Distinct(expansions) && Elements(expansions) == deps.Keys
    ensures out.Report? && keys != [] ==>
              && out.messages == InvalidPairs(pairs, deps) + CycleMessages(reported)
              && SearchOrder(deps, keys, reported, expansions, finish)
    ensures out.Report? ==> FeedbackSet(deps, ReportedOwners(out.messages))
    ensures out.Report? && keys != [] ==>
              (out.messages == [] <==> Acyclic(deps) && forall p :: p in pairs ==> Known(p.0, deps) && Known(p.1, deps))
  {
    reported, expansions, finish := [], [], [];
    if keys == [] {
      EmptyGraph(keys, deps);
      return Report([NoOwners]), [], [], [];
    }
    var unknown := UnknownDependencies(keys, deps);
    var errors := unknown + InvalidPairs(pairs, deps);
    var raised, owners;
    raised, owners, expansions, finish := SearchAll(keys, deps);
    if raised {
      return Raised, [], [], [];
    }
    reported := owners;
    assert unknown == [] && errors == InvalidPairs(pairs, deps);
    ReadReported(errors, owners);
    out := Report(errors + CycleMessages(owners));
  }

  lemma EmptyGraph(keys: seq<string>, deps: Graph)
    requires keys == [] && Elements(keys) == deps.Keys
    ensures Closed(deps) && ReportedOwners([NoOwners]) == {} && FeedbackSet(deps, {})
  {
    assert deps.Keys == {};
  }
}

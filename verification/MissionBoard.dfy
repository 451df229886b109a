/**
 The phase board of scripts/mission_next.py: the first open phase whose dependencies are all
 DONE is the next one, and status flags rewrite phases in place.
 */
module MissionBoard {
  import opened Finite
  import opened Digraph

  const DONE := "DONE"

  datatype Phase = Phase(id: string, status: string, dependsOn: seq<string>, commit: string, result: string)

  predicate Open(p: Phase) { p.status != DONE }

  /** Position that `by_id` keeps for an id: the last phase carrying it. */
  function Find(ps: seq<Phase>, d: string): Option<nat> {
    if ps == [] then None
    else if ps[|ps| - 1].id == d then Some(|ps| - 1)
    else Find(ps[..|ps| - 1], d)
  }

  lemma {:induction false} FindFacts(ps: seq<Phase>, d: string)
    ensures match Find(ps, d)
            case Some(k) => k < |ps| && ps[k].id == d && forall j :: k < j < |ps| ==> ps[j].id != d
            case None => forall j :: 0 <= j < |ps| ==> ps[j].id != d
  {
    if ps != [] && ps[|ps| - 1].id != d {
      FindFacts(ps[..|ps| - 1], d);
      forall j | 0 <= j < |ps| - 1 ensures ps[j] == ps[..|ps| - 1][j] {}
    }
  }

  /** `index.get(d)`. */
  function Lookup(ps: seq<Phase>, d: string): Option<Phase> {
    FindFacts(ps, d);
    match Find(ps, d)
    case Some(k) => Some(ps[k])
    case None => None
  }

  predicate Known(ps: seq<Phase>, d: string) { Lookup(ps, d).Some? }

  predicate Met(ps: seq<Phase>, d: string) {
    Known(ps, d) && !Open(Lookup(ps, d).value)
  }

  function Filter(ps: seq<Phase>, ds: seq<string>): (r: seq<string>)
    ensures forall d :: d in r <==> d in ds && !Met(ps, d)
  {
    if ds == [] then []
    else (if Met(ps, ds[0]) then [] else [ds[0]]) + Filter(ps, ds[1..])
  }

  /** `unmet`: dependencies that are unknown or not DONE. */
  function Unmet(ps: seq<Phase>, p: Phase): seq<string> { Filter(ps, p.dependsOn) }

  predicate Ready(ps: seq<Phase>, i: nat)
    requires i < |ps|
  {
    Open(ps[i]) && Unmet(ps, ps[i]) == []
  }

  /** The last phase carrying an id is the one that counts for it. */
  ghost predicate Stands(ps: seq<Phase>, k: nat, d: string) {
    k < |ps| && ps[k].id == d && forall j :: k < j < |ps| ==> ps[j].id != d
  }

  /** Not DONE, while the phase that stands for each dependency is. */
  ghost predicate Startable(ps: seq<Phase>, i: nat)
    requires i < |ps|
  {
    && ps[i].status != "DONE"
    && forall d :: d in ps[i].dependsOn ==> exists k: nat :: Stands(ps, k, d) && ps[k].status == "DONE"
  }

  lemma MetMeaning(ps: seq<Phase>, d: string)
    ensures Met(ps, d) <==> exists k: nat :: Stands(ps, k, d) && ps[k].status == "DONE"
  {
    FindFacts(ps, d);
    if Met(ps, d) {
      assert Stands(ps, Find(ps, d).value, d);
    }
    if k: nat :| Stands(ps, k, d) && ps[k].status == "DONE" {
      assert Find(ps, d) == Some(k);
    }
  }

  lemma ReadyIsStartable(ps: seq<Phase>, i: nat)
    requires i < |ps|
    ensures Ready(ps, i) <==> Startable(ps, i)
  {
    forall d ensures Met(ps, d) <==> exists k: nat :: Stands(ps, k, d) && ps[k].status == "DONE" {
      MetMeaning(ps, d);
    }
    if Unmet(ps, ps[i]) != [] {
      assert Unmet(ps, ps[i])[0] in Unmet(ps, ps[i]);
    }
  }

  function FirstReady(ps: seq<Phase>, from: nat): (r: Option<nat>)
    requires from <= |ps|
    ensures r.Some? ==> from <= r.value < |ps| && Ready(ps, r.value)
                        && forall i :: from <= i < r.value ==> !Ready(ps, i)
    ensures r.None? ==> forall i :: from <= i < |ps| ==> !Ready(ps, i)
    decreases |ps| - from
  {
    if from == |ps| then None
    else if Ready(ps, from) then Some(from)
    else FirstReady(ps, from + 1)
  }

  function Next(ps: seq<Phase>): Option<nat> { FirstReady(ps, 0) }

  /** No later phase carries the same id: the phase that `by_id` hands out. */
  ghost predicate LastOfId(ps: seq<Phase>, i: nat)
    requires i < |ps|
  {
    forall j :: i < j < |ps| ==> ps[j].id != ps[i].id
  }

  /** No open phase is hidden behind a later one with its id; with distinct ids none is. */
  ghost predicate OpenAreLast(ps: seq<Phase>) {
    forall i :: 0 <= i < |ps| && Open(ps[i]) ==> LastOfId(ps, i)
  }

  ghost predicate AllDone(ps: seq<Phase>) {
    forall i :: 0 <= i < |ps| ==> !Open(ps[i])
  }

  ghost predicate OpenId(ps: seq<Phase>, d: string) {
    Known(ps, d) && Open(Lookup(ps, d).value)
  }

  ghost function Ids(ps: seq<Phase>): set<string> {
    set i | 0 <= i < |ps| :: ps[i].id
  }

  /** Open phases with their dependency lists; walks run through open phases only. */
  ghost function OpenGraph(ps: seq<Phase>): Graph {
    map d | d in Ids(ps) && OpenId(ps, d) :: Lookup(ps, d).value.dependsOn
  }

  lemma InOpenGraph(ps: seq<Phase>, d: string)
    ensures d in OpenGraph(ps) <==> OpenId(ps, d)
  {
    FindFacts(ps, d);
  }

  /** No open phase waits for an id that is not on the board. */
  ghost predicate OpenDependenciesKnown(ps: seq<Phase>) {
    forall i, d :: 0 <= i < |ps| && Open(ps[i]) && d in ps[i].dependsOn ==> Known(ps, d)
  }

  lemma LookupLast(ps: seq<Phase>, i: nat)
    requires i < |ps| && LastOfId(ps, i)
    ensures Lookup(ps, ps[i].id) == Some(ps[i]) && Find(ps, ps[i].id) == Some(i)
  {
    FindFacts(ps, ps[i].id);
  }

  /** An open id is that of the open phase it stands for. */
  lemma OpenIdIsOpenPhase(ps: seq<Phase>, d: string) returns (i: nat)
    requires d in OpenGraph(ps)
    ensures i < |ps| && ps[i].id == d && Open(ps[i]) && OpenGraph(ps)[d] == ps[i].dependsOn
  {
    FindFacts(ps, d);
    i := Find(ps, d).value;
  }

  // ----- progress of one step

  /** With known dependencies and no cycle among open phases, some phase is ready while any is open. */
  lemma SomethingIsReady(ps: seq<Phase>)
    requires OpenDependenciesKnown(ps) && Acyclic(OpenGraph(ps))
    ensures Next(ps).None? <==> AllDone(ps)
  {
    if Next(ps).None? && !AllDone(ps) {
      var c := StuckHasCycle(ps);
      assert false;
    }
  }

  lemma WaitsForOpen(ps: seq<Phase>, i: nat) returns (d: string)
    requires OpenDependenciesKnown(ps) && i < |ps| && Open(ps[i]) && !Ready(ps, i)
    ensures d in ps[i].dependsOn && d in OpenGraph(ps)
  {
    d := Unmet(ps, ps[i])[0];
    assert d in Unmet(ps, ps[i]);
    assert Known(ps, d);
    InOpenGraph(ps, d);
  }

  /** A board with open phases, none ready, and all open dependencies known has a cycle of open phases. */
  lemma StuckHasCycle(ps: seq<Phase>) returns (c: seq<string>)
    requires OpenDependenciesKnown(ps) && Next(ps).None? && !AllDone(ps)
    ensures Cycle(OpenGraph(ps), c)
  {
    var k :| 0 <= k < |ps| && Open(ps[k]);
    var d := WaitsForOpen(ps, k);
    forall u | u in OpenGraph(ps) ensures HasSuccessor(OpenGraph(ps), u) {
      OpenIdWaits(ps, u);
    }
    c := NoSinkHasCycle(OpenGraph(ps));
  }

  lemma OpenIdWaits(ps: seq<Phase>, u: string)
    requires OpenDependenciesKnown(ps) && Next(ps).None? && u in OpenGraph(ps)
    ensures HasSuccessor(OpenGraph(ps), u)
  {
    var i := OpenIdIsOpenPhase(ps, u);
    var d := WaitsForOpen(ps, i);
  }

  /** Exit code 4 is only possible with an unknown dependency or a cycle among open phases. */
  lemma BlockedHasCause(ps: seq<Phase>)
    requires Next(ps).None? && !AllDone(ps)
    ensures !OpenDependenciesKnown(ps) || exists c :: Cycle(OpenGraph(ps), c)
  {
    if OpenDependenciesKnown(ps) {
      var c := StuckHasCycle(ps);
    }
  }

  // ----- driving the board: complete the next phase until there is none

  function SetStatus(ps: seq<Phase>, i: nat, status: string): (r: seq<Phase>)
    requires i < |ps|
    ensures |r| == |ps| && forall j :: 0 <= j < |ps| ==> r[j] == if j == i then ps[j].(status := status) else ps[j]
  {
    ps[i := ps[i].(status := status)]
  }

  function OpenCount(ps: seq<Phase>): nat {
    if ps == [] then 0 else (if Open(ps[0]) then 1 else 0) + OpenCount(ps[1..])
  }

  lemma {:induction false} CloseOne(ps: seq<Phase>, i: nat)
    requires i < |ps| && Open(ps[i])
    ensures OpenCount(SetStatus(ps, i, DONE)) == OpenCount(ps) - 1
  {
    var r := SetStatus(ps, i, DONE);
    if i > 0 {
      assert r[1..] == SetStatus(ps[1..], i - 1, DONE);
      CloseOne(ps[1..], i - 1);
    } else {
      assert r[1..] == ps[1..];
    }
  }

  datatype Drive = Drive(board: seq<Phase>, completed: seq<string>)

  /** Repeatedly report the next phase and mark it done. */
  function DriveAll(ps: seq<Phase>): Drive
    decreases OpenCount(ps)
  {
    match Next(ps)
    case None => Drive(ps, [])
    case Some(i) =>
      CloseOne(ps, i);
      var rest := DriveAll(SetStatus(ps, i, DONE));
      Drive(rest.board, [ps[i].id] + rest.completed)
  }

  lemma {:induction false} FindIgnoresStatus(ps: seq<Phase>, r: seq<Phase>, d: string)
    requires |r| == |ps| && forall j :: 0 <= j < |ps| ==> r[j].id == ps[j].id
    ensures Find(r, d) == Find(ps, d)
  {
    if ps != [] {
      var n := |ps| - 1;
      FindIgnoresStatus(ps[..n], r[..n], d);
    }
  }

  lemma CloseLookup(ps: seq<Phase>, i: nat, d: string)
    requires i < |ps| && LastOfId(ps, i)
    ensures Lookup(SetStatus(ps, i, DONE), d) == if d == ps[i].id then Some(ps[i].(status := DONE)) else Lookup(ps, d)
  {
    var r := SetStatus(ps, i, DONE);
    FindIgnoresStatus(ps, r, d);
    FindFacts(ps, d);
    if d == ps[i].id {
      LookupLast(ps, i);
    }
  }

  /** Marking a phase done removes its node from the open graph and changes nothing else there. */
  lemma CloseInGraph(ps: seq<Phase>, i: nat)
    requires i < |ps| && LastOfId(ps, i) && Open(ps[i])
    ensures OpenGraph(SetStatus(ps, i, DONE)) == OpenGraph(ps) - {ps[i].id}
  {
    var r := SetStatus(ps, i, DONE);
    var g, h := OpenGraph(ps), OpenGraph(r);
    forall d ensures d in h <==> d in g && d != ps[i].id {
      InOpenGraph(ps, d);
      InOpenGraph(r, d);
      CloseLookup(ps, i, d);
    }
    forall d | d in h ensures h[d] == g[d] {
      CloseLookup(ps, i, d);
    }
  }

  lemma SubgraphCycle(g: Graph, v: string, c: seq<string>)
    ensures Cycle(g - {v}, c) <==> Cycle(g, c) && v !in c
  {
    var h := g - {v};
    if Cycle(g, c) && v !in c {
      forall i | 0 <= i < |c| ensures c[i] in h {
        assert c[i] in c;
      }
    }
  }

  /** A ready phase depends on no open phase, so it lies on no cycle of open phases. */
  lemma ReadyIsOffCycle(ps: seq<Phase>, i: nat, c: seq<string>)
    requires i < |ps| && LastOfId(ps, i) && Cycle(OpenGraph(ps), c) && ps[i].id in c
    ensures !Ready(ps, i)
  {
    var k :| 0 <= k < |c| && c[k] == ps[i].id;
    var next := if k + 1 < |c| then c[k + 1] else c[1];
    LookupLast(ps, i);
    InOpenGraph(ps, next);
    assert next in OpenGraph(ps)[ps[i].id];
    assert next in Unmet(ps, ps[i]);
  }

  lemma ReadyDependenciesMet(ps: seq<Phase>, i: nat, d: string)
    requires i < |ps| && Ready(ps, i) && d in ps[i].dependsOn
    ensures Met(ps, d)
  {
    assert d !in Unmet(ps, ps[i]);
  }

  lemma UnknownPersists(ps: seq<Phase>, i: nat)
    requires i < |ps| && LastOfId(ps, i) && Ready(ps, i)
    ensures OpenDependenciesKnown(SetStatus(ps, i, DONE)) <==> OpenDependenciesKnown(ps)
  {
    var r := SetStatus(ps, i, DONE);
    forall d ensures Known(r, d) <==> Known(ps, d) {
      CloseLookup(ps, i, d);
      if d == ps[i].id { LookupLast(ps, i); }
    }
    forall d | d in ps[i].dependsOn ensures Known(ps, d) {
      ReadyDependenciesMet(ps, i, d);
    }
    forall j, d | 0 <= j < |ps| && j != i && d in ps[j].dependsOn
      ensures Known(r, d) <==> Known(ps, d)
      ensures r[j] == ps[j]
    {
    }
    if OpenDependenciesKnown(r) {
      forall j, d | 0 <= j < |ps| && Open(ps[j]) && d in ps[j].dependsOn ensures Known(ps, d) {
        assert j == i || r[j] == ps[j];
      }
    }
  }

  lemma CyclesPersist(ps: seq<Phase>, i: nat)
    requires i < |ps| && LastOfId(ps, i) && Ready(ps, i)
    ensures Acyclic(OpenGraph(SetStatus(ps, i, DONE))) <==> Acyclic(OpenGraph(ps))
  {
    CloseInGraph(ps, i);
    var g, h := OpenGraph(ps), OpenGraph(SetStatus(ps, i, DONE));
    forall c ensures Cycle(h, c) <==> Cycle(g, c) {
      SubgraphCycle(g, ps[i].id, c);
      if Cycle(g, c) && ps[i].id in c {
        ReadyIsOffCycle(ps, i, c);
      }
    }
  }

  /**
   Driving the board completes every phase if and only if no open phase has an unknown
   dependency and no cycle runs through open phases. It takes one step per phase closed.
   */
  lemma {:induction false} DriveCompletes(ps: seq<Phase>)
    requires OpenAreLast(ps)
    ensures AllDone(DriveAll(ps).board) <==> OpenDependenciesKnown(ps) && Acyclic(OpenGraph(ps))
    ensures |DriveAll(ps).completed| == OpenCount(ps) - OpenCount(DriveAll(ps).board)
    ensures AllDone(DriveAll(ps).board) ==> |DriveAll(ps).completed| == OpenCount(ps)
    decreases OpenCount(ps)
  {
    match Next(ps)
    case None =>
      if AllDone(ps) {
        NothingOpen(ps);
        AllDoneCount(ps);
      } else if OpenDependenciesKnown(ps) && Acyclic(OpenGraph(ps)) {
        SomethingIsReady(ps);
      }
    case Some(i) =>
      CloseOne(ps, i);
      UnknownPersists(ps, i);
      CyclesPersist(ps, i);
      DriveCompletes(SetStatus(ps, i, DONE));
      if AllDone(DriveAll(ps).board) {
        AllDoneCount(DriveAll(ps).board);
      }
  }

  lemma NothingOpen(ps: seq<Phase>)
    requires AllDone(ps)
    ensures Acyclic(OpenGraph(ps))
  {
    forall d ensures d !in OpenGraph(ps) {
      FindFacts(ps, d);
    }
  }

  lemma {:induction false} AllDoneCount(ps: seq<Phase>)
    requires AllDone(ps)
    ensures OpenCount(ps) == 0
  {
    if ps != [] {
      AllDoneCount(ps[1..]);
    }
  }

  /**
   Each completed id is that of a phase that was open, and every dependency of that phase
   was DONE at the start or was completed earlier.
   */
  lemma {:induction false} DependencyOrder(ps: seq<Phase>, k: nat) returns (i: nat)
    requires OpenAreLast(ps) && k < |DriveAll(ps).completed|
    ensures i < |ps| && ps[i].id == DriveAll(ps).completed[k] && Open(ps[i])
    ensures forall d :: d in ps[i].dependsOn ==> Met(ps, d) || d in DriveAll(ps).completed[..k]
    decreases OpenCount(ps)
  {
    var n := Next(ps).value;
    var r := SetStatus(ps, n, DONE);
    CloseOne(ps, n);
    var done, rest := DriveAll(ps).completed, DriveAll(r).completed;
    assert done == [ps[n].id] + rest;
    if k == 0 {
      i := n;
      forall d | d in ps[i].dependsOn ensures Met(ps, d) {
        ReadyDependenciesMet(ps, i, d);
      }
    } else {
      i := DependencyOrder(r, k - 1);
      assert r[i].id == ps[i].id && r[i].dependsOn == ps[i].dependsOn;
      forall d | d in ps[i].dependsOn ensures Met(ps, d) || d in done[..k] {
        assert done[..k] == [ps[n].id] + rest[..k - 1];
        CloseLookup(ps, n, d);
      }
    }
  }

  // ----- the command

  /** Status flags in the order the command applies them; "" means the flag is absent. */
  datatype Flags = Flags(done: string, partial: string, blocked: string, commit: string, result: string)

  /** Ids and dependency lists are what no flag can change. */
  ghost predicate SameShape(ps: seq<Phase>, r: seq<Phase>) {
    |r| == |ps| && forall j :: 0 <= j < |ps| ==> r[j].id == ps[j].id && r[j].dependsOn == ps[j].dependsOn
  }

  function Mark(ps: seq<Phase>, pid: string, status: string, flags: Flags): (r: seq<Phase>)
    requires Known(ps, pid)
    ensures SameShape(ps, r)
  {
    FindFacts(ps, pid);
    var i := Find(ps, pid).value;
    ps[i := Marked(ps[i], status, flags)]
  }

  function Marked(p: Phase, status: string, flags: Flags): Phase {
    Phase(p.id, status, p.dependsOn, if flags.commit == "" then p.commit else flags.commit,
          if flags.result == "" then p.result else flags.result)
  }

  /** Some flag can name the phase. */
  ghost predicate Nameable(ps: seq<Phase>, i: nat)
    requires i < |ps|
  {
    ps[i].id != "" && LastOfId(ps, i)
  }

  ghost predicate OpenAreNameable(ps: seq<Phase>) {
    forall i :: 0 <= i < |ps| && Open(ps[i]) ==> Nameable(ps, i)
  }

  lemma FindLast(ps: seq<Phase>, i: nat)
    requires i < |ps|
    ensures Known(ps, ps[i].id) && (Find(ps, ps[i].id) == Some(i) <==> LastOfId(ps, i))
  {
    FindFacts(ps, ps[i].id);
  }

  // ----- dependencies and the flags

  /** Every phase that is DONE has all its dependencies DONE. */
  ghost predicate DependenciesRespected(ps: seq<Phase>) {
    forall j, d :: 0 <= j < |ps| && !Open(ps[j]) && d in ps[j].dependsOn ==> Met(ps, d)
  }

  lemma MetAfterMark(ps: seq<Phase>, pid: string, status: string, flags: Flags, d: string)
    requires Known(ps, pid)
    ensures Met(Mark(ps, pid, status, flags), d) <==> if d == pid then status == DONE else Met(ps, d)
  {
    FindFacts(ps, pid);
    FindFacts(ps, d);
    FindIgnoresStatus(ps, Mark(ps, pid, status, flags), d);
  }

  /**
   Nothing in the command checks dependencies. Marking a phase DONE keeps them respected if and only if
   each of its own is DONE or is the phase itself; reopening a phase, if and only if no other DONE phase
   depends on it.
   */
  lemma RespectedAfterMark(ps: seq<Phase>, pid: string, status: string, flags: Flags)
    requires Known(ps, pid) && DependenciesRespected(ps)
    ensures DependenciesRespected(Mark(ps, pid, status, flags)) <==>
            if status == DONE
            then forall d :: d in Lookup(ps, pid).value.dependsOn ==> Met(ps, d) || d == pid
            else forall j :: 0 <= j < |ps| && Some(j) != Find(ps, pid) && !Open(ps[j]) ==> pid !in ps[j].dependsOn
  {
    FindFacts(ps, pid);
    var r, k := Mark(ps, pid, status, flags), Find(ps, pid).value;
    forall d ensures Met(r, d) <==> if d == pid then status == DONE else Met(ps, d) {
      MetAfterMark(ps, pid, status, flags, d);
    }
    if DependenciesRespected(r) {
      if status == DONE {
        forall d | d in ps[k].dependsOn ensures Met(ps, d) || d == pid {
          assert !Open(r[k]) && d in r[k].dependsOn && Met(r, d);
        }
      } else {
        forall j | 0 <= j < |ps| && j != k && !Open(ps[j]) ensures pid !in ps[j].dependsOn {
          assert r[j] == ps[j] && !Met(r, pid);
        }
      }
    }
  }

  /** `--done` accepts a phase whose dependency is still open, and reopening forgets its dependents. */
  lemma FlagsIgnoreDependencies()
    ensures var ps := [Phase("P1", "TODO", [], "", ""), Phase("P2", "TODO", ["P1"], "", "")];
            var flags := Flags("P2", "", "", "", "");
            && DependenciesRespected(ps) && Next(ps) == Some(0) && Known(ps, "P2") && AfterFlags(ps, flags).1
            && !DependenciesRespected(AfterFlags(ps, flags).0)
    ensures var ps := [Phase("P1", DONE, [], "", ""), Phase("P2", DONE, ["P1"], "", "")];
            DependenciesRespected(ps) && !DependenciesRespected(AfterFlags(ps, Flags("", "P1", "", "", "")).0)
  {
    var a := [Phase("P1", "TODO", [], "", ""), Phase("P2", "TODO", ["P1"], "", "")];
    var b := [Phase("P1", DONE, [], "", ""), Phase("P2", DONE, ["P1"], "", "")];
    var f, g := Flags("P2", "", "", "", ""), Flags("", "P1", "", "", "");
    FindFacts(a, "P1");
    FindFacts(a, "P2");
    FindFacts(b, "P1");
    assert Ready(a, 0);
    AsBoards(a, f);
    AsBoards(b, g);
    RespectedAfterMark(a, "P2", DONE, f);
    RespectedAfterMark(b, "P1", "PARTIAL", g);
    assert "P1" in a[1].dependsOn && "P1" in b[1].dependsOn && !Open(b[1]);
  }

  /** Completing only reported phases never violates a dependency. */
  lemma {:induction false} DriveRespects(ps: seq<Phase>)
    requires OpenAreLast(ps) && DependenciesRespected(ps)
    ensures DependenciesRespected(DriveAll(ps).board)
    decreases OpenCount(ps)
  {
    match Next(ps)
    case None =>
    case Some(i) =>
      CloseOne(ps, i);
      var flags := Flags(ps[i].id, "", "", "", "");
      LookupLast(ps, i);
      assert Mark(ps, ps[i].id, DONE, flags) == SetStatus(ps, i, DONE);
      forall d | d in ps[i].dependsOn ensures Met(ps, d) {
        ReadyDependenciesMet(ps, i, d);
      }
      RespectedAfterMark(ps, ps[i].id, DONE, flags);
      DriveRespects(SetStatus(ps, i, DONE));
  }

  // ----- the board after the flags

  /** The flags and the status each one writes, in the order the command applies them. */
  function Steps(flags: Flags): seq<(string, string)> {
    [(flags.done, DONE), (flags.partial, "PARTIAL"), (flags.blocked, "BLOCKED")]
  }

  /** Apply flags until one names an unknown id; the second component says that none did. */
  function ApplySteps(ps: seq<Phase>, steps: seq<(string, string)>, flags: Flags): (seq<Phase>, bool)
    decreases |steps|
  {
    if steps == [] then (ps, true)
    else if steps[0].0 == "" then ApplySteps(ps, steps[1..], flags)
    else if !Known(ps, steps[0].0) then (ps, false)
    else ApplySteps(Mark(ps, steps[0].0, steps[0].1, flags), steps[1..], flags)
  }

  function AfterFlags(ps: seq<Phase>, flags: Flags): (seq<Phase>, bool) { ApplySteps(ps, Steps(flags), flags) }

  /** Every flag that is present names a phase of the board. */
  predicate FlagsKnown(ps: seq<Phase>, flags: Flags) {
    && (flags.done == "" || Known(ps, flags.done))
    && (flags.partial == "" || Known(ps, flags.partial))
    && (flags.blocked == "" || Known(ps, flags.blocked))
  }

  /** No flag changes an id or a dependency, and a phase with an empty or later repeated id stays as it is. */
  lemma {:induction false} StepsKeep(ps: seq<Phase>, steps: seq<(string, string)>, flags: Flags)
    ensures SameShape(ps, ApplySteps(ps, steps, flags).0)
    ensures forall i :: 0 <= i < |ps| && !Nameable(ps, i) ==> ApplySteps(ps, steps, flags).0[i] == ps[i]
    ensures ApplySteps(ps, steps, flags).1 <==>
            forall k :: 0 <= k < |steps| && steps[k].0 != "" ==> Known(ps, steps[k].0)
    decreases |steps|
  {
    if steps != [] {
      assert forall k :: 0 <= k < |steps| ==> k == 0 || steps[k] == steps[1..][k - 1];
      var pid := steps[0].0;
      if pid == "" {
        StepsKeep(ps, steps[1..], flags);
      } else if Known(ps, pid) {
        var r := Mark(ps, pid, steps[0].1, flags);
        FindFacts(ps, pid);
        forall d ensures Known(r, d) <==> Known(ps, d) {
          FindIgnoresStatus(ps, r, d);
        }
        forall i | 0 <= i < |ps| ensures Nameable(r, i) <==> Nameable(ps, i) {
        }
        StepsKeep(r, steps[1..], flags);
      }
    }
  }

  /** Whether a flag with this id rewrites the phase at position j. */
  ghost predicate Names(ps: seq<Phase>, j: nat, pid: string)
    requires j < |ps|
  {
    pid == ps[j].id && Nameable(ps, j)
  }

  /**
   When all flags are known, the last flag that names a phase decides its status; its commit and result
   are replaced when given; every other phase is untouched.
   */
  lemma FlagsMeaning(ps: seq<Phase>, flags: Flags, j: nat)
    requires FlagsKnown(ps, flags) && j < |ps|
    ensures SameShape(ps, AfterFlags(ps, flags).0) && AfterFlags(ps, flags).1
    ensures AfterFlags(ps, flags).0[j] ==
            if Names(ps, j, flags.blocked) then Marked(ps[j], "BLOCKED", flags)
            else if Names(ps, j, flags.partial) then Marked(ps[j], "PARTIAL", flags)
            else if Names(ps, j, flags.done) then Marked(ps[j], DONE, flags)
            else ps[j]
    ensures var p := AfterFlags(ps, flags).0[j];
            var named := forall i :: j < i < |ps| ==> ps[i].id != ps[j].id;
            var blocked := named && flags.blocked != "" && flags.blocked == ps[j].id;
            var partial := named && flags.partial != "" && flags.partial == ps[j].id;
            var done := named && flags.done != "" && flags.done == ps[j].id;
            && p.id == ps[j].id && p.dependsOn == ps[j].dependsOn
            && p.status == (if blocked then "BLOCKED" else if partial then "PARTIAL" else if done then "DONE"
                            else ps[j].status)
            && p.commit == (if (blocked || partial || done) && flags.commit != "" then flags.commit else ps[j].commit)
            && p.result == (if (blocked || partial || done) && flags.result != "" then flags.result else ps[j].result)
  {
    StepsKeep(ps, Steps(flags), flags);
    AsBoards(ps, flags);
    BoardAt(ps, flags.done, DONE, flags, j);
    var b1 := Board(ps, flags.done, DONE, flags);
    BoardAt(b1, flags.partial, "PARTIAL", flags, j);
    BoardAt(Board(b1, flags.partial, "PARTIAL", flags), flags.blocked, "BLOCKED", flags, j);
  }

  /** The board after one flag. */
  function Board(ps: seq<Phase>, pid: string, status: string, flags: Flags): (r: seq<Phase>)
    ensures SameShape(ps, r)
  {
    if pid == "" || !Known(ps, pid) then ps else Mark(ps, pid, status, flags)
  }

  lemma BoardAt(ps: seq<Phase>, pid: string, status: string, flags: Flags, j: nat)
    requires j < |ps|
    ensures var r := Board(ps, pid, status, flags);
            && r[j] == (if Names(ps, j, pid) then Marked(ps[j], status, flags) else ps[j])
            && forall d :: Names(r, j, d) <==> Names(ps, j, d)
  {
    FindFacts(ps, pid);
  }

  /** With known flags the fold is three boards in a row. */
  lemma AsBoards(ps: seq<Phase>, flags: Flags)
    requires FlagsKnown(ps, flags)
    ensures var b1 := Board(ps, flags.done, DONE, flags);
            var b2 := Board(b1, flags.partial, "PARTIAL", flags);
            AfterFlags(ps, flags) == (Board(b2, flags.blocked, "BLOCKED", flags), true)
  {
    var b1 := Board(ps, flags.done, DONE, flags);
    var b2 := Board(b1, flags.partial, "PARTIAL", flags);
    FindIgnoresStatus(ps, b1, flags.partial);
    FindIgnoresStatus(ps, b2, flags.blocked);
    var last := (flags.blocked, "BLOCKED");
    OneStep(ps, (flags.done, DONE), [(flags.partial, "PARTIAL"), last], flags);
    OneStep(b1, (flags.partial, "PARTIAL"), [last], flags);
    OneStep(b2, last, [], flags);
    assert [(flags.done, DONE)] + [(flags.partial, "PARTIAL"), last] == Steps(flags);
    assert [(flags.partial, "PARTIAL")] + [last] == [(flags.partial, "PARTIAL"), last];
    assert [last] + [] == [last];
  }

  lemma KnownMeaning(ps: seq<Phase>, d: string)
    ensures Known(ps, d) <==> exists i :: 0 <= i < |ps| && ps[i].id == d
  {
    FindFacts(ps, d);
  }

  /** An unknown id ends the command: the flags before it stay applied, it and the later ones are not. */
  lemma UnknownFlagStops(ps: seq<Phase>, flags: Flags)
    ensures flags.done != "" && !Known(ps, flags.done) ==> AfterFlags(ps, flags) == (ps, false)
    ensures (flags.done == "" || Known(ps, flags.done)) && flags.partial != "" && !Known(ps, flags.partial) ==>
              AfterFlags(ps, flags) == (Board(ps, flags.done, DONE, flags), false)
    ensures (flags.done == "" || Known(ps, flags.done)) && (flags.partial == "" || Known(ps, flags.partial))
            && flags.blocked != "" && !Known(ps, flags.blocked) ==>
              AfterFlags(ps, flags)
              == (Board(Board(ps, flags.done, DONE, flags), flags.partial, "PARTIAL", flags), false)
  {
    var done, partial, last := (flags.done, DONE), (flags.partial, "PARTIAL"), (flags.blocked, "BLOCKED");
    var b1 := Board(ps, flags.done, DONE, flags);
    var b2 := Board(b1, flags.partial, "PARTIAL", flags);
    FindIgnoresStatus(ps, b1, flags.partial);
    FindIgnoresStatus(ps, b2, flags.blocked);
    assert Steps(flags) == [done] + [partial, last] && [partial, last] == [partial] + [last];
    if flags.done == "" || Known(ps, flags.done) {
      OneStep(ps, done, [partial, last], flags);
      if flags.partial == "" || Known(ps, flags.partial) {
        OneStep(b1, partial, [last], flags);
      }
    }
  }

  lemma OneStep(ps: seq<Phase>, step: (string, string), rest: seq<(string, string)>, flags: Flags)
    requires step.0 == "" || Known(ps, step.0)
    ensures ApplySteps(ps, [step] + rest, flags) == ApplySteps(Board(ps, step.0, step.1, flags), rest, flags)
  {
    assert ([step] + rest)[1..] == rest;
  }

  /**
   `--done` on an open phase closes it if and only if its id is not empty and no later phase repeats it;
   without commit and result that is one step of the drive. Otherwise the phase is left exactly as it was.
   */
  lemma DoneFlagClosesNext(ps: seq<Phase>, i: nat, commit: string, result: string)
    requires i < |ps|
    ensures var id := ps[i].id;
            var after := AfterFlags(ps, Flags(id, "", "", commit, result));
            && after.1 && SameShape(ps, after.0)
            && (Open(ps[i]) ==> (!Open(after.0[i]) <==> Nameable(ps, i)))
            && (Nameable(ps, i) && commit == result == "" ==> after.0 == SetStatus(ps, i, DONE))
            && (!Nameable(ps, i) ==> after.0[i] == ps[i])
  {
    var flags := Flags(ps[i].id, "", "", commit, result);
    FindLast(ps, i);
    FlagsMeaning(ps, flags, i);
    var r := AfterFlags(ps, flags).0;
    if Nameable(ps, i) && commit == result == "" {
      forall j | 0 <= j < |ps| ensures r[j] == SetStatus(ps, i, DONE)[j] {
        FlagsMeaning(ps, flags, j);
      }
    }
  }

  /** A board on which completing the reported phase rewrites its twin and reports the phase again. */
  lemma DuplicateIdNeverCloses()
    ensures var ps := [Phase("P1", "TODO", [], "", ""), Phase("P1", DONE, [], "", "")];
            Next(ps) == Some(0) && AfterFlags(ps, Flags("P1", "", "", "", "")) == (ps, true)
  {
    var ps := [Phase("P1", "TODO", [], "", ""), Phase("P1", DONE, [], "", "")];
    var flags := Flags("P1", "", "", "", "");
    FindFacts(ps, "P1");
    assert Ready(ps, 0);
    AsBoards(ps, flags);
    assert Mark(ps, "P1", DONE, flags) == ps;
  }

  // ----- series of invocations

  function Invocations(ps: seq<Phase>, runs: seq<Flags>): seq<Phase>
    decreases |runs|
  {
    if runs == [] then ps else Invocations(AfterFlags(ps, runs[0]).0, runs[1..])
  }

  ghost predicate Finishes(ps: seq<Phase>, runs: seq<Flags>) { AllDone(Invocations(ps, runs)) }

  /** A phase that no flag can name stays as it is through every series of invocations. */
  lemma {:induction false} UnnamedForever(ps: seq<Phase>, runs: seq<Flags>, i: nat)
    requires i < |ps| && !Nameable(ps, i)
    ensures |Invocations(ps, runs)| == |ps| && Invocations(ps, runs)[i] == ps[i]
    decreases |runs|
  {
    if runs != [] {
      var r := AfterFlags(ps, runs[0]).0;
      StepsKeep(ps, Steps(runs[0]), runs[0]);
      UnnamedForever(r, runs[1..], i);
    }
  }

  lemma {:induction false} CloseEverything(ps: seq<Phase>) returns (runs: seq<Flags>)
    requires OpenAreNameable(ps)
    ensures Finishes(ps, runs)
    decreases OpenCount(ps)
  {
    if AllDone(ps) {
      runs := [];
    } else {
      var i :| 0 <= i < |ps| && Open(ps[i]);
      var flags, next := Flags(ps[i].id, "", "", "", ""), SetStatus(ps, i, DONE);
      DoneFlagClosesNext(ps, i, "", "");
      CloseOne(ps, i);
      var rest := CloseEverything(next);
      runs := [flags] + rest;
      assert runs[1..] == rest;
    }
  }

  /** Some series of invocations finishes the board if and only if every open phase can be named by a flag. */
  lemma CompletableIff(ps: seq<Phase>)
    ensures (exists runs :: Finishes(ps, runs)) <==> OpenAreNameable(ps)
  {
    forall runs | Finishes(ps, runs) ensures OpenAreNameable(ps) {
      StuckOpen(ps, runs);
    }
    if OpenAreNameable(ps) {
      var runs := CloseEverything(ps);
      assert Finishes(ps, runs);
    }
  }

  lemma StuckOpen(ps: seq<Phase>, runs: seq<Flags>)
    ensures OpenAreNameable(ps) || !Finishes(ps, runs)
  {
    if i :| 0 <= i < |ps| && Open(ps[i]) && !Nameable(ps, i) {
      UnnamedForever(ps, runs, i);
    }
  }

  // ----- following the command

  /** Up to n times, ask for the next phase and report it done. */
  function Follow(ps: seq<Phase>, n: nat): seq<Phase>
    decreases n
  {
    if n == 0 then ps
    else
      match Next(ps)
      case None => ps
      case Some(i) => Follow(AfterFlags(ps, Flags(ps[i].id, "", "", "", "")).0, n - 1)
  }

  lemma {:induction false} FollowIsInvocations(ps: seq<Phase>, n: nat) returns (runs: seq<Flags>)
    ensures Follow(ps, n) == Invocations(ps, runs)
    decreases n
  {
    runs := [];
    if n > 0 && Next(ps).Some? {
      var flags := Flags(ps[Next(ps).value].id, "", "", "", "");
      var rest := FollowIsInvocations(AfterFlags(ps, flags).0, n - 1);
      runs := [flags] + rest;
      assert runs[1..] == rest;
    }
  }

  lemma NameableAfterClose(ps: seq<Phase>, i: nat)
    requires OpenAreNameable(ps) && i < |ps| && Open(ps[i])
    ensures OpenAreNameable(SetStatus(ps, i, DONE))
    ensures AfterFlags(ps, Flags(ps[i].id, "", "", "", "")).0 == SetStatus(ps, i, DONE)
  {
    DoneFlagClosesNext(ps, i, "", "");
  }

  /** On a nameable board, following the command either is not over or ends where the drive ends. */
  lemma {:induction false} FollowIsDrive(ps: seq<Phase>, n: nat)
    requires OpenAreNameable(ps)
    ensures AllDone(Follow(ps, n)) || n >= |DriveAll(ps).completed| ==> Follow(ps, n) == DriveAll(ps).board
    decreases n
  {
    match Next(ps)
    case None =>
    case Some(i) =>
      if n > 0 {
        NameableAfterClose(ps, i);
        FollowIsDrive(SetStatus(ps, i, DONE), n - 1);
      }
  }

  /**
   For every board: doing what the command reports and reporting it done finishes the mission if and only
   if every open phase can be named, no open phase has an unknown dependency, and no cycle runs through
   open phases.
   */
  lemma FollowCompletes(ps: seq<Phase>)
    ensures (exists n: nat :: AllDone(Follow(ps, n))) <==>
            OpenAreNameable(ps) && OpenDependenciesKnown(ps) && Acyclic(OpenGraph(ps))
  {
    forall n: nat | AllDone(Follow(ps, n))
      ensures OpenAreNameable(ps) && OpenDependenciesKnown(ps) && Acyclic(OpenGraph(ps))
    {
      var runs := FollowIsInvocations(ps, n);
      StuckOpen(ps, runs);
      FollowIsDrive(ps, n);
      DriveCompletes(ps);
    }
    if OpenAreNameable(ps) && OpenDependenciesKnown(ps) && Acyclic(OpenGraph(ps)) {
      DriveCompletes(ps);
      FollowIsDrive(ps, |DriveAll(ps).completed|);
    }
  }

  class Mission {
    var phases: seq<Phase>

    constructor (phases: seq<Phase>)
      ensures this.phases == phases
    {
      this.phases := phases;
    }

    /** `next_phase`: scan in board order. */
    method NextPhase() returns (r: Option<nat>)
      ensures r == Next(phases)
      ensures r.Some? ==> r.value < |phases| && Startable(phases, r.value)
      ensures forall i :: 0 <= i < (if r.Some? then r.value else |phases|) ==> !Startable(phases, i)
    {
      forall k | 0 <= k < |phases| ensures Ready(phases, k) <==> Startable(phases, k) {
        ReadyIsStartable(phases, k);
      }
      var i := 0;
      while i < |phases|
        invariant 0 <= i <= |phases|
        invariant FirstReady(phases, i) == Next(phases)
      {
        if Open(phases[i]) && Unmet(phases, phases[i]) == [] {
          return Some(i);
        }
        i := i + 1;
      }
      return None;
    }

    /** The three status flags in order; an unknown id stops there, keeping the earlier ones. */
    method ApplyAll(flags: Flags) returns (known: bool)
      modifies this
      ensures (phases, known) == AfterFlags(old(phases), flags)
      ensures SameShape(old(phases), phases)
      ensures known <==> FlagsKnown(old(phases), flags)
    {
      var steps := Steps(flags);
      StepsKeep(phases, steps, flags);
      assert steps[0].0 == flags.done && steps[1].0 == flags.partial && steps[2].0 == flags.blocked;
      var k := 0;
      while k < |steps|
        invariant 0 <= k <= |steps|
        invariant ApplySteps(phases, steps[k..], flags) == AfterFlags(old(phases), flags)
      {
        var (pid, status) := steps[k];
        assert steps[k..][1..] == steps[k + 1..];
        if pid != "" {
          if !Known(phases, pid) {
            return false;
          }
          phases := Mark(phases, pid, status, flags);
        }
        k := k + 1;
      }
      return true;
    }

    /**
     One invocation without --status: exit 1 on an unknown phase id, else 3, 4 or 0 as the board after the
     flags says. 4 means an unknown dependency or a cycle among the open phases.
     */
    method Invoke(flags: Flags) returns (exit: int)
      modifies this
      ensures phases == AfterFlags(old(phases), flags).0
      ensures exit == 1 || exit == if Next(phases).Some? then 0 else if AllDone(phases) then 3 else 4
      ensures exit == 1 <==> !FlagsKnown(old(phases), flags)
      ensures exit == 4 ==> !OpenDependenciesKnown(phases) || exists c :: Cycle(OpenGraph(phases), c)
    {
      var known := ApplyAll(flags);
      if !known { return 1; }
      var next := NextPhase();
      if next.Some? { return 0; }
      var remaining := exists i :: 0 <= i < |phases| && Open(phases[i]);
      if !remaining { return 3; }
      BlockedHasCause(phases);
      return 4;
    }
  }
}

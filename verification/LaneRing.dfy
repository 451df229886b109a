/**
 The round-robin lane ring of scripts/parent_map_backfill.py as an interleaved system: any
 number of concurrent `infer` calls share a ticket counter and three per-lane counters, each
 updated under a lock. The schedule and every provider reply are chosen by an adversary.
 */
module LaneRing {
  import opened Finite

  type Counter = map<string, nat>

  function Get(m: Counter, lane: string): nat { if lane in m then m[lane] else 0 }

  function Inc(m: Counter, lane: string): Counter { m[lane := Get(m, lane) + 1] }

  /** Program point of one call; `step` counts the lanes refused so far. */
  datatype Call =
    | NoLane                                  // raised: the ring is empty
    | Entered                                 // before drawing a ticket
    | Choosing(start: nat, step: nat)         // head of the failover loop
    | Waiting(start: nat, step: nat)          // lane selected, request handed to the client
    | Answered(start: nat, step: nat, dispatched: bool, failed: bool) // reply in hand, not yet counted
    | Finished(start: nat, step: nat, failed: bool) // dispatched: returned, or raised a provider fault
    | Exhausted(start: nat)                   // raised undispatched
  {
    predicate Started() { !NoLane? && !Entered? }

    predicate InFlight() { Waiting? || Answered? }

    predicate Final() { NoLane? || Finished? || Exhausted? }

    /** Lanes selected so far by this call on a ring of n lanes. */
    function Tried(n: nat): nat {
      match this
      case NoLane => 0
      case Entered => 0
      case Choosing(_, k) => k
      case Waiting(_, k) => k + 1
      case Answered(_, k, _, _) => k + 1
      case Finished(_, k, _) => k + 1
      case Exhausted(_) => n
    }

    /** Lanes that refused this call locally so far. */
    function Declined(n: nat): nat {
      match this
      case NoLane => 0
      case Entered => 0
      case Choosing(_, k) => k
      case Waiting(_, k) => k
      case Answered(_, k, _, _) => k
      case Finished(_, k, _) => k
      case Exhausted(_) => n
    }
  }

  datatype Kind = Selection | Dispatch | Refusal
  datatype Event = Event(kind: Kind, call: nat, lane: string)

  datatype State = State(
    rr: nat, selected: Counter, dispatched: Counter, refused: Counter,
    calls: map<nat, Call>, log: seq<Event>)

  const INITIAL := State(0, map[], map[], map[], map[], [])

  datatype Action =
    | Enter(call: nat)
    | Draw(call: nat)
    | Select(call: nat)
    | Reply(call: nat, dispatched: bool, failed: bool)
    | Account(call: nat)

  function LaneAt(ring: seq<string>, start: nat, step: nat): string
    requires ring != []
  {
    ring[(start + step) % |ring|]
  }

  /** Increment the counter of an event and remember it. */
  function Record(s: State, e: Event): State {
    var t := s.(log := s.log + [e]);
    match e.kind
    case Selection => t.(selected := Inc(s.selected, e.lane))
    case Dispatch => t.(dispatched := Inc(s.dispatched, e.lane))
    case Refusal => t.(refused := Inc(s.refused, e.lane))
  }

  predicate Enabled(ring: seq<string>, s: State, a: Action) {
    if a.Enter? then a.call !in s.calls
    else
      a.call in s.calls &&
      match a
      case Draw(c) => s.calls[c].Entered? && ring != []
      case Select(c) => s.calls[c].Choosing? && ring != []
      case Reply(c, _, _) => s.calls[c].Waiting?
      case Account(c) => s.calls[c].Answered? && ring != []
  }

  function Apply(ring: seq<string>, s: State, a: Action): State
    requires Enabled(ring, s, a)
  {
    match a
    case Enter(c) =>
      s.(calls := s.calls[c := if ring == [] then NoLane else Entered])
    case Draw(c) =>
      s.(rr := s.rr + 1, calls := s.calls[c := Choosing(s.rr % |ring|, 0)])
    case Select(c) =>
      var call := s.calls[c];
      Record(s, Event(Selection, c, LaneAt(ring, call.start, call.step)))
      .(calls := s.calls[c := Waiting(call.start, call.step)])
    case Reply(c, dispatched, failed) =>
      s.(calls := s.calls[c := Answered(s.calls[c].start, s.calls[c].step, dispatched, failed)])
    case Account(c) =>
      var call := s.calls[c];
      var lane := LaneAt(ring, call.start, call.step);
      if call.dispatched then
        Record(s, Event(Dispatch, c, lane)).(calls := s.calls[c := Finished(call.start, call.step, call.failed)])
      else
        var next := if call.step + 1 == |ring| then Exhausted(call.start) else Choosing(call.start, call.step + 1);
        Record(s, Event(Refusal, c, lane)).(calls := s.calls[c := next])
  }

  predicate Runnable(ring: seq<string>, s: State, acts: seq<Action>)
    decreases |acts|
  {
    acts == [] || (Enabled(ring, s, acts[0]) && Runnable(ring, Apply(ring, s, acts[0]), acts[1..]))
  }

  function Run(ring: seq<string>, s: State, acts: seq<Action>): State
    requires Runnable(ring, s, acts)
    decreases |acts|
  {
    if acts == [] then s else Run(ring, Apply(ring, s, acts[0]), acts[1..])
  }

  // ----- counting calls

  ghost function CallsWith(calls: map<nat, Call>, p: Call -> bool): set<nat> {
    set c | c in calls && p(calls[c])
  }

  ghost function Tally(calls: map<nat, Call>, p: Call -> bool): nat {
    |CallsWith(calls, p)|
  }

  lemma TallyUpdate(calls: map<nat, Call>, c: nat, x: Call, p: Call -> bool)
    ensures Tally(calls[c := x], p)
         == Tally(calls, p) - (if c in calls && p(calls[c]) then 1 else 0) + (if p(x) then 1 else 0)
  {
    var was, now := CallsWith(calls, p), CallsWith(calls[c := x], p);
    assert now - {c} == was - {c};
    assert |was| == |was - {c}| + if c in was then 1 else 0;
    assert |now| == |now - {c}| + if c in now then 1 else 0;
  }

  function OnLane(ring: seq<string>, lane: string): Call -> bool {
    (call: Call) => ring != [] && call.InFlight() && LaneAt(ring, call.start, call.step) == lane
  }

  function StartedAt(k: nat): Call -> bool {
    (call: Call) => call.Started() && call.start == k
  }

  function IsStarted(): Call -> bool { (call: Call) => call.Started() }

  function IsFinished(): Call -> bool { (call: Call) => call.Finished? }

  // ----- conservation

  /** Selections on a lane are its dispatches, its refusals and the calls in flight on it. */
  ghost predicate Balanced(ring: seq<string>, s: State, lane: string) {
    Get(s.selected, lane) == Get(s.dispatched, lane) + Get(s.refused, lane) + Tally(s.calls, OnLane(ring, lane))
  }

  lemma StepBalanced(ring: seq<string>, s: State, a: Action, lane: string)
    requires Enabled(ring, s, a) && Balanced(ring, s, lane)
    ensures Balanced(ring, Apply(ring, s, a), lane)
  {
    var s' := Apply(ring, s, a);
    TallyUpdate(s.calls, a.call, s'.calls[a.call], OnLane(ring, lane));
  }

  /** Tickets below m that fall on position k of a ring of n lanes. */
  function TicketsAt(m: nat, k: nat, n: nat): nat
    requires n > 0
  {
    if m == 0 then 0 else TicketsAt(m - 1, k, n) + if (m - 1) % n == k then 1 else 0
  }

  lemma StepStarts(ring: seq<string>, s: State, a: Action, k: nat)
    requires ring != [] && Enabled(ring, s, a)
    requires Tally(s.calls, StartedAt(k)) == TicketsAt(s.rr, k, |ring|)
    ensures Tally(Apply(ring, s, a).calls, StartedAt(k)) == TicketsAt(Apply(ring, s, a).rr, k, |ring|)
  {
    TallyUpdate(s.calls, a.call, Apply(ring, s, a).calls[a.call], StartedAt(k));
  }

  lemma StepStarted(ring: seq<string>, s: State, a: Action)
    requires Enabled(ring, s, a) && Tally(s.calls, IsStarted()) == s.rr
    ensures Tally(Apply(ring, s, a).calls, IsStarted()) == Apply(ring, s, a).rr
  {
    TallyUpdate(s.calls, a.call, Apply(ring, s, a).calls[a.call], IsStarted());
  }

  // ----- the history of each call

  /** Lanes of one kind of event of one call, in order. */
  function LanesOf(log: seq<Event>, kind: Kind, c: nat): seq<string> {
    if log == [] then []
    else
      var e := log[|log| - 1];
      LanesOf(log[..|log| - 1], kind, c) + if e.kind == kind && e.call == c then [e.lane] else []
  }

  function CountOf(log: seq<Event>, kind: Kind, lane: string): nat {
    if log == [] then 0
    else
      var e := log[|log| - 1];
      CountOf(log[..|log| - 1], kind, lane) + if e.kind == kind && e.lane == lane then 1 else 0
  }

  function Total(log: seq<Event>, kind: Kind): nat {
    if log == [] then 0 else Total(log[..|log| - 1], kind) + if log[|log| - 1].kind == kind then 1 else 0
  }

  /** The first k lanes met from `start` round the ring. */
  function Arc(ring: seq<string>, start: nat, k: nat): seq<string>
    requires ring != []
  {
    seq(k, j requires 0 <= j => LaneAt(ring, start, j))
  }

  /** A call that has started is inside the ring. */
  ghost predicate Placed(ring: seq<string>, call: Call) {
    && (call.Started() ==> call.start < |ring| && (!call.Exhausted? ==> call.step < |ring|))
    && (call.Entered? ==> ring != [])
  }

  /** The lanes of each kind of event that a program point accounts for. */
  ghost function Accounted(ring: seq<string>, call: Call, kind: Kind): seq<string> {
    if ring == [] || !call.Started() then []
    else
      match kind
      case Selection => Arc(ring, call.start, call.Tried(|ring|))
      case Refusal => Arc(ring, call.start, call.Declined(|ring|))
      case Dispatch => if call.Finished? then [LaneAt(ring, call.start, call.step)] else []
  }

  /** The events of a call are exactly those its program point accounts for. */
  ghost predicate Told(ring: seq<string>, s: State, c: nat, kind: Kind) {
    LanesOf(s.log, kind, c) == if c in s.calls then Accounted(ring, s.calls[c], kind) else []
  }

  ghost predicate AllTold(ring: seq<string>, s: State) {
    && (forall c :: c in s.calls ==> Placed(ring, s.calls[c]))
    && forall c, kind :: Told(ring, s, c, kind)
  }

  lemma Appended(log: seq<Event>, e: Event, c: nat, kind: Kind)
    ensures LanesOf(log + [e], kind, c)
         == LanesOf(log, kind, c) + if e.kind == kind && e.call == c then [e.lane] else []
  {
    assert (log + [e])[..|log|] == log;
  }

  lemma ArcStep(ring: seq<string>, start: nat, k: nat)
    requires ring != []
    ensures Arc(ring, start, 0) == [] && Arc(ring, start, k + 1) == Arc(ring, start, k) + [LaneAt(ring, start, k)]
  {
  }

  lemma StepPlaces(ring: seq<string>, s: State, a: Action)
    requires Enabled(ring, s, a) && (a.call in s.calls ==> Placed(ring, s.calls[a.call]))
    ensures Placed(ring, Apply(ring, s, a).calls[a.call])
  {
  }

  /** The event that an action adds to the log, if any. */
  function Emitted(ring: seq<string>, s: State, a: Action): Option<Event>
    requires Enabled(ring, s, a)
  {
    if !a.Select? && !a.Account? then None
    else
      var call := s.calls[a.call];
      var kind := if a.Select? then Selection else if call.dispatched then Dispatch else Refusal;
      Some(Event(kind, a.call, LaneAt(ring, call.start, call.step)))
  }

  lemma StepLogs(ring: seq<string>, s: State, a: Action)
    requires Enabled(ring, s, a)
    ensures Apply(ring, s, a).log == match Emitted(ring, s, a) case Some(e) => s.log + [e] case None => s.log
    ensures forall c :: c != a.call ==> (c in Apply(ring, s, a).calls <==> c in s.calls)
    ensures forall c :: c != a.call && c in s.calls ==> Apply(ring, s, a).calls[c] == s.calls[c]
  {
  }

  /** What the acting call accounts for grows by the lane of the emitted event. */
  lemma ActorAccounts(ring: seq<string>, s: State, a: Action, kind: Kind)
    requires Enabled(ring, s, a) && (a.call in s.calls ==> Placed(ring, s.calls[a.call]))
    ensures var before := if a.call in s.calls then Accounted(ring, s.calls[a.call], kind) else [];
            var e := Emitted(ring, s, a);
            Accounted(ring, Apply(ring, s, a).calls[a.call], kind)
            == before + if e.Some? && e.value.kind == kind then [e.value.lane] else []
  {
    var call' := Apply(ring, s, a).calls[a.call];
    if call'.Started() {
      ArcStep(ring, call'.start, if call'.Exhausted? then |ring| - 1 else if call'.Choosing? then 0 else call'.step);
      if a.Account? { ArcStep(ring, call'.start, s.calls[a.call].step); }
    }
  }

  /** Every step leaves the events of every call as its program point accounts for them. */
  lemma StepTells(ring: seq<string>, s: State, a: Action, c: nat, kind: Kind)
    requires Enabled(ring, s, a) && (a.call in s.calls ==> Placed(ring, s.calls[a.call])) && Told(ring, s, c, kind)
    ensures Told(ring, Apply(ring, s, a), c, kind)
  {
    StepLogs(ring, s, a);
    var e := Emitted(ring, s, a);
    if e.Some? { Appended(s.log, e.value, c, kind); }
    if c == a.call { ActorAccounts(ring, s, a, kind); }
  }

  lemma StepTellsAll(ring: seq<string>, s: State, a: Action)
    requires Enabled(ring, s, a) && AllTold(ring, s)
    ensures AllTold(ring, Apply(ring, s, a))
  {
    var s' := Apply(ring, s, a);
    StepPlaces(ring, s, a);
    StepLogs(ring, s, a);
    forall c, kind ensures Told(ring, s', c, kind) {
      assert Told(ring, s, c, kind);
      StepTells(ring, s, a, c, kind);
    }
  }

  /** A counter counts the events of its kind. */
  ghost predicate Counts(m: Counter, log: seq<Event>, kind: Kind, lane: string) {
    Get(m, lane) == CountOf(log, kind, lane)
  }

  ghost predicate Counted(s: State, lane: string) {
    && Counts(s.selected, s.log, Selection, lane)
    && Counts(s.dispatched, s.log, Dispatch, lane)
    && Counts(s.refused, s.log, Refusal, lane)
  }

  lemma CountSnoc(log: seq<Event>, e: Event, kind: Kind, lane: string)
    ensures CountOf(log + [e], kind, lane)
         == CountOf(log, kind, lane) + if e.kind == kind && e.lane == lane then 1 else 0
    ensures Total(log + [e], kind) == Total(log, kind) + if e.kind == kind then 1 else 0
  {
    assert (log + [e])[..|log|] == log;
  }

  lemma CountsSnoc(m: Counter, log: seq<Event>, e: Event, kind: Kind, lane: string)
    requires Counts(m, log, kind, lane)
    ensures Counts(if e.kind == kind then Inc(m, e.lane) else m, log + [e], kind, lane)
  {
    CountSnoc(log, e, kind, lane);
  }

  lemma RecordCounted(s: State, e: Event, lane: string)
    requires Counted(s, lane)
    ensures Counted(Record(s, e), lane)
  {
    CountsSnoc(s.selected, s.log, e, Selection, lane);
    CountsSnoc(s.dispatched, s.log, e, Dispatch, lane);
    CountsSnoc(s.refused, s.log, e, Refusal, lane);
  }

  lemma StepCounted(ring: seq<string>, s: State, a: Action, lane: string)
    requires Enabled(ring, s, a) && Counted(s, lane)
    ensures Counted(Apply(ring, s, a), lane)
  {
    var e := Emitted(ring, s, a);
    if e.Some? { RecordCounted(s, e.value, lane); }
  }

  lemma StepTotalEvents(ring: seq<string>, s: State, a: Action)
    requires Enabled(ring, s, a)
    ensures Total(Apply(ring, s, a).log, Dispatch)
         == Total(s.log, Dispatch) + if a.Account? && s.calls[a.call].dispatched then 1 else 0
  {
    var e := Emitted(ring, s, a);
    StepLogs(ring, s, a);
    if e.Some? { CountSnoc(s.log, e.value, Dispatch, ""); }
  }

  lemma StepTotal(ring: seq<string>, s: State, a: Action)
    requires Enabled(ring, s, a) && Total(s.log, Dispatch) == Tally(s.calls, IsFinished())
    ensures Total(Apply(ring, s, a).log, Dispatch) == Tally(Apply(ring, s, a).calls, IsFinished())
  {
    StepTotalEvents(ring, s, a);
    TallyUpdate(s.calls, a.call, Apply(ring, s, a).calls[a.call], IsFinished());
  }

  // ----- safety over whole runs

  ghost predicate Invariant(ring: seq<string>, s: State) {
    && (forall lane :: Balanced(ring, s, lane))
    && (forall lane :: Counted(s, lane))
    && (ring != [] ==> forall k: nat :: Tally(s.calls, StartedAt(k)) == TicketsAt(s.rr, k, |ring|))
    && Tally(s.calls, IsStarted()) == s.rr
    && Total(s.log, Dispatch) == Tally(s.calls, IsFinished())
    && AllTold(ring, s)
  }

  lemma StepKeepsInvariant(ring: seq<string>, s: State, a: Action)
    requires Enabled(ring, s, a) && Invariant(ring, s)
    ensures Invariant(ring, Apply(ring, s, a))
  {
    var s' := Apply(ring, s, a);
    forall lane ensures Balanced(ring, s', lane) { StepBalanced(ring, s, a, lane); }
    forall lane ensures Counted(s', lane) { StepCounted(ring, s, a, lane); }
    if ring != [] {
      forall k: nat ensures Tally(s'.calls, StartedAt(k)) == TicketsAt(s'.rr, k, |ring|) {
        StepStarts(ring, s, a, k);
      }
    }
    StepStarted(ring, s, a);
    StepTotal(ring, s, a);
    StepTellsAll(ring, s, a);
  }

  lemma InitialInvariant(ring: seq<string>)
    ensures Invariant(ring, INITIAL)
  {
    forall p: Call -> bool ensures Tally(INITIAL.calls, p) == 0 {
      assert CallsWith(INITIAL.calls, p) == {};
    }
  }

  lemma {:induction false} RunKeepsInvariant(ring: seq<string>, s: State, acts: seq<Action>)
    requires Runnable(ring, s, acts) && Invariant(ring, s)
    ensures Invariant(ring, Run(ring, s, acts))
    decreases |acts|
  {
    if acts != [] {
      StepKeepsInvariant(ring, s, acts[0]);
      RunKeepsInvariant(ring, Apply(ring, s, acts[0]), acts[1..]);
    }
  }

  /** Every reachable state, under every schedule and every provider. */
  lemma Reachable(ring: seq<string>, acts: seq<Action>)
    requires Runnable(ring, INITIAL, acts)
    ensures Invariant(ring, Run(ring, INITIAL, acts))
  {
    InitialInvariant(ring);
    RunKeepsInvariant(ring, INITIAL, acts);
  }

  ghost predicate AtRest(s: State) { forall c :: c in s.calls ==> s.calls[c].Final() }

  lemma BalancedAtRest(ring: seq<string>, s: State, lane: string)
    requires AtRest(s) && Balanced(ring, s, lane)
    ensures Get(s.selected, lane) == Get(s.dispatched, lane) + Get(s.refused, lane)
  {
    assert CallsWith(s.calls, OnLane(ring, lane)) == {};
  }

  /** Once all calls are over, the three counters balance on every lane and dispatches count the finished calls. */
  lemma CountersBalanceAtRest(ring: seq<string>, acts: seq<Action>, lane: string)
    requires Runnable(ring, INITIAL, acts) && AtRest(Run(ring, INITIAL, acts))
    ensures var s := Run(ring, INITIAL, acts);
            && Get(s.selected, lane) == Get(s.dispatched, lane) + Get(s.refused, lane)
            && Total(s.log, Dispatch) == Tally(s.calls, IsFinished())
  {
    Reachable(ring, acts);
    var s := Run(ring, INITIAL, acts);
    assert Balanced(ring, s, lane);
    BalancedAtRest(ring, s, lane);
  }

  // ----- one call

  lemma {:induction false} AroundTheRing(n: nat, start: nat, j: nat)
    requires start < n && j < n
    ensures (start + j) % n == if start + j < n then start + j else start + j - n
  {
    if start + j < n {
      ModUnique(start + j, n, 0, start + j);
    } else {
      ModUnique(start + j, n, 1, start + j - n);
    }
  }

  /** Index of the j-th lane from `start` on a ring of n lanes, going forward. */
  function Forward(n: nat, start: nat, j: nat): nat
    requires start < n && j < n
  {
    if start + j < n then start + j else start + j - n
  }

  lemma LaneIsForward(ring: seq<string>, start: nat, j: nat)
    requires start < |ring| && j < |ring|
    ensures LaneAt(ring, start, j) == ring[Forward(|ring|, start, j)]
  {
    AroundTheRing(|ring|, start, j);
  }

  lemma ArcDistinct(ring: seq<string>, start: nat, k: nat)
    requires ring != [] && Distinct(ring) && start < |ring| && k <= |ring|
    ensures Distinct(Arc(ring, start, k))
  {
    forall i, j | 0 <= i < j < k ensures Arc(ring, start, k)[i] != Arc(ring, start, k)[j] {
      AroundTheRing(|ring|, start, i);
      AroundTheRing(|ring|, start, j);
    }
  }

  lemma ArcCovers(ring: seq<string>, start: nat, lane: string)
    requires ring != [] && start < |ring| && lane in ring
    ensures lane in Arc(ring, start, |ring|)
  {
    var k :| 0 <= k < |ring| && ring[k] == lane;
    var j := if k >= start then k - start else k + |ring| - start;
    AroundTheRing(|ring|, start, j);
    assert Arc(ring, start, |ring|)[j] == lane;
  }

  /** The lanes ring[start], ring[start + 1], ..., going on at ring[0], at most once round. */
  ghost predicate InRingOrder(ring: seq<string>, start: nat, lanes: seq<string>) {
    && start < |ring| && |lanes| <= |ring| && (lanes != [] ==> lanes[0] == ring[start])
    && (forall j :: 0 <= j < |lanes| && start + j < |ring| ==> lanes[j] == ring[start + j])
    && (forall j :: 0 <= j < |lanes| && |ring| <= start + j ==> lanes[j] == ring[start + j - |ring|])
  }

  lemma ArcInRingOrder(ring: seq<string>, start: nat, k: nat)
    requires start < |ring| && k <= |ring|
    ensures InRingOrder(ring, start, Arc(ring, start, k))
  {
    forall j | 0 <= j < k ensures Arc(ring, start, k)[j] == ring[Forward(|ring|, start, j)] {
      LaneIsForward(ring, start, j);
    }
  }

  /**
   A call has dispatched at most once, only on the last lane it selected. It has selected the lanes
   ring[start], ring[start + 1], ... in this order, going on at ring[0] after the last lane of the ring and
   at most once round, so without repeating a lane unless the ring does. It has ended undispatched only
   after every lane of the ring refused it.
   */
  ghost predicate Disciplined(ring: seq<string>, log: seq<Event>, c: nat, call: Call) {
    var selected, refused := LanesOf(log, Selection, c), LanesOf(log, Refusal, c);
    var dispatched := LanesOf(log, Dispatch, c);
    && |dispatched| <= 1 && refused <= selected
    && |selected| <= |ring| && (Distinct(ring) ==> Distinct(selected))
    && (call.Started() ==> InRingOrder(ring, call.start, selected))
    && (call.Finished? ==> |dispatched| == 1 && selected == refused + dispatched)
    && (call.Exhausted? ==> dispatched == [] && forall lane :: lane in ring ==> lane in refused)
  }

  lemma ToldIsDisciplined(ring: seq<string>, s: State, c: nat)
    requires AllTold(ring, s) && c in s.calls
    ensures Disciplined(ring, s.log, c, s.calls[c])
  {
    var call := s.calls[c];
    assert Told(ring, s, c, Selection) && Told(ring, s, c, Refusal) && Told(ring, s, c, Dispatch);
    if call.Started() {
      ArcInRingOrder(ring, call.start, call.Tried(|ring|));
      if Distinct(ring) {
        ArcDistinct(ring, call.start, call.Tried(|ring|));
      }
      if call.Exhausted? {
        forall lane | lane in ring ensures lane in LanesOf(s.log, Refusal, c) {
          ArcCovers(ring, call.start, lane);
        }
      } else {
        ArcStep(ring, call.start, call.step);
      }
    }
  }

  /** Every call of every reachable state is disciplined. */
  lemma OneCall(ring: seq<string>, acts: seq<Action>, c: nat)
    requires Runnable(ring, INITIAL, acts)
    requires c in Run(ring, INITIAL, acts).calls
    ensures Disciplined(ring, Run(ring, INITIAL, acts).log, c, Run(ring, INITIAL, acts).calls[c])
  {
    Reachable(ring, acts);
    ToldIsDisciplined(ring, Run(ring, INITIAL, acts), c);
  }

  // ----- progress

  /** Upper bound on the actions a call still has before it, on a ring of n lanes. */
  function StepsLeft(s: State, c: nat, n: nat): int {
    if c !in s.calls then 3 * n + 2
    else
      match s.calls[c]
      case Entered => 3 * n + 1
      case Choosing(_, k) => 3 * (n - k)
      case Waiting(_, k) => 3 * (n - k) - 1
      case Answered(_, k, _, _) => 3 * (n - k) - 2
      case _ => 0
  }

  lemma StepUsesBudget(ring: seq<string>, s: State, a: Action, c: nat)
    requires Enabled(ring, s, a) && (a.Account? ==> s.calls[a.call].step < |ring|)
    ensures StepsLeft(Apply(ring, s, a), c, |ring|) <= StepsLeft(s, c, |ring|) - if a.call == c then 1 else 0
  {
  }

  lemma ActorInRing(ring: seq<string>, s: State, a: Action)
    requires Enabled(ring, s, a) && AllTold(ring, s)
    ensures a.Account? ==> s.calls[a.call].step < |ring|
  {
    assert a.Account? ==> Placed(ring, s.calls[a.call]);
  }

  function ActionsOf(acts: seq<Action>, c: nat): nat {
    if acts == [] then 0 else (if acts[0].call == c then 1 else 0) + ActionsOf(acts[1..], c)
  }

  lemma {:induction false} RunUsesBudget(ring: seq<string>, s: State, acts: seq<Action>, c: nat)
    requires Runnable(ring, s, acts) && AllTold(ring, s)
    ensures ActionsOf(acts, c) + StepsLeft(Run(ring, s, acts), c, |ring|) <= StepsLeft(s, c, |ring|)
    decreases |acts|
  {
    if acts != [] {
      ActorInRing(ring, s, acts[0]);
      StepUsesBudget(ring, s, acts[0], c);
      StepTellsAll(ring, s, acts[0]);
      RunUsesBudget(ring, Apply(ring, s, acts[0]), acts[1..], c);
    }
  }

  /**
   Under every schedule a call takes at most 3n + 2 actions of its own, and one that is not over can always
   take one.
   */
  lemma CallsEnd(ring: seq<string>, acts: seq<Action>, c: nat)
    requires Runnable(ring, INITIAL, acts)
    ensures ActionsOf(acts, c) <= 3 * |ring| + 2
    ensures var s := Run(ring, INITIAL, acts);
            c in s.calls && !s.calls[c].Final() ==> exists a: Action :: a.call == c && Enabled(ring, s, a)
  {
    InitialInvariant(ring);
    RunUsesBudget(ring, INITIAL, acts, c);
    Reachable(ring, acts);
    var s := Run(ring, INITIAL, acts);
    if c in s.calls && !s.calls[c].Final() {
      assert Placed(ring, s.calls[c]);
      var a := match s.calls[c]
               case Entered => Draw(c)
               case Choosing(_, _) => Select(c)
               case Waiting(_, _) => Reply(c, true, false)
               case _ => Account(c);
      assert a.call == c && Enabled(ring, s, a);
    }
  }

  // ----- fairness of the starting lane

  lemma {:induction false} TicketsClosedForm(m: nat, k: nat, n: nat)
    requires k < n
    ensures TicketsAt(m, k, n) == m / n + if k < m % n then 1 else 0
  {
    if m != 0 {
      TicketsClosedForm(m - 1, k, n);
      NextQuotient(m - 1, n);
    }
  }

  /** Counting one ticket further round the ring. */
  lemma NextQuotient(m: nat, n: nat)
    requires n > 0
    ensures if m % n + 1 < n then (m + 1) / n == m / n && (m + 1) % n == m % n + 1
            else (m + 1) / n == m / n + 1 && (m + 1) % n == 0
  {
    var q, r := m / n, m % n;
    assert m == n * q + r;
    if r + 1 < n {
      ModUnique(m + 1, n, q, r + 1);
    } else {
      ProductNext(n, q);
      ModUnique(m + 1, n, q + 1, 0);
    }
  }

  lemma ProductNext(n: nat, q: nat)
    ensures n * (q + 1) == n * q + n
  {
  }

  /** After any schedule, with k calls started, each lane was the starting lane floor(k/n) or ceil(k/n) times. */
  lemma FairStarts(ring: seq<string>, acts: seq<Action>, position: nat)
    requires Runnable(ring, INITIAL, acts) && position < |ring|
    ensures var s := Run(ring, INITIAL, acts); var started := Tally(s.calls, IsStarted());
            Tally(s.calls, StartedAt(position)) == started / |ring| + if position < started % |ring| then 1 else 0
  {
    Reachable(ring, acts);
    TicketsClosedForm(Run(ring, INITIAL, acts).rr, position, |ring|);
  }

  // ----- the closure itself

  datatype ProviderReply = ProviderReply(dispatched: bool, failed: bool)

  /** What one lane contributes to a call. */
  function Attempt(c: nat, r: ProviderReply): seq<Action> {
    [Select(c), Reply(c, r.dispatched, r.failed), Account(c)]
  }

  function Attempts(c: nat, replies: nat -> ProviderReply, k: nat): seq<Action> {
    if k == 0 then [] else Attempts(c, replies, k - 1) + Attempt(c, replies(k - 1))
  }

  /** The first of n lanes whose request leaves the box. */
  function FirstDispatch(replies: nat -> ProviderReply, n: nat): (r: Option<nat>)
    ensures r.Some? ==> r.value < n && replies(r.value).dispatched
    ensures forall j: nat :: j < (if r.Some? then r.value else n) ==> !replies(j).dispatched
  {
    if n == 0 then None
    else
      var r := FirstDispatch(replies, n - 1);
      if r.Some? then r else if replies(n - 1).dispatched then Some(n - 1) else None
  }

  /** All the actions of one call on n lanes: lanes are tried in turn up to the first that dispatches. */
  function Script(n: nat, c: nat, replies: nat -> ProviderReply): seq<Action> {
    if n == 0 then [Enter(c)]
    else
      var first := FirstDispatch(replies, n);
      [Enter(c), Draw(c)] + Attempts(c, replies, if first.Some? then first.value + 1 else n)
  }

  /** How a call that drew the given ticket ends. */
  function Ending(n: nat, ticket: nat, replies: nat -> ProviderReply): Call {
    if n == 0 then NoLane
    else
      match FirstDispatch(replies, n)
      case Some(k) => Finished(ticket % n, k, replies(k).failed)
      case None => Exhausted(ticket % n)
  }

  datatype Counters = Counters(selected: Counter, dispatched: Counter, refused: Counter)

  /** Counters after one lane was selected and answered. */
  function Tried(t: Counters, lane: string, sent: bool): Counters {
    if sent then t.(selected := Inc(t.selected, lane), dispatched := Inc(t.dispatched, lane))
    else t.(selected := Inc(t.selected, lane), refused := Inc(t.refused, lane))
  }

  /** Counters after the first k lanes from `start` refused. */
  function AfterRefusals(t: Counters, ring: seq<string>, start: nat, k: nat): Counters
    requires start < |ring| && k <= |ring|
  {
    if k == 0 then t else Tried(AfterRefusals(t, ring, start, k - 1), ring[Forward(|ring|, start, k - 1)], false)
  }

  function TalliesOf(s: State): Counters { Counters(s.selected, s.dispatched, s.refused) }

  /** The program point after an attempt on lane k. */
  function NextPoint(n: nat, start: nat, k: nat, r: ProviderReply): Call {
    if r.dispatched then Finished(start, k, r.failed)
    else if k + 1 == n then Exhausted(start) else Choosing(start, k + 1)
  }

  /** The state after one attempt of call c on the lane it is to choose. */
  function Attempted(ring: seq<string>, s: State, c: nat, r: ProviderReply): State
    requires c in s.calls && s.calls[c].Choosing? && s.calls[c].start < |ring| && s.calls[c].step < |ring|
  {
    var start, k := s.calls[c].start, s.calls[c].step;
    var lane := ring[Forward(|ring|, start, k)];
    var t := Tried(TalliesOf(s), lane, r.dispatched);
    State(s.rr, t.selected, t.dispatched, t.refused, s.calls[c := NextPoint(|ring|, start, k, r)],
          s.log + [Event(Selection, c, lane)] + [Event(if r.dispatched then Dispatch else Refusal, c, lane)])
  }

  /** An attempt is the three actions one after the other. */
  lemma AttemptedIs(ring: seq<string>, s: State, c: nat, r: ProviderReply)
    requires c in s.calls && s.calls[c].Choosing? && s.calls[c].start < |ring| && s.calls[c].step < |ring|
    ensures Apply(ring, Apply(ring, Apply(ring, s, Select(c)), Reply(c, r.dispatched, r.failed)), Account(c))
         == Attempted(ring, s, c, r)
  {
    var start, k := s.calls[c].start, s.calls[c].step;
    LaneIsForward(ring, start, k);
    var a := Apply(ring, s, Select(c));
    var b := Apply(ring, a, Reply(c, r.dispatched, r.failed));
    var d := Apply(ring, b, Account(c));
    assert a.calls == s.calls[c := Waiting(start, k)];
    assert b.calls == s.calls[c := Answered(start, k, r.dispatched, r.failed)];
    assert d.calls == s.calls[c := NextPoint(|ring|, start, k, r)];
  }

  function RefusalLog(ring: seq<string>, c: nat, start: nat, k: nat): seq<Event>
    requires start < |ring| && k <= |ring|
  {
    if k == 0 then []
    else
      var lane := ring[Forward(|ring|, start, k - 1)];
      RefusalLog(ring, c, start, k - 1) + [Event(Selection, c, lane)] + [Event(Refusal, c, lane)]
  }

  /** The state after call c was refused by the first k lanes from `start`. */
  function Refusals(ring: seq<string>, s: State, c: nat, start: nat, k: nat): State
    requires start < |ring| && k <= |ring|
  {
    var t := AfterRefusals(TalliesOf(s), ring, start, k);
    State(s.rr, t.selected, t.dispatched, t.refused,
          s.calls[c := if k < |ring| then Choosing(start, k) else Exhausted(start)],
          s.log + RefusalLog(ring, c, start, k))
  }

  lemma NoRefusal(ring: seq<string>, s: State, c: nat, start: nat)
    requires start < |ring| && c in s.calls && s.calls[c] == Choosing(start, 0)
    ensures Refusals(ring, s, c, start, 0) == s
  {
    assert s.calls[c := Choosing(start, 0)] == s.calls && s.log + [] == s.log;
  }

  lemma OneRefusal(ring: seq<string>, s: State, c: nat, start: nat, k: nat, r: ProviderReply)
    requires start < |ring| && k < |ring| && !r.dispatched
    ensures Attempted(ring, Refusals(ring, s, c, start, k), c, r) == Refusals(ring, s, c, start, k + 1)
  {
    var before, after := Refusals(ring, s, c, start, k), Refusals(ring, s, c, start, k + 1);
    var lane := ring[Forward(|ring|, start, k)];
    assert before.calls[c := NextPoint(|ring|, start, k, r)] == after.calls;
    assert before.log + [Event(Selection, c, lane)] + [Event(Refusal, c, lane)] == after.log;
  }

  lemma AttemptRuns(ring: seq<string>, s: State, acts: seq<Action>, c: nat, r: ProviderReply)
    requires Runnable(ring, s, acts)
    requires var now := Run(ring, s, acts);
             c in now.calls && now.calls[c].Choosing? && now.calls[c].start < |ring| && now.calls[c].step < |ring|
    ensures Runnable(ring, s, acts + Attempt(c, r))
    ensures Run(ring, s, acts + Attempt(c, r)) == Attempted(ring, Run(ring, s, acts), c, r)
  {
    var a, b, d := Select(c), Reply(c, r.dispatched, r.failed), Account(c);
    Extend(ring, s, acts, a);
    Extend(ring, s, acts + [a], b);
    Extend(ring, s, acts + [a] + [b], d);
    AttemptedIs(ring, Run(ring, s, acts), c, r);
    assert acts + [a] + [b] + [d] == acts + Attempt(c, r);
  }

  ghost predicate Leads(ring: seq<string>, s: State, acts: seq<Action>, t: State) {
    Runnable(ring, s, acts) && Run(ring, s, acts) == t
  }

  lemma {:induction false} RefusalsRun(ring: seq<string>, s: State, opening: seq<Action>, begun: State, c: nat,
                                       start: nat, replies: nat -> ProviderReply, k: nat)
    requires start < |ring| && k <= |ring| && c in begun.calls && begun.calls[c] == Choosing(start, 0)
    requires Leads(ring, s, opening, begun) && forall j: nat :: j < k ==> !replies(j).dispatched
    ensures Leads(ring, s, opening + Attempts(c, replies, k), Refusals(ring, begun, c, start, k))
    decreases k
  {
    if k == 0 {
      assert opening + Attempts(c, replies, k) == opening;
      NoRefusal(ring, begun, c, start);
    } else {
      RefusalsRun(ring, s, opening, begun, c, start, replies, k - 1);
      RefusalRuns(ring, s, opening + Attempts(c, replies, k - 1), begun, c, start, k - 1, replies(k - 1));
      OneMore(c, replies, k - 1, opening);
    }
  }

  lemma RefusalRuns(ring: seq<string>, s: State, acts: seq<Action>, begun: State, c: nat, start: nat, k: nat,
                    r: ProviderReply)
    requires start < |ring| && k < |ring| && !r.dispatched && Leads(ring, s, acts, Refusals(ring, begun, c, start, k))
    ensures Leads(ring, s, acts + Attempt(c, r), Refusals(ring, begun, c, start, k + 1))
  {
    AttemptRuns(ring, s, acts, c, r);
    OneRefusal(ring, begun, c, start, k, r);
  }

  /** The state after call c entered a nonempty ring and drew a ticket. */
  function Opened(ring: seq<string>, s: State, c: nat): State
    requires ring != []
  {
    s.(rr := s.rr + 1, calls := s.calls[c := Choosing(s.rr % |ring|, 0)])
  }

  lemma OpenedIs(ring: seq<string>, s: State, c: nat)
    requires c !in s.calls && ring != []
    ensures Apply(ring, Apply(ring, s, Enter(c)), Draw(c)) == Opened(ring, s, c)
  {
    var entered := Apply(ring, s, Enter(c));
    assert entered.calls[c := Choosing(s.rr % |ring|, 0)] == s.calls[c := Choosing(s.rr % |ring|, 0)];
  }

  lemma OpeningRuns(ring: seq<string>, s: State, c: nat)
    requires c !in s.calls && ring != []
    ensures Leads(ring, s, [Enter(c), Draw(c)], Opened(ring, s, c))
  {
    assert Runnable(ring, s, []) && Run(ring, s, []) == s;
    Extend(ring, s, [], Enter(c));
    Extend(ring, s, [] + [Enter(c)], Draw(c));
    assert [] + [Enter(c)] + [Draw(c)] == [Enter(c), Draw(c)];
    OpenedIs(ring, s, c);
  }

  /** Where the whole call leads. */
  function Called(ring: seq<string>, s: State, c: nat, replies: nat -> ProviderReply): State
    requires c !in s.calls
  {
    if ring == [] then s.(calls := s.calls[c := NoLane])
    else
      var begun, start := Opened(ring, s, c), s.rr % |ring|;
      match FirstDispatch(replies, |ring|)
      case Some(k) => Attempted(ring, Refusals(ring, begun, c, start, k), c, replies(k))
      case None => Refusals(ring, begun, c, start, |ring|)
  }

  /** The script of a call is a run of the step relation. */
  lemma ScriptRuns(ring: seq<string>, s: State, c: nat, replies: nat -> ProviderReply)
    requires c !in s.calls
    ensures Leads(ring, s, Script(|ring|, c, replies), Called(ring, s, c, replies))
  {
    if ring == [] {
      EmptyRuns(ring, s, c);
    } else {
      var first := FirstDispatch(replies, |ring|);
      var k := if first.Some? then first.value else |ring|;
      AttemptsRun(ring, s, c, replies, k);
      assert Script(|ring|, c, replies) == [Enter(c), Draw(c)] + Attempts(c, replies, if first.Some? then k + 1 else k);
    }
  }

  lemma EmptyRuns(ring: seq<string>, s: State, c: nat)
    requires c !in s.calls && ring == []
    ensures Leads(ring, s, [Enter(c)], s.(calls := s.calls[c := NoLane]))
  {
    assert [Enter(c)][1..] == [];
  }

  lemma AttemptsRun(ring: seq<string>, s: State, c: nat, replies: nat -> ProviderReply, k: nat)
    requires c !in s.calls && ring != [] && k <= |ring| && forall j: nat :: j < k ==> !replies(j).dispatched
    ensures var begun, start, opening := Opened(ring, s, c), s.rr % |ring|, [Enter(c), Draw(c)];
            var refused := Refusals(ring, begun, c, start, k);
            && Leads(ring, s, opening + Attempts(c, replies, k), refused)
            && (k < |ring| ==>
                  Leads(ring, s, opening + Attempts(c, replies, k + 1), Attempted(ring, refused, c, replies(k))))
  {
    var begun, start, opening := Opened(ring, s, c), s.rr % |ring|, [Enter(c), Draw(c)];
    OpeningRuns(ring, s, c);
    RefusalsRun(ring, s, opening, begun, c, start, replies, k);
    if k < |ring| {
      AttemptRuns(ring, s, opening + Attempts(c, replies, k), c, replies(k));
      OneMore(c, replies, k, opening);
    }
  }

  lemma FirstDispatchIs(replies: nat -> ProviderReply, n: nat, k: nat)
    requires k <= n && (k < n ==> replies(k).dispatched) && forall j: nat :: j < k ==> !replies(j).dispatched
    ensures FirstDispatch(replies, n) == if k < n then Some(k) else None
  {
  }

  /** The shared counters of the closure; the call table and the log are history. */
  class Ring {
    const ring: seq<string>
    var rr: nat
    var selected: Counter
    var dispatched: Counter
    var refused: Counter
    ghost var calls: map<nat, Call>
    ghost var log: seq<Event>

    constructor (ring: seq<string>)
      ensures this.ring == ring && View() == INITIAL
    {
      this.ring := ring;
      rr, selected, dispatched, refused := 0, map[], map[], map[];
      calls, log := map[], [];
    }

    ghost function View(): State
      reads this
    {
      State(rr, selected, dispatched, refused, calls, log)
    }

    /** Advance the history past an action whose effect on the counters is already in place. */
    ghost method Note(a: Action, before: State)
      requires Enabled(ring, before, a)
      requires var s := Apply(ring, before, a);
               rr == s.rr && selected == s.selected && dispatched == s.dispatched && refused == s.refused
      modifies this`calls, this`log
      ensures View() == Apply(ring, before, a)
    {
      var s := Apply(ring, before, a);
      calls, log := s.calls, s.log;
    }

    /** Pick the lane of this step and count the selection. */
    method Choose(ghost c: nat, start: nat, step: nat) returns (lane: string)
      requires ring != [] && c in calls && calls[c] == Choosing(start, step)
      modifies this
      ensures View() == Apply(ring, old(View()), Select(c)) && lane == LaneAt(ring, start, step)
    {
      lane := ring[(start + step) % |ring|];
      selected := Inc(selected, lane);
      Note(Select(c), old(View()));
    }

    /** Count the reply of the chosen lane as a dispatch or as a local refusal. */
    method Settle(ghost c: nat, lane: string, r: ProviderReply)
      requires ring != [] && c in calls && calls[c].Waiting? && lane == LaneAt(ring, calls[c].start, calls[c].step)
      modifies this
      ensures View() == Apply(ring, Apply(ring, old(View()), Reply(c, r.dispatched, r.failed)), Account(c))
    {
      Note(Reply(c, r.dispatched, r.failed), View());
      ghost var answered := View();
      if r.dispatched {
        dispatched := Inc(dispatched, lane);
      } else {
        refused := Inc(refused, lane);
      }
      Note(Account(c), answered);
    }

    /** One turn of the failover loop. */
    method Try(ghost c: nat, start: nat, k: nat, r: ProviderReply)
      requires start < |ring| && k < |ring| && c in calls && calls[c] == Choosing(start, k)
      modifies this
      ensures View() == Attempted(ring, old(View()), c, r)
    {
      var lane := Choose(c, start, k);
      Settle(c, lane, r);
      AttemptedIs(ring, old(View()), c, r);
    }

    /** The failover loop; k lanes refused, and the next one, if there is one, dispatched. */
    method Failover(ghost c: nat, start: nat, replies: nat -> ProviderReply) returns (ok: bool, k: nat)
      requires start < |ring| && c in calls && calls[c] == Choosing(start, 0)
      modifies this
      ensures k <= |ring| && (forall j: nat :: j < k ==> !replies(j).dispatched)
      ensures var t := Refusals(ring, old(View()), c, start, k);
              if k == |ring| then !ok && View() == t
              else replies(k).dispatched && ok == !replies(k).failed && View() == Attempted(ring, t, c, replies(k))
    {
      k := 0;
      NoRefusal(ring, View(), c, start);
      while k < |ring|
        invariant k <= |ring| && forall j: nat :: j < k ==> !replies(j).dispatched
        invariant View() == Refusals(ring, old(View()), c, start, k)
      {
        Try(c, start, k, replies(k));
        if replies(k).dispatched {
          return !replies(k).failed, k;
        }
        OneRefusal(ring, old(View()), c, start, k, replies(k));
        k := k + 1;
      }
      ok := false;
    }

    /** Enter a ring that has lanes and draw a ticket. */
    method Begin(ghost c: nat) returns (start: nat)
      requires c !in calls && ring != []
      modifies this
      ensures View() == Opened(ring, old(View()), c) && start == old(rr) % |ring|
    {
      OpenedIs(ring, View(), c);
      Note(Enter(c), View());
      ghost var entered := View();
      start := rr % |ring|;
      rr := rr + 1;
      Note(Draw(c), entered);
    }

    /**
     One uninterrupted `infer` call. `replies(k)` is what the provider does on the k-th lane tried. The
     call is exactly its script, a run of the step relation; it ends at the first lane that dispatches,
     or exhausted after all of them refused, and the counters say so lane by lane.
     */
    method Infer(ghost c: nat, replies: nat -> ProviderReply) returns (ok: bool, ghost acts: seq<Action>)
      requires c !in calls
      modifies this
      ensures acts == Script(|ring|, c, replies)
      ensures Runnable(ring, old(View()), acts) && View() == Run(ring, old(View()), acts)
      ensures View() == Called(ring, old(View()), c, replies)
      ensures c in calls && calls[c] == Ending(|ring|, old(rr), replies)
      ensures ok <==> calls[c].Finished? && !calls[c].failed
      ensures rr == old(rr) + if ring == [] then 0 else 1
      ensures Counters(selected, dispatched, refused) == CountersAfter(old(View()), ring, replies)
    {
      acts := Script(|ring|, c, replies);
      ScriptRuns(ring, View(), c, replies);
      if ring == [] {
        Note(Enter(c), View());
        return false, acts;
      }
      var start := Begin(c);
      var k;
      ok, k := Failover(c, start, replies);
      FirstDispatchIs(replies, |ring|, k);
    }
  }

  /** The counters after a call: refusals in ring order from the ticket's lane, then the dispatch if any. */
  function CountersAfter(s: State, ring: seq<string>, replies: nat -> ProviderReply): Counters {
    if ring == [] then TalliesOf(s)
    else
      var start := s.rr % |ring|;
      match FirstDispatch(replies, |ring|)
      case None => AfterRefusals(TalliesOf(s), ring, start, |ring|)
      case Some(k) => Tried(AfterRefusals(TalliesOf(s), ring, start, k), ring[Forward(|ring|, start, k)], true)
  }

  lemma OneMore(c: nat, replies: nat -> ProviderReply, k: nat, opening: seq<Action>)
    ensures opening + Attempts(c, replies, k) + Attempt(c, replies(k)) == opening + Attempts(c, replies, k + 1)
  {
  }

  lemma {:induction false} Extend(ring: seq<string>, s: State, acts: seq<Action>, a: Action)
    requires Runnable(ring, s, acts) && Enabled(ring, Run(ring, s, acts), a)
    ensures Runnable(ring, s, acts + [a])
    ensures Run(ring, s, acts + [a]) == Apply(ring, Run(ring, s, acts), a)
    decreases |acts|
  {
    if acts == [] {
      assert ([] + [a])[1..] == [];
    } else {
      assert (acts + [a])[1..] == acts[1..] + [a];
      Extend(ring, Apply(ring, s, acts[0]), acts[1..], a);
    }
  }
}

/**
 The frozen regression manifest of scripts/chat_regression.py: reading a metric, comparing it
 with its floor, evaluating a case, and re-recording a case with `refresh`.
 */
module Manifest {
  import opened Finite
  import opened Lex
  import opened Json
  import opened JsonPointer

  type Doc = Json<real>

  // ----- Python values

  /** Numeric value; booleans count as 0 and 1. */
  function PyNum(v: Doc): Option<real> {
    match v
    case Num(n) => Some(n)
    case Bool(b) => Some(if b then 1.0 else 0.0)
    case _ => None
  }

  predicate PyEq(v: Doc, w: Doc)
    decreases v
  {
    match (v, w)
    case (Arr(es), Arr(fs)) => |es| == |fs| && forall i :: 0 <= i < |es| ==> PyEq(es[i], fs[i])
    case (Obj(ms), Obj(ns)) =>
      |ms| == |ns| && forall i :: 0 <= i < |ms| ==> HasEqual(ms[i], ns)
    case (Str(s), Str(t)) => s == t
    case (Null, Null) => true
    case _ => PyNum(v).Some? && PyNum(v) == PyNum(w)
  }

  predicate HasEqual(m: Entry<Doc>, ns: seq<Entry<Doc>>)
    decreases m
  {
    exists j :: 0 <= j < |ns| && ns[j].key == m.key && PyEq(m.value, ns[j].value)
  }

  predicate Truthy(v: Doc) {
    match v
    case Null => false
    case Bool(b) => b
    case Num(n) => n != 0.0
    case Str(s) => s != ""
    case Arr(es) => es != []
    case Obj(ms) => ms != []
  }

  lemma {:induction false} PyEqReflexive(v: Doc)
    ensures PyEq(v, v)
  {
    match v
    case Arr(es) =>
      forall i | 0 <= i < |es| ensures PyEq(es[i], es[i]) { PyEqReflexive(es[i]); }
    case Obj(ms) =>
      forall i | 0 <= i < |ms| ensures HasEqual(ms[i], ms) {
        PyEqReflexive(ms[i].value);
      }
    case _ =>
  }

  // ----- checks and metrics

  datatype Check = Check(
    metric: string, pointer: string, select: Option<seq<Entry<Doc>>>, field: Option<string>,
    reduce: Option<string>, minus: Option<string>, file: Option<string>,
    atLeast: Option<Doc>, atMost: Option<Doc>, exactly: Option<Doc>, recorded: Option<Doc>)

  /** A value, a KeyError, a ValueError, or any other exception. */
  datatype Read = Got(value: Doc) | Missing | BadText | Crash

  predicate Matches(row: Doc, select: seq<Entry<Doc>>) {
    row.Obj? && forall i :: 0 <= i < |select| ==> PyEq(GetOrNull(row.members, select[i].key), select[i].value)
  }

  /** `row.get(key)`. */
  function GetOrNull(ms: seq<Entry<Doc>>, key: string): Doc {
    match Lookup(ms, key)
    case Some(v) => v
    case None => Null
  }

  function Hits(rows: seq<Doc>, select: seq<Entry<Doc>>): seq<Doc> {
    if rows == [] then []
    else
      var n := |rows| - 1;
      Hits(rows[..n], select) + if Matches(rows[n], select) then [rows[n]] else []
  }

  function SelectRow(v: Doc, select: seq<Entry<Doc>>): Read {
    if v.Arr? && |Hits(v.elems, select)| == 1 then Got(Hits(v.elems, select)[0]) else Missing
  }

  /** Positions of the matching rows. */
  ghost function MatchSet(rows: seq<Doc>, select: seq<Entry<Doc>>): set<nat> {
    if rows == [] then {}
    else
      var n := |rows| - 1;
      MatchSet(rows[..n], select) + if Matches(rows[n], select) then {n} else {}
  }

  lemma {:induction false} InMatchSet(rows: seq<Doc>, select: seq<Entry<Doc>>, i: nat)
    ensures i in MatchSet(rows, select) <==> i < |rows| && Matches(rows[i], select)
  {
    if rows != [] {
      InMatchSet(rows[..|rows| - 1], select, i);
    }
  }

  lemma {:induction false} HitsCount(rows: seq<Doc>, select: seq<Entry<Doc>>)
    ensures |Hits(rows, select)| == |MatchSet(rows, select)|
  {
    if rows != [] {
      var n := |rows| - 1;
      HitsCount(rows[..n], select);
      InMatchSet(rows[..n], select, n);
    }
  }

  lemma {:induction false} SoleHit(rows: seq<Doc>, select: seq<Entry<Doc>>, i: nat)
    requires |Hits(rows, select)| == 1 && i < |rows| && Matches(rows[i], select)
    ensures Hits(rows, select) == [rows[i]]
  {
    var n := |rows| - 1;
    if i < n {
      HitsCount(rows[..n], select);
      InMatchSet(rows[..n], select, i);
      assert rows[..n][i] == rows[i];
      SoleHit(rows[..n], select, i);
    }
  }

  /** `select_row` returns a row exactly when the value is a list in which only that position matches. */
  lemma SelectIsUnique(rows: seq<Doc>, select: seq<Entry<Doc>>, i: nat)
    requires i < |rows| && Matches(rows[i], select)
    ensures SelectRow(Arr(rows), select).Got? <==> forall j: nat :: j < |rows| && Matches(rows[j], select) ==> j == i
    ensures SelectRow(Arr(rows), select).Got? ==> SelectRow(Arr(rows), select).value == rows[i]
  {
    var ms := MatchSet(rows, select);
    HitsCount(rows, select);
    forall j: nat ensures j in ms <==> j < |rows| && Matches(rows[j], select) {
      InMatchSet(rows, select, j);
    }
    assert {i} <= ms;
    SubsetCard({i}, ms);
    if |ms| == 1 {
      SoleHit(rows, select, i);
    } else {
      assert |ms - {i}| == |ms| - 1 > 0;
      var j :| j in ms - {i};
    }
  }

  function Items(v: Doc): Option<seq<Doc>> {
    match v
    case Arr(es) => Some(es)
    case Obj(ms) => Some(seq(|ms|, i requires 0 <= i < |ms| => ms[i].value))
    case Str(s) => Some(seq(|s|, i requires 0 <= i < |s| => Str([s[i]])))
    case _ => None
  }

  function NullAsZero(v: Doc): Doc { if v.Null? then Num(0.0) else v }

  function Numbers(items: seq<Doc>): seq<Doc> {
    seq(|items|, i requires 0 <= i < |items| => NullAsZero(items[i]))
  }

  function SumOf(xs: seq<Doc>): Read {
    if xs == [] then Got(Num(0.0))
    else
      match SumOf(xs[..|xs| - 1])
      case Got(Num(t)) =>
        var n := PyNum(xs[|xs| - 1]);
        if n.Some? then Got(Num(t + n.value)) else Crash
      case _ => Crash
  }

  /** `v < w`: numbers and booleans by value, strings by code points, TypeError otherwise. */
  function PyLess(v: Doc, w: Doc): Option<bool> {
    if v.Str? && w.Str? then Some(Less(v.s, w.s))
    else if PyNum(v).Some? && PyNum(w).Some? then Some(PyNum(v).value < PyNum(w).value)
    else None
  }

  function Beats(v: Doc, w: Doc, largest: bool): Option<bool> { if largest then PyLess(w, v) else PyLess(v, w) }

  /** Larger beats smaller when the largest is sought, and the other way round; strings in code-point order. */
  lemma BeatsMeaning(x: real, y: real, s: string, t: string)
    ensures Beats(Num(x), Num(y), true) == Some(x > y) && Beats(Num(x), Num(y), false) == Some(x < y)
    ensures Beats(Str(s), Str(t), true) == Some(true) <==> Precedes(t, s)
    ensures Beats(Str(s), Str(t), false) == Some(true) <==> Precedes(s, t)
    ensures Beats(Num(x), Str(s), true).None? && Beats(Str(s), Num(x), false).None?
  {
    LessIsPrecedes(s, t);
    LessIsPrecedes(t, s);
  }

  /** First largest (or smallest) item. */
  function Extreme(xs: seq<Doc>, largest: bool): Read {
    if xs == [] then Got(Num(0.0))
    else if |xs| == 1 then Got(xs[0])
    else
      match Extreme(xs[..|xs| - 1], largest)
      case Got(best) =>
        (match Beats(xs[|xs| - 1], best, largest)
         case None => Crash
         case Some(better) => Got(if better then xs[|xs| - 1] else best))
      case _ => Crash
  }

  /** All numbers or booleans, or all strings. */
  ghost predicate OneKind(xs: seq<Doc>) {
    (forall i :: 0 <= i < |xs| ==> PyNum(xs[i]).Some?) || (forall i :: 0 <= i < |xs| ==> xs[i].Str?)
  }

  /** An item that beats the best so far beats everything the best was not beaten by. */
  lemma NewBest(x: Doc, y: Doc, best: Doc, largest: bool)
    requires Beats(x, best, largest) == Some(true) && Beats(y, best, largest) == Some(false)
    ensures Beats(x, y, largest) == Some(true)
    ensures Beats(y, x, largest) == Some(false) && Beats(x, x, largest) == Some(false)
  {
    if best.Str? {
      Trichotomy(x.s, y.s);
      Trichotomy(x.s, best.s);
      Trichotomy(y.s, best.s);
      if largest && Less(x.s, y.s) { Transitive(best.s, x.s, y.s); }
      if !largest && Less(y.s, x.s) { Transitive(y.s, x.s, best.s); }
    }
  }

  /**
   The reduction of two or more items succeeds exactly on items of one kind; it yields the first item
   that none beats.
   */
  lemma {:induction false} ExtremeIsBest(xs: seq<Doc>, largest: bool) returns (k: nat)
    requires |xs| >= 2
    ensures Extreme(xs, largest).Got? <==> OneKind(xs)
    ensures OneKind(xs) ==>
              && k < |xs| && Extreme(xs, largest).value == xs[k]
              && (forall i :: 0 <= i < k ==> Beats(xs[k], xs[i], largest) == Some(true))
              && forall i :: 0 <= i < |xs| ==> Beats(xs[i], xs[k], largest) == Some(false)
  {
    var n := |xs| - 1;
    var front := xs[..n];
    k := 0;
    if n > 1 {
      k := ExtremeIsBest(front, largest);
      assert forall i :: 0 <= i < n ==> front[i] == xs[i];
      assert OneKind(xs) ==> OneKind(front);
    }
    if n == 1 || OneKind(front) {
      SameKind(xs, k);
    }
    if OneKind(xs) {
      ItselfNeverBeats(xs[k], largest);
      if Beats(xs[n], xs[k], largest) == Some(true) {
        forall i | 0 <= i < n
          ensures Beats(xs[n], xs[i], largest) == Some(true) && Beats(xs[i], xs[n], largest) == Some(false)
        {
          NewBest(xs[n], xs[i], xs[k], largest);
        }
        k := n;
        ItselfNeverBeats(xs[n], largest);
      }
    }
  }

  lemma ItselfNeverBeats(x: Doc, largest: bool)
    ensures Beats(x, x, largest) != Some(true)
  {
    if x.Str? { Trichotomy(x.s, x.s); }
  }

  /** The last item is comparable with one of the others exactly when it is of their kind. */
  lemma SameKind(xs: seq<Doc>, k: nat)
    requires k < |xs| - 1 && (OneKind(xs[..|xs| - 1]) || |xs| == 2)
    ensures PyLess(xs[k], xs[|xs| - 1]).Some? <==> OneKind(xs)
    ensures PyLess(xs[|xs| - 1], xs[k]).Some? <==> OneKind(xs)
  {
    assert xs == xs[..|xs| - 1] + [xs[|xs| - 1]];
  }

  function Reduce(v: Doc, how: string): Read {
    match Items(v)
    case None => Crash
    case Some(items) =>
      if how == "len" then Got(Num(|items| as real))
      else if how == "sum" then SumOf(Numbers(items))
      else if how == "max" then Extreme(Numbers(items), true)
      else if how == "min" then Extreme(Numbers(items), false)
      else Missing
  }

  /** Round half to even at three decimals. */
  function Round3(r: real): real {
    var scaled := r * 1000.0;
    var low := scaled.Floor;
    var rest := scaled - low as real;
    (if rest < 0.5 || (rest == 0.5 && low % 2 == 0) then low else low + 1) as real / 1000.0
  }

  /** Rounding moves a value by at most half a thousandth, onto a multiple of a thousandth. */
  lemma Round3IsClose(r: real)
    ensures -0.0005 <= Round3(r) - r <= 0.0005
    ensures (Round3(r) * 1000.0).Floor as real == Round3(r) * 1000.0
  {
    var scaled := r * 1000.0;
    var low := scaled.Floor;
    var n := if scaled - low as real < 0.5 || (scaled - low as real == 0.5 && low % 2 == 0) then low else low + 1;
    assert Round3(r) == n as real / 1000.0;
    assert Round3(r) * 1000.0 == n as real;
  }

  /** `float(v)`: text that is not a number is a ValueError, other values a TypeError. */
  function ToFloat(v: Doc): Read {
    if v.Str? then BadText else if PyNum(v).Some? then Got(Num(PyNum(v).value)) else Crash
  }

  /** `round(float(v) - float(w), 3)`. */
  function Difference(v: Doc, w: Doc): Read {
    var x, y := ToFloat(v), ToFloat(w);
    if !x.Got? then x else if !y.Got? then y else Got(Num(Round3(x.value.n - y.value.n)))
  }

  function Subtract(doc: Doc, v: Doc, pointer: string): Read {
    if !ToFloat(v).Got? then ToFloat(v)
    else
      match Resolve(doc, pointer)
      case None => Missing
      case Some(w) => Difference(v, w)
  }

  function OrMissing(r: Option<Doc>): Read { if r.Some? then Got(r.value) else Missing }

  /** The value before `minus`: pointer, select, field, reduce, each optional step in turn. */
  function ReadValue(doc: Doc, check: Check): Read {
    var r0 := OrMissing(Resolve(doc, check.pointer));
    var r1 := if r0.Got? && check.select.Some? then SelectRow(r0.value, check.select.value) else r0;
    var r2 := if r1.Got? && check.field.Some? then OrMissing(Resolve(r1.value, check.field.value)) else r1;
    if r2.Got? && check.reduce.Some? then Reduce(r2.value, check.reduce.value) else r2
  }

  /** `read_metric`. */
  function ReadMetric(doc: Doc, check: Check): Read {
    var r := ReadValue(doc, check);
    if r.Got? && check.minus.Some? then Subtract(doc, r.value, check.minus.value) else r
  }

  lemma {:induction false} SumConcat(xs: seq<Doc>, ys: seq<Doc>)
    requires SumOf(xs).Got? && SumOf(ys).Got?
    ensures SumOf(xs).value.Num? && SumOf(ys).value.Num?
    ensures SumOf(xs + ys) == Got(Num(SumOf(xs).value.n + SumOf(ys).value.n))
  {
    if ys == [] {
      assert xs + ys == xs;
    } else {
      var n := |ys| - 1;
      assert (xs + ys)[..|xs + ys| - 1] == xs + ys[..n];
      SumConcat(xs, ys[..n]);
    }
  }

  /** What the reductions compute; the largest and smallest item are described by ExtremeIsBest. */
  lemma ReduceMeaning(es: seq<Doc>, ms: seq<Entry<Doc>>, x: real)
    ensures Reduce(Arr(es), "len") == Got(Num(|es| as real)) && Reduce(Obj(ms), "len") == Got(Num(|ms| as real))
    ensures Reduce(Arr([]), "max") == Reduce(Arr([]), "min") == Reduce(Arr([]), "sum") == Got(Num(0.0))
    ensures Reduce(Arr([Num(x)]), "sum") == Got(Num(x)) && Reduce(Arr([Null]), "sum") == Got(Num(0.0))
    ensures Reduce(Num(x), "len") == Crash && Reduce(Arr(es), "mean") == Missing
  {
    assert Numbers([Num(x)]) == [Num(x)] && Numbers([Null]) == [Num(0.0)];
    assert [Num(x)][..0] == [] && [Num(0.0)][..0] == [];
  }

  /** The second number is subtracted from the first, up to rounding. */
  lemma DifferenceMeaning(x: real, y: real)
    ensures Difference(Num(x), Num(y)) == Got(Num(Round3(x - y)))
    ensures -0.0005 <= Round3(x - y) - (x - y) <= 0.0005
  {
    Round3IsClose(x - y);
  }

  /** `minus` comes last. */
  lemma MinusMeaning(doc: Doc, c: Check)
    ensures c.minus.None? || !ReadValue(doc, c).Got? ==> ReadMetric(doc, c) == ReadValue(doc, c)
    ensures c.minus.Some? && ReadValue(doc, c).Got? && ReadValue(doc, c).value.Num? ==>
              ReadMetric(doc, c) == match Resolve(doc, c.minus.value)
                                    case None => Missing
                                    case Some(w) => Difference(ReadValue(doc, c).value, w)
  {
  }

  /** The steps before it: the row selected at the pointer, its field, reduced; any tail of them may be absent. */
  lemma ReadSteps(doc: Doc, c: Check, rows: seq<Doc>, i: nat, items: Doc)
    requires Resolve(doc, c.pointer) == Some(Arr(rows))
    requires c.select.Some? ==>
               && i < |rows| && Matches(rows[i], c.select.value)
               && forall j: nat :: j < |rows| && Matches(rows[j], c.select.value) ==> j == i
    requires c.field.Some? ==> c.select.Some? && Resolve(rows[i], c.field.value) == Some(items)
    requires c.reduce.Some? ==> c.field.Some?
    ensures ReadValue(doc, c) == if c.reduce.Some? then Reduce(items, c.reduce.value)
                                 else if c.field.Some? then Got(items)
                                 else if c.select.Some? then Got(rows[i]) else Got(Arr(rows))
  {
    if c.select.Some? {
      SelectIsUnique(rows, c.select.value, i);
    }
  }

  datatype Op = AtLeast | AtMost | Exactly
  datatype Bound = Bound(op: Op, limit: Doc)

  /** `bound_of`: None when the check does not carry exactly one bound. */
  function BoundOf(check: Check): Option<Bound> {
    match (check.atLeast, check.atMost, check.exactly)
    case (Some(b), None, None) => Some(Bound(AtLeast, b))
    case (None, Some(b), None) => Some(Bound(AtMost, b))
    case (None, None, Some(b)) => Some(Bound(Exactly, b))
    case _ => None
  }

  /** `passes`: None when the comparison itself raises. */
  function Passes(v: Doc, bound: Bound): Option<bool> {
    if bound.op.Exactly? then Some(PyEq(v, bound.limit))
    else if !v.Num? then Some(false)
    else
      var b := PyNum(bound.limit);
      if b.None? then None
      else Some(if bound.op.AtLeast? then v.n >= b.value else v.n <= b.value)
  }

  /** A value clears the one bound of a check, on the fields of the check; a boolean bound counts as 0 or 1. */
  predicate Clears(c: Check, v: Doc) {
    match (c.atLeast, c.atMost, c.exactly)
    case (Some(Num(b)), None, None) => v.Num? && v.n >= b
    case (Some(Bool(b)), None, None) => v.Num? && v.n >= (if b then 1.0 else 0.0)
    case (None, Some(Num(b)), None) => v.Num? && v.n <= b
    case (None, Some(Bool(b)), None) => v.Num? && v.n <= (if b then 1.0 else 0.0)
    case (None, None, Some(w)) => PyEq(v, w)
    case _ => false
  }

  /** The comparison succeeds exactly when the value clears the bound. */
  lemma PassesIsClears(c: Check, v: Doc)
    ensures Clears(c, v) <==> BoundOf(c).Some? && Passes(v, BoundOf(c).value) == Some(true)
    ensures BoundOf(c).Some? && Passes(v, BoundOf(c).value).None? ==> v.Num? && c.exactly.None?
  {
  }

  /** Python's equality on scalars: numbers and booleans by value, strings by text, None alone. */
  lemma PyEqMeaning(x: real, y: real, b: bool, s: string, t: string, v: Doc)
    ensures PyEq(Num(x), Num(y)) <==> x == y
    ensures PyEq(Bool(b), Num(x)) <==> x == if b then 1.0 else 0.0
    ensures PyEq(Num(x), Bool(b)) <==> x == if b then 1.0 else 0.0
    ensures PyEq(Str(s), Str(t)) <==> s == t
    ensures PyEq(Null, v) <==> v == Null
    ensures PyEq(Str(s), v) ==> v == Str(s)
  {
  }

  // ----- evaluation

  datatype Refreshed = Refreshed(origin: Option<string>, previousRun: Option<Doc>, stamp: string)
  datatype Source = Source(
    file: Option<string>, run: Option<Doc>, instrument: Option<string>, recordedIn: Option<string>,
    refreshed: Option<Refreshed>)
  datatype Case = Case(id: string, checks: seq<Check>, source: Option<Source>)

  datatype Result = PASS | FAIL | MISSING | DRIFT

  /** The readable files: a JSON document, or text that does not parse (a ValueError). */
  datatype Recording = Parsed(doc: Doc) | Garbled
  type Files = map<string, Recording>

  function DocAt(files: Files, path: Option<string>): Option<Doc> {
    if path.Some? && path.value in files && files[path.value].Parsed? then Some(files[path.value].doc) else None
  }

  /** A check with its own recording is not touched by `refresh`. */
  predicate Pinned(check: Check) { check.file.Some? && check.file.value != "" }

  function SourceFile(entry: Case): Option<string> {
    if entry.source.Some? then entry.source.value.file else None
  }

  /** `_doc(src)` for a check: its own recording or that of the case. */
  function DocFor(files: Files, source: Option<string>, check: Check): Option<Doc> {
    DocAt(files, if Pinned(check) then check.file else source)
  }

  /** One row of `evaluate_case`; None when evaluating raises. */
  function EvaluateCheck(files: Files, source: Option<string>, check: Check): Option<Result> {
    var bound, doc := BoundOf(check), DocFor(files, source, check);
    if bound.None? then None
    else if doc.None? then Some(MISSING)
    else
      match ReadMetric(doc.value, check)
      case Crash => None
      case BadText => None
      case Missing => Some(MISSING)
      case Got(v) =>
        match Passes(v, bound.value)
        case None => None
        case Some(ok) =>
          if !ok then Some(FAIL)
          else if check.recorded.Some? && !PyEq(v, check.recorded.value) then Some(DRIFT)
          else Some(PASS)
  }

  /**
   The result of a check. PASS: a value was read that clears the bound and is the recorded one, if any.
   DRIFT: it clears the bound but differs. FAIL: it does not clear it. MISSING: there is no such recording,
   or it does not parse, or the metric is absent from it.
   */
  lemma ResultMeaning(files: Files, source: Option<string>, c: Check)
    requires EvaluateCheck(files, source, c).Some?
    ensures var path := if c.file.Some? && c.file.value != "" then c.file else source;
            var r := EvaluateCheck(files, source, c).value;
            if path.None? || path.value !in files || files[path.value].Garbled? then r == MISSING
            else
              match ReadMetric(files[path.value].doc, c)
              case Got(v) =>
                r == (if !Clears(c, v) then FAIL
                      else if c.recorded.Some? && !PyEq(v, c.recorded.value) then DRIFT else PASS)
              case _ => r == MISSING
  {
    var doc := DocFor(files, source, c);
    if doc.Some? && ReadMetric(doc.value, c).Got? {
      PassesIsClears(c, ReadMetric(doc.value, c).value);
    }
  }

  /** One result per check, or None when evaluation raises. */
  function EvaluateChecks(files: Files, source: Option<string>, checks: seq<Check>): (r: Option<seq<Result>>)
    ensures r.Some? ==> |r.value| == |checks|
    ensures r.Some? <==> forall i :: 0 <= i < |checks| ==> EvaluateCheck(files, source, checks[i]).Some?
    ensures r.Some? ==> forall i :: 0 <= i < |checks| ==> EvaluateCheck(files, source, checks[i]) == Some(r.value[i])
  {
    if checks == [] then Some([])
    else
      match (EvaluateCheck(files, source, checks[0]), EvaluateChecks(files, source, checks[1..]))
      case (Some(x), Some(xs)) => Some([x] + xs)
      case _ => None
  }

  function EvaluateCase(files: Files, entry: Case): Option<seq<Result>> {
    EvaluateChecks(files, SourceFile(entry), entry.checks)
  }

  // ----- refresh

  /** Accepted with its table, refused with a ValueError, or ended by another exception. */
  datatype Outcome = Frozen(rows: seq<Result>) | Refused | Crashed

  datatype Finding = Skip | Keep(value: Doc) | Problem | Invalid | Broken

  function Inspect(doc: Doc, check: Check): Finding {
    if Pinned(check) then Skip
    else
      match BoundOf(check)
      case None => Invalid
      case Some(bound) =>
        match ReadMetric(doc, check)
        case Crash => Broken
        case BadText => Invalid
        case Missing => Problem
        case Got(v) =>
          match Passes(v, bound)
          case None => Broken
          case Some(ok) => if ok then Keep(v) else Problem
  }

  /** New recorded values per check (None where pinned), or the way the plan ends. */
  datatype Plan = Good(values: seq<Option<Doc>>) | Stop(outcome: Outcome)

  function Prepend(f: Finding, rest: Plan): (p: Plan)
    ensures p.Stop? ==> rest == p || p.outcome.Refused? || p.outcome.Crashed?
    ensures p.Good? ==> rest.Good? && |p.values| == |rest.values| + 1
  {
    match f
    case Invalid => Stop(Refused)
    case Broken => Stop(Crashed)
    case Problem => if rest.Stop? then rest else Stop(Refused)
    case Skip => if rest.Stop? then rest else Good([None] + rest.values)
    case Keep(v) => if rest.Stop? then rest else Good([Some(v)] + rest.values)
  }

  function MakePlan(doc: Doc, checks: seq<Check>): (p: Plan)
    ensures p.Good? ==> |p.values| == |checks|
    ensures p.Stop? ==> p.outcome.Refused? || p.outcome.Crashed?
  {
    if checks == [] then Good([]) else Prepend(Inspect(doc, checks[0]), MakePlan(doc, checks[1..]))
  }

  function Combine(values: seq<Option<Doc>>, problem: bool, rest: Plan): Plan {
    match rest
    case Stop(o) => Stop(o)
    case Good(vs) => if problem then Stop(Refused) else Good(values + vs)
  }

  lemma CombineStep(values: seq<Option<Doc>>, problem: bool, f: Finding, rest: Plan)
    requires !f.Invalid? && !f.Broken?
    ensures Combine(values, problem, Prepend(f, rest))
         == Combine(values + [if f.Keep? then Some(f.value) else None], problem || f.Problem?, rest)
  {
    if rest.Good? && !f.Problem? {
      var head := if f.Keep? then Some(f.value) else None;
      assert values + ([head] + rest.values) == values + [head] + rest.values;
    }
  }

  lemma PlanSuffix(doc: Doc, checks: seq<Check>, i: nat)
    requires i < |checks|
    ensures MakePlan(doc, checks[i..]) == Prepend(Inspect(doc, checks[i]), MakePlan(doc, checks[i + 1..]))
  {
    assert checks[i..][1..] == checks[i + 1..];
  }

  lemma PlanStep(doc: Doc, checks: seq<Check>, i: nat, values: seq<Option<Doc>>, problem: bool, f: Finding)
    requires i < |checks| && f == Inspect(doc, checks[i])
    ensures Combine(values, problem, MakePlan(doc, checks[i..]))
         == if f.Invalid? then Stop(Refused)
            else if f.Broken? then Stop(Crashed)
            else Combine(values + [if f.Keep? then Some(f.value) else None], problem || f.Problem?,
                         MakePlan(doc, checks[i + 1..]))
  {
    PlanSuffix(doc, checks, i);
    if !f.Invalid? && !f.Broken? {
      CombineStep(values, problem, f, MakePlan(doc, checks[i + 1..]));
    }
  }

  /** The checking loop of `refresh`: nothing is written while it runs. */
  method PlanLoop(doc: Doc, checks: seq<Check>) returns (plan: Plan)
    ensures plan == MakePlan(doc, checks)
  {
    var values: seq<Option<Doc>> := [];
    var problem := false;
    assert checks[0..] == checks;
    for i := 0 to |checks|
      invariant MakePlan(doc, checks) == Combine(values, problem, MakePlan(doc, checks[i..]))
    {
      var f := Inspect(doc, checks[i]);
      PlanStep(doc, checks, i, values, problem, f);
      if f.Invalid? {
        return Stop(Refused);
      }
      if f.Broken? {
        return Stop(Crashed);
      }
      problem := problem || f.Problem?;
      values := values + [if f.Keep? then Some(f.value) else None];
    }
    assert checks[|checks|..] == [];
    assert values + [] == values;
    return if problem then Stop(Refused) else Good(values);
  }

  /** What an accepted plan says of each check. */
  lemma {:induction false} GoodPlan(doc: Doc, checks: seq<Check>, i: nat)
    requires MakePlan(doc, checks).Good? && i < |checks|
    ensures var v := MakePlan(doc, checks).values[i];
            if Pinned(checks[i]) then v == None
            else v.Some? && ReadMetric(doc, checks[i]) == Got(v.value) && Clears(checks[i], v.value)
  {
    var f, rest := Inspect(doc, checks[0]), checks[1..];
    assert MakePlan(doc, checks) == Prepend(f, MakePlan(doc, rest));
    PrependGood(f, MakePlan(doc, rest));
    if i > 0 {
      GoodPlan(doc, rest, i - 1);
      assert rest[i - 1] == checks[i];
    } else {
      InspectedAs(doc, checks[0], f);
    }
  }

  lemma PrependGood(f: Finding, rest: Plan)
    requires Prepend(f, rest).Good?
    ensures rest.Good? && (f.Skip? || f.Keep?)
    ensures Prepend(f, rest).values == [if f.Keep? then Some(f.value) else None] + rest.values
  {
  }

  lemma InspectedAs(doc: Doc, c: Check, f: Finding)
    requires f == Inspect(doc, c)
    ensures f.Skip? <==> Pinned(c)
    ensures f.Keep? ==> ReadMetric(doc, c) == Got(f.value) && Clears(c, f.value)
  {
    if f.Keep? { PassesIsClears(c, f.value); }
  }

  /** The checking phase accepts a check exactly when it is pinned or the value read clears its bound. */
  lemma Inspected(doc: Doc, c: Check)
    ensures Inspect(doc, c) == Skip <==> Pinned(c)
    ensures forall v :: Inspect(doc, c) == Keep(v) <==> !Pinned(c) && ReadMetric(doc, c) == Got(v) && Clears(c, v)
  {
    forall v ensures Inspect(doc, c) == Keep(v) <==> !Pinned(c) && ReadMetric(doc, c) == Got(v) && Clears(c, v) {
      PassesIsClears(c, v);
    }
  }

  /** The plan goes through exactly when every check is accepted. */
  lemma {:induction false} PlanIsGoodIff(doc: Doc, checks: seq<Check>)
    ensures MakePlan(doc, checks).Good? <==>
            forall i :: 0 <= i < |checks| ==>
              || Pinned(checks[i])
              || (ReadMetric(doc, checks[i]).Got? && Clears(checks[i], ReadMetric(doc, checks[i]).value))
  {
    if checks != [] {
      var rest := checks[1..];
      Inspected(doc, checks[0]);
      PlanIsGoodIff(doc, rest);
      assert checks == [checks[0]] + rest;
    }
  }

  function Freeze(check: Check, v: Option<Doc>): Check { if v.Some? then check.(recorded := v) else check }

  function FreezeAll(checks: seq<Check>, values: seq<Option<Doc>>): (r: seq<Check>)
    requires |values| == |checks|
    ensures |r| == |checks|
  {
    seq(|checks|, i requires 0 <= i < |checks| => Freeze(checks[i], values[i]))
  }

  /** Arguments of one refresh: the recording, its file stem, the date, the readable files, and `str`. */
  datatype Args = Args(caseId: string, relative: string, stem: string, stamp: string, files: Files, text: Doc -> string)

  /** The run tag of a recording; None when looking it up raises. */
  function RunTag(doc: Doc, stem: string): Option<Doc> {
    if !doc.Obj? then Some(Str(stem))
    else
      var summary := GetOrNull(doc.members, "summary");
      if !Truthy(summary) then Some(Str(stem))
      else if !summary.Obj? then None
      else
        var tag := GetOrNull(summary.members, "tag");
        Some(if Truthy(tag) then tag else Str(stem))
  }

  function ReplaceAll(s: string, from: string, to: string): string
    requires from != ""
  {
    if |s| < |from| then s
    else if from <= s then to + ReplaceAll(s[|from|..], from, to)
    else [s[0]] + ReplaceAll(s[1..], from, to)
  }

  /** The text `from` occurs nowhere in x + y before y begins. */
  ghost predicate FreeOf(x: string, from: string, y: string) {
    x == [] || (!(from <= x + y) && FreeOf(x[1..], from, y))
  }

  /** Text before the first occurrence is kept, the occurrence is replaced, and the search goes on behind it. */
  lemma {:induction false} ReplaceFirst(x: string, from: string, y: string, to: string)
    requires from != "" && FreeOf(x, from, from + y)
    ensures ReplaceAll(x + (from + y), from, to) == x + (to + ReplaceAll(y, from, to))
  {
    var s := x + (from + y);
    if x == [] {
      assert s == from + y && s[|from|..] == y;
    } else {
      ReplaceFirst(x[1..], from, y, to);
      OneCharOn(x, from + y, from, to, to + ReplaceAll(y, from, to));
    }
  }

  lemma OneCharOn(x: string, y: string, from: string, to: string, rest: string)
    requires x != [] && from != "" && !(from <= x + y) && |x + y| >= |from|
    requires ReplaceAll(x[1..] + y, from, to) == x[1..] + rest
    ensures ReplaceAll(x + y, from, to) == x + rest
  {
    assert (x + y)[1..] == x[1..] + y && (x + y)[0] == x[0];
    assert x + rest == [x[0]] + (x[1..] + rest);
  }

  /** Text without an occurrence is kept. */
  lemma {:induction false} ReplaceNothing(x: string, from: string, to: string)
    requires from != "" && FreeOf(x, from, "")
    ensures ReplaceAll(x, from, to) == x
  {
    if x != [] {
      ReplaceNothing(x[1..], from, to);
      assert x + "" == x && x == [x[0]] + x[1..];
    }
  }

  /** Without a summary the run tag is the file stem; a nonempty summary that is no object raises. */
  lemma StemIsTag(doc: Doc, stem: string, t: string)
    ensures !doc.Obj? || Lookup(doc.members, "summary").None? ==> RunTag(doc, stem) == Some(Str(stem))
    ensures doc.Obj? && Lookup(doc.members, "summary") == Some(Str(t)) ==>
              RunTag(doc, stem) == if t == "" then Some(Str(stem)) else None
  {
  }

  /** With one, it is the summary's tag unless that is missing, null, empty or zero. */
  lemma RunTagMeaning(doc: Doc, tags: seq<Entry<Doc>>, stem: string, t: string, n: real)
    requires doc.Obj? && Lookup(doc.members, "summary") == Some(Obj(tags))
    ensures var tag := Lookup(tags, "tag");
            && (tag == None || tag == Some(Null) ==> RunTag(doc, stem) == Some(Str(stem)))
            && (tag == Some(Str(t)) ==> RunTag(doc, stem) == Some(Str(if t == "" then stem else t)))
            && (tag == Some(Num(n)) ==> RunTag(doc, stem) == Some(if n == 0.0 then Str(stem) else Num(n)))
  {
  }

  function Repoint(was: Source, a: Args, run: Doc): Source {
    was.(file := Some(a.relative), run := Some(run), refreshed := Some(Refreshed(was.file, was.run, a.stamp)))
  }

  /** The instrument text mentions the old run, so its tag has to be substituted. */
  predicate Retag(was: Source) {
    was.instrument.Some? && was.instrument.value != "" && was.run.Some? && Truthy(was.run.value)
  }

  /** Substitution works on text tags only. */
  predicate RetagRaises(was: Source, run: Doc) { Retag(was) && !(was.run.value.Str? && run.Str?) }

  function RecordedIn(a: Args, run: Doc): string {
    "refreshed " + a.stamp + " from " + a.relative + "; add the work-log that recorded run " + a.text(run)
  }

  function Finalize(was: Source, a: Args, run: Doc): Source
    requires !RetagRaises(was, run)
  {
    var s := Repoint(was, a, run);
    var t := if Retag(was) then s.(instrument := Some(ReplaceAll(was.instrument.value, was.run.value.s, run.s))) else s;
    if was.recordedIn.Some? then t.(recordedIn := Some(RecordedIn(a, run))) else t
  }

  function Positions(cases: seq<Case>, id: string, n: nat): (r: seq<nat>)
    requires n <= |cases|
    ensures forall i :: 0 <= i < |r| ==> r[i] < n && cases[r[i]].id == id
    ensures forall k :: 0 <= k < n && cases[k].id == id ==> k in r
  {
    if n == 0 then []
    else Positions(cases, id, n - 1) + if cases[n - 1].id == id then [n - 1] else []
  }

  /** The one case with this id, if there is exactly one. */
  function Unique(cases: seq<Case>, id: string): (r: Option<nat>)
    ensures r.Some? ==> r.value < |cases| && forall k :: 0 <= k < |cases| ==> (cases[k].id == id <==> k == r.value)
  {
    var ps := Positions(cases, id, |cases|);
    if |ps| == 1 then Some(ps[0]) else None
  }

  function NewDoc(a: Args): Option<Doc> { DocAt(a.files, Some(a.relative)) }

  /** Exactly one such case, with checks and a source, and a recording that parses and clears every floor. */
  predicate Prepared(cases: seq<Case>, a: Args) {
    && Unique(cases, a.caseId).Some? && NewDoc(a).Some?
    && var c, doc := cases[Unique(cases, a.caseId).value], NewDoc(a).value;
    && c.checks != [] && MakePlan(doc, c.checks).Good? && c.source.Some? && RunTag(doc, a.stem).Some?
  }

  function Target(cases: seq<Case>, a: Args): (k: nat)
    requires Prepared(cases, a)
    ensures k < |cases| && cases[k].id == a.caseId
  {
    Unique(cases, a.caseId).value
  }

  function NewRun(cases: seq<Case>, a: Args): Doc
    requires Prepared(cases, a)
  {
    RunTag(NewDoc(a).value, a.stem).value
  }

  function NewCase(cases: seq<Case>, a: Args): Case
    requires Prepared(cases, a)
    requires !RetagRaises(cases[Target(cases, a)].source.value, NewRun(cases, a))
  {
    var c := cases[Target(cases, a)];
    c.(source := Some(Finalize(c.source.value, a, NewRun(cases, a))),
       checks := FreezeAll(c.checks, MakePlan(NewDoc(a).value, c.checks).values))
  }

  /** The manifest in memory and the outcome after `refresh`. */
  function AfterRefresh(cases: seq<Case>, a: Args): (seq<Case>, Outcome) {
    var found := Unique(cases, a.caseId);
    if found.None? || cases[found.value].checks == [] then (cases, Refused)
    else if NewDoc(a).None? then (cases, if a.relative in a.files then Refused else Crashed)
    else
      var k := found.value;
      var c := cases[k];
      var doc := NewDoc(a).value;
      var plan := MakePlan(doc, c.checks);
      if plan.Stop? then (cases, plan.outcome)
      else if c.source.None? || RunTag(doc, a.stem).None? then (cases, Crashed)
      else
        var was, run := c.source.value, RunTag(doc, a.stem).value;
        if RetagRaises(was, run) then (cases[k := c.(source := Some(Repoint(was, a, run)))], Crashed)
        else
          var c' := c.(source := Some(Finalize(was, a, run)), checks := FreezeAll(c.checks, plan.values));
          var rows := EvaluateCase(a.files, c');
          (cases[k := c'], if rows.Some? then Frozen(rows.value) else EvaluationFault(a.files, c'))
  }

  /** How the first check that raises ends the evaluation. */
  function EvaluationFault(files: Files, c: Case): Outcome {
    FirstFault(files, SourceFile(c), c.checks)
  }

  /** A malformed bound or text that is no number raises ValueError, anything else another exception. */
  function FirstFault(files: Files, source: Option<string>, checks: seq<Check>): (o: Outcome)
    ensures !o.Frozen?
  {
    if checks == [] then Crashed
    else if EvaluateCheck(files, source, checks[0]).Some? then FirstFault(files, source, checks[1..])
    else
      var doc := DocFor(files, source, checks[0]);
      if BoundOf(checks[0]).None? || (doc.Some? && ReadMetric(doc.value, checks[0]).BadText?) then Refused else Crashed
  }

  class FrozenManifest {
    var cases: seq<Case>

    constructor (cases: seq<Case>)
      ensures this.cases == cases
    {
      this.cases := cases;
    }

    /** `refresh`: the source is re-pointed first, then the recorded values are written. */
    method Refresh(a: Args) returns (outcome: Outcome)
      modifies this
      ensures (cases, outcome) == AfterRefresh(old(cases), a)
    {
      var found := Unique(cases, a.caseId);
      if found.None? || cases[found.value].checks == [] {
        return Refused;
      }
      var recording := NewDoc(a);
      if recording.None? {
        return if a.relative in a.files then Refused else Crashed;
      }
      var k, doc := found.value, recording.value;
      var plan := PlanLoop(doc, cases[k].checks);
      if plan.Stop? {
        return plan.outcome;
      }
      var tag := RunTag(doc, a.stem);
      if cases[k].source.None? || tag.None? {
        return Crashed;
      }
      outcome := Commit(k, a, plan.values, tag.value);
    }

    /** Everything after the first write. */
    method Commit(k: nat, a: Args, values: seq<Option<Doc>>, run: Doc) returns (outcome: Outcome)
      requires k < |cases| && cases[k].source.Some? && |values| == |cases[k].checks|
      modifies this
      ensures var c := old(cases)[k]; var was := c.source.value;
              if RetagRaises(was, run)
              then outcome == Crashed && cases == old(cases)[k := c.(source := Some(Repoint(was, a, run)))]
              else var c' := c.(source := Some(Finalize(was, a, run)), checks := FreezeAll(c.checks, values));
                   && cases == old(cases)[k := c']
                   && outcome == match EvaluateCase(a.files, c')
                                 case Some(rows) => Frozen(rows)
                                 case None => EvaluationFault(a.files, c')
    {
      var c := cases[k];
      var was := c.source.value;
      cases := cases[k := c.(source := Some(Repoint(was, a, run)))];
      if RetagRaises(was, run) {
        return Crashed;
      }
      cases := cases[k := cases[k].(source := Some(Finalize(was, a, run)))];
      cases := cases[k := cases[k].(checks := FreezeAll(c.checks, values))];
      var rows := EvaluateCase(a.files, cases[k]);
      outcome := if rows.Some? then Frozen(rows.value) else EvaluationFault(a.files, cases[k]);
    }
  }

  // ----- what refresh guarantees

  /** Bounds, pointers and pins of a check are fixed; only its recorded value may differ. */
  ghost predicate SameCheck(c: Check, d: Check) { c.(recorded := None) == d.(recorded := None) }

  ghost predicate SameShape(cases: seq<Case>, after: seq<Case>) {
    && |after| == |cases|
    && forall k :: 0 <= k < |cases| ==>
         && after[k].id == cases[k].id && |after[k].checks| == |cases[k].checks|
         && forall i :: 0 <= i < |cases[k].checks| ==> SameCheck(cases[k].checks[i], after[k].checks[i])
  }

  /** A pinned check that raises when evaluated, whatever recording its case points at. */
  predicate PinFaults(files: Files, check: Check) {
    && Pinned(check)
    && (BoundOf(check).None? || var doc := DocAt(files, check.file);
        doc.Some? && match ReadMetric(doc.value, check)
                     case Got(v) => Passes(v, BoundOf(check).value).None?
                     case Missing => false
                     case _ => true)
  }

  ghost predicate SomePinFaults(cases: seq<Case>, a: Args)
    requires Prepared(cases, a)
  {
    exists i :: 0 <= i < |cases[Target(cases, a)].checks| && PinFaults(a.files, cases[Target(cases, a)].checks[i])
  }

  predicate TagRaises(cases: seq<Case>, a: Args)
    requires Prepared(cases, a)
  {
    RetagRaises(cases[Target(cases, a)].source.value, NewRun(cases, a))
  }

  /** After freezing, evaluation raises exactly on the pinned checks that raised before. */
  lemma NewCaseEvaluates(cases: seq<Case>, a: Args)
    requires Prepared(cases, a) && !TagRaises(cases, a)
    ensures EvaluateCase(a.files, NewCase(cases, a)).Some? <==> !SomePinFaults(cases, a)
  {
    var c, c' := cases[Target(cases, a)], NewCase(cases, a);
    forall i | 0 <= i < |c.checks|
      ensures EvaluateCheck(a.files, SourceFile(c'), c'.checks[i]).None? <==> PinFaults(a.files, c.checks[i])
    {
      FrozenCheckPasses(a, c.checks, i);
    }
  }

  /**
   Before the commit point nothing changes. Past it, the source is re-pointed, and unless substituting the
   tag raises, everything is written. The refresh is accepted exactly when it gets past the checking phase,
   the tag can be substituted and no pinned check of the case raises.
   */
  lemma RefusalBeforeCommit(cases: seq<Case>, a: Args)
    ensures !Prepared(cases, a) ==> AfterRefresh(cases, a).0 == cases
    ensures Prepared(cases, a) ==>
              var k := Target(cases, a);
              var c := cases[k];
              AfterRefresh(cases, a).0 == if TagRaises(cases, a)
                                     then cases[k := c.(source := Some(Repoint(c.source.value, a, NewRun(cases, a))))]
                                     else cases[k := NewCase(cases, a)]
    ensures AfterRefresh(cases, a).1.Frozen? <==>
              Prepared(cases, a) && !TagRaises(cases, a) && !SomePinFaults(cases, a)
  {
    if Prepared(cases, a) && !TagRaises(cases, a) {
      NewCaseEvaluates(cases, a);
    }
  }

  /** The source already records this very refresh: same file, run and date, from itself. */
  predicate AlreadyThere(cases: seq<Case>, a: Args)
    requires Prepared(cases, a)
  {
    var was, run := cases[Target(cases, a)].source.value, NewRun(cases, a);
    && was.file == Some(a.relative) && was.run == Some(run)
    && was.refreshed == Some(Refreshed(was.file, was.run, a.stamp))
  }

  /** The later writes change nothing either. */
  ghost predicate AlreadyFrozen(cases: seq<Case>, a: Args)
    requires Prepared(cases, a)
  {
    var c := cases[Target(cases, a)];
    var values := MakePlan(NewDoc(a).value, c.checks).values;
    && c.source.value.recordedIn in {None, Some(RecordedIn(a, NewRun(cases, a)))}
    && forall i :: 0 <= i < |c.checks| ==> values[i] in {None, c.checks[i].recorded}
  }

  lemma {:induction false} ReplaceBySelf(s: string, t: string)
    requires t != ""
    ensures ReplaceAll(s, t, t) == s
  {
    if |s| >= |t| {
      if t <= s {
        ReplaceBySelf(s[|t|..], t);
        assert s == t + s[|t|..];
      } else {
        ReplaceBySelf(s[1..], t);
        assert s == [s[0]] + s[1..];
      }
    }
  }

  lemma SameSourceIff(cases: seq<Case>, a: Args)
    requires Prepared(cases, a) && !TagRaises(cases, a)
    ensures var was, run := cases[Target(cases, a)].source.value, NewRun(cases, a);
            Finalize(was, a, run) == was <==>
            AlreadyThere(cases, a) && was.recordedIn in {None, Some(RecordedIn(a, run))}
  {
    var was, run := cases[Target(cases, a)].source.value, NewRun(cases, a);
    if Retag(was) && was.run == Some(run) {
      ReplaceBySelf(was.instrument.value, run.s);
    }
  }

  lemma SameChecksIff(checks: seq<Check>, values: seq<Option<Doc>>)
    requires |values| == |checks|
    ensures FreezeAll(checks, values) == checks <==>
            forall i :: 0 <= i < |checks| ==> values[i] in {None, checks[i].recorded}
  {
    var frozen := FreezeAll(checks, values);
    forall i | 0 <= i < |checks| ensures frozen[i] == checks[i] <==> values[i] in {None, checks[i].recorded} {
      assert frozen[i] == Freeze(checks[i], values[i]);
    }
    if frozen == checks {
      forall i | 0 <= i < |checks| ensures values[i] in {None, checks[i].recorded} {
        assert frozen[i] == checks[i];
      }
    }
  }

  /**
   A refresh raises exactly when the checking phase stops it, the tag cannot be substituted, or a pinned
   check of the case raises. In the last two cases it has already written, so the manifest is as it was
   only if it already recorded this very refresh.
   */
  lemma RaiseKeepsManifestIff(cases: seq<Case>, a: Args)
    ensures !AfterRefresh(cases, a).1.Frozen? <==>
              !Prepared(cases, a) || TagRaises(cases, a) || SomePinFaults(cases, a)
    ensures AfterRefresh(cases, a).0 == cases <==>
              || !Prepared(cases, a)
              || (AlreadyThere(cases, a) && (TagRaises(cases, a) || AlreadyFrozen(cases, a)))
    ensures Prepared(cases, a) && cases[Target(cases, a)].source.value.file != Some(a.relative) ==>
              AfterRefresh(cases, a).0 != cases
  {
    RefusalBeforeCommit(cases, a);
    if Prepared(cases, a) {
      var k := Target(cases, a);
      var c, after := cases[k], AfterRefresh(cases, a).0;
      assert after == cases <==> after[k] == c;
      if !TagRaises(cases, a) {
        SameSourceIff(cases, a);
        SameChecksIff(c.checks, MakePlan(NewDoc(a).value, c.checks).values);
      }
    }
  }

  /** Reading the metric and comparing it with the bound raises nothing but a KeyError. */
  predicate Quiet(doc: Doc, c: Check) {
    && BoundOf(c).Some?
    && match ReadMetric(doc, c)
       case Got(v) => Passes(v, BoundOf(c).value).Some?
       case Missing => true
       case _ => false
  }

  lemma {:induction false} QuietPlan(doc: Doc, checks: seq<Check>)
    requires forall i :: 0 <= i < |checks| ==> Pinned(checks[i]) || Quiet(doc, checks[i])
    ensures MakePlan(doc, checks).Good? || MakePlan(doc, checks) == Stop(Refused)
  {
    if checks != [] {
      QuietPlan(doc, checks[1..]);
    }
  }

  /**
   The refusals that `refresh` documents are ValueErrors and leave the manifest alone: an unknown or repeated
   id, a case without checks, a recording that does not parse, and a floor that is not met or a metric that
   is absent when no check raises anything else. A recording that is not there is an OSError.
   */
  lemma RefusalKinds(cases: seq<Case>, a: Args)
    ensures Unique(cases, a.caseId).None? ==> AfterRefresh(cases, a) == (cases, Refused)
    ensures Unique(cases, a.caseId).Some? ==>
              var checks := cases[Unique(cases, a.caseId).value].checks;
              && (checks == [] ==> AfterRefresh(cases, a) == (cases, Refused))
              && (checks != [] && a.relative !in a.files ==> AfterRefresh(cases, a) == (cases, Crashed))
              && (checks != [] && a.relative in a.files && a.files[a.relative].Garbled? ==>
                    AfterRefresh(cases, a) == (cases, Refused))
              && (checks != [] && a.relative in a.files && a.files[a.relative].Parsed? ==>
                    var doc := a.files[a.relative].doc;
                    (forall i :: 0 <= i < |checks| ==> Pinned(checks[i]) || Quiet(doc, checks[i]))
                    && (exists i :: 0 <= i < |checks| && !Pinned(checks[i])
                                    && !(ReadMetric(doc, checks[i]).Got?
                                         && Clears(checks[i], ReadMetric(doc, checks[i]).value)))
                    ==> AfterRefresh(cases, a) == (cases, Refused))
  {
    var found := Unique(cases, a.caseId);
    if found.Some? && NewDoc(a).Some? {
      var checks, doc := cases[found.value].checks, NewDoc(a).value;
      PlanIsGoodIff(doc, checks);
      if forall i :: 0 <= i < |checks| ==> Pinned(checks[i]) || Quiet(doc, checks[i]) {
        QuietPlan(doc, checks);
      }
    }
  }

  /** A length metric with a floor of zero: any object or list recording clears it. */
  function LengthCheck(file: Option<string>, cap: Option<Doc>): Check {
    Check("n", "", None, None, Some("len"), None, file, Some(Num(0.0)), cap, None, None)
  }

  lemma LengthCheckReads(doc: Doc)
    requires doc.Obj?
    ensures Inspect(doc, LengthCheck(None, None)) == Keep(Num(|doc.members| as real))
  {
  }

  /** A manifest with one case and a recording to refresh it with. */
  function Example(checks: seq<Check>, source: Source, doc: Doc, pin: Doc): (seq<Case>, Args) {
    ([Case("c", checks, Some(source))],
     Args("c", "b.json", "b", "today", map["b.json" := Parsed(doc), "p.json" := Parsed(pin)], v => ""))
  }

  function ExampleSource(): Source { Source(Some("a.json"), Some(Str("r1")), Some("run r1"), None, None) }

  /** A recording with a numeric tag ends the refresh with an exception after the source was re-pointed. */
  lemma NumericTagLeavesHalfRefresh()
    ensures var doc := Obj([Entry("summary", Obj([Entry("tag", Num(5.0))]))]);
            var (cases, a) := Example([LengthCheck(None, None)], ExampleSource(), doc, Null);
            && AfterRefresh(cases, a).1 == Crashed
            && AfterRefresh(cases, a).0 != cases
            && AfterRefresh(cases, a).0[0].checks == cases[0].checks
  {
    var doc: Doc := Obj([Entry("summary", Obj([Entry("tag", Num(5.0))]))]);
    var (cases, a) := Example([LengthCheck(None, None)], ExampleSource(), doc, Null);
    LengthCheckReads(doc);
    OneCase(cases, a);
    assert MakePlan(doc, []) == Good([]);
    assert RunTag(doc, "b") == Some(Num(5.0));
    assert RetagRaises(ExampleSource(), Num(5.0));
    assert AfterRefresh(cases, a).0[0].source.value.file == Some("b.json");
  }

  lemma OneCase(cases: seq<Case>, a: Args)
    requires |cases| == 1 && cases[0].id == a.caseId
    ensures Unique(cases, a.caseId) == Some(0)
  {
    assert Positions(cases, a.caseId, 0) == [];
    assert Positions(cases, a.caseId, 1) == [0];
  }

  /** An unpinned length check followed by a pinned one passes the checking phase. */
  lemma PinnedExample(pinned: Check, pin: Doc)
    requires Pinned(pinned)
    ensures var (cases, a) := Example([LengthCheck(None, None), pinned], ExampleSource(), Obj([]), pin);
            && Prepared(cases, a) && Target(cases, a) == 0 && !TagRaises(cases, a)
            && AfterRefresh(cases, a).0 != cases
            && AfterRefresh(cases, a).0[0].checks == [LengthCheck(None, None).(recorded := Some(Num(0.0))), pinned]
            && AfterRefresh(cases, a).0[0].source.value.file == Some("b.json")
  {
    var doc: Doc := Obj([]);
    var good := LengthCheck(None, None);
    var checks := [good, pinned];
    var (cases, a) := Example(checks, ExampleSource(), doc, pin);
    LengthCheckReads(doc);
    OneCase(cases, a);
    assert Inspect(doc, pinned) == Skip;
    assert MakePlan(doc, []) == Good([]);
    assert checks[1..] == [pinned] && [pinned][1..] == [];
    assert MakePlan(doc, [pinned]) == Good([None]);
    assert MakePlan(doc, checks) == Good([Some(Num(0.0)), None]);
    assert RunTag(doc, "b") == Some(Str("b"));
    RefusalBeforeCommit(cases, a);
    assert FreezeAll(checks, [Some(Num(0.0)), None]) == [good.(recorded := Some(Num(0.0))), pinned];
    RaiseKeepsManifestIff(cases, a);
  }

  lemma PinnedExampleEnds(pinned: Check, pin: Doc)
    requires Pinned(pinned)
    requires var a := Example([LengthCheck(None, None), pinned], ExampleSource(), Obj([]), pin).1;
             PinFaults(a.files, pinned)
    ensures var (cases, a) := Example([LengthCheck(None, None), pinned], ExampleSource(), Obj([]), pin);
            AfterRefresh(cases, a).1 == FirstFault(a.files, Some("b.json"), [pinned])
  {
    var good := LengthCheck(None, None);
    var (cases, a) := Example([good, pinned], ExampleSource(), Obj([]), pin);
    PinnedExample(pinned, pin);
    assert cases[0].checks[1] == pinned;
    NewCaseEvaluates(cases, a);
    var c' := NewCase(cases, a);
    assert AfterRefresh(cases, a).0[0] == c';
    assert c'.checks[1..] == [pinned];
    LengthCheckReads(Obj([]));
    PassesOnceFrozen(a.files, "b.json", good, Num(0.0));
  }

  /** A pinned check with two bounds makes the refresh refuse after every write was done. */
  lemma MalformedPinRefusesTooLate()
    ensures var bad := LengthCheck(Some("p.json"), Some(Num(9.0)));
            var (cases, a) := Example([LengthCheck(None, None), bad], ExampleSource(), Obj([]), Null);
            AfterRefresh(cases, a).1 == Refused && AfterRefresh(cases, a).0 != cases
  {
    var bad := LengthCheck(Some("p.json"), Some(Num(9.0)));
    PinnedExample(bad, Null);
    PinnedExampleEnds(bad, Null);
  }

  /** So does a pinned check with one bound whose own recording cannot be reduced, here a number. */
  lemma UnreadablePinCrashesTooLate()
    ensures var bad := LengthCheck(Some("p.json"), None);
            var (cases, a) := Example([LengthCheck(None, None), bad], ExampleSource(), Obj([]), Num(3.0));
            BoundOf(bad).Some? && AfterRefresh(cases, a).1 == Crashed && AfterRefresh(cases, a).0 != cases
  {
    var bad := LengthCheck(Some("p.json"), None);
    var a := Example([LengthCheck(None, None), bad], ExampleSource(), Obj([]), Num(3.0)).1;
    assert DocAt(a.files, bad.file) == Some(Num(3.0)) && ReadMetric(Num(3.0), bad) == Crash;
    PinnedExample(bad, Num(3.0));
    PinnedExampleEnds(bad, Num(3.0));
  }

  /** The texts of the source: the old tag in the instrument becomes the new one, a work-log note is renewed. */
  ghost predicate Rewritten(was: Source, now: Source, run: Doc, a: Args) {
    && now.instrument == (match (was.instrument, was.run)
                          case (Some(text), Some(Str(tag))) =>
                            if text == "" || tag == "" || !run.Str? then was.instrument
                            else Some(ReplaceAll(text, tag, run.s))
                          case _ => was.instrument)
    && now.recordedIn == (if was.recordedIn.None? then None
                          else Some("refreshed " + a.stamp + " from " + a.relative
                                    + "; add the work-log that recorded run " + a.text(run)))
  }

  /** Acceptance: every unpinned check of the case passes on the new recording, all else is untouched. */
  lemma AcceptedRefresh(cases: seq<Case>, a: Args)
    requires AfterRefresh(cases, a).1.Frozen?
    ensures Prepared(cases, a)
    ensures var k, after, rows := Target(cases, a), AfterRefresh(cases, a).0, AfterRefresh(cases, a).1.rows;
            && SameShape(cases, after)
            && (forall j :: 0 <= j < |cases| && j != k ==> after[j] == cases[j])
            && after[k].source.Some? && after[k].source.value.file == Some(a.relative)
            && after[k].source.value.run == Some(NewRun(cases, a))
            && after[k].source.value.refreshed
               == Some(Refreshed(cases[k].source.value.file, cases[k].source.value.run, a.stamp))
            && |rows| == |cases[k].checks|
            && forall i :: 0 <= i < |rows| ==>
                 if Pinned(cases[k].checks[i]) then after[k].checks[i] == cases[k].checks[i]
                 else rows[i] == PASS && after[k].checks[i].recorded.Some? && RecordedMeetsFloor(after[k].checks[i])
    ensures Rewritten(cases[Target(cases, a)].source.value, AfterRefresh(cases, a).0[Target(cases, a)].source.value,
                      NewRun(cases, a), a)
  {
    RefusalBeforeCommit(cases, a);
    OneRefresh(cases, a);
    var c, c' := cases[Target(cases, a)], NewCase(cases, a);
    assert AfterRefresh(cases, a).1 == Frozen(EvaluateCase(a.files, c').value) && SourceFile(c') == Some(a.relative);
    forall i | 0 <= i < |c.checks|
      ensures if Pinned(c.checks[i]) then c'.checks[i] == c.checks[i]
              else
                EvaluateCheck(a.files, Some(a.relative), c'.checks[i]) == Some(PASS) && RecordedMeetsFloor(c'.checks[i])
    {
      FrozenCheckPasses(a, c.checks, i);
    }
  }

  /** A frozen check evaluates to PASS on the recording it was frozen from. */
  lemma FrozenCheckPasses(a: Args, checks: seq<Check>, i: nat)
    requires NewDoc(a).Some? && i < |checks| && MakePlan(NewDoc(a).value, checks).Good?
    ensures var frozen := FreezeAll(checks, MakePlan(NewDoc(a).value, checks).values)[i];
            && SameCheck(checks[i], frozen)
            && if Pinned(checks[i]) then frozen == checks[i]
               else EvaluateCheck(a.files, Some(a.relative), frozen) == Some(PASS) && RecordedMeetsFloor(frozen)
  {
    var doc := NewDoc(a).value;
    var v := MakePlan(doc, checks).values[i];
    GoodPlan(doc, checks, i);
    assert FreezeAll(checks, MakePlan(doc, checks).values)[i] == Freeze(checks[i], v);
    if !Pinned(checks[i]) {
      PassesOnceFrozen(a.files, a.relative, checks[i], v.value);
    }
  }

  /** Reading a metric does not look at the recorded value. */
  lemma ReadIgnoresRecorded(doc: Doc, c: Check, v: Option<Doc>)
    ensures ReadMetric(doc, c.(recorded := v)) == ReadMetric(doc, c)
    ensures BoundOf(c.(recorded := v)) == BoundOf(c)
  {
    assert ReadValue(doc, c.(recorded := v)) == ReadValue(doc, c);
  }

  lemma PassesOnceFrozen(files: Files, file: string, c: Check, v: Doc)
    requires DocAt(files, Some(file)).Some? && !Pinned(c)
    requires ReadMetric(DocAt(files, Some(file)).value, c) == Got(v) && Clears(c, v)
    ensures var frozen := c.(recorded := Some(v));
            EvaluateCheck(files, Some(file), frozen) == Some(PASS) && RecordedMeetsFloor(frozen)
  {
    ReadIgnoresRecorded(DocAt(files, Some(file)).value, c, Some(v));
    PassesIsClears(c, v);
    PyEqReflexive(v);
  }

  predicate RecordedMeetsFloor(c: Check) { c.recorded.Some? && Clears(c, c.recorded.value) }

  // ----- sequences of refreshes

  /** Every recorded value that met its floor still meets it. */
  ghost predicate FloorsKept(cases: seq<Case>, after: seq<Case>)
    requires SameShape(cases, after)
  {
    forall k, i :: 0 <= k < |cases| && 0 <= i < |cases[k].checks| && RecordedMeetsFloor(cases[k].checks[i])
      ==> RecordedMeetsFloor(after[k].checks[i])
  }

  /** Whatever its outcome, a refresh changes no bound and loses no floor that was met. */
  lemma OneRefresh(cases: seq<Case>, a: Args)
    ensures SameShape(cases, AfterRefresh(cases, a).0) && FloorsKept(cases, AfterRefresh(cases, a).0)
  {
    RefusalBeforeCommit(cases, a);
    if Prepared(cases, a) && !TagRaises(cases, a) {
      var t := Target(cases, a);
      var c, c' := cases[t], NewCase(cases, a);
      forall i | 0 <= i < |c.checks|
        ensures SameCheck(c.checks[i], c'.checks[i])
        ensures c'.checks[i] == c.checks[i] || RecordedMeetsFloor(c'.checks[i])
      {
        FrozenCheckPasses(a, c.checks, i);
      }
      assert forall k :: 0 <= k < |cases| && k != t ==> AfterRefresh(cases, a).0[k] == cases[k];
    }
  }

  /** Calls of `refresh` on one manifest in memory, going on after those that raise. */
  function Refreshes(cases: seq<Case>, requests: seq<Args>): seq<Case>
    decreases |requests|
  {
    if requests == [] then cases else Refreshes(AfterRefresh(cases, requests[0]).0, requests[1..])
  }

  /** Over any sequence of refreshes, accepted or not, no bound changes and no floor once met is lost. */
  lemma {:induction false} FloorsNeverErode(cases: seq<Case>, requests: seq<Args>)
    ensures SameShape(cases, Refreshes(cases, requests)) && FloorsKept(cases, Refreshes(cases, requests))
    decreases |requests|
  {
    if requests != [] {
      var mid := AfterRefresh(cases, requests[0]).0;
      OneRefresh(cases, requests[0]);
      FloorsNeverErode(mid, requests[1..]);
      ShapeTransitive(cases, mid, Refreshes(mid, requests[1..]));
    }
  }

  /** The command writes the manifest back only when the refresh was accepted. */
  function Command(cases: seq<Case>, a: Args): seq<Case> {
    if AfterRefresh(cases, a).1.Frozen? then AfterRefresh(cases, a).0 else cases
  }

  function Commands(cases: seq<Case>, requests: seq<Args>): seq<Case>
    decreases |requests|
  {
    if requests == [] then cases else Commands(Command(cases, requests[0]), requests[1..])
  }

  /** The requests that are accepted when each command starts from the file the last one left. */
  function Accepted(cases: seq<Case>, requests: seq<Args>): seq<Args>
    decreases |requests|
  {
    if requests == [] then []
    else
      var rest := Accepted(Command(cases, requests[0]), requests[1..]);
      if AfterRefresh(cases, requests[0]).1.Frozen? then [requests[0]] + rest else rest
  }

  /** On disk only the accepted requests count, so the same holds for any sequence of commands. */
  lemma {:induction false} CommandsAreAccepted(cases: seq<Case>, requests: seq<Args>)
    ensures Commands(cases, requests) == Refreshes(cases, Accepted(cases, requests))
    ensures SameShape(cases, Commands(cases, requests)) && FloorsKept(cases, Commands(cases, requests))
    decreases |requests|
  {
    if requests != [] {
      var a, rest := requests[0], Accepted(Command(cases, requests[0]), requests[1..]);
      CommandsAreAccepted(Command(cases, a), requests[1..]);
      assert ([a] + rest)[1..] == rest;
    }
    FloorsNeverErode(cases, Accepted(cases, requests));
  }

  lemma ShapeTransitive(a: seq<Case>, b: seq<Case>, c: seq<Case>)
    requires SameShape(a, b) && SameShape(b, c) && FloorsKept(a, b) && FloorsKept(b, c)
    ensures SameShape(a, c) && FloorsKept(a, c)
  {
    forall k | 0 <= k < |a| ensures |a[k].checks| == |c[k].checks| {
      assert a[k].id == b[k].id;
    }
    forall k, i | 0 <= k < |a| && 0 <= i < |a[k].checks| ensures SameCheck(a[k].checks[i], c[k].checks[i]) {
      assert SameCheck(a[k].checks[i], b[k].checks[i]);
      assert SameCheck(b[k].checks[i], c[k].checks[i]);
    }
  }
}

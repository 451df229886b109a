/**
 Flattening of the SemLink mappings (scripts/flatten_resources.py): PropBank rolesets to VerbNet
 classes, VerbNet classes to FrameNet frames, and the composition of the two. Raw JSON
 dictionaries are item lists in file order; the code always reads them sorted by key.
 */
module SemLink {
  import opened Finite
  import opened Lex

  type Roles = map<string, string>
  type RawClasses = seq<Entry<Roles>>

  // ----- class numbers

  /** Position of the last hyphen. */
  function LastDash(s: string): (r: Option<nat>)
    ensures r.Some? ==> r.value < |s| && s[r.value] == '-'
  {
    if s == [] then None
    else if s[|s| - 1] == '-' then Some(|s| - 1)
    else LastDash(s[..|s| - 1])
  }

  /** `class_id.rsplit("-", 1)[-1]`. */
  function Number(classId: string): string {
    match LastDash(classId)
    case Some(k) => classId[k + 1..]
    case None => classId
  }

  /** The number is what follows the last hyphen, or the whole id without one. */
  lemma {:induction false} NumberMeaning(classId: string)
    ensures '-' !in Number(classId)
    ensures if '-' in classId then exists base :: classId == base + "-" + Number(classId)
            else Number(classId) == classId
  {
    LastDashIsLast(classId);
    if LastDash(classId).Some? {
      var k := LastDash(classId).value;
      assert classId == classId[..k] + "-" + classId[k + 1..];
    }
  }

  lemma {:induction false} LastDashIsLast(s: string)
    ensures LastDash(s).None? <==> '-' !in s
    ensures LastDash(s).Some? ==> '-' !in s[LastDash(s).value + 1..]
  {
    if s != [] && s[|s| - 1] != '-' {
      var front := s[..|s| - 1];
      LastDashIsLast(front);
      assert s == front + [s[|s| - 1]];
      if LastDash(front).Some? {
        var k := LastDash(front).value;
        assert s[k + 1..] == front[k + 1..] + [s[|s| - 1]];
      }
    }
  }

  /** A class answers to its number and to its own id. */
  predicate AnswersTo(classId: string, key: string) { key == Number(classId) || key == classId }

  /** The class a key stands for: the first class with that number or that id. */
  function FirstClass(classes: seq<string>, key: string): (r: Option<string>)
    ensures r.Some? ==> r.value in classes
  {
    if classes == [] then None
    else if AnswersTo(classes[0], key) then Some(classes[0])
    else FirstClass(classes[1..], key)
  }

  lemma {:induction false} FirstClassSnoc(classes: seq<string>, c: string, key: string)
    ensures FirstClass(classes + [c], key)
         == if FirstClass(classes, key).Some? then FirstClass(classes, key)
            else if AnswersTo(c, key) then Some(c) else None
  {
    if classes != [] {
      assert (classes + [c])[1..] == classes[1..] + [c];
      FirstClassSnoc(classes[1..], c, key);
    } else {
      assert [c][1..] == [];
    }
  }

  function SetDefault(m: map<string, string>, key: string, value: string): map<string, string> {
    if key in m then m else m[key := value]
  }

  /** The index holds exactly the keys that stand for a class. */
  ghost predicate IndexFor(index: map<string, string>, classes: seq<string>) {
    && (forall key :: key in index <==> FirstClass(classes, key).Some?)
    && (forall key :: key in index ==> FirstClass(classes, key) == Some(index[key]))
  }

  lemma IndexStep(index: map<string, string>, classes: seq<string>, c: string)
    requires IndexFor(index, classes)
    ensures IndexFor(SetDefault(SetDefault(index, Number(c), c), c, c), classes + [c])
  {
    var next := SetDefault(SetDefault(index, Number(c), c), c, c);
    forall key
      ensures key in next <==> FirstClass(classes + [c], key).Some?
      ensures key in next ==> FirstClass(classes + [c], key) == Some(next[key])
    {
      FirstClassSnoc(classes, c, key);
    }
  }

  /** `id_to_vn_class`, filled by two `setdefault` calls per class. */
  method BuildIndex(classes: seq<string>) returns (index: map<string, string>)
    ensures IndexFor(index, classes)
  {
    index := map[];
    for i := 0 to |classes|
      invariant IndexFor(index, classes[..i])
    {
      var c := classes[i];
      assert classes[..i + 1] == classes[..i] + [c];
      IndexStep(index, classes[..i], c);
      index := SetDefault(SetDefault(index, Number(c), c), c, c);
    }
    assert classes[..|classes|] == classes;
  }

  /** Resolution of a PropBank key: direct lookup. */
  function PbResolve(classes: seq<string>, key: string): Option<string> { FirstClass(classes, key) }

  /** Resolution of a FrameNet key: without its last segment first, then as it is. */
  function FnResolve(classes: seq<string>, key: string): Option<string> {
    var base := match LastDash(key)
                case Some(k) => key[..k]
                case None => key;
    if FirstClass(classes, base).Some? then FirstClass(classes, base) else FirstClass(classes, key)
  }

  datatype Source = PbVn | VnFn

  function Resolve(source: Source, classes: seq<string>, key: string): Option<string> {
    if source.PbVn? then PbResolve(classes, key) else FnResolve(classes, key)
  }

  /** A key stands for the first class whose id or number it is; i is its position, or -1. */
  lemma {:induction false} FirstClassMeaning(classes: seq<string>, key: string) returns (i: int)
    ensures -1 <= i < |classes|
    ensures FirstClass(classes, key) == if i < 0 then None else Some(classes[i])
    ensures i >= 0 ==> key == classes[i] || key == Number(classes[i])
    ensures forall j :: 0 <= j < (if i < 0 then |classes| else i) ==> key != classes[j] && key != Number(classes[j])
  {
    if classes == [] {
      i := -1;
    } else if AnswersTo(classes[0], key) {
      i := 0;
    } else {
      var rest := classes[1..];
      var k := FirstClassMeaning(rest, key);
      i := if k < 0 then k else k + 1;
      forall j | 0 <= j < (if i < 0 then |classes| else i) ensures key != classes[j] && key != Number(classes[j]) {
        if j > 0 { assert classes[j] == rest[j - 1]; }
      }
    }
  }

  lemma {:induction false} DashAt(base: string, last: string)
    requires '-' !in last
    ensures LastDash(base + "-" + last) == Some(|base|)
  {
    var s := base + "-" + last;
    if last != [] {
      var front := last[..|last| - 1];
      assert s[..|s| - 1] == base + "-" + front && last[|last| - 1] in last;
      DashAt(base, front);
    }
  }

  /**
   Resolution of a FrameNet key `base-last`: a class with the number or id `base` wins over one that
   matches the whole key; a key without a hyphen is matched as it is.
   */
  lemma FnResolveMeaning(classes: seq<string>, base: string, last: string)
    requires '-' !in last
    ensures FnResolve(classes, base + "-" + last)
         == if FirstClass(classes, base).Some? then FirstClass(classes, base)
            else FirstClass(classes, base + "-" + last)
    ensures FnResolve(classes, last) == FirstClass(classes, last)
  {
    DashAt(base, last);
    LastDashIsLast(last);
    assert (base + "-" + last)[..|base|] == base;
  }

  // ----- assignment in key order

  /** An item with the class its key resolves to, if any. */
  datatype Target<+V> = Target(vnClass: Option<string>, value: V)

  function Targets<V>(source: Source, classes: seq<string>, es: seq<Entry<V>>): (r: seq<Target<V>>)
    ensures |r| == |es|
  {
    seq(|es|, i requires 0 <= i < |es| => Target(Resolve(source, classes, es[i].key), es[i].value))
  }

  /** `out[class] = value` over the items in the given order. */
  function AssignAll<V>(ts: seq<Target<V>>): map<string, V> {
    if ts == [] then map[]
    else
      var n := |ts| - 1;
      if ts[n].vnClass.None? then AssignAll(ts[..n]) else AssignAll(ts[..n])[ts[n].vnClass.value := ts[n].value]
  }

  function Assign<V>(source: Source, classes: seq<string>, es: seq<Entry<V>>): map<string, V> {
    AssignAll(Targets(source, classes, es))
  }

  /** A class is assigned exactly when some key resolves to it, and it keeps the value of the last such key. */
  lemma {:induction false} LastKeyWins<V>(ts: seq<Target<V>>, c: string) returns (i: int)
    ensures c in AssignAll(ts) <==> 0 <= i
    ensures 0 <= i ==> i < |ts| && ts[i].vnClass == Some(c) && AssignAll(ts)[c] == ts[i].value
    ensures forall j :: 0 <= j < |ts| && i < j ==> ts[j].vnClass != Some(c)
  {
    i := -1;
    if ts != [] {
      var n := |ts| - 1;
      if ts[n].vnClass == Some(c) {
        i := n;
      } else {
        i := LastKeyWins(ts[..n], c);
        forall j | 0 <= j < |ts| && i < j ensures ts[j].vnClass != Some(c) {
          if j < n { assert ts[..n][j] == ts[j]; }
        }
      }
    }
  }

  lemma AssignedAreClasses<V>(source: Source, classes: seq<string>, es: seq<Entry<V>>)
    ensures forall c :: c in Assign(source, classes, es) ==> c in classes
  {
    var ts := Targets(source, classes, es);
    forall c | c in AssignAll(ts) ensures c in classes {
      var i := LastKeyWins(ts, c);
    }
  }

  datatype Unresolved = Unresolved(source: Source, roleset: string, key: string)

  function Missing<V>(source: Source, classes: seq<string>, roleset: string, es: seq<Entry<V>>): seq<Unresolved> {
    if es == [] then []
    else
      var n := |es| - 1;
      Missing(source, classes, roleset, es[..n])
      + if Resolve(source, classes, es[n].key).None? then [Unresolved(source, roleset, es[n].key)] else []
  }

  /** The unresolved keys are recorded, and nothing else. */
  lemma {:induction false} MissingMeaning<V>(source: Source, classes: seq<string>, roleset: string, es: seq<Entry<V>>,
                                             u: Unresolved)
    ensures u in Missing(source, classes, roleset, es) <==>
            && u.source == source && u.roleset == roleset && Resolve(source, classes, u.key).None?
            && HasKey(es, u.key)
  {
    if es != [] {
      MissingMeaning(source, classes, roleset, es[..|es| - 1], u);
      HasKeyLast(es, u.key);
    }
  }

  ghost predicate HasKey<V>(es: seq<Entry<V>>, key: string) { exists i :: 0 <= i < |es| && es[i].key == key }

  lemma HasKeyLast<V>(es: seq<Entry<V>>, key: string)
    requires es != []
    ensures HasKey(es, key) <==> HasKey(es[..|es| - 1], key) || es[|es| - 1].key == key
  {
    if i :| 0 <= i < |es| - 1 && es[i].key == key {
      assert es[..|es| - 1][i].key == key;
    }
  }

  function LookupKey(source: Source, index: map<string, string>, key: string): Option<string> {
    if source.PbVn? then Get(index, key)
    else
      var base := match LastDash(key)
                  case Some(k) => key[..k]
                  case None => key;
      if base in index then Some(index[base]) else Get(index, key)
  }

  function Get(index: map<string, string>, key: string): Option<string> {
    if key in index then Some(index[key]) else None
  }

  lemma LookupResolves(source: Source, classes: seq<string>, index: map<string, string>, key: string)
    requires IndexFor(index, classes)
    ensures LookupKey(source, index, key) == Resolve(source, classes, key)
  {
  }

  lemma AssignSnoc<V>(source: Source, classes: seq<string>, roleset: string, es: seq<Entry<V>>, i: nat)
    requires i < |es|
    ensures var c := Resolve(source, classes, es[i].key);
            && Assign(source, classes, es[..i + 1])
               == (var before := Assign(source, classes, es[..i]);
                   if c.Some? then before[c.value := es[i].value] else before)
            && Missing(source, classes, roleset, es[..i + 1])
               == Missing(source, classes, roleset, es[..i])
                  + (if c.None? then [Unresolved(source, roleset, es[i].key)] else [])
  {
    assert es[..i + 1][..i] == es[..i];
    assert Targets(source, classes, es[..i + 1])[..i] == Targets(source, classes, es[..i]);
  }

  /** The two mapping loops: assign each item in order and record the keys that resolve to nothing. */
  method AssignLoop<V>(source: Source, classes: seq<string>, index: map<string, string>, roleset: string,
                       es: seq<Entry<V>>, unresolved: seq<Unresolved>)
    returns (out: map<string, V>, unresolved': seq<Unresolved>)
    requires IndexFor(index, classes)
    ensures out == Assign(source, classes, es)
    ensures unresolved' == unresolved + Missing(source, classes, roleset, es)
  {
    out, unresolved' := map[], unresolved;
    for i := 0 to |es|
      invariant out == Assign(source, classes, es[..i])
      invariant unresolved' == unresolved + Missing(source, classes, roleset, es[..i])
    {
      AssignSnoc(source, classes, roleset, es, i);
      var c := LookupKey(source, index, es[i].key);
      LookupResolves(source, classes, index, es[i].key);
      if c.None? {
        unresolved' := unresolved' + [Unresolved(source, roleset, es[i].key)];
      } else {
        out := out[c.value := es[i].value];
      }
    }
    assert es[..|es|] == es;
  }

  // ----- the three tables

  type RawPb = seq<Entry<RawClasses>>
  type RawFn = seq<Entry<set<string>>>

  /** Items of the outer dictionary in key order, each inner dictionary in key order. */
  function DeepSort(raw: RawPb): RawPb {
    SortEntries(SortInner(raw))
  }

  function SortInner(raw: RawPb): (r: RawPb)
    ensures |r| == |raw|
  {
    seq(|raw|, i requires 0 <= i < |raw| => Entry(raw[i].key, SortEntries(raw[i].value)))
  }

  function PbTable(classes: seq<string>, es: RawPb): map<string, map<string, Roles>> {
    if es == [] then map[]
    else
      var n := |es| - 1;
      var mapped := Assign(PbVn, classes, es[n].value);
      var before := PbTable(classes, es[..n]);
      if mapped == map[] then before else before[es[n].key := mapped]
  }

  function PbMissing(classes: seq<string>, es: RawPb): seq<Unresolved> {
    if es == [] then []
    else
      var n := |es| - 1;
      PbMissing(classes, es[..n]) + Missing(PbVn, classes, es[n].key, es[n].value)
  }

  datatype Tables = Tables(
    pbToVn: map<string, map<string, Roles>>, vnToFn: map<string, set<string>>,
    pbToFn: map<string, set<string>>, unresolved: seq<Unresolved>)

  function PbToVn(classes: seq<string>, rolesets: set<string>, raw: RawPb): map<string, map<string, Roles>> {
    var all := PbTable(classes, DeepSort(raw));
    map r | r in all && r in rolesets && forall c :: c in all[r] ==> c in classes :: all[r]
  }

  function VnToFn(classes: seq<string>, frames: set<string>, raw: RawFn): map<string, set<string>> {
    var all := Assign(VnFn, classes, SortEntries(raw));
    map c | c in all && all[c] * frames != {} :: all[c] * frames
  }

  /** Frames reached from a roleset through some class. */
  function Reached(pbToVn: map<string, map<string, Roles>>, vnToFn: map<string, set<string>>, r: string): set<string>
    requires r in pbToVn
  {
    set c, f | c in pbToVn[r] && c in vnToFn && f in vnToFn[c] :: f
  }

  method ComposeLoop(pbToVn: map<string, map<string, Roles>>, vnToFn: map<string, set<string>>)
    returns (pbToFn: map<string, set<string>>)
    ensures forall r :: r in pbToFn <==> r in pbToVn && Reached(pbToVn, vnToFn, r) != {}
    ensures forall r :: r in pbToFn ==> pbToFn[r] == Reached(pbToVn, vnToFn, r)
  {
    pbToFn := map[];
    var todo := pbToVn.Keys;
    while todo != {}
      invariant todo <= pbToVn.Keys
      invariant forall r :: r in pbToFn <==> r in pbToVn && r !in todo && Reached(pbToVn, vnToFn, r) != {}
      invariant forall r :: r in pbToFn ==> pbToFn[r] == Reached(pbToVn, vnToFn, r)
      decreases |todo|
    {
      var r :| r in todo;
      var frames := FramesLoop(pbToVn[r].Keys, vnToFn);
      assert frames == Reached(pbToVn, vnToFn, r);
      if frames != {} {
        pbToFn := pbToFn[r := frames];
      }
      todo := todo - {r};
    }
  }

  method FramesLoop(classes: set<string>, vnToFn: map<string, set<string>>) returns (frames: set<string>)
    ensures forall f :: f in frames <==> exists c :: c in classes && c in vnToFn && f in vnToFn[c]
  {
    frames := {};
    var todo := classes;
    while todo != {}
      invariant todo <= classes
      invariant forall f :: f in frames <==> exists c :: c in classes - todo && c in vnToFn && f in vnToFn[c]
      decreases |todo|
    {
      var c :| c in todo;
      ghost var before, was := frames, todo;
      if c in vnToFn {
        frames := frames + vnToFn[c];
      }
      todo := todo - {c};
      forall f ensures f in frames <==> exists d :: d in classes - todo && d in vnToFn && f in vnToFn[d] {
        if f in before {
          var d :| d in classes - was && d in vnToFn && f in vnToFn[d];
          assert d in classes - todo;
        } else if f in frames {
          assert c in classes - todo;
        }
      }
    }
  }

  method PbLoop(classes: seq<string>, index: map<string, string>, es: RawPb)
    returns (table: map<string, map<string, Roles>>, unresolved: seq<Unresolved>)
    requires IndexFor(index, classes)
    ensures table == PbTable(classes, es) && unresolved == PbMissing(classes, es)
  {
    table, unresolved := map[], [];
    for i := 0 to |es|
      invariant table == PbTable(classes, es[..i]) && unresolved == PbMissing(classes, es[..i])
    {
      assert es[..i + 1][..i] == es[..i];
      var mapped;
      mapped, unresolved := AssignLoop(PbVn, classes, index, es[i].key, es[i].value, unresolved);
      if mapped != map[] {
        table := table[es[i].key := mapped];
      }
    }
    assert es[..|es|] == es;
  }

  /** `flatten_semlink`. */
  method Flatten(classes: seq<string>, rolesets: set<string>, frames: set<string>, rawPb: RawPb, rawFn: RawFn)
    returns (t: Tables)
    ensures t.pbToVn == PbToVn(classes, rolesets, rawPb)
    ensures t.vnToFn == VnToFn(classes, frames, rawFn)
    ensures t.unresolved == PbMissing(classes, DeepSort(rawPb)) + Missing(VnFn, classes, "", SortEntries(rawFn))
    ensures forall r :: r in t.pbToFn <==> r in t.pbToVn && Reached(t.pbToVn, t.vnToFn, r) != {}
    ensures forall r, f :: r in t.pbToFn ==>
              (f in t.pbToFn[r] <==> exists c :: c in t.pbToVn[r] && c in t.vnToFn && f in t.vnToFn[c])
  {
    var index := BuildIndex(classes);
    var table, unresolved := PbLoop(classes, index, DeepSort(rawPb));
    var fn;
    fn, unresolved := AssignLoop(VnFn, classes, index, "", SortEntries(rawFn), unresolved);
    var pbToVn := map r | r in table && r in rolesets && forall c :: c in table[r] ==> c in classes :: table[r];
    var vnToFn := map c | c in fn && fn[c] * frames != {} :: fn[c] * frames;
    var pbToFn := ComposeLoop(pbToVn, vnToFn);
    t := Tables(pbToVn, vnToFn, pbToFn, unresolved);
  }

  // ----- what the tables mean

  lemma {:induction false} PbTableEntries(classes: seq<string>, es: RawPb, r: string)
    ensures r in PbTable(classes, es) ==> PbTable(classes, es)[r] != map[]
    ensures r in PbTable(classes, es) ==> forall c :: c in PbTable(classes, es)[r] ==> c in classes
  {
    if es != [] {
      var n := |es| - 1;
      PbTableEntries(classes, es[..n], r);
      AssignedAreClasses(PbVn, classes, es[n].value);
    }
  }

  /** No dangling endpoint and no empty entry in any of the three tables. */
  lemma EndpointsExist(classes: seq<string>, rolesets: set<string>, frames: set<string>, rawPb: RawPb, rawFn: RawFn)
    ensures var pb, fn := PbToVn(classes, rolesets, rawPb), VnToFn(classes, frames, rawFn);
            && (forall r :: r in pb ==> r in rolesets && pb[r] != map[] && forall c :: c in pb[r] ==> c in classes)
            && (forall c :: c in fn ==> c in classes && fn[c] != {} && fn[c] <= frames)
            && (forall r :: r in pb ==> Reached(pb, fn, r) <= frames)
            && pb.Keys == PbTable(classes, DeepSort(rawPb)).Keys * rolesets
  {
    var all := PbTable(classes, DeepSort(rawPb));
    forall r | r in all ensures all[r] != map[] && forall c :: c in all[r] ==> c in classes {
      PbTableEntries(classes, DeepSort(rawPb), r);
    }
    AssignedAreClasses(VnFn, classes, SortEntries(rawFn));
  }

  /** Assigning in key order, a class keeps the value of the greatest key that resolves to it. */
  lemma GreatestAssigned<V>(source: Source, classes: seq<string>, raw: seq<Entry<V>>, c: string, e: Entry<V>)
    requires DistinctKeys(raw) && e in raw && Resolve(source, classes, e.key) == Some(c)
    requires forall x :: x in raw && Resolve(source, classes, x.key) == Some(c) ==>
               x.key == e.key || Precedes(x.key, e.key)
    ensures c in Assign(source, classes, SortEntries(raw))
    ensures Assign(source, classes, SortEntries(raw))[c] == e.value
  {
    var es := SortEntries(raw);
    SortMember(raw, e);
    SortAscending(raw);
    var i :| 0 <= i < |es| && es[i] == e;
    forall j | i < j < |es| ensures Resolve(source, classes, es[j].key) != Some(c) {
      SortMember(raw, es[j]);
      assert Less(e.key, es[j].key);
      Trichotomy(e.key, es[j].key);
      LessIsPrecedes(es[j].key, e.key);
    }
    var ts := Targets(source, classes, es);
    var k := LastKeyWins(ts, c);
    assert ts[i].vnClass == Some(c);
    assert k == i;
  }

  lemma AssignedHasKey<V>(source: Source, classes: seq<string>, raw: seq<Entry<V>>, c: string)
    ensures c in Assign(source, classes, SortEntries(raw)) <==>
            exists e :: e in raw && Resolve(source, classes, e.key) == Some(c)
  {
    var es := SortEntries(raw);
    var ts := Targets(source, classes, es);
    var k := LastKeyWins(ts, c);
    if 0 <= k {
      SortMember(raw, es[k]);
    }
    forall e | e in raw && Resolve(source, classes, e.key) == Some(c) ensures 0 <= k {
      SortMember(raw, e);
      var i :| 0 <= i < |es| && es[i] == e;
      assert ts[i].vnClass == Some(c);
    }
  }

  /** Frames of a class: those of the greatest raw key that resolves to it, as far as they are known frames. */
  lemma GreatestKeyWins(classes: seq<string>, frames: set<string>, raw: RawFn, c: string, e: Entry<set<string>>)
    requires DistinctKeys(raw) && e in raw && FnResolve(classes, e.key) == Some(c)
    requires forall x :: x in raw && FnResolve(classes, x.key) == Some(c) ==> x.key == e.key || Precedes(x.key, e.key)
    ensures c in VnToFn(classes, frames, raw) <==> e.value * frames != {}
    ensures c in VnToFn(classes, frames, raw) ==> VnToFn(classes, frames, raw)[c] == e.value * frames
  {
    GreatestAssigned(VnFn, classes, raw, c, e);
  }

  lemma {:induction false} PbTableKeys(classes: seq<string>, es: RawPb, r: string)
    requires r in PbTable(classes, es)
    ensures exists i :: 0 <= i < |es| && es[i].key == r
  {
    var n := |es| - 1;
    if es[n].key != r {
      PbTableKeys(classes, es[..n], r);
      var i :| 0 <= i < n && es[..n][i].key == r;
      assert es[i].key == r;
    }
  }

  lemma {:induction false} PbTableAt(classes: seq<string>, es: RawPb, i: nat)
    requires DistinctKeys(es) && i < |es|
    ensures var mapped := Assign(PbVn, classes, es[i].value);
            && (es[i].key in PbTable(classes, es) <==> mapped != map[])
            && (mapped != map[] ==> PbTable(classes, es)[es[i].key] == mapped)
  {
    var n := |es| - 1;
    if i < n {
      assert es[..n][i] == es[i];
      PbTableAt(classes, es[..n], i);
    } else if es[n].key in PbTable(classes, es[..n]) {
      PbTableKeys(classes, es[..n], es[n].key);
      assert false;
    }
  }

  /** The sorted entry of a roleset is where the raw entry went. */
  lemma DeepSortHas(raw: RawPb, e: Entry<RawClasses>) returns (i: nat)
    requires DistinctKeys(raw) && e in raw
    ensures DistinctKeys(DeepSort(raw))
    ensures i < |DeepSort(raw)| && DeepSort(raw)[i] == Entry(e.key, SortEntries(e.value))
  {
    var x := Entry(e.key, SortEntries(e.value));
    InnerKeysDistinct(raw);
    SortInnerMember(raw, x);
    SortMember(SortInner(raw), x);
    AscendingDistinct(SortInner(raw));
    i :| 0 <= i < |DeepSort(raw)| && DeepSort(raw)[i] == x;
  }

  lemma AscendingDistinct<V>(raw: seq<Entry<V>>)
    requires DistinctKeys(raw)
    ensures DistinctKeys(SortEntries(raw))
  {
    var es := SortEntries(raw);
    SortAscending(raw);
    forall i, j | 0 <= i < j < |es| ensures es[i].key != es[j].key {
      Trichotomy(es[i].key, es[i].key);
    }
  }

  /**
   Classes of a roleset. A known roleset with a raw entry is in the table exactly when some key of that
   entry resolves; it then has the classes its keys resolve to.
   */
  lemma PbToVnMeaning(classes: seq<string>, rolesets: set<string>, raw: RawPb, e: Entry<RawClasses>)
    requires DistinctKeys(raw) && e in raw
    ensures var pb := PbToVn(classes, rolesets, raw);
            && (e.key in pb <==> e.key in rolesets && exists x :: x in e.value && PbResolve(classes, x.key).Some?)
            && (e.key in pb ==>
                  && pb[e.key] == Assign(PbVn, classes, SortEntries(e.value))
                  && forall c :: c in pb[e.key] <==> exists x :: x in e.value && PbResolve(classes, x.key) == Some(c))
  {
    var pb, es := PbToVn(classes, rolesets, raw), DeepSort(raw);
    var mapped := Assign(PbVn, classes, SortEntries(e.value));
    var i := DeepSortHas(raw, e);
    PbTableAt(classes, es, i);
    PbTableEntries(classes, es, e.key);
    forall c ensures c in mapped <==> exists x :: x in e.value && PbResolve(classes, x.key) == Some(c) {
      AssignedHasKey(PbVn, classes, e.value, c);
    }
    forall x | x in e.value && PbResolve(classes, x.key).Some? ensures PbResolve(classes, x.key).value in mapped {
    }
    if mapped != map[] {
      var c :| c in mapped;
      var x :| x in e.value && PbResolve(classes, x.key) == Some(c);
    }
  }

  /** A roleset without a raw entry is not in the table. */
  lemma PbToVnKeys(classes: seq<string>, rolesets: set<string>, raw: RawPb, r: string)
    requires r in PbToVn(classes, rolesets, raw)
    ensures r in rolesets && exists e :: e in raw && e.key == r
  {
    var es := DeepSort(raw);
    PbTableKeys(classes, es, r);
    var i :| 0 <= i < |es| && es[i].key == r;
    SortMember(SortInner(raw), es[i]);
    SortInnerMember(raw, es[i]);
  }

  /** The roles of a class are those of the greatest key of the roleset that resolves to it. */
  lemma GreatestRolesWin(classes: seq<string>, rolesets: set<string>, raw: RawPb, e: Entry<RawClasses>, c: string,
                         x: Entry<Roles>)
    requires DistinctKeys(raw) && e in raw && e.key in rolesets && DistinctKeys(e.value)
    requires x in e.value && PbResolve(classes, x.key) == Some(c)
    requires forall y :: y in e.value && PbResolve(classes, y.key) == Some(c) ==>
               y.key == x.key || Precedes(y.key, x.key)
    ensures var pb := PbToVn(classes, rolesets, raw);
            e.key in pb && c in pb[e.key] && pb[e.key][c] == x.value
  {
    PbToVnMeaning(classes, rolesets, raw, e);
    GreatestAssigned(PbVn, classes, e.value, c, x);
  }

  // ----- insertion order

  /** The same dictionary of dictionaries, with items listed in another order. */
  ghost predicate SameMapping(raw: RawPb, raw': RawPb) {
    && DistinctKeys(raw) && DistinctKeys(raw')
    && (forall e :: e in raw ==> DistinctKeys(e.value))
    && (forall e :: e in raw' ==> DistinctKeys(e.value))
    && (forall e :: e in raw ==> HasTwin(e, raw'))
    && (forall e :: e in raw' ==> HasTwin(e, raw))
  }

  ghost predicate HasTwin(e: Entry<RawClasses>, raw: RawPb) {
    exists e' :: e' in raw && e'.key == e.key && forall x :: x in e.value <==> x in e'.value
  }

  lemma SortInnerMember(raw: RawPb, x: Entry<RawClasses>)
    ensures x in SortInner(raw) <==> exists e :: e in raw && x == Entry(e.key, SortEntries(e.value))
  {
    if x in SortInner(raw) {
      var i :| 0 <= i < |raw| && SortInner(raw)[i] == x;
      assert raw[i] in raw;
    }
    if e :| e in raw && x == Entry(e.key, SortEntries(e.value)) {
      var i :| 0 <= i < |raw| && raw[i] == e;
      assert SortInner(raw)[i] == x;
    }
  }

  lemma TwinSorted(raw: RawPb, raw': RawPb, x: Entry<RawClasses>)
    requires SameMapping(raw, raw') && x in SortInner(raw)
    ensures x in SortInner(raw')
  {
    SortInnerMember(raw, x);
    var e :| e in raw && x == Entry(e.key, SortEntries(e.value));
    assert HasTwin(e, raw');
    var e' :| e' in raw' && e'.key == e.key && forall y :: y in e.value <==> y in e'.value;
    SortIgnoresOrder(e.value, e'.value);
    SortInnerMember(raw', x);
  }

  lemma InnerKeysDistinct(raw: RawPb)
    requires DistinctKeys(raw)
    ensures DistinctKeys(SortInner(raw))
  {
    forall i, j | 0 <= i < j < |raw| ensures SortInner(raw)[i].key != SortInner(raw)[j].key {
      assert raw[i].key != raw[j].key;
    }
  }

  /** The tables and the unresolved list do not depend on the insertion order of the raw mappings. */
  lemma OrderIrrelevant(raw: RawPb, raw': RawPb, fn: RawFn, fn': RawFn)
    requires SameMapping(raw, raw')
    requires DistinctKeys(fn) && DistinctKeys(fn') && forall x :: x in fn <==> x in fn'
    ensures DeepSort(raw) == DeepSort(raw') && SortEntries(fn) == SortEntries(fn')
    ensures forall classes, rolesets :: PbToVn(classes, rolesets, raw) == PbToVn(classes, rolesets, raw')
    ensures forall classes, frames :: VnToFn(classes, frames, fn) == VnToFn(classes, frames, fn')
  {
    InnerKeysDistinct(raw);
    InnerKeysDistinct(raw');
    forall x ensures x in SortInner(raw) <==> x in SortInner(raw') {
      if x in SortInner(raw) { TwinSorted(raw, raw', x); }
      if x in SortInner(raw') { TwinSorted(raw', raw, x); }
    }
    SortIgnoresOrder(SortInner(raw), SortInner(raw'));
    SortIgnoresOrder(fn, fn');
  }
}

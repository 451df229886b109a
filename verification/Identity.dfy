/**
 Content identities: canonical JSON text, hashed (the shared/identity.py template inside
 scripts/scaffold_polymath_v4.py). The hash is a parameter; where two ids are compared it
 is assumed to be injective.
 */
module Identity {
  import opened Finite
  import opened Lex
  import opened Json

  /** A dictionary never repeats a key, at any depth. */
  ghost predicate WellFormed<N>(v: Json<N>) {
    match v
    case Arr(es) => forall i :: 0 <= i < |es| ==> WellFormed(es[i])
    case Obj(ms) => DistinctKeys(ms) && forall i :: 0 <= i < |ms| ==> WellFormed(ms[i].value)
    case _ => true
  }

  /** Equality of JSON values: member order is irrelevant. */
  ghost predicate Same<N>(v: Json<N>, w: Json<N>)
    decreases v
  {
    match (v, w)
    case (Arr(es), Arr(fs)) => |es| == |fs| && forall i :: 0 <= i < |es| ==> Same(es[i], fs[i])
    case (Obj(ms), Obj(ns)) => |ms| == |ns| && forall i :: 0 <= i < |ms| ==> HasMember(ms[i], ns)
    case (Arr(_), _) => false
    case (Obj(_), _) => false
    case _ => v == w
  }

  ghost predicate HasMember<N>(m: Entry<Json<N>>, ns: seq<Entry<Json<N>>>)
    decreases m
  {
    exists j :: 0 <= j < |ns| && ns[j].key == m.key && Same(m.value, ns[j].value)
  }

  /** `sort_keys=True`: members sorted by key at every depth. */
  function Normal<N>(v: Json<N>): Json<N>
    decreases v, 0
  {
    match v
    case Arr(es) => Arr(seq(|es|, i requires 0 <= i < |es| => Normal(es[i])))
    case Obj(ms) => Obj(SortEntries(NormalMembers(ms)))
    case _ => v
  }

  function NormalMembers<N>(ms: seq<Entry<Json<N>>>): (r: seq<Entry<Json<N>>>)
    ensures |r| == |ms|
    decreases ms, 1
  {
    seq(|ms|, i requires 0 <= i < |ms| => Entry(ms[i].key, Normal(ms[i].value)))
  }

  /** `canonicalize`. */
  function Canonical<N>(f: Format<N>, v: Json<N>): string { Emit(f, Normal(v)) }

  // ----- normal forms decide equality

  lemma NormalMembersDistinct<N>(ms: seq<Entry<Json<N>>>)
    requires DistinctKeys(ms)
    ensures DistinctKeys(NormalMembers(ms)) && Distinct(NormalMembers(ms))
  {
    var a := NormalMembers(ms);
    forall i, j | 0 <= i < j < |a| ensures a[i].key != a[j].key {
      assert ms[i].key != ms[j].key;
    }
  }

  /** Equal-length member lists without repeated keys: inclusion one way is equality after sorting. */
  lemma IncludedThenSortedEqual<N>(a: seq<Entry<Json<N>>>, b: seq<Entry<Json<N>>>)
    requires DistinctKeys(a) && DistinctKeys(b) && Distinct(a) && Distinct(b) && |a| == |b|
    requires forall x :: x in a ==> x in b
    ensures SortEntries(a) == SortEntries(b)
  {
    DistinctCard(a);
    DistinctCard(b);
    assert Elements(a) <= Elements(b);
    SubsetCard(Elements(a), Elements(b));
    forall x ensures x in a <==> x in b {
      assert x in Elements(a) <==> x in Elements(b);
    }
    SortIgnoresOrder(a, b);
  }

  lemma SortedEqualThenIncluded<N>(a: seq<Entry<Json<N>>>, b: seq<Entry<Json<N>>>, i: nat) returns (j: nat)
    requires SortEntries(a) == SortEntries(b) && i < |a|
    ensures j < |b| && b[j] == a[i]
  {
    SortMember(a, a[i]);
    SortMember(b, a[i]);
    j :| 0 <= j < |b| && b[j] == a[i];
  }

  lemma {:induction false} NormalDecidesSame<N>(v: Json<N>, w: Json<N>)
    requires WellFormed(v) && WellFormed(w)
    ensures Normal(v) == Normal(w) <==> Same(v, w)
    decreases v, 1
  {
    match (v, w)
    case (Arr(es), Arr(fs)) =>
      NormalDecidesSameElems(es, fs);
    case (Obj(ms), Obj(ns)) =>
      if Same(v, w) { SameThenNormal(ms, ns); }
      if Normal(v) == Normal(w) { NormalThenSame(ms, ns); }
    case _ =>
  }

  lemma {:induction false} NormalDecidesSameElems<N>(es: seq<Json<N>>, fs: seq<Json<N>>)
    requires WellFormed(Arr(es)) && WellFormed(Arr(fs))
    ensures Normal(Arr(es)) == Normal(Arr(fs)) <==> Same(Arr(es), Arr(fs))
    decreases es, 0
  {
    var n, m := Normal(Arr(es)).elems, Normal(Arr(fs)).elems;
    if |es| == |fs| {
      forall i | 0 <= i < |es| ensures n[i] == m[i] <==> Same(es[i], fs[i]) {
        assert WellFormed(es[i]) && WellFormed(fs[i]);
        NormalDecidesSame(es[i], fs[i]);
      }
    }
  }

  lemma {:induction false} SameThenNormal<N>(ms: seq<Entry<Json<N>>>, ns: seq<Entry<Json<N>>>)
    requires WellFormed(Obj(ms)) && WellFormed(Obj(ns)) && Same(Obj(ms), Obj(ns))
    ensures Normal(Obj(ms)) == Normal(Obj(ns))
    decreases ms, 0
  {
    var a, b := NormalMembers(ms), NormalMembers(ns);
    NormalMembersDistinct(ms);
    NormalMembersDistinct(ns);
    forall x | x in a ensures x in b {
      var i :| 0 <= i < |a| && a[i] == x;
      assert HasMember(ms[i], ns);
      var j :| 0 <= j < |ns| && ns[j].key == ms[i].key && Same(ms[i].value, ns[j].value);
      NormalDecidesSame(ms[i].value, ns[j].value);
      assert b[j] == x;
    }
    IncludedThenSortedEqual(a, b);
  }

  lemma {:induction false} NormalThenSame<N>(ms: seq<Entry<Json<N>>>, ns: seq<Entry<Json<N>>>)
    requires WellFormed(Obj(ms)) && WellFormed(Obj(ns)) && Normal(Obj(ms)) == Normal(Obj(ns))
    ensures Same(Obj(ms), Obj(ns))
    decreases ms, 0
  {
    var a, b := NormalMembers(ms), NormalMembers(ns);
    assert |SortEntries(a)| == |SortEntries(b)|;
    forall i | 0 <= i < |ms| ensures HasMember(ms[i], ns) {
      var j := SortedEqualThenIncluded(a, b, i);
      assert a[i] == Entry(ms[i].key, Normal(ms[i].value)) && b[j] == Entry(ns[j].key, Normal(ns[j].value));
      NormalDecidesSame(ms[i].value, ns[j].value);
    }
  }

  /** Members stand in code-point order of their keys, at every depth. */
  ghost predicate KeySorted<N>(v: Json<N>) {
    match v
    case Arr(es) => forall i :: 0 <= i < |es| ==> KeySorted(es[i])
    case Obj(ms) =>
      && (forall i, j :: 0 <= i < j < |ms| ==> Precedes(ms[i].key, ms[j].key))
      && forall i :: 0 <= i < |ms| ==> KeySorted(ms[i].value)
    case _ => true
  }

  /** The normal form is the same value with its keys sorted. */
  lemma {:induction false} NormalIsKeySorted<N>(v: Json<N>)
    requires WellFormed(v)
    ensures KeySorted(Normal(v)) && Same(v, Normal(v))
    decreases v, 1
  {
    match v
    case Arr(es) =>
      forall i | 0 <= i < |es| ensures KeySorted(Normal(es[i])) && Same(es[i], Normal(es[i])) {
        NormalIsKeySorted(es[i]);
      }
    case Obj(ms) =>
      NormalMembersSorted(ms);
    case _ =>
  }

  lemma {:induction false} NormalMembersSorted<N>(ms: seq<Entry<Json<N>>>)
    requires WellFormed(Obj(ms))
    ensures KeySorted(Normal(Obj(ms))) && Same(Obj(ms), Normal(Obj(ms)))
    decreases ms, 0
  {
    var a := NormalMembers(ms);
    var b := SortEntries(a);
    NormalMembersDistinct(ms);
    SortAscending(a);
    forall i, j | 0 <= i < j < |b| ensures Precedes(b[i].key, b[j].key) {
      LessIsPrecedes(b[i].key, b[j].key);
    }
    forall j | 0 <= j < |b| ensures KeySorted(b[j].value) {
      SortMember(a, b[j]);
      var i :| 0 <= i < |a| && a[i] == b[j];
      NormalIsKeySorted(ms[i].value);
    }
    forall i | 0 <= i < |ms| ensures HasMember(ms[i], b) {
      SortMember(a, a[i]);
      var j :| 0 <= j < |b| && b[j] == a[i];
      NormalIsKeySorted(ms[i].value);
    }
  }

  /** Decoding canonical text recovers the value with its keys in code-point order, and nothing is left. */
  lemma CanonicalRoundTrip<N(!new)>(f: Format<N>, v: Json<N>)
    requires Sound(f)
    ensures Decode(f, Canonical(f, v)) == Ok(Normal(v), "")
    ensures WellFormed(v) ==> KeySorted(Normal(v)) && Same(v, Normal(v))
  {
    DecodeEmit(f, Normal(v), "");
    assert Emit(f, Normal(v)) + "" == Emit(f, Normal(v));
    if WellFormed(v) { NormalIsKeySorted(v); }
  }

  /** Two values share their canonical text exactly when they are the same JSON value. */
  lemma CanonicalIffSame<N(!new)>(f: Format<N>, v: Json<N>, w: Json<N>)
    requires Sound(f) && WellFormed(v) && WellFormed(w)
    ensures Canonical(f, v) == Canonical(f, w) <==> Same(v, w)
  {
    CanonicalRoundTrip(f, v);
    CanonicalRoundTrip(f, w);
    NormalDecidesSame(v, w);
  }

  // ----- identities

  ghost predicate Injective(hash: string -> string) {
    forall x, y :: hash(x) == hash(y) ==> x == y
  }

  function ContentHash<N>(f: Format<N>, hash: string -> string, v: Json<N>): string { hash(Canonical(f, v)) }

  lemma HashIffSame<N(!new)>(f: Format<N>, hash: string -> string, v: Json<N>, w: Json<N>)
    requires Sound(f) && Injective(hash) && WellFormed(v) && WellFormed(w)
    ensures ContentHash(f, hash, v) == ContentHash(f, hash, w) <==> Same(v, w)
  {
    CanonicalIffSame(f, v, w);
  }

  function FactRecord<N>(relation: string, subject: string, target: string, qualifiers: Json<N>): Json<N> {
    Obj([Entry("p", Str(relation)), Entry("s", Str(subject)), Entry("o", Str(target)), Entry("q", qualifiers)])
  }

  function FactId<N>(f: Format<N>, hash: string -> string, p: string, s: string, o: string, q: Json<N>): string {
    "fact_" + ContentHash(f, hash, FactRecord(p, s, o, q))
  }

  function EvidenceRecord<N>(fact: string, doc: string, chunk: string, offsets: Json<N>, rule: string): Json<N> {
    Obj([Entry("f", Str(fact)), Entry("d", Str(doc)), Entry("c", Str(chunk)), Entry("o", offsets),
         Entry("r", Str(rule))])
  }

  function EvidenceId<N>(f: Format<N>, hash: string -> string,
                         fact: string, doc: string, chunk: string, offsets: Json<N>, rule: string): string
  {
    "ev_" + ContentHash(f, hash, EvidenceRecord(fact, doc, chunk, offsets, rule))
  }

  /** A knowledge-base id that is absent or empty falls back to the lower-cased surface. */
  function EntityRecord<N>(lower: string -> string, core: string, surface: string, kb: Option<string>): Json<N> {
    if kb.Some? && kb.value != "" then Obj([Entry("core", Str(core)), Entry("kb", Str(kb.value))])
    else Obj([Entry("core", Str(core)), Entry("surface", Str(lower(surface)))])
  }

  function EntityId<N>(f: Format<N>, hash: string -> string, lower: string -> string,
                       core: string, surface: string, kb: Option<string>): string
  {
    "ent_" + ContentHash(f, hash, EntityRecord<N>(lower, core, surface, kb))
  }

  function ChunkRecord<N>(doc: string, index: N, text: string): Json<N> {
    Obj([Entry("d", Str(doc)), Entry("i", Num(index)), Entry("t", Str(text))])
  }

  function ChunkId<N>(f: Format<N>, hash: string -> string, doc: string, index: N, text: string): string {
    "chunk_" + ContentHash(f, hash, ChunkRecord(doc, index, text))
  }

  // ----- the hashed texts

  /** Fields of a record as the encoder writes them: quoted key, colon, text, with commas between. */
  function Fields(fs: seq<(string, string)>): string {
    if fs == [] then ""
    else
      var first := "\"" + fs[0].0 + "\":" + fs[0].1;
      if |fs| == 1 then first else first + "," + Fields(fs[1..])
  }

  predicate PlainKey(key: string) {
    forall i :: 0 <= i < |key| ==> key[i] >= ' ' && key[i] != '"' && key[i] != '\\'
  }

  lemma NormalMembersWithin<N>(ms: seq<Entry<Json<N>>>, ns: seq<Entry<Json<N>>>, x: Entry<Json<N>>)
    requires x in NormalMembers(ms) && forall y :: y in ms ==> y in ns
    ensures x in NormalMembers(ns)
  {
    var i :| 0 <= i < |ms| && NormalMembers(ms)[i] == x;
    assert ms[i] in ns;
    var j :| 0 <= j < |ns| && ns[j] == ms[i];
    assert NormalMembers(ns)[j] == x;
  }

  ghost predicate KeysAscend<N>(ms: seq<Entry<Json<N>>>) {
    forall i, j :: 0 <= i < j < |ms| ==> Less(ms[i].key, ms[j].key)
  }

  /** The text of a record, its members listed in key order. */
  lemma SortedRecord<N>(f: Format<N>, ms: seq<Entry<Json<N>>>, sorted: seq<Entry<Json<N>>>)
    requires DistinctKeys(ms) && KeysAscend(sorted) && forall x :: x in ms <==> x in sorted
    ensures Canonical(f, Obj(ms)) == "{" + EmitMembers(f, NormalMembers(sorted)) + "}"
  {
    NormalMembersDistinct(ms);
    var a, b := NormalMembers(ms), NormalMembers(sorted);
    forall x ensures x in a <==> x in b {
      if x in a { NormalMembersWithin(ms, sorted, x); }
      if x in b { NormalMembersWithin(sorted, ms, x); }
    }
    SortIs(a, b);
  }

  function Texts<N>(f: Format<N>, ms: seq<Entry<Json<N>>>): (r: seq<(string, string)>)
    ensures |r| == |ms|
  {
    seq(|ms|, i requires 0 <= i < |ms| => (ms[i].key, Canonical(f, ms[i].value)))
  }

  lemma {:induction false} MembersText<N>(f: Format<N>, ms: seq<Entry<Json<N>>>)
    requires forall i :: 0 <= i < |ms| ==> PlainKey(ms[i].key)
    ensures EmitMembers(f, NormalMembers(ms)) == Fields(Texts(f, ms))
  {
    if ms != [] {
      var rest := ms[1..];
      assert NormalMembers(ms)[1..] == NormalMembers(rest) && Texts(f, ms)[1..] == Texts(f, rest);
      MembersText(f, rest);
      QuotePlain(ms[0].key);
    }
  }

  /** The hashed text of a record whose members, in key order, are `sorted`. */
  lemma RecordText<N>(f: Format<N>, ms: seq<Entry<Json<N>>>, sorted: seq<Entry<Json<N>>>, fs: seq<(string, string)>)
    requires DistinctKeys(ms) && KeysAscend(sorted) && forall x :: x in ms <==> x in sorted
    requires forall i :: 0 <= i < |sorted| ==> PlainKey(sorted[i].key)
    requires Texts(f, sorted) == fs
    ensures Canonical(f, Obj(ms)) == "{" + Fields(fs) + "}"
  {
    SortedRecord(f, ms, sorted);
    MembersText(f, sorted);
  }

  lemma FactKeys<N>(p: string, s: string, o: string, q: Json<N>)
    ensures var ms := FactRecord(p, s, o, q).members;
            && |ms| == 4 && DistinctKeys(ms) && (forall i :: 0 <= i < 4 ==> ms[i].key == ["p", "s", "o", "q"][i])
            && forall x :: x in ms <==> x in [ms[2], ms[0], ms[3], ms[1]]
  {
  }

  /** The exact text behind a fact id. */
  lemma FactText<N>(f: Format<N>, hash: string -> string, p: string, s: string, o: string, q: Json<N>)
    ensures FactId(f, hash, p, s, o, q)
         == "fact_" + hash("{" + Fields([("o", Quote(o)), ("p", Quote(p)), ("q", Canonical(f, q)),
                                         ("s", Quote(s))]) + "}")
  {
    var ms := FactRecord(p, s, o, q).members;
    FactKeys(p, s, o, q);
    RecordText(f, ms, [ms[2], ms[0], ms[3], ms[1]],
               [("o", Quote(o)), ("p", Quote(p)), ("q", Canonical(f, q)), ("s", Quote(s))]);
  }

  /** The exact text behind an evidence id. */
  lemma EvidenceText<N>(f: Format<N>, hash: string -> string, fact: string, d: string, c: string, o: Json<N>, r: string)
    ensures EvidenceId(f, hash, fact, d, c, o, r)
         == "ev_" + hash("{" + Fields([("c", Quote(c)), ("d", Quote(d)), ("f", Quote(fact)), ("o", Canonical(f, o)),
                                       ("r", Quote(r))]) + "}")
  {
    var ms := EvidenceRecord(fact, d, c, o, r).members;
    EvidenceKeys(fact, d, c, o, r);
    RecordText(f, ms, [ms[2], ms[1], ms[0], ms[3], ms[4]],
               [("c", Quote(c)), ("d", Quote(d)), ("f", Quote(fact)), ("o", Canonical(f, o)), ("r", Quote(r))]);
  }

  /** The exact text behind an entity id: the knowledge-base id if there is one, else the lower-cased surface. */
  lemma EntityText<N>(f: Format<N>, hash: string -> string, lower: string -> string,
                      core: string, surface: string, kb: Option<string>)
    ensures EntityId(f, hash, lower, core, surface, kb)
         == "ent_" + hash("{" + Fields([("core", Quote(core)),
                                        if kb.None? || kb.value == "" then ("surface", Quote(lower(surface)))
                                        else ("kb", Quote(kb.value))]) + "}")
  {
    var ms := EntityRecord<N>(lower, core, surface, kb).members;
    RecordText(f, ms, ms, [("core", Quote(core)), if kb.None? || kb.value == "" then ("surface", Quote(lower(surface)))
                                                  else ("kb", Quote(kb.value))]);
  }

  /** The exact text behind a chunk id. */
  lemma ChunkText<N>(f: Format<N>, hash: string -> string, d: string, i: N, t: string)
    ensures ChunkId(f, hash, d, i, t)
         == "chunk_" + hash("{" + Fields([("d", Quote(d)), ("i", f.show(i)), ("t", Quote(t))]) + "}")
  {
    var ms := ChunkRecord(d, i, t).members;
    RecordText(f, ms, ms, [("d", Quote(d)), ("i", f.show(i)), ("t", Quote(t))]);
  }

  /** Records with the same keys in the same order are the same exactly when their fields are. */
  lemma SameAligned<N>(ms: seq<Entry<Json<N>>>, ns: seq<Entry<Json<N>>>)
    requires DistinctKeys(ns) && |ms| == |ns| && forall i :: 0 <= i < |ms| ==> ms[i].key == ns[i].key
    ensures Same(Obj(ms), Obj(ns)) <==> forall i :: 0 <= i < |ms| ==> Same(ms[i].value, ns[i].value)
  {
    if Same(Obj(ms), Obj(ns)) {
      forall i | 0 <= i < |ms| ensures Same(ms[i].value, ns[i].value) {
        assert HasMember(ms[i], ns);
        var j :| 0 <= j < |ns| && ns[j].key == ms[i].key && Same(ms[i].value, ns[j].value);
        assert j == i;
      }
    }
    if forall i :: 0 <= i < |ms| ==> Same(ms[i].value, ns[i].value) {
      forall i | 0 <= i < |ms| ensures HasMember(ms[i], ns) {
        assert Same(ms[i].value, ns[i].value);
      }
    }
  }

  lemma {:induction false} StripPrefix(p: string, x: string, y: string)
    ensures p + x == p + y <==> x == y
  {
    assert (p + x)[|p|..] == x && (p + y)[|p|..] == y;
  }

  /** Fields of two records with the same key layout agree pairwise. */
  ghost predicate FieldsAgree<N>(ms: seq<Entry<Json<N>>>, ns: seq<Entry<Json<N>>>)
    requires |ms| == |ns|
  {
    forall i :: 0 <= i < |ms| ==> Same(ms[i].value, ns[i].value)
  }

  lemma RecordIdentity<N(!new)>(f: Format<N>, hash: string -> string, prefix: string,
                                ms: seq<Entry<Json<N>>>, ns: seq<Entry<Json<N>>>)
    requires Sound(f) && Injective(hash) && |ms| == |ns| && DistinctKeys(ms)
    requires forall i :: 0 <= i < |ms| ==> ms[i].key == ns[i].key && WellFormed(ms[i].value) && WellFormed(ns[i].value)
    ensures prefix + ContentHash(f, hash, Obj(ms)) == prefix + ContentHash(f, hash, Obj(ns)) <==> FieldsAgree(ms, ns)
  {
    StripPrefix(prefix, ContentHash(f, hash, Obj(ms)), ContentHash(f, hash, Obj(ns)));
    assert DistinctKeys(ns) by {
      forall i, j | 0 <= i < j < |ns| ensures ns[i].key != ns[j].key {
        assert ms[i].key != ms[j].key;
      }
    }
    HashIffSame(f, hash, Obj(ms), Obj(ns));
    SameAligned(ms, ns);
  }

  lemma TextField<N>(ms: seq<Entry<Json<N>>>, ns: seq<Entry<Json<N>>>, i: nat)
    requires |ms| == |ns| && i < |ms| && ms[i].value.Str? && ns[i].value.Str?
    ensures Same(ms[i].value, ns[i].value) <==> ms[i].value == ns[i].value
  {
  }

  lemma FieldsOneByOne<N>(ms: seq<Entry<Json<N>>>, ns: seq<Entry<Json<N>>>)
    requires 4 <= |ms| == |ns| <= 5
    ensures FieldsAgree(ms, ns) <==>
            && Same(ms[0].value, ns[0].value) && Same(ms[1].value, ns[1].value) && Same(ms[2].value, ns[2].value)
            && Same(ms[3].value, ns[3].value) && (|ms| == 5 ==> Same(ms[4].value, ns[4].value))
  {
  }

  /** Two facts share an id exactly when predicate, subject, object and qualifiers agree. */
  lemma FactIdentity<N(!new)>(f: Format<N>, hash: string -> string, p: string, s: string, o: string, q: Json<N>,
                              p': string, s': string, o': string, q': Json<N>)
    requires Sound(f) && Injective(hash) && WellFormed(q) && WellFormed(q')
    ensures FactId(f, hash, p, s, o, q) == FactId(f, hash, p', s', o', q') <==>
            p == p' && s == s' && o == o' && Same(q, q')
  {
    var ms, ns := FactRecord(p, s, o, q).members, FactRecord(p', s', o', q').members;
    RecordIdentity(f, hash, "fact_", ms, ns);
    TextField(ms, ns, 0);
    TextField(ms, ns, 1);
    TextField(ms, ns, 2);
    FieldsOneByOne(ms, ns);
  }

  lemma EvidenceKeys<N>(fact: string, d: string, c: string, o: Json<N>, r: string)
    ensures var ms := EvidenceRecord(fact, d, c, o, r).members;
            && |ms| == 5 && DistinctKeys(ms) && (forall i :: 0 <= i < 5 ==> ms[i].key == ["f", "d", "c", "o", "r"][i])
            && forall x :: x in ms <==> x in [ms[2], ms[1], ms[0], ms[3], ms[4]]
  {
  }

  lemma EvidenceFields<N>(fact: string, d: string, c: string, o: Json<N>, r: string,
                          fact': string, d': string, c': string, o': Json<N>, r': string)
    ensures var ms, ns := EvidenceRecord(fact, d, c, o, r).members, EvidenceRecord(fact', d', c', o', r').members;
            FieldsAgree(ms, ns) <==> fact == fact' && d == d' && c == c' && Same(o, o') && r == r'
  {
    FieldsOneByOne(EvidenceRecord(fact, d, c, o, r).members, EvidenceRecord(fact', d', c', o', r').members);
  }

  lemma EvidenceIdentity<N(!new)>(f: Format<N>, hash: string -> string,
                                  fact: string, d: string, c: string, o: Json<N>, r: string,
                                  fact': string, d': string, c': string, o': Json<N>, r': string)
    requires Sound(f) && Injective(hash) && WellFormed(o) && WellFormed(o')
    ensures EvidenceId(f, hash, fact, d, c, o, r) == EvidenceId(f, hash, fact', d', c', o', r') <==>
            fact == fact' && d == d' && c == c' && Same(o, o') && r == r'
  {
    var ms, ns := EvidenceRecord(fact, d, c, o, r).members, EvidenceRecord(fact', d', c', o', r').members;
    EvidenceFields(fact, d, c, o, r, fact', d', c', o', r');
    EvidenceKeys(fact, d, c, o, r);
    EvidenceKeys(fact', d', c', o', r');
    RecordIdentity(f, hash, "ev_", ms, ns);
  }

  predicate Linked(kb: Option<string>) { kb.Some? && kb.value != "" }

  /**
   Linked entities are identified by type and knowledge-base id, the others by type and
   lower-cased surface; the two tiers never share an id.
   */
  lemma EntityIdentity<N(!new)>(f: Format<N>, hash: string -> string, lower: string -> string,
                       core: string, surface: string, kb: Option<string>,
                       core': string, surface': string, kb': Option<string>)
    requires Sound(f) && Injective(hash)
    ensures EntityId(f, hash, lower, core, surface, kb) == EntityId(f, hash, lower, core', surface', kb') <==>
            && core == core'
            && (Linked(kb) <==> Linked(kb'))
            && (if Linked(kb) then kb == kb' else lower(surface) == lower(surface'))
  {
    var ms := EntityRecord<N>(lower, core, surface, kb).members;
    var ns := EntityRecord<N>(lower, core', surface', kb').members;
    if Linked(kb) <==> Linked(kb') {
      RecordIdentity(f, hash, "ent_", ms, ns);
      TextField(ms, ns, 0);
      TextField(ms, ns, 1);
      assert FieldsAgree(ms, ns) <==> Same(ms[0].value, ns[0].value) && Same(ms[1].value, ns[1].value);
    } else {
      TiersDiffer(f, hash, ms, ns);
    }
  }

  lemma TiersDiffer<N(!new)>(f: Format<N>, hash: string -> string, ms: seq<Entry<Json<N>>>, ns: seq<Entry<Json<N>>>)
    requires Sound(f) && Injective(hash) && WellFormed(Obj(ms)) && WellFormed(Obj(ns))
    requires |ms| == |ns| == 2 && ms[1].key != ns[0].key && ms[1].key != ns[1].key
    ensures "ent_" + ContentHash(f, hash, Obj(ms)) != "ent_" + ContentHash(f, hash, Obj(ns))
  {
    StripPrefix("ent_", ContentHash(f, hash, Obj(ms)), ContentHash(f, hash, Obj(ns)));
    HashIffSame(f, hash, Obj(ms), Obj(ns));
    assert !HasMember(ms[1], ns);
  }

  lemma ChunkIdentity<N(!new)>(f: Format<N>, hash: string -> string, d: string, i: N, t: string,
                               d': string, i': N, t': string)
    requires Sound(f) && Injective(hash)
    ensures ChunkId(f, hash, d, i, t) == ChunkId(f, hash, d', i', t') <==> d == d' && i == i' && t == t'
  {
    var ms, ns := ChunkRecord(d, i, t).members, ChunkRecord(d', i', t').members;
    RecordIdentity(f, hash, "chunk_", ms, ns);
    TextField(ms, ns, 0);
    TextField(ms, ns, 2);
    assert FieldsAgree(ms, ns) <==> Same(ms[0].value, ns[0].value) && Same(ms[1].value, ns[1].value)
                                    && Same(ms[2].value, ns[2].value);
  }
}

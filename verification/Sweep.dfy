/**
 The orphan sweep of scripts/sweep_orphan_derivatives.py: graph nodes without a row are deleted
 in batches; derived artifacts whose supporting chunks are all gone are re-grounded on the
 document's child chunks, and deleted only when that is impossible.
 */
module Sweep {
  import opened Finite
  import opened Lex

  datatype Chunk = Chunk(doc: string, tier: string, index: int)
  datatype Artifact = Artifact(doc: string, support: seq<string>)

  type Chunks = map<string, Chunk>
  type Artifacts = map<string, Artifact>

  predicate Ungrounded(chunks: Chunks, a: Artifact) {
    a.support != [] && forall i :: 0 <= i < |a.support| ==> a.support[i] !in chunks
  }

  function Children(chunks: Chunks, doc: string): set<string> {
    set c | c in chunks && chunks[c].doc == doc && chunks[c].tier == "child"
  }

  /** `array_agg(chunk_id ORDER BY chunk_index)` per document; ties may come in any order. */
  ghost predicate IsAggregate(chunks: Chunks, agg: string -> seq<string>) {
    forall doc ::
      && Distinct(agg(doc))
      && (forall c :: c in agg(doc) <==> c in chunks && chunks[c].doc == doc && chunks[c].tier == "child")
      && ByIndex(chunks, agg(doc))
  }

  ghost predicate ByIndex(chunks: Chunks, ids: seq<string>) {
    forall i, j :: 0 <= i < j < |ids| && ids[i] in chunks && ids[j] in chunks ==>
      chunks[ids[i]].index <= chunks[ids[j]].index
  }

  function Stale(chunks: Chunks, t: Artifacts): set<string> {
    set k | k in t && Ungrounded(chunks, t[k])
  }

  predicate Repairable(chunks: Chunks, a: Artifact) { Children(chunks, a.doc) != {} }

  /** The UPDATE joins the aggregate, so documents without child chunks do not match. */
  function Regrounded(chunks: Chunks, agg: string -> seq<string>, t: Artifacts): Artifacts {
    map k | k in t ::
      if Ungrounded(chunks, t[k]) && Repairable(chunks, t[k]) then t[k].(support := agg(t[k].doc)) else t[k]
  }

  lemma ReGroundRepairs(chunks: Chunks, agg: string -> seq<string>, t: Artifacts, k: string)
    requires IsAggregate(chunks, agg) && k in t
    ensures Ungrounded(chunks, Regrounded(chunks, agg, t)[k]) <==> Ungrounded(chunks, t[k]) && !Repairable(chunks, t[k])
  {
    var doc := t[k].doc;
    if Repairable(chunks, t[k]) && Ungrounded(chunks, t[k]) {
      var c :| c in Children(chunks, doc);
      assert c in agg(doc);
      var i :| 0 <= i < |agg(doc)| && agg(doc)[i] == c;
      assert agg(doc)[i] in chunks;
    }
  }

  class Store {
    var artifacts: Artifacts
    var nodes: map<nat, string>

    constructor (artifacts: Artifacts, nodes: map<nat, string>)
      ensures this.artifacts == artifacts && this.nodes == nodes
    {
      this.artifacts, this.nodes := artifacts, nodes;
    }

    /** One artifact table of an executed sweep: count, re-ground, then delete what is still ungrounded. */
    method SweepArtifacts(chunks: Chunks, agg: string -> seq<string>)
      returns (stale: nat, regrounded: nat, deleted: nat)
      requires IsAggregate(chunks, agg)
      modifies this`artifacts
      ensures artifacts == Swept(chunks, agg, old(artifacts))
      ensures stale == |Stale(chunks, old(artifacts))| == regrounded + deleted
      ensures stale == |set k | k in old(artifacts) && Lost(chunks, old(artifacts)[k])|
      ensures deleted == |old(artifacts)| - |artifacts|
    {
      stale := |Stale(chunks, artifacts)|;
      StaleMeaning(chunks, artifacts);
      SweepCounts(chunks, agg, artifacts);
      regrounded := |Matched(chunks, artifacts)|;
      artifacts := Regrounded(chunks, agg, artifacts);
      var gone := Stale(chunks, artifacts);
      deleted := |gone|;
      artifacts := artifacts - gone;
    }

    /** The deletion loop over a list of ids. */
    method DeleteBatches(ids: seq<string>, batch: nat) returns (deleted: nat)
      requires batch >= 1
      modifies this`nodes
      ensures nodes == Without(old(nodes), Elements(ids)) && deleted == |old(nodes)| - |nodes|
    {
      ghost var start := nodes;
      deleted := 0;
      var i := 0;
      assert Without(start, Elements(ids[..0])) == start;
      while i < |ids|
        invariant 0 <= i <= |ids|
        invariant nodes == Without(start, Elements(ids[..i]))
        invariant deleted == |start| - |nodes|
      {
        var j := if i + batch < |ids| then i + batch else |ids|;
        var batchIds := set id | id in ids[i..j];
        var hit := set n | n in nodes && nodes[n] in batchIds;
        TakeTo(ids, i, j);
        WithoutMore(start, Elements(ids[..i]), batchIds);
        deleted := deleted + |hit|;
        nodes := nodes - hit;
        i := j;
      }
      assert ids[..|ids|] == ids;
    }

    /** Batched deletion of the graph nodes whose id has no live row; nodes without an id are kept. */
    method DeleteOrphans(live: set<string>, batch: nat) returns (deleted: nat)
      requires batch >= 1
      modifies this`nodes
      ensures nodes == KeepLive(old(nodes), live)
      ensures forall n :: n in nodes <==> n in old(nodes) && (old(nodes)[n] == "" || old(nodes)[n] in live)
      ensures forall n :: n in nodes ==> nodes[n] == old(nodes)[n]
      ensures deleted == |old(nodes)| - |nodes|
    {
      var ids := Sorted(Orphans(nodes, live));
      OrphansGone(nodes, live, ids);
      deleted := DeleteBatches(ids, batch);
    }
  }

  function Without(nodes: map<nat, string>, ids: set<string>): map<nat, string> {
    map n | n in nodes && nodes[n] !in ids :: nodes[n]
  }

  function KeepLive(nodes: map<nat, string>, live: set<string>): map<nat, string> {
    map n | n in nodes && (nodes[n] == "" || nodes[n] in live) :: nodes[n]
  }

  function Orphans(nodes: map<nat, string>, live: set<string>): set<string> {
    (set n | n in nodes && nodes[n] != "" :: nodes[n]) - live
  }

  lemma TakeTo(ids: seq<string>, i: nat, j: nat)
    requires i <= j <= |ids|
    ensures Elements(ids[..j]) == Elements(ids[..i]) + set id | id in ids[i..j]
  {
    assert ids[..j] == ids[..i] + ids[i..j];
  }

  lemma WithoutMore(start: map<nat, string>, a: set<string>, b: set<string>)
    ensures var now := Without(start, a); var hit := set n | n in now && now[n] in b;
            now - hit == Without(start, a + b) && |Without(start, a + b)| == |now| - |hit|
  {
    var now := Without(start, a);
    var hit := set n | n in now && now[n] in b;
    RemoveHit(now, hit);
    assert now - hit == Without(start, a + b);
  }

  lemma OrphansGone(start: map<nat, string>, live: set<string>, ids: seq<string>)
    requires ids == Sorted(Orphans(start, live))
    ensures Without(start, Elements(ids)) == KeepLive(start, live)
  {
    forall n | n in start ensures start[n] in Elements(ids) <==> start[n] != "" && start[n] !in live {
    }
  }

  lemma RemoveHit<K, V>(nodes: map<K, V>, hit: set<K>)
    requires hit <= nodes.Keys
    ensures |nodes - hit| == |nodes| - |hit|
  {
    assert (nodes - hit).Keys == nodes.Keys - hit;
    assert nodes.Keys == (nodes.Keys - hit) + hit;
    assert |nodes| == |nodes.Keys| && |nodes - hit| == |(nodes - hit).Keys|;
  }

  /** The artifact table after an executed sweep. */
  function Swept(chunks: Chunks, agg: string -> seq<string>, t: Artifacts): Artifacts {
    var r := Regrounded(chunks, agg, t);
    r - Stale(chunks, r)
  }

  /** Rows the UPDATE matches. */
  function Matched(chunks: Chunks, t: Artifacts): set<string> {
    set k | k in t && Ungrounded(chunks, t[k]) && Repairable(chunks, t[k])
  }

  lemma StaleSplits(chunks: Chunks, agg: string -> seq<string>, t: Artifacts)
    requires IsAggregate(chunks, agg)
    ensures Stale(chunks, t) == Matched(chunks, t) + Stale(chunks, Regrounded(chunks, agg, t))
    ensures Matched(chunks, t) !! Stale(chunks, Regrounded(chunks, agg, t))
  {
    var gone := Stale(chunks, Regrounded(chunks, agg, t));
    forall k | k in t ensures k in gone <==> Ungrounded(chunks, t[k]) && !Repairable(chunks, t[k]) {
      ReGroundRepairs(chunks, agg, t, k);
    }
  }

  lemma SweepCounts(chunks: Chunks, agg: string -> seq<string>, t: Artifacts)
    requires IsAggregate(chunks, agg)
    ensures var gone := Stale(chunks, Regrounded(chunks, agg, t));
            && |Stale(chunks, t)| == |Matched(chunks, t)| + |gone|
            && |Swept(chunks, agg, t)| == |t| - |gone|
  {
    var r := Regrounded(chunks, agg, t);
    StaleSplits(chunks, agg, t);
    RemoveHit(r, Stale(chunks, r));
    SameSize(t, r);
  }

  lemma SameSize(t: Artifacts, r: Artifacts)
    requires t.Keys == r.Keys
    ensures |t| == |r|
  {
    assert |t| == |t.Keys| && |r| == |r.Keys|;
  }

  /** All cited chunks are gone, though some were cited. */
  ghost predicate Lost(chunks: Chunks, a: Artifact) {
    a.support != [] && forall c :: c in a.support ==> c !in chunks
  }

  ghost predicate HasChild(chunks: Chunks, doc: string) {
    exists c :: c in chunks && chunks[c].doc == doc && chunks[c].tier == "child"
  }

  lemma LostIsUngrounded(chunks: Chunks, a: Artifact)
    ensures Lost(chunks, a) <==> Ungrounded(chunks, a)
    ensures HasChild(chunks, a.doc) <==> Repairable(chunks, a)
  {
    if Lost(chunks, a) {
      forall i | 0 <= i < |a.support| ensures a.support[i] !in chunks {
        assert a.support[i] in a.support;
      }
    }
    if Repairable(chunks, a) {
      var c :| c in Children(chunks, a.doc);
    }
    if c :| c in chunks && chunks[c].doc == a.doc && chunks[c].tier == "child" {
      assert c in Children(chunks, a.doc);
    }
  }

  lemma StaleMeaning(chunks: Chunks, t: Artifacts)
    ensures Stale(chunks, t) == set k | k in t && Lost(chunks, t[k])
  {
    forall k | k in t ensures Lost(chunks, t[k]) <==> Ungrounded(chunks, t[k]) {
      LostIsUngrounded(chunks, t[k]);
    }
  }

  /**
   What an executed sweep leaves: an artifact is gone exactly when all its cited chunks were and its
   document has no child chunk; otherwise such an artifact now cites exactly the child chunks of its
   document, by index; every other artifact is untouched.
   */
  lemma SweptMeaning(chunks: Chunks, agg: string -> seq<string>, t: Artifacts, k: string)
    requires IsAggregate(chunks, agg)
    ensures var after := Swept(chunks, agg, t);
            && (k in after <==> k in t && !(Lost(chunks, t[k]) && !HasChild(chunks, t[k].doc)))
            && (k in after && !Lost(chunks, t[k]) ==> after[k] == t[k])
            && (k in after && Lost(chunks, t[k]) ==>
                  && after[k].doc == t[k].doc && after[k].support == agg(t[k].doc) && after[k].support != []
                  && (forall c :: c in after[k].support <==>
                        c in chunks && chunks[c].doc == t[k].doc && chunks[c].tier == "child")
                  && ByIndex(chunks, after[k].support))
            && (k in after ==> !Lost(chunks, after[k]))
  {
    if k in t {
      LostIsUngrounded(chunks, t[k]);
      ReGroundRepairs(chunks, agg, t, k);
      var r := Regrounded(chunks, agg, t);
      LostIsUngrounded(chunks, r[k]);
      if Ungrounded(chunks, t[k]) && Repairable(chunks, t[k]) {
        var c :| c in Children(chunks, t[k].doc);
        assert c in agg(t[k].doc);
      }
    }
  }

  /** With unchanged chunks a second sweep finds nothing and changes nothing. */
  lemma SecondSweepIsIdle(chunks: Chunks, agg: string -> seq<string>, t: Artifacts)
    requires IsAggregate(chunks, agg)
    ensures Stale(chunks, Swept(chunks, agg, t)) == {}
    ensures Swept(chunks, agg, Swept(chunks, agg, t)) == Swept(chunks, agg, t)
  {
    var r, once := Regrounded(chunks, agg, t), Swept(chunks, agg, t);
    forall k | k in once ensures !Ungrounded(chunks, once[k]) {
      assert k in r && k !in Stale(chunks, r) && once[k] == r[k];
    }
    assert Regrounded(chunks, agg, once) == once;
    assert once - {} == once;
  }

  /** A document that still has a parent chunk, but no child chunk, loses its ungrounded artifact. */
  lemma ParentOnlyDocumentLosesArtifact()
    ensures var chunks: Chunks := map["p" := Chunk("d", "parent", 0)];
            var t: Artifacts := map["a" := Artifact("d", ["gone"])];
            IsAggregate(chunks, (doc: string) => []) && "a" !in Swept(chunks, (doc: string) => [], t)
  {
    var chunks: Chunks := map["p" := Chunk("d", "parent", 0)];
    var t: Artifacts := map["a" := Artifact("d", ["gone"])];
    forall doc ensures Children(chunks, doc) == {} {
    }
    assert Ungrounded(chunks, t["a"]);
    assert "a" in Stale(chunks, Regrounded(chunks, (doc: string) => [], t));
  }
}

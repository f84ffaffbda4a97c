/**
 * The streaming clusterer: each document joins the cluster `minOf` picks
 * when that cluster's key is below the radius, and otherwise founds a new
 * cluster with itself as medoid.
 */
module Clustering {
  import opened Common
  import opened Utils
  import opened Documents

  /** A cluster as a value: its medoid and its member map from id to document. */
  datatype ClusterState = ClusterState(medoid: Document, members: map<int, Document>)

  // ---------------------------------------------------------------------
  // The clusterer as a function of the documents
  // ---------------------------------------------------------------------

  /** The distances from each cluster's medoid to doc, in scan order. */
  function Distances(states: seq<ClusterState>, doc: Document): (ds: seq<Num>)
    ensures |ds| == |states|
    ensures forall k :: 0 <= k < |states| ==> ds[k] == DocDistance(states[k].medoid, doc)
  {
    Selected(states, (s: ClusterState) => DocDistance(s.medoid, doc))
  }

  /** Does doc join an existing cluster? */
  predicate Joins(states: seq<ClusterState>, doc: Document, radius: real) {
    states != [] && Below(Distances(states, doc)[FirstMaxIndex(Distances(states, doc))], radius)
  }

  /** One iteration of `streamCluster`. */
  function Step(states: seq<ClusterState>, doc: Document, radius: real): seq<ClusterState> {
    if Joins(states, doc, radius) then
      var k := FirstMaxIndex(Distances(states, doc));
      states[k := ClusterState(states[k].medoid, states[k].members[doc.docId := doc])]
    else
      states + [ClusterState(doc, map[])]
  }

  /** The clusters after streaming docs, in the order they were created. */
  function StreamClusterSpec(docs: seq<Document>, radius: real): seq<ClusterState>
    decreases |docs|
  {
    if docs == [] then []
    else Step(StreamClusterSpec(docs[..|docs| - 1], radius), docs[|docs| - 1], radius)
  }

  // ---------------------------------------------------------------------
  // Properties of one step
  // ---------------------------------------------------------------------

  /**
   * Because `minOf` keeps the largest key, a document joins exactly when its
   * distance to EVERY medoid is a number below the radius, and then it joins
   * the first cluster whose medoid is farthest.
   */
  lemma {:induction false} JoinRule(states: seq<ClusterState>, doc: Document, radius: real)
    ensures Joins(states, doc, radius) <==>
              states != [] && forall k :: 0 <= k < |states| ==> Below(DocDistance(states[k].medoid, doc), radius)
    ensures Joins(states, doc, radius) ==>
              var k := FirstMaxIndex(Distances(states, doc));
              && (forall j :: 0 <= j < |states| ==>
                    DocDistance(states[j].medoid, doc).value <= DocDistance(states[k].medoid, doc).value)
              && (forall j :: 0 <= j < k ==>
                    DocDistance(states[j].medoid, doc).value < DocDistance(states[k].medoid, doc).value)
  {
    if states != [] {
      var ds := Distances(states, doc);
      var k := FirstMaxIndex(ds);
      FirstMaxIndexIsFirstMax(ds);
      if Below(ds[k], radius) {
        forall j | 0 <= j < |states| ensures ds[j].Real? && ds[j].value <= ds[k].value {
          FirstMaxIsMaximum(ds, j);
        }
      }
    }
  }

  /** With no cluster yet, the document founds one. */
  lemma {:induction false} FirstDocumentFounds(doc: Document, radius: real)
    ensures Step([], doc, radius) == [ClusterState(doc, map[])]
  {
  }

  /**
   * A step adds at most one cluster, never changes a medoid, never removes
   * a member, and a new cluster has the document as medoid and no members.
   */
  lemma {:induction false} StepPreserves(states: seq<ClusterState>, doc: Document, radius: real)
    ensures var next := Step(states, doc, radius);
            && |states| <= |next| <= |states| + 1
            && (forall k :: 0 <= k < |states| ==>
                  next[k].medoid == states[k].medoid && states[k].members.Keys <= next[k].members.Keys)
            && (|next| == |states| + 1 ==> next[|states|] == ClusterState(doc, map[]))
            && (|next| == |states| <==> Joins(states, doc, radius))
  {
  }

  // ---------------------------------------------------------------------
  // Properties of the whole stream
  // ---------------------------------------------------------------------

  /** There are never more clusters than documents, and at least one once a document came. */
  lemma {:induction false} ClusterCount(docs: seq<Document>, radius: real)
    ensures |StreamClusterSpec(docs, radius)| <= |docs|
    ensures docs != [] ==> |StreamClusterSpec(docs, radius)| >= 1
    decreases |docs|
  {
    if docs != [] {
      ClusterCount(docs[..|docs| - 1], radius);
      StepPreserves(StreamClusterSpec(docs[..|docs| - 1], radius), docs[|docs| - 1], radius);
    }
  }

  /** Streaming more documents keeps every cluster's medoid and every member. */
  lemma {:induction false} StreamGrows(docs: seq<Document>, n: nat, radius: real)
    requires n <= |docs|
    ensures var before, after := StreamClusterSpec(docs[..n], radius), StreamClusterSpec(docs, radius);
            && |before| <= |after|
            && forall k :: 0 <= k < |before| ==>
                 after[k].medoid == before[k].medoid && before[k].members.Keys <= after[k].members.Keys
    decreases |docs| - n
  {
    if n == |docs| {
      assert docs[..n] == docs;
    } else {
      var init := docs[..|docs| - 1];
      assert init[..n] == docs[..n];
      StreamGrows(init, n, radius);
      StepPreserves(StreamClusterSpec(init, radius), docs[|docs| - 1], radius);
    }
  }

  /** Every document as the medoid of its own empty cluster. */
  function Founders(docs: seq<Document>): (states: seq<ClusterState>)
    ensures |states| == |docs|
    ensures forall k :: 0 <= k < |docs| ==> states[k] == ClusterState(docs[k], map[])
  {
    seq(|docs|, k requires 0 <= k < |docs| => ClusterState(docs[k], map[]))
  }

  /** With a radius of 0 or less nothing is ever below it: every document founds its own cluster. */
  lemma {:induction false} RadiusNonPositive(docs: seq<Document>, radius: real)
    requires radius <= 0.0
    ensures StreamClusterSpec(docs, radius) == Founders(docs)
    decreases |docs|
  {
    if docs != [] {
      var init := docs[..|docs| - 1];
      var doc := docs[|docs| - 1];
      RadiusNonPositive(init, radius);
      var states := StreamClusterSpec(init, radius);
      NothingBelowZero(states, doc, radius);
      FoundStep(states, doc, radius);
      assert Founders(docs) == Founders(init) + [ClusterState(doc, map[])];
    }
  }

  /** No distance is below a radius of 0 or less. */
  lemma {:induction false} NothingBelowZero(states: seq<ClusterState>, doc: Document, radius: real)
    requires radius <= 0.0
    ensures !Joins(states, doc, radius)
  {
    if states != [] {
      var ds := Distances(states, doc);
      var k := FirstMaxIndex(ds);
      DocDistanceProperties(states[k].medoid, doc);
    }
  }

  /** How many times the id appears: as a medoid, or as a key of a member map. */
  function Count(states: seq<ClusterState>, id: int): nat
    decreases |states|
  {
    if states == [] then 0
    else
      var s := states[|states| - 1];
      Count(states[..|states| - 1], id)
        + (if s.medoid.docId == id then 1 else 0)
        + (if id in s.members then 1 else 0)
  }

  /** What one cluster contributes to the count. */
  function Occurrences(s: ClusterState, id: int): nat {
    (if s.medoid.docId == id then 1 else 0) + (if id in s.members then 1 else 0)
  }

  lemma {:induction false} CountUpdate(states: seq<ClusterState>, k: nat, s: ClusterState, id: int)
    requires k < |states|
    ensures Count(states[k := s], id) + Occurrences(states[k], id) == Count(states, id) + Occurrences(s, id)
    decreases |states|
  {
    var last := |states| - 1;
    var updated := states[k := s];
    assert updated[..last] == if k < last then states[..last][k := s] else states[..last];
    if k < last {
      CountUpdate(states[..last], k, s, id);
    }
  }

  /** A step counts the new document's id once more and leaves every other id's count alone. */
  lemma {:induction false} StepCount(states: seq<ClusterState>, doc: Document, radius: real, id: int)
    requires Count(states, doc.docId) == 0 || id != doc.docId
    ensures Count(Step(states, doc, radius), id) == Count(states, id) + (if id == doc.docId then 1 else 0)
  {
    if Joins(states, doc, radius) {
      var k := FirstMaxIndex(Distances(states, doc));
      var s := ClusterState(states[k].medoid, states[k].members[doc.docId := doc]);
      CountUpdate(states, k, s, id);
      if id == doc.docId {
        CountZero(states, id, k);
      }
    } else {
      var next := states + [ClusterState(doc, map[])];
      assert next[..|states|] == states;
    }
  }

  /** A zero count means no cluster mentions the id. */
  lemma {:induction false} CountZero(states: seq<ClusterState>, id: int, k: nat)
    requires k < |states| && Count(states, id) == 0
    ensures Occurrences(states[k], id) == 0
    decreases |states|
  {
    if k < |states| - 1 {
      CountZero(states[..|states| - 1], id, k);
    }
  }

  /** The ids of the documents. */
  function Ids(docs: seq<Document>): (ids: set<int>)
    ensures forall k :: 0 <= k < |docs| ==> docs[k].docId in ids
    ensures forall id :: id in ids ==> exists k :: 0 <= k < |docs| && docs[k].docId == id
    decreases |docs|
  {
    if docs == [] then {} else Ids(docs[..|docs| - 1]) + {docs[|docs| - 1].docId}
  }

  /**
   * With distinct ids every streamed document is placed exactly once: it is
   * the medoid of one cluster or a member of one cluster, never both and
   * never twice; an id that was not streamed appears nowhere.
   */
  lemma {:induction false} PlacedExactlyOnce(docs: seq<Document>, radius: real, id: int)
    requires DistinctIds(docs)
    ensures Count(StreamClusterSpec(docs, radius), id) == if id in Ids(docs) then 1 else 0
    decreases |docs|
  {
    if docs != [] {
      var init := docs[..|docs| - 1];
      var doc := docs[|docs| - 1];
      assert DistinctIds(init);
      PlacedExactlyOnce(init, radius, id);
      PlacedExactlyOnce(init, radius, doc.docId);
      LastIdIsNew(docs);
      StepCount(StreamClusterSpec(init, radius), doc, radius, id);
    }
  }

  /** With distinct ids the last document's id is not among the earlier ones. */
  lemma {:induction false} LastIdIsNew(docs: seq<Document>)
    requires docs != [] && DistinctIds(docs)
    ensures docs[|docs| - 1].docId !in Ids(docs[..|docs| - 1])
  {
    var init := docs[..|docs| - 1];
    forall k | 0 <= k < |init| ensures init[k].docId != docs[|docs| - 1].docId {
      assert init[k] == docs[k];
    }
  }

  /**
   * A document close to one medoid may still found a new cluster when
   * another medoid is far: C is at distance 1/3 from A, but at 1 from B, so
   * it is not added to A's cluster.
   */
  lemma {:induction false} FarMedoidSplits()
    ensures var a, b, c := Document(1, {1, 2}), Document(2, {3, 4}), Document(3, {1, 2, 5});
            && DocDistance(a, c) == Real(1.0 / 3.0)
            && Below(DocDistance(a, c), 0.925)
            && StreamClusterSpec([a, b, c], 0.925) ==
                 [ClusterState(a, map[]), ClusterState(b, map[]), ClusterState(c, map[])]
  {
    var a, b, c := Document(1, {1, 2}), Document(2, {3, 4}), Document(3, {1, 2, 5});
    ExampleDistances(a, b, c);
    TwoFounders(a, b, 0.925);
    ThirdFounds(a, b, c, 0.925);
  }

  /** Two documents at distance 1 found two clusters under a radius of at most 1. */
  lemma {:induction false} TwoFounders(a: Document, b: Document, radius: real)
    requires DocDistance(a, b) == Real(1.0) && radius <= 1.0
    ensures StreamClusterSpec([a, b], radius) == [ClusterState(a, map[]), ClusterState(b, map[])]
  {
    var s1 := [ClusterState(a, map[])];
    SpecSnoc([], a, radius);
    assert [] + [a] == [a];
    FoundStep([], a, radius);
    SpecSnoc([a], b, radius);
    assert [a] + [b] == [a, b];
    assert Distances(s1, b) == [Real(1.0)];
    FoundStep(s1, b, radius);
  }

  /** A third document at distance 1 from the second medoid founds a third cluster. */
  lemma {:induction false} ThirdFounds(a: Document, b: Document, c: Document, radius: real)
    requires StreamClusterSpec([a, b], radius) == [ClusterState(a, map[]), ClusterState(b, map[])]
    requires DocDistance(a, c) == Real(1.0 / 3.0) && DocDistance(b, c) == Real(1.0) && radius <= 1.0
    ensures StreamClusterSpec([a, b, c], radius) ==
              [ClusterState(a, map[]), ClusterState(b, map[]), ClusterState(c, map[])]
  {
    var s2 := [ClusterState(a, map[]), ClusterState(b, map[])];
    SpecSnoc([a, b], c, radius);
    assert [a, b] + [c] == [a, b, c];
    var ds := Distances(s2, c);
    assert ds == [Real(1.0 / 3.0), Real(1.0)];
    assert FirstMaxIndex(ds) == 1 by {
      assert ds[..1] == [Real(1.0 / 3.0)];
    }
    FoundStep(s2, c, radius);
  }

  /** The distances between the three documents of the example. */
  lemma {:induction false} ExampleDistances(a: Document, b: Document, c: Document)
    requires a == Document(1, {1, 2}) && b == Document(2, {3, 4}) && c == Document(3, {1, 2, 5})
    ensures DocDistance(a, b) == Real(1.0) && DocDistance(b, c) == Real(1.0)
    ensures DocDistance(a, c) == Real(1.0 / 3.0)
  {
    assert {1, 2} * {3, 4} == {} && {3, 4} * {1, 2, 5} == {};
    assert {1, 2} * {1, 2, 5} == {1, 2} && {1, 2} + {1, 2, 5} == {1, 2, 5};
    assert |{1, 2, 5}| == 3 && |{1, 2}| == 2;
  }

  /** Streaming one more document is one more step. */
  lemma {:induction false} SpecSnoc(docs: seq<Document>, doc: Document, radius: real)
    ensures StreamClusterSpec(docs + [doc], radius) == Step(StreamClusterSpec(docs, radius), doc, radius)
  {
    assert (docs + [doc])[..|docs|] == docs;
  }

  // ---------------------------------------------------------------------
  // The clusters as objects
  // ---------------------------------------------------------------------

  /** A cluster: a fixed medoid and a member map that grows in place. */
  class Cluster {
    const medoid: Document
    var documents: map<int, Document>

    constructor(medoid: Document)
      ensures this.medoid == medoid && documents == map[]
    {
      this.medoid := medoid;
      documents := map[];
    }

    /** `addDoc`: stores the document under its id, replacing a same-id entry. */
    method AddDoc(document: Document)
      modifies this
      ensures documents == old(documents)[document.docId := document]
      ensures document.docId in documents && documents[document.docId] == document
      ensures forall id :: id != document.docId ==>
                (id in documents <==> id in old(documents)) &&
                (id in documents ==> documents[id] == old(documents)[id])
    {
      documents := documents[document.docId := document];
    }
  }

  /** The step when the document joins cluster k. */
  lemma {:induction false} JoinStep(states: seq<ClusterState>, doc: Document, radius: real, k: nat)
    requires Joins(states, doc, radius) && k == FirstMaxIndex(Distances(states, doc))
    ensures Step(states, doc, radius) ==
              states[k := ClusterState(states[k].medoid, states[k].members[doc.docId := doc])]
  {
  }

  /** The step when the document founds a cluster. */
  lemma {:induction false} FoundStep(states: seq<ClusterState>, doc: Document, radius: real)
    requires !Joins(states, doc, radius)
    ensures Step(states, doc, radius) == states + [ClusterState(doc, map[])]
  {
  }

  /** The values the clusters hold. */
  ghost function States(cs: seq<Cluster>): (states: seq<ClusterState>)
    reads set c | c in cs
    ensures |states| == |cs|
    ensures forall k :: 0 <= k < |cs| ==> states[k] == ClusterState(cs[k].medoid, cs[k].documents)
  {
    seq(|cs|, k reads set c | c in cs requires 0 <= k < |cs| => ClusterState(cs[k].medoid, cs[k].documents))
  }

  /** No cluster object appears twice. */
  ghost predicate Distinct(cs: seq<Cluster>) {
    forall i, j :: 0 <= i < j < |cs| ==> cs[i] != cs[j]
  }

  /** The key `streamCluster` gives a cluster: the distance from its medoid to doc. */
  function MedoidDistance(doc: Document): Cluster -> Num {
    (c: Cluster) => DocDistance(c.medoid, doc)
  }

  /** The keys of the clusters are the distances of their states. */
  lemma {:induction false} KeysAreDistances(clusters: seq<Cluster>, states: seq<ClusterState>, doc: Document)
    requires |states| == |clusters|
    requires forall k :: 0 <= k < |clusters| ==> states[k].medoid == clusters[k].medoid
    ensures Selected(clusters, MedoidDistance(doc)) == Distances(states, doc)
  {
  }

  /**
   * One iteration of `streamCluster`: add doc to the cluster `minOf` picks
   * when its key is below the radius, otherwise append a new cluster.
   */
  method Place(clusters: seq<Cluster>, doc: Document, radius: real) returns (clusters': seq<Cluster>)
    requires Distinct(clusters)
    modifies set c | c in clusters
    ensures Distinct(clusters') && forall c :: c in clusters' ==> c in clusters || fresh(c)
    ensures States(clusters') == Step(old(States(clusters)), doc, radius)
  {
    ghost var states := States(clusters);
    var min := MinOf(clusters, MedoidDistance(doc));
    KeysAreDistances(clusters, states, doc);
    if min.Some? && Below(min.value.1, radius) {
      var k := FirstMaxIndex(Distances(states, doc));
      var target := min.value.0;
      assert target == clusters[k] && target in clusters;
      JoinStep(states, doc, radius, k);
      target.AddDoc(doc);
      clusters' := clusters;
      forall j | 0 <= j < |clusters|
        ensures States(clusters)[j] == Step(states, doc, radius)[j]
      {
        if j != k {
          assert clusters[j] != target;
        }
      }
    } else {
      FoundStep(states, doc, radius);
      var c := new Cluster(doc);
      clusters' := clusters + [c];
      assert States(clusters') == Step(states, doc, radius);
    }
  }

  /**
   * `streamCluster`: the clusters, in creation order, hold exactly what
   * `StreamClusterSpec` computes; they are new objects, each once.
   */
  method StreamCluster(docs: seq<Document>, radius: real) returns (clusters: seq<Cluster>)
    ensures Distinct(clusters) && forall c :: c in clusters ==> fresh(c)
    ensures States(clusters) == StreamClusterSpec(docs, radius)
  {
    clusters := [];
    for i := 0 to |docs|
      invariant Distinct(clusters) && forall c :: c in clusters ==> fresh(c)
      invariant States(clusters) == StreamClusterSpec(docs[..i], radius)
    {
      assert docs[..i + 1][..i] == docs[..i];
      clusters := Place(clusters, docs[i], radius);
    }
    assert docs[..|docs|] == docs;
  }
}

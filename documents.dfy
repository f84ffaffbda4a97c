/** A document: an id and a set of term ids; identity is the id alone. */
module Documents {
  import opened Utils

  datatype Document = Document(docId: int, terms: set<int>)

  /** `equals`: two documents are the same document when their ids match. */
  predicate SameDocument(a: Document, b: Document) {
    a.docId == b.docId
  }

  /** Long.hashCode of the id: the low and high 32-bit halves of its 64-bit form xor-ed. */
  function HashCode(d: Document): bv32 {
    LongHash(d.docId)
  }

  function LongHash(id: int): bv32 {
    var bits := id % 0x1_0000_0000_0000_0000;
    (bits % 0x1_0000_0000) as bv32 ^ (bits / 0x1_0000_0000) as bv32
  }

  /** `equals` ignores the terms and agrees with `hashCode`. */
  lemma {:induction false} SameDocumentSameHash(a: Document, b: Document)
    requires SameDocument(a, b)
    ensures HashCode(a) == HashCode(b)
    ensures SameDocument(a, Document(a.docId, b.terms))
  {
  }

  /** Equal hashes do not imply equal documents: ids 0 and 2^32 + 1 collide. */
  lemma {:induction false} HashCollision()
    ensures HashCode(Document(0, {})) == HashCode(Document(0x1_0000_0001, {}))
    ensures !SameDocument(Document(0, {}), Document(0x1_0000_0001, {}))
  {
    assert 0x1_0000_0001 % 0x1_0000_0000_0000_0000 == 0x1_0000_0001;
    assert LongHash(0x1_0000_0001) == (1 as bv32) ^ (1 as bv32) == 0;
  }

  /** Jaccard distance of the two term sets. */
  function DocDistance(a: Document, b: Document): Num
  {
    JaccardDistance(a.terms, b.terms)
  }

  /**
   * The distance is symmetric; it is NaN exactly for two documents without
   * terms, and otherwise in [0, 1] and 0 exactly for equal term sets.
   */
  lemma {:induction false} DocDistanceProperties(a: Document, b: Document)
    ensures DocDistance(a, b) == DocDistance(b, a)
    ensures DocDistance(a, b).NaN? <==> a.terms == {} && b.terms == {}
    ensures DocDistance(a, b).Real? ==>
              0.0 <= DocDistance(a, b).value <= 1.0 &&
              (DocDistance(a, b).value == 0.0 <==> a.terms == b.terms)
  {
    JaccardSymmetric(a.terms, b.terms);
    if a.terms != {} || b.terms != {} {
      JaccardDistanceRange(a.terms, b.terms);
    }
  }

  /**
   * `remapIds`: new documents with the same terms and progressive ids in list
   * order. The counter is post-incremented, so the first id is 0.
   */
  method RemapIds(docs: seq<Document>) returns (remapped: seq<Document>)
    ensures |remapped| == |docs|
    ensures forall i :: 0 <= i < |docs| ==> remapped[i] == Document(i, docs[i].terms)
  {
    var lastId := 0;
    remapped := [];
    for i := 0 to |docs|
      invariant lastId == i == |remapped|
      invariant forall j :: 0 <= j < i ==> remapped[j] == Document(j, docs[j].terms)
    {
      remapped := remapped + [Document(lastId, docs[i].terms)];
      lastId := lastId + 1;
    }
  }

  /** A remapped list has strictly increasing, hence distinct, ids from 0. */
  lemma {:induction false} RemappedIdsDistinct(docs: seq<Document>, remapped: seq<Document>)
    requires |remapped| == |docs|
    requires forall i :: 0 <= i < |docs| ==> remapped[i] == Document(i, docs[i].terms)
    ensures forall i, j :: 0 <= i < j < |remapped| ==> remapped[i].docId < remapped[j].docId
    ensures forall i, j :: 0 <= i < |remapped| && 0 <= j < |remapped| && i != j ==>
              !SameDocument(remapped[i], remapped[j])
    ensures multiset(TermSets(remapped)) == multiset(TermSets(docs))
  {
    assert TermSets(remapped) == TermSets(docs);
  }

  /** The term sets of a list of documents, in order. */
  function TermSets(docs: seq<Document>): (ts: seq<set<int>>)
    ensures |ts| == |docs|
    ensures forall i :: 0 <= i < |docs| ==> ts[i] == docs[i].terms
  {
    seq(|docs|, i requires 0 <= i < |docs| => docs[i].terms)
  }

  /** No two positions of the list hold documents with the same id. */
  ghost predicate DistinctIds(docs: seq<Document>) {
    forall i, j :: 0 <= i < j < |docs| ==> docs[i].docId != docs[j].docId
  }

  /** Distinct ids survive any reordering of the list. */
  lemma {:induction false} DistinctIdsPermutation(s: seq<Document>, t: seq<Document>)
    requires multiset(s) == multiset(t) && DistinctIds(s)
    ensures DistinctIds(t)
    decreases |t|
  {
    if t != [] {
      var x := t[|t| - 1];
      var t0 := t[..|t| - 1];
      assert t == t0 + [x];
      assert multiset(t) == multiset(t0) + multiset{x};
      assert x in multiset(s);
      var k :| 0 <= k < |s| && s[k] == x;
      var s0 := RemoveAt(s, k);
      RemoveAtDistinct(s, k);
      DistinctIdsPermutation(s0, t0);
      forall i | 0 <= i < |t0| ensures t0[i].docId != x.docId {
        assert t0[i] in multiset(s0);
      }
      DistinctSnoc(t0, x);
    }
  }

  lemma {:induction false} DistinctSnoc(s: seq<Document>, x: Document)
    requires DistinctIds(s) && forall i :: 0 <= i < |s| ==> s[i].docId != x.docId
    ensures DistinctIds(s + [x])
  {
  }

  /** The list without its k-th document. */
  function RemoveAt(s: seq<Document>, k: nat): (r: seq<Document>)
    requires k < |s|
    ensures |r| == |s| - 1
    ensures multiset(r) == multiset(s) - multiset{s[k]}
    ensures forall m :: 0 <= m < |r| ==> r[m] == s[if m < k then m else m + 1]
  {
    assert s == s[..k] + [s[k]] + s[k + 1..];
    s[..k] + s[k + 1..]
  }

  /** Removing a document keeps the others' ids distinct, and none of them is the removed id. */
  lemma {:induction false} RemoveAtDistinct(s: seq<Document>, k: nat)
    requires k < |s| && DistinctIds(s)
    ensures DistinctIds(RemoveAt(s, k))
    ensures forall x :: x in RemoveAt(s, k) ==> x.docId != s[k].docId
  {
    var r := RemoveAt(s, k);
    forall i, j | 0 <= i < j < |r| ensures r[i].docId != r[j].docId {
      var i', j' := if i < k then i else i + 1, if j < k then j else j + 1;
      assert r[i] == s[i'] && r[j] == s[j'];
    }
    forall x | x in r ensures x.docId != s[k].docId {
      var m :| 0 <= m < |r| && r[m] == x;
      var m' := if m < k then m else m + 1;
      assert r[m] == s[m'];
    }
  }
}

/**
 * D-gap cost estimation: the total size, under one encoder, of every term's
 * posting list stored as gaps between consecutive document ids.
 */
module DGaps {
  import opened Common
  import opened BinaryEncoder
  import opened Documents

  // ---------------------------------------------------------------------
  // Sorting by id (`sortedBy { it.docId }`, a stable sort)
  // ---------------------------------------------------------------------

  ghost predicate SortedById(s: seq<Document>) {
    forall i, j :: 0 <= i < j < |s| ==> s[i].docId <= s[j].docId
  }

  /** Inserts d after every document whose id is not above d's. */
  function InsertById(s: seq<Document>, d: Document): (r: seq<Document>)
    requires SortedById(s)
    ensures SortedById(r)
    ensures multiset(r) == multiset(s) + multiset{d}
    decreases |s|
  {
    if s == [] || s[|s| - 1].docId <= d.docId then
      AppendSorted(s, d);
      s + [d]
    else
      var init, last := s[..|s| - 1], s[|s| - 1];
      SortedInit(s);
      var r := InsertById(init, d);
      BoundedByMultiset(r, init, d, last.docId);
      AppendSorted(r, last);
      SnocMultiset(init, r, last, d);
      assert init + [last] == s;
      r + [last]
  }

  lemma {:induction false} SortedInit(s: seq<Document>)
    requires SortedById(s) && s != []
    ensures SortedById(s[..|s| - 1])
  {
  }

  lemma {:induction false} SnocMultiset(init: seq<Document>, r: seq<Document>, last: Document, d: Document)
    requires multiset(r) == multiset(init) + multiset{d}
    ensures multiset(r + [last]) == multiset(init + [last]) + multiset{d}
  {
    assert multiset(r + [last]) == multiset(r) + multiset{last};
    assert multiset(init + [last]) == multiset(init) + multiset{last};
  }

  /** Appending a document whose id is not below any other keeps the list sorted. */
  lemma {:induction false} AppendSorted(s: seq<Document>, d: Document)
    requires SortedById(s) && (s == [] || s[|s| - 1].docId <= d.docId)
    ensures SortedById(s + [d])
  {
  }

  /** A bound on the ids of s and d bounds every id of a rearrangement of s + [d]. */
  lemma {:induction false} BoundedByMultiset(r: seq<Document>, s: seq<Document>, d: Document, bound: int)
    requires multiset(r) == multiset(s) + multiset{d}
    requires SortedById(s) && (s == [] || s[|s| - 1].docId <= bound) && d.docId <= bound
    ensures r == [] || r[|r| - 1].docId <= bound
  {
    if r != [] {
      var x := r[|r| - 1];
      assert x in multiset(r);
      if x != d {
        assert x in multiset(s);
        var j :| 0 <= j < |s| && s[j] == x;
        assert s[j].docId <= s[|s| - 1].docId;
      }
    }
  }

  /** The documents in ascending id order, as a stable insertion sort. */
  function SortByDocId(docs: seq<Document>): (r: seq<Document>)
    ensures SortedById(r)
    ensures multiset(r) == multiset(docs)
    decreases |docs|
  {
    if docs == [] then []
    else
      assert docs == docs[..|docs| - 1] + [docs[|docs| - 1]];
      InsertById(SortByDocId(docs[..|docs| - 1]), docs[|docs| - 1])
  }

  /** The first element of a non-empty sorted list has the least id. */
  lemma {:induction false} HeadIsLeast(s: seq<Document>, x: Document)
    requires SortedById(s) && s != [] && x in multiset(s)
    ensures s[0].docId <= x.docId
  {
    assert x in s;
    var j :| 0 <= j < |s| && s[j] == x;
    if j > 0 {
      assert s[0].docId <= s[j].docId;
    }
  }

  lemma {:induction false} TailMultiset(a: seq<Document>, b: seq<Document>)
    requires a != [] && b != [] && a[0] == b[0] && multiset(a) == multiset(b)
    ensures multiset(a[1..]) == multiset(b[1..])
  {
    assert a == [a[0]] + a[1..];
    assert b == [b[0]] + b[1..];
    assert multiset(a) == multiset{a[0]} + multiset(a[1..]);
    assert multiset(b) == multiset{a[0]} + multiset(b[1..]);
    forall y ensures multiset(a[1..])[y] == multiset(b[1..])[y] {
      assert multiset(a)[y] == multiset(b)[y];
    }
  }

  /** With distinct ids there is only one sorted arrangement of a collection. */
  lemma {:induction false} SortedArrangementUnique(a: seq<Document>, b: seq<Document>)
    requires SortedById(a) && SortedById(b) && DistinctIds(a)
    requires multiset(a) == multiset(b)
    ensures a == b
    decreases |a|
  {
    assert |a| == |multiset(a)| == |multiset(b)| == |b|;
    if a != [] {
      SortedHeadsEqual(a, b);
      TailMultiset(a, b);
      SortedTail(a);
      SortedTail(b);
      SortedArrangementUnique(a[1..], b[1..]);
      assert a == [a[0]] + a[1..] && b == [b[0]] + b[1..];
    }
  }

  /** Two sorted arrangements of one collection with distinct ids start alike. */
  lemma {:induction false} SortedHeadsEqual(a: seq<Document>, b: seq<Document>)
    requires SortedById(a) && SortedById(b) && DistinctIds(a)
    requires multiset(a) == multiset(b) && a != [] && b != []
    ensures a[0] == b[0]
  {
    var x, y := a[0], b[0];
    assert x in multiset(a) && y in multiset(b);
    HeadIsLeast(a, y);
    HeadIsLeast(b, x);
    assert y in a;
    var k :| 0 <= k < |a| && a[k] == y;
    assert a[k].docId == a[0].docId;
    assert k == 0;
  }

  lemma {:induction false} SortedTail(s: seq<Document>)
    requires s != []
    ensures SortedById(s) ==> SortedById(s[1..])
    ensures DistinctIds(s) ==> DistinctIds(s[1..])
  {
  }

  /**
   * With distinct ids, the walk order does not depend on the order in which
   * the collection was given.
   */
  lemma {:induction false} SortIsOrderIndependent(a: seq<Document>, b: seq<Document>)
    requires multiset(a) == multiset(b) && DistinctIds(a)
    ensures SortByDocId(a) == SortByDocId(b)
  {
    DistinctIdsPermutation(a, SortByDocId(a));
    SortedArrangementUnique(SortByDocId(a), SortByDocId(b));
  }

  // ---------------------------------------------------------------------
  // Posting lists and their gap costs
  // ---------------------------------------------------------------------

  function Last(s: seq<int>): int
    requires s != []
  {
    s[|s| - 1]
  }

  /** The ids of the documents containing t, in list order. */
  function PostingList(docs: seq<Document>, t: int): seq<int>
    decreases |docs|
  {
    if docs == [] then []
    else
      var d := docs[|docs| - 1];
      PostingList(docs[..|docs| - 1], t) + (if t in d.terms then [d.docId] else [])
  }

  /** Every term of the collection. */
  function TermsOf(docs: seq<Document>): set<int>
    decreases |docs|
  {
    if docs == [] then {} else TermsOf(docs[..|docs| - 1]) + docs[|docs| - 1].terms
  }

  lemma {:induction false} PostingListNonEmpty(docs: seq<Document>, t: int)
    ensures PostingList(docs, t) != [] <==> t in TermsOf(docs)
    decreases |docs|
  {
    if docs != [] {
      PostingListNonEmpty(docs[..|docs| - 1], t);
    }
  }

  /** The posting list of a prefix of the collection is a prefix of the whole one. */
  lemma {:induction false} PostingListPrefix(docs: seq<Document>, n: nat, t: int)
    requires n <= |docs|
    ensures PostingList(docs[..n], t) <= PostingList(docs, t)
    decreases |docs|
  {
    if n < |docs| {
      assert docs[..|docs| - 1][..n] == docs[..n];
      PostingListPrefix(docs[..|docs| - 1], n, t);
    } else {
      assert docs[..n] == docs;
    }
  }

  /**
   * In a sorted collection the last entry of a posting list is the largest id
   * of a document that contains the term.
   */
  lemma {:induction false} PostingListLastIsLargest(docs: seq<Document>, t: int)
    requires SortedById(docs) && PostingList(docs, t) != []
    ensures exists k :: 0 <= k < |docs| && t in docs[k].terms && docs[k].docId == Last(PostingList(docs, t))
    ensures forall k :: 0 <= k < |docs| && t in docs[k].terms ==> docs[k].docId <= Last(PostingList(docs, t))
    decreases |docs|
  {
    var init, d := docs[..|docs| - 1], docs[|docs| - 1];
    if t in d.terms {
      assert docs[|docs| - 1] == d;
    } else {
      PostingListLastIsLargest(init, t);
      var k :| 0 <= k < |init| && t in init[k].terms && init[k].docId == Last(PostingList(init, t));
      assert docs[k] == init[k];
      forall k' | 0 <= k' < |docs| && t in docs[k'].terms
        ensures docs[k'].docId <= Last(PostingList(docs, t))
      {
        assert k' < |init| && docs[k'] == init[k'];
      }
    }
  }

  /** Bits the encoder needs for the gaps between consecutive entries of ids. */
  function GapBits(e: Encoder, ids: seq<int>): Result<int, EncodeError>
    decreases |ids|
  {
    if |ids| < 2 then Ok(0)
    else
      match GapBits(e, ids[..|ids| - 1])
      case Err(err) => Err(err)
      case Ok(bits) =>
        match CalcBits(e, ids[|ids| - 1] - ids[|ids| - 2])
        case Ok(gapBits) => Ok(bits + gapBits)
        case Err(err) => Err(err)
  }

  /** The encoder accepts every gap between consecutive entries of ids. */
  ghost predicate AcceptsAllGaps(e: Encoder, ids: seq<int>) {
    forall i :: 0 <= i < |ids| - 1 ==> CalcBits(e, Gap(ids, i)).Ok?
  }

  /** The gap between the entries at i and i + 1. */
  function Gap(ids: seq<int>, i: int): int
    requires 0 <= i < |ids| - 1
  {
    ids[i + 1] - ids[i]
  }

  /** The gap cost succeeds exactly when the encoder accepts every gap. */
  lemma {:induction false} GapBitsOk(e: Encoder, ids: seq<int>)
    ensures GapBits(e, ids).Ok? <==> AcceptsAllGaps(e, ids)
    decreases |ids|
  {
    if |ids| >= 2 {
      var n := |ids|;
      var init := ids[..n - 1];
      GapBitsOk(e, init);
      assert GapBits(e, ids).Ok? <==> GapBits(e, init).Ok? && CalcBits(e, Gap(ids, n - 2)).Ok?;
      assert AcceptsAllGaps(e, ids) <==>
               AcceptsAllGaps(e, init) && CalcBits(e, Gap(ids, n - 2)).Ok? by {
        if AcceptsAllGaps(e, ids) {
          forall i | 0 <= i < |init| - 1 ensures CalcBits(e, Gap(init, i)).Ok? {
            assert Gap(init, i) == Gap(ids, i);
          }
        }
        if AcceptsAllGaps(e, init) && CalcBits(e, Gap(ids, n - 2)).Ok? {
          forall i | 0 <= i < n - 1 ensures CalcBits(e, Gap(ids, i)).Ok? {
            if i < n - 2 {
              assert Gap(init, i) == Gap(ids, i);
            }
          }
        }
      }
    }
  }

  /** Appending one id adds the cost of one gap. */
  lemma {:induction false} GapBitsSnoc(e: Encoder, ids: seq<int>, id: int)
    ensures GapBits(e, ids + [id]) ==
              if ids == [] then Ok(0)
              else match GapBits(e, ids)
                case Err(err) => Err(err)
                case Ok(bits) =>
                  match CalcBits(e, id - Last(ids))
                  case Ok(gapBits) => Ok(bits + gapBits)
                  case Err(err) => Err(err)
  {
    assert (ids + [id])[..|ids|] == ids;
  }

  /** A rejected gap makes every extension of the list fail too. */
  lemma {:induction false} GapBitsErrPrefix(e: Encoder, a: seq<int>, b: seq<int>)
    requires a <= b && GapBits(e, a).Err?
    ensures GapBits(e, b).Err?
    decreases |b|
  {
    if |a| < |b| {
      assert a <= b[..|b| - 1];
      GapBitsErrPrefix(e, a, b[..|b| - 1]);
    } else {
      assert a == b;
    }
  }

  /** Some posting list of the (sorted) collection has a gap the encoder rejects. */
  ghost predicate Fails(e: Encoder, docs: seq<Document>) {
    exists t :: GapBits(e, PostingList(docs, t)).Err?
  }

  // ---------------------------------------------------------------------
  // Sums over the terms
  // ---------------------------------------------------------------------

  lemma {:induction false} NonEmptyMapHasKey(m: map<int, int>)
    requires m != map[]
    ensures exists k :: k in m
  {
    if forall k :: k !in m {
      assert false;
    }
  }

  ghost function Pick(m: map<int, int>): (k: int)
    requires m != map[]
    ensures k in m
  {
    NonEmptyMapHasKey(m);
    var k :| k in m; k
  }

  /** The sum of the values of a map. */
  ghost function MapSum(m: map<int, int>): int
    decreases |m|
  {
    if m == map[] then 0
    else
      var k := Pick(m);
      assert |m - {k}| < |m| by { assert (m - {k}).Keys == m.Keys - {k}; }
      m[k] + MapSum(m - {k})
  }

  lemma {:induction false} MapSumRemove(m: map<int, int>, k: int)
    requires k in m
    ensures MapSum(m) == m[k] + MapSum(m - {k})
    decreases |m|
  {
    var j := Pick(m);
    if j != k {
      assert (m - {k}).Keys == m.Keys - {k};
      assert (m - {j}).Keys == m.Keys - {j};
      MapSumRemove(m - {j}, k);
      MapSumRemove(m - {k}, j);
      assert (m - {j}) - {k} == (m - {k}) - {j};
    }
  }

  /** Setting one entry changes the sum by the difference. */
  lemma {:induction false} MapSumUpdate(m: map<int, int>, k: int, v: int)
    ensures MapSum(m[k := v]) == MapSum(m) - (if k in m then m[k] else 0) + v
  {
    MapSumRemove(m[k := v], k);
    assert m[k := v] - {k} == m - {k};
    if k in m {
      MapSumRemove(m, k);
    } else {
      assert m - {k} == m;
    }
  }

  lemma {:induction false} MapSumZero(m: map<int, int>)
    requires forall k :: k in m ==> m[k] == 0
    ensures MapSum(m) == 0
    decreases |m|
  {
    if m != map[] {
      var k := Pick(m);
      assert (m - {k}).Keys == m.Keys - {k};
      MapSumZero(m - {k});
    }
  }

  /** Total bits: the sum over every term of the gap cost of its posting list. */
  ghost function TotalBits(e: Encoder, docs: seq<Document>): int {
    MapSum(map t | t in TermsOf(docs) :: GapBits(e, PostingList(docs, t)).GetOr(0))
  }

  // ---------------------------------------------------------------------
  // The walk of `compute`
  // ---------------------------------------------------------------------

  /**
   * What the walk records about term t, whose posting list so far is `list`:
   * nothing before its first occurrence; afterwards the last id holding it
   * and the (accepted) cost of its gaps.
   */
  ghost predicate TermTracked(e: Encoder, list: seq<int>, t: int, lastIds: map<int, int>,
                              perTerm: map<int, int>)
  {
    if list == [] then t !in lastIds && t !in perTerm
    else t in lastIds && lastIds[t] == Last(list) && t in perTerm && GapBits(e, list) == Ok(perTerm[t])
  }

  /**
   * The state of `compute` after walking `prefix`: every term is tracked,
   * and the running total is the sum of the per-term costs.
   */
  ghost predicate Walked(e: Encoder, prefix: seq<Document>, lastIds: map<int, int>,
                         perTerm: map<int, int>, total: int)
  {
    && (forall t :: TermTracked(e, PostingList(prefix, t), t, lastIds, perTerm))
    && total == MapSum(perTerm)
  }

  lemma {:induction false} PostingListEmptyDocument(prev: seq<Document>, id: int, t: int)
    ensures PostingList(prev + [Document(id, {})], t) == PostingList(prev, t)
  {
    assert (prev + [Document(id, {})])[..|prev|] == prev;
  }

  /** Starting a new document, with none of its terms walked yet, changes nothing. */
  lemma {:induction false} WalkStartDocument(e: Encoder, prev: seq<Document>, id: int, lastIds: map<int, int>,
                          perTerm: map<int, int>, total: int)
    requires Walked(e, prev, lastIds, perTerm, total)
    ensures Walked(e, prev + [Document(id, {})], lastIds, perTerm, total)
  {
    forall t ensures TermTracked(e, PostingList(prev + [Document(id, {})], t), t, lastIds, perTerm) {
      PostingListEmptyDocument(prev, id, t);
      assert TermTracked(e, PostingList(prev, t), t, lastIds, perTerm);
    }
  }

  lemma {:induction false} NonEmptySetHasElement(s: set<int>)
    requires s != {}
    ensures exists x :: x in s
  {
    if forall x :: x !in s {
      assert false;
    }
  }

  /** Adding `term` to the last, partly walked document extends one posting list. */
  lemma {:induction false} PostingListAddTerm(prev: seq<Document>, id: int, done: set<int>, term: int, t: int)
    requires term !in done
    ensures PostingList(prev + [Document(id, done + {term})], t) ==
              PostingList(prev + [Document(id, done)], t) + (if t == term then [id] else [])
  {
    assert (prev + [Document(id, done + {term})])[..|prev|] == prev;
    assert (prev + [Document(id, done)])[..|prev|] == prev;
  }

  /** How one step of the walk changes what is recorded about term t. */
  lemma {:induction false} TrackedStep(e: Encoder, list: seq<int>, t: int, term: int, id: int,
                    lastIds: map<int, int>, perTerm: map<int, int>, gapBits: int)
    requires TermTracked(e, list, t, lastIds, perTerm)
    requires t == term ==>
               if term in lastIds then CalcBits(e, id - lastIds[term]) == Ok(gapBits) else gapBits == 0
    ensures TermTracked(e, list + (if t == term then [id] else []), t, lastIds[term := id],
                        perTerm[term := (if term in perTerm then perTerm[term] else 0) + gapBits])
  {
    if t == term {
      GapBitsSnoc(e, list, id);
    } else {
      assert list + [] == list;
    }
  }

  /** One step of the walk when the encoder accepts the gap (or there is none). */
  lemma {:induction false} WalkStep(e: Encoder, prev: seq<Document>, id: int, done: set<int>, term: int,
                 lastIds: map<int, int>, perTerm: map<int, int>, total: int, gapBits: int)
    requires term !in done
    requires Walked(e, prev + [Document(id, done)], lastIds, perTerm, total)
    requires if term in lastIds then CalcBits(e, id - lastIds[term]) == Ok(gapBits) else gapBits == 0
    ensures Walked(e, prev + [Document(id, done + {term})], lastIds[term := id],
                   perTerm[term := (if term in perTerm then perTerm[term] else 0) + gapBits],
                   total + gapBits)
  {
    var before := prev + [Document(id, done)];
    var after := prev + [Document(id, done + {term})];
    var newCost := (if term in perTerm then perTerm[term] else 0) + gapBits;
    forall t ensures TermTracked(e, PostingList(after, t), t, lastIds[term := id], perTerm[term := newCost]) {
      PostingListAddTerm(prev, id, done, term, t);
      TrackedStep(e, PostingList(before, t), t, term, id, lastIds, perTerm, gapBits);
    }
    MapSumUpdate(perTerm, term, newCost);
  }

  /** What the walk records about t, read back at the end. */
  lemma {:induction false} TrackedFacts(e: Encoder, docs: seq<Document>, t: int, lastIds: map<int, int>,
                     perTerm: map<int, int>)
    requires TermTracked(e, PostingList(docs, t), t, lastIds, perTerm)
    ensures GapBits(e, PostingList(docs, t)).Ok?
    ensures t in perTerm <==> t in TermsOf(docs)
    ensures t in perTerm ==> perTerm[t] == GapBits(e, PostingList(docs, t)).value
  {
    PostingListNonEmpty(docs, t);
  }

  /** The walk over the whole collection has computed TotalBits. */
  lemma {:induction false} WalkDone(e: Encoder, docs: seq<Document>, lastIds: map<int, int>,
                 perTerm: map<int, int>, total: int)
    requires Walked(e, docs, lastIds, perTerm, total)
    ensures !Fails(e, docs)
    ensures total == TotalBits(e, docs)
  {
    var costs := map t | t in TermsOf(docs) :: GapBits(e, PostingList(docs, t)).GetOr(0);
    forall t ensures GapBits(e, PostingList(docs, t)).Ok? && (t in perTerm <==> t in costs) {
      TrackedFacts(e, docs, t, lastIds, perTerm);
    }
    forall t | t in perTerm ensures perTerm[t] == costs[t] {
      TrackedFacts(e, docs, t, lastIds, perTerm);
    }
    assert perTerm == costs;
  }

  /**
   * The body of `compute`'s outer loop: walks the terms of document i, in
   * any order, updating the last id and the cost of each.
   */
  method WalkDocument(e: Encoder, ghost docs: seq<Document>, ghost i: nat, doc: Document,
                      lastIds: map<int, int>, total: int, ghost perTerm: map<int, int>)
    returns (r: Result<(map<int, int>, int), EncodeError>, ghost perTerm': map<int, int>)
    requires i < |docs| && docs[i] == doc
    requires Walked(e, docs[..i], lastIds, perTerm, total)
    ensures r.Err? ==> Fails(e, docs)
    ensures r.Ok? ==> Walked(e, docs[..i + 1], r.value.0, perTerm', r.value.1)
  {
    ghost var prev := docs[..i];
    var termToLastId, totalBits := lastIds, total;
    perTerm' := perTerm;
    var pending := doc.terms;
    ghost var done: set<int> := {};
    WalkStartDocument(e, prev, doc.docId, termToLastId, perTerm', totalBits);
    while pending != {}
      invariant pending + done == doc.terms && pending !! done
      invariant Walked(e, prev + [Document(doc.docId, done)], termToLastId, perTerm', totalBits)
      decreases pending
    {
      NonEmptySetHasElement(pending);
      var term :| term in pending;
      var gapBits := 0;
      if term in termToLastId {
        var bits := CalcBits(e, doc.docId - termToLastId[term]);
        if bits.Err? {
          WalkFailsPartial(e, docs, i, done, term, termToLastId, perTerm', totalBits);
          return Err(bits.error), perTerm';
        }
        gapBits := bits.value;
      }
      WalkStep(e, prev, doc.docId, done, term, termToLastId, perTerm', totalBits, gapBits);
      perTerm' := perTerm'[term := (if term in perTerm' then perTerm'[term] else 0) + gapBits];
      totalBits := totalBits + gapBits;
      termToLastId := termToLastId[term := doc.docId];
      pending := pending - {term};
      done := done + {term};
    }
    WalkedRename(e, prev + [Document(doc.docId, done)], docs[..i + 1], termToLastId, perTerm', totalBits);
    r := Ok((termToLastId, totalBits));
  }

  /** Once every term of document i is walked, the walk covers docs[..i + 1]. */
  lemma {:induction false} WalkedRename(e: Encoder, a: seq<Document>, b: seq<Document>, lastIds: map<int, int>,
                     perTerm: map<int, int>, total: int)
    requires a == b && Walked(e, a, lastIds, perTerm, total)
    ensures Walked(e, b, lastIds, perTerm, total)
  {
  }

  /**
   * `compute`: walks the documents by ascending id; for each term of each
   * document, adds the bits of the gap to the previous document holding the
   * term (none on its first occurrence) and records the current id. An
   * encoder rejection aborts the walk.
   */
  method Compute(docs: seq<Document>, e: Encoder) returns (r: Result<int, EncodeError>)
    ensures r.Err? <==> Fails(e, SortByDocId(docs))
    ensures r.Ok? ==> r.value == TotalBits(e, SortByDocId(docs))
  {
    var sorted := SortByDocId(docs);
    var termToLastId: map<int, int> := map[];
    var totalBits := 0;
    ghost var perTerm: map<int, int> := map[];
    for i := 0 to |sorted|
      invariant Walked(e, sorted[..i], termToLastId, perTerm, totalBits)
    {
      var step;
      step, perTerm := WalkDocument(e, sorted, i, sorted[i], termToLastId, totalBits, perTerm);
      if step.Err? {
        return Err(step.error);
      }
      termToLastId, totalBits := step.value.0, step.value.1;
    }
    WalkedRename(e, sorted[..|sorted|], sorted, termToLastId, perTerm, totalBits);
    WalkDone(e, sorted, termToLastId, perTerm, totalBits);
    r := Ok(totalBits);
  }

  /** A rejection in a prefix of the collection is a rejection of the whole. */
  lemma {:induction false} FailsPrefix(e: Encoder, docs: seq<Document>, n: nat)
    requires n <= |docs| && Fails(e, docs[..n])
    ensures Fails(e, docs)
  {
    var t :| GapBits(e, PostingList(docs[..n], t)).Err?;
    PostingListPrefix(docs, n, t);
    GapBitsErrPrefix(e, PostingList(docs[..n], t), PostingList(docs, t));
  }

  /** A rejection in the middle of document i makes the whole collection fail. */
  lemma {:induction false} WalkFailsPartial(e: Encoder, docs: seq<Document>, i: nat, done: set<int>, term: int,
                         lastIds: map<int, int>, perTerm: map<int, int>, total: int)
    requires i < |docs| && term in docs[i].terms && term !in done
    requires Walked(e, docs[..i] + [Document(docs[i].docId, done)], lastIds, perTerm, total)
    requires term in lastIds && CalcBits(e, docs[i].docId - lastIds[term]).Err?
    ensures Fails(e, docs)
  {
    var prev, id := docs[..i], docs[i].docId;
    var before := prev + [Document(id, done)];
    var list := PostingList(prev, term);
    assert before[..i] == prev;
    assert PostingList(before, term) == list;
    assert TermTracked(e, list, term, lastIds, perTerm);
    assert docs[..i + 1] == prev + [docs[i]];
    assert docs[..i + 1][..i] == prev;
    assert PostingList(docs[..i + 1], term) == list + [id];
    GapBitsSnoc(e, list, id);
    FailsPrefix(e, docs, i + 1);
  }

  // ---------------------------------------------------------------------
  // Properties of the cost
  // ---------------------------------------------------------------------

  lemma {:induction false} PostingListLength(docs: seq<Document>, t: int)
    ensures |PostingList(docs, t)| <= |docs|
    decreases |docs|
  {
    if docs != [] {
      PostingListLength(docs[..|docs| - 1], t);
    }
  }

  /** With fewer than two documents there are no gaps: nothing fails and nothing is spent. */
  lemma {:induction false} FewDocumentsCostNothing(e: Encoder, docs: seq<Document>)
    requires |docs| <= 1
    ensures !Fails(e, docs)
    ensures TotalBits(e, docs) == 0
  {
    forall t ensures GapBits(e, PostingList(docs, t)) == Ok(0) {
      PostingListLength(docs, t);
    }
    MapSumZero(map t | t in TermsOf(docs) :: GapBits(e, PostingList(docs, t)).GetOr(0));
  }

  /** Every entry of a posting list is the id of one of the documents. */
  lemma {:induction false} PostingListBounded(docs: seq<Document>, t: int, bound: int)
    requires forall k :: 0 <= k < |docs| ==> docs[k].docId < bound
    ensures forall x :: x in PostingList(docs, t) ==> x < bound
    decreases |docs|
  {
    if docs != [] {
      PostingListBounded(docs[..|docs| - 1], t, bound);
    }
  }

  /** Every gap of the list is positive. */
  ghost predicate StrictlyIncreasing(list: seq<int>) {
    forall i :: 0 <= i < |list| - 1 ==> Gap(list, i) > 0
  }

  lemma {:induction false} IncreasingSnoc(list: seq<int>, id: int)
    requires StrictlyIncreasing(list)
    requires forall x :: x in list ==> x < id
    ensures StrictlyIncreasing(list + [id])
  {
    var l := list + [id];
    forall i | 0 <= i < |l| - 1 ensures Gap(l, i) > 0 {
      if i < |list| - 1 {
        assert Gap(l, i) == Gap(list, i);
      } else {
        assert l[i] == list[i] && list[i] in list;
      }
    }
  }

  /** Sorted documents with distinct ids give strictly increasing posting lists. */
  lemma {:induction false} PostingListIncreasing(docs: seq<Document>, t: int)
    requires SortedById(docs) && DistinctIds(docs)
    ensures StrictlyIncreasing(PostingList(docs, t))
    decreases |docs|
  {
    if docs != [] {
      var init, d := docs[..|docs| - 1], docs[|docs| - 1];
      PostingListIncreasing(init, t);
      if t in d.terms {
        forall k | 0 <= k < |init| ensures init[k].docId < d.docId {
          assert init[k] == docs[k];
        }
        PostingListBounded(init, t, d.docId);
        IncreasingSnoc(PostingList(init, t), d.docId);
        assert PostingList(docs, t) == PostingList(init, t) + [d.docId];
      } else {
        assert PostingList(docs, t) == PostingList(init, t);
      }
    }
  }

  /**
   * With distinct ids every gap is positive, so an encoder with no upper
   * bound accepts the whole collection.
   */
  lemma {:induction false} DistinctIdsNeverFail(e: Encoder, docs: seq<Document>)
    requires Unbounded(e) && DistinctIds(docs)
    ensures !Fails(e, SortByDocId(docs))
  {
    var sorted := SortByDocId(docs);
    DistinctIdsPermutation(docs, sorted);
    forall t ensures GapBits(e, PostingList(sorted, t)).Ok? {
      var list := PostingList(sorted, t);
      PostingListIncreasing(sorted, t);
      forall i | 0 <= i < |list| - 1 ensures CalcBits(e, Gap(list, i)).Ok? {
        UnboundedNeverFails(e, Gap(list, i));
      }
      GapBitsOk(e, list);
    }
  }

  /**
   * In an id-sorted list, two documents with the same id sharing a term put a
   * gap of zero into that term's posting list, which every encoder rejects.
   */
  lemma {:induction false} SortedEqualIdsFail(e: Encoder, s: seq<Document>, p: nat, q: nat, t: int)
    requires SortedById(s) && p < q < |s| && s[p].docId == s[q].docId
    requires t in s[p].terms && t in s[q].terms
    ensures Fails(e, s)
  {
    var before := s[..q];
    assert before[..p + 1][..p] == before[..p] && before[..p + 1][p] == s[p];
    assert PostingList(before[..p + 1], t) == PostingList(before[..p], t) + [s[p].docId];
    PostingListPrefix(before, p + 1, t);
    var list := PostingList(before, t);
    PostingListLastIsLargest(before, t);
    assert before[p] == s[p];
    NonPositiveRejected(e, s[q].docId - Last(list));
    assert s[..q + 1][..q] == before;
    assert PostingList(s[..q + 1], t) == list + [s[q].docId];
    GapBitsSnoc(e, list, s[q].docId);
    FailsPrefix(e, s, q + 1);
  }

  /** Two positions of a list reappear as two different positions of any permutation of it. */
  lemma {:induction false} TwoPositions(docs: seq<Document>, s: seq<Document>, i: nat, j: nat)
    requires multiset(docs) == multiset(s) && i < |docs| && j < |docs| && i != j
    ensures exists p, q :: 0 <= p < |s| && 0 <= q < |s| && p != q && s[p] == docs[i] && s[q] == docs[j]
  {
    assert docs[i] in multiset(s);
    var p :| 0 <= p < |s| && s[p] == docs[i];
    var q := SecondPosition(docs, s, i, j, p);
    assert s[p] == docs[i] && s[q] == docs[j];
  }

  /** Where docs[i] sits at p in the permutation, docs[j] sits at some other position. */
  lemma {:induction false} SecondPosition(docs: seq<Document>, s: seq<Document>, i: nat, j: nat, p: nat) returns (q: nat)
    requires multiset(docs) == multiset(s) && i < |docs| && j < |docs| && i != j
    requires p < |s| && s[p] == docs[i]
    ensures q < |s| && q != p && s[q] == docs[j]
  {
    var r, rs := RemoveAt(docs, i), RemoveAt(s, p);
    assert r[if j < i then j else j - 1] == docs[j];
    assert docs[j] in multiset(rs);
    var m :| 0 <= m < |rs| && rs[m] == docs[j];
    q := if m < p then m else m + 1;
  }

  /**
   * Two documents anywhere in the collection with the same id and a shared
   * term make every encoder fail on the sorted collection, so `compute`
   * reports an error whatever the encoder.
   */
  lemma {:induction false} EqualIdsSharingTermFail(e: Encoder, docs: seq<Document>, i: nat, j: nat, t: int)
    requires i < |docs| && j < |docs| && i != j && docs[i].docId == docs[j].docId
    requires t in docs[i].terms && t in docs[j].terms
    ensures Fails(e, SortByDocId(docs))
  {
    var s := SortByDocId(docs);
    TwoPositions(docs, s, i, j);
    var p, q :| 0 <= p < |s| && 0 <= q < |s| && p != q && s[p] == docs[i] && s[q] == docs[j];
    if p < q {
      SortedEqualIdsFail(e, s, p, q, t);
    } else {
      SortedEqualIdsFail(e, s, q, p, t);
    }
  }

  /** No two documents with the same id share a term. */
  ghost predicate EqualIdsDisjoint(docs: seq<Document>) {
    forall i, j :: 0 <= i < |docs| && 0 <= j < |docs| && i != j && docs[i].docId == docs[j].docId ==>
      docs[i].terms * docs[j].terms == {}
  }

  /** Every entry of a posting list is the id of a document containing the term. */
  lemma {:induction false} PostingListMembers(docs: seq<Document>, t: int, x: int)
    requires x in PostingList(docs, t)
    ensures exists k :: 0 <= k < |docs| && t in docs[k].terms && docs[k].docId == x
    decreases |docs|
  {
    var init, d := docs[..|docs| - 1], docs[|docs| - 1];
    if x in PostingList(init, t) {
      PostingListMembers(init, t, x);
      var k :| 0 <= k < |init| && t in init[k].terms && init[k].docId == x;
      assert docs[k] == init[k];
    } else {
      assert docs[|docs| - 1] == d;
    }
  }

  /** Sorted documents whose equal ids never share a term give strictly increasing posting lists. */
  lemma {:induction false} PostingListIncreasingWhenDisjoint(docs: seq<Document>, t: int)
    requires SortedById(docs) && EqualIdsDisjoint(docs)
    ensures StrictlyIncreasing(PostingList(docs, t))
    decreases |docs|
  {
    if docs != [] {
      var n := |docs|;
      var init, d := docs[..n - 1], docs[n - 1];
      assert EqualIdsDisjoint(init) by {
        forall i, j | 0 <= i < |init| && 0 <= j < |init| && i != j && init[i].docId == init[j].docId
          ensures init[i].terms * init[j].terms == {}
        {
          assert init[i] == docs[i] && init[j] == docs[j];
        }
      }
      PostingListIncreasingWhenDisjoint(init, t);
      if t in d.terms {
        forall x | x in PostingList(init, t) ensures x < d.docId {
          PostingListMembers(init, t, x);
          var k :| 0 <= k < |init| && t in init[k].terms && init[k].docId == x;
          assert init[k] == docs[k] && t in docs[k].terms * docs[n - 1].terms;
        }
        IncreasingSnoc(PostingList(init, t), d.docId);
        assert PostingList(docs, t) == PostingList(init, t) + [d.docId];
      } else {
        assert PostingList(docs, t) == PostingList(init, t);
      }
    }
  }

  /** The condition survives sorting. */
  lemma {:induction false} EqualIdsDisjointPermutation(docs: seq<Document>, s: seq<Document>)
    requires multiset(docs) == multiset(s) && EqualIdsDisjoint(docs)
    ensures EqualIdsDisjoint(s)
  {
    forall p, q | 0 <= p < |s| && 0 <= q < |s| && p != q && s[p].docId == s[q].docId
      ensures s[p].terms * s[q].terms == {}
    {
      TwoPositions(s, docs, p, q);
    }
  }

  /**
   * For variable byte, gamma and delta the cost computation fails exactly
   * when two documents with the same id share a term.
   */
  lemma {:induction false} UnboundedFailsExactly(e: Encoder, docs: seq<Document>)
    requires Unbounded(e)
    ensures Fails(e, SortByDocId(docs)) <==> !EqualIdsDisjoint(docs)
  {
    var sorted := SortByDocId(docs);
    if EqualIdsDisjoint(docs) {
      EqualIdsDisjointPermutation(docs, sorted);
      forall t ensures GapBits(e, PostingList(sorted, t)).Ok? {
        var list := PostingList(sorted, t);
        PostingListIncreasingWhenDisjoint(sorted, t);
        forall i | 0 <= i < |list| - 1 ensures CalcBits(e, Gap(list, i)).Ok? {
          UnboundedNeverFails(e, Gap(list, i));
        }
        GapBitsOk(e, list);
      }
    } else {
      var i, j :| 0 <= i < |docs| && 0 <= j < |docs| && i != j && docs[i].docId == docs[j].docId &&
                  docs[i].terms * docs[j].terms != {};
      NonEmptySetHasElement(docs[i].terms * docs[j].terms);
      var t :| t in docs[i].terms * docs[j].terms;
      EqualIdsSharingTermFail(e, docs, i, j, t);
    }
  }

  // ---------------------------------------------------------------------
  // `computeDGaps`: the cost under every encoder
  // ---------------------------------------------------------------------

  /** The encoders compared by the program: 32-bit fixed length, VB, gamma, delta. */
  const Encodings: seq<Encoder> := [FixedLength(4 * 8), VariableByte, EliasGamma, EliasDelta]

  /** The four encoders are distinct, so the resulting map has four entries. */
  lemma {:induction false} EncodingsDistinct()
    ensures forall i, j :: 0 <= i < j < |Encodings| ==> Encodings[i] != Encodings[j]
    ensures |set e | e in Encodings| == 4
  {
    assert (set e | e in Encodings) == {FixedLength(32), VariableByte, EliasGamma, EliasDelta};
  }

  /**
   * `computeDGaps`: associates each encoder with the cost of the collection
   * under it; the first encoder that rejects a gap aborts the whole
   * computation.
   */
  method ComputeDGaps(docs: seq<Document>, encoders: seq<Encoder>)
    returns (r: Result<map<Encoder, int>, EncodeError>)
    ensures r.Err? ==> exists e :: e in encoders && Fails(e, SortByDocId(docs))
    ensures r.Ok? ==> forall e :: e in r.value <==> e in encoders
    ensures r.Ok? ==> forall e :: e in r.value ==>
              !Fails(e, SortByDocId(docs)) && r.value[e] == TotalBits(e, SortByDocId(docs))
  {
    var result: map<Encoder, int> := map[];
    for k := 0 to |encoders|
      invariant forall e :: e in result <==> e in encoders[..k]
      invariant forall e :: e in result ==>
                  !Fails(e, SortByDocId(docs)) && result[e] == TotalBits(e, SortByDocId(docs))
    {
      var bits := Compute(docs, encoders[k]);
      if bits.Err? {
        assert encoders[k] in encoders && Fails(encoders[k], SortByDocId(docs));
        return Err(bits.error);
      }
      result := result[encoders[k] := bits.value];
      assert encoders[..k + 1] == encoders[..k] + [encoders[k]];
    }
    assert encoders[..|encoders|] == encoders;
    r := Ok(result);
  }
}

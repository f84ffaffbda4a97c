/**
 * The term dictionary: a counter and a map handing out ids 1, 2, 3, ... to
 * terms in the order they are first seen.
 */
module Terms {

  /**
   * The dictionary invariant: ids are in 1..last, no two terms share an id,
   * and there are exactly `last` terms.
   */
  ghost predicate Dictionary(m: map<string, int>, last: int) {
    && (forall t :: t in m ==> 1 <= m[t] <= last)
    && (forall t, u :: t in m && u in m && t != u ==> m[t] != m[u])
    && |m| == last
  }

  /** One `getOrPut` on a (map, counter) pair: a known term keeps its id, a new one gets last + 1. */
  function Register(m: map<string, int>, last: int, term: string): (r: (map<string, int>, int))
    ensures term in r.0 && r.0.Keys == m.Keys + {term}
    ensures forall t :: t in m ==> r.0[t] == m[t]
    ensures term in m ==> r == (m, last)
    ensures term !in m ==> r.1 == last + 1 && r.0[term] == last + 1
  {
    if term in m then (m, last) else (m[term := last + 1], last + 1)
  }

  /** Registering a term keeps the dictionary invariant. */
  lemma {:induction false} RegisterKeepsDictionary(m: map<string, int>, last: int, term: string)
    requires Dictionary(m, last)
    ensures Dictionary(Register(m, last, term).0, Register(m, last, term).1)
  {
    if term !in m {
      assert |m[term := last + 1]| == |m| + 1;
    }
  }

  /** Registering a list of terms from left to right. */
  function RegisterAll(m: map<string, int>, last: int, ts: seq<string>): (map<string, int>, int)
    decreases |ts|
  {
    if ts == [] then (m, last)
    else
      var s := Register(m, last, ts[0]);
      RegisterAll(s.0, s.1, ts[1..])
  }

  /** Registering a list keeps the dictionary invariant. */
  lemma {:induction false} RegisterAllKeepsDictionary(m: map<string, int>, last: int, ts: seq<string>)
    requires Dictionary(m, last)
    ensures Dictionary(RegisterAll(m, last, ts).0, RegisterAll(m, last, ts).1)
    decreases |ts|
  {
    if ts != [] {
      RegisterKeepsDictionary(m, last, ts[0]);
      var s := Register(m, last, ts[0]);
      RegisterAllKeepsDictionary(s.0, s.1, ts[1..]);
    }
  }

  /** The distinct strings of ts. */
  function Strings(ts: seq<string>): (r: set<string>)
    ensures forall t :: t in r <==> t in ts
  {
    if ts == [] then {} else {ts[0]} + Strings(ts[1..])
  }

  /** After registering ts, the keys are the old keys plus the strings of ts. */
  lemma {:induction false} RegisterAllKeys(m: map<string, int>, last: int, ts: seq<string>)
    ensures RegisterAll(m, last, ts).0.Keys == m.Keys + Strings(ts)
    decreases |ts|
  {
    if ts != [] {
      var s := Register(m, last, ts[0]);
      RegisterAllKeys(s.0, s.1, ts[1..]);
    }
  }

  /** Registering never changes the id of a term already known. */
  lemma {:induction false} RegisterAllKeeps(m: map<string, int>, last: int, ts: seq<string>, t: string)
    requires t in m
    ensures t in RegisterAll(m, last, ts).0 && RegisterAll(m, last, ts).0[t] == m[t]
    decreases |ts|
  {
    if ts != [] {
      var s := Register(m, last, ts[0]);
      RegisterAllKeeps(s.0, s.1, ts[1..], t);
    }
  }

  /** The counter grows by the number of strings of ts not known before. */
  lemma {:induction false} RegisterAllCount(m: map<string, int>, last: int, ts: seq<string>)
    ensures RegisterAll(m, last, ts).1 == last + |Strings(ts) - m.Keys|
    decreases |ts|
  {
    if ts != [] {
      var s := Register(m, last, ts[0]);
      RegisterAllCount(s.0, s.1, ts[1..]);
      NewStrings(m.Keys, s.0.Keys, ts);
    }
  }

  /** Counting the new strings of ts one head at a time. */
  lemma {:induction false} NewStrings(keys: set<string>, keys': set<string>, ts: seq<string>)
    requires ts != [] && keys' == keys + {ts[0]}
    ensures |Strings(ts) - keys| == |Strings(ts[1..]) - keys'| + (if ts[0] in keys then 0 else 1)
  {
    var added, rest := Strings(ts) - keys, Strings(ts[1..]) - keys';
    if ts[0] in keys {
      assert added == rest;
    } else {
      assert added == rest + {ts[0]};
    }
  }

  /** The ids of the strings of ts (all of them known to m). */
  function IdsOf(m: map<string, int>, ts: seq<string>): set<int>
    requires forall t :: t in ts ==> t in m
  {
    set t | t in ts :: m[t]
  }

  /** `toTermIds` yields as many ids as there are distinct strings. */
  lemma {:induction false} IdsOfSize(m: map<string, int>, last: int, ts: seq<string>)
    requires Dictionary(m, last) && forall t :: t in ts ==> t in m
    ensures |IdsOf(m, ts)| == |Strings(ts)|
  {
    ImageSize(m, last, Strings(ts));
    assert IdsOf(m, ts) == Image(m, Strings(ts));
  }

  /** The ids of the terms of s. */
  function Image(m: map<string, int>, s: set<string>): set<int>
    requires s <= m.Keys
  {
    set t | t in s :: m[t]
  }

  /** An injective map sends a set of keys to a set of ids of the same size. */
  lemma {:induction false} ImageSize(m: map<string, int>, last: int, s: set<string>)
    requires Dictionary(m, last) && s <= m.Keys
    ensures |Image(m, s)| == |s|
    decreases |s|
  {
    if s != {} {
      NonEmptyHasElement(s);
      var x :| x in s;
      ImageSize(m, last, s - {x});
      assert Image(m, s) == Image(m, s - {x}) + {m[x]};
      assert m[x] !in Image(m, s - {x});
    }
  }

  lemma {:induction false} NonEmptyHasElement(s: set<string>)
    requires s != {}
    ensures exists x :: x in s
  {
    if forall x :: x !in s {
      assert false;
    }
  }

  /** The ids in use are exactly 1..last. */
  lemma {:induction false} IdsAreDense(m: map<string, int>, last: int)
    requires Dictionary(m, last)
    ensures m.Values == Range(last)
  {
    ImageSize(m, last, m.Keys);
    assert Image(m, m.Keys) == m.Values;
    RangeSize(last);
    assert m.Values <= Range(last);
    SubsetSameSize(m.Values, Range(last));
  }

  /** The integers 1..n. */
  function Range(n: int): (r: set<int>)
    ensures forall i :: i in r <==> 1 <= i <= n
    decreases if n < 0 then 0 else n
  {
    if n <= 0 then {} else Range(n - 1) + {n}
  }

  lemma {:induction false} RangeSize(n: nat)
    ensures |Range(n)| == n
  {
    if n > 0 {
      RangeSize(n - 1);
    }
  }

  lemma {:induction false} SubsetSameSize(a: set<int>, b: set<int>)
    requires a <= b && |a| == |b|
    ensures a == b
  {
    assert |b - a| == |b| - |a|;
  }

  /** One iteration of `toTermIds` keeps its loop invariant. */
  lemma {:induction false} ToTermIdsStep(m0: map<string, int>, last0: int, ts: seq<string>, i: nat,
                      m: map<string, int>, last: int, m': map<string, int>, last': int,
                      ids: set<int>, id: int)
    requires i < |ts|
    requires (m', last') == Register(m, last, ts[i]) && id == m'[ts[i]]
    requires RegisterAll(m0, last0, ts) == RegisterAll(m, last, ts[i..])
    requires forall t :: t in ts[..i] ==> t in m
    requires ids == IdsOf(m, ts[..i])
    ensures RegisterAll(m0, last0, ts) == RegisterAll(m', last', ts[i + 1..])
    ensures forall t :: t in ts[..i + 1] ==> t in m'
    ensures ids + {id} == IdsOf(m', ts[..i + 1])
  {
    RegisterAllStep(m, last, ts, i);
    PrefixStep(m, m', ts, i);
  }

  lemma {:induction false} PrefixStep(m: map<string, int>, m': map<string, int>, ts: seq<string>, i: nat)
    requires i < |ts| && forall t :: t in ts[..i] ==> t in m
    requires ts[i] in m' && forall u :: u in m ==> u in m' && m'[u] == m[u]
    ensures forall t :: t in ts[..i + 1] ==> t in m'
    ensures IdsOf(m', ts[..i + 1]) == IdsOf(m, ts[..i]) + {m'[ts[i]]}
  {
    assert ts[..i + 1] == ts[..i] + [ts[i]];
    IdsOfSnoc(m, m', ts[..i], ts[i]);
  }

  lemma {:induction false} RegisterAllStep(m: map<string, int>, last: int, ts: seq<string>, i: nat)
    requires i < |ts|
    ensures RegisterAll(m, last, ts[i..]) ==
            RegisterAll(Register(m, last, ts[i]).0, Register(m, last, ts[i]).1, ts[i + 1..])
  {
    assert ts[i..][1..] == ts[i + 1..];
  }

  lemma {:induction false} IdsOfSnoc(m: map<string, int>, m': map<string, int>, ts: seq<string>, t: string)
    requires forall u :: u in ts ==> u in m
    requires t in m' && forall u :: u in m ==> u in m' && m'[u] == m[u]
    ensures IdsOf(m', ts + [t]) == IdsOf(m, ts) + {m'[t]}
  {
  }

  /** Registering a + b is registering a, then b. */
  lemma {:induction false} RegisterAllAppend(m: map<string, int>, last: int, a: seq<string>, b: seq<string>)
    ensures RegisterAll(m, last, a + b) ==
            RegisterAll(RegisterAll(m, last, a).0, RegisterAll(m, last, a).1, b)
    decreases |a|
  {
    if a != [] {
      assert (a + b)[0] == a[0] && (a + b)[1..] == a[1..] + b;
      var s := Register(m, last, a[0]);
      RegisterAllAppend(s.0, s.1, a[1..], b);
    } else {
      assert a + b == b;
    }
  }

  /**
   * Ids are handed out in first-seen order: the first occurrence of a string
   * new to the dictionary gets the counter, plus the number of new strings
   * seen before it, plus one.
   */
  lemma {:induction false} FirstSeenOrder(m: map<string, int>, last: int, ts: seq<string>, j: nat)
    requires j < |ts| && ts[j] !in m && ts[j] !in ts[..j]
    ensures ts[j] in RegisterAll(m, last, ts).0
    ensures RegisterAll(m, last, ts).0[ts[j]] == last + |Strings(ts[..j]) - m.Keys| + 1
  {
    var before := RegisterAll(m, last, ts[..j]);
    assert ts == ts[..j] + ts[j..];
    RegisterAllAppend(m, last, ts[..j], ts[j..]);
    RegisterAllCount(m, last, ts[..j]);
    RegisterAllKeys(m, last, ts[..j]);
    RegisterAllStep(before.0, before.1, ts, j);
    var after := Register(before.0, before.1, ts[j]);
    RegisterAllKeeps(after.0, after.1, ts[j + 1..], ts[j]);
  }

  /** An example: a repeated term keeps the id of its first occurrence. */
  lemma {:induction false} FirstSeenExample()
    ensures RegisterAll(map[], 0, ["to", "be", "or", "not", "to", "be"]) ==
              (map["to" := 1, "be" := 2, "or" := 3, "not" := 4], 4)
  {
  }

  /** The term dictionary of one file. */
  class Terms {
    var lastTermId: int
    var terms: map<string, int>

    ghost predicate Valid()
      reads this
    {
      Dictionary(terms, lastTermId)
    }

    constructor()
      ensures Valid() && lastTermId == 0 && terms == map[]
    {
      lastTermId := 0;
      terms := map[];
    }

    /** `getTermId`: the stored id of a known term, or the next id for a new one. */
    method GetTermId(term: string) returns (id: int)
      requires Valid()
      modifies this
      ensures Valid()
      ensures (terms, lastTermId) == Register(old(terms), old(lastTermId), term)
      ensures id == terms[term]
      ensures term in old(terms) ==> id == old(terms)[term]
      ensures term !in old(terms) ==> id == old(lastTermId) + 1
    {
      RegisterKeepsDictionary(terms, lastTermId, term);
      if term in terms {
        id := terms[term];
      } else {
        lastTermId := lastTermId + 1;
        terms := terms[term := lastTermId];
        id := lastTermId;
      }
    }

    /** `toTermIds`: the set of the ids of ts, registering the new strings in order. */
    method ToTermIds(ts: seq<string>) returns (ids: set<int>)
      requires Valid()
      modifies this
      ensures Valid()
      ensures (terms, lastTermId) == RegisterAll(old(terms), old(lastTermId), ts)
      ensures terms.Keys == old(terms).Keys + Strings(ts)
      ensures ids == IdsOf(terms, ts) && |ids| == |Strings(ts)|
    {
      ghost var m0, last0 := terms, lastTermId;
      ids := {};
      for i := 0 to |ts|
        invariant Valid()
        invariant RegisterAll(m0, last0, ts) == RegisterAll(terms, lastTermId, ts[i..])
        invariant forall t :: t in ts[..i] ==> t in terms
        invariant ids == IdsOf(terms, ts[..i])
      {
        ghost var before, beforeLast := terms, lastTermId;
        var id := GetTermId(ts[i]);
        ToTermIdsStep(m0, last0, ts, i, before, beforeLast, terms, lastTermId, ids, id);
        ids := ids + {id};
      }
      assert ts[..|ts|] == ts;
      RegisterAllKeys(m0, last0, ts);
      IdsOfSize(terms, lastTermId, ts);
    }
  }
}

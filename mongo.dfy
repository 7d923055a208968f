/**
 * The part of the document store the handlers rely on: document ids, the
 * validation error a schema raises, and the `.sort(...)` of a query.
 */
module Mongo {

  /** A document id (an ObjectId in the store). */
  type Id = nat

  /** Raised by `Model.create` or `doc.save()` when a schema validator fails. */
  datatype ValidationError = ValidationError

  /** Entry `(i, a)` may be listed before `(j, b)`: smaller key first, equal keys by smaller id. */
  predicate Precedes<V>(key: V -> int, i: Id, a: V, j: Id, b: V) {
    key(a) < key(b) || (key(a) == key(b) && i <= j)
  }

  /** `k` is the entry of `m` that a query sorted by `key` returns first. */
  predicate IsFirst<V>(key: V -> int, m: map<Id, V>, k: Id) {
    k in m && forall j :: j in m ==> Precedes(key, k, m[k], j, m[j])
  }

  /** Every entry of `s` comes before every later one, and no id repeats. */
  predicate Ordered<V>(key: V -> int, s: seq<(Id, V)>) {
    forall i, j :: 0 <= i < j < |s| ==> s[i].0 != s[j].0 && Precedes(key, s[i].0, s[i].1, s[j].0, s[j].1)
  }

  /** A non-empty collection has a first entry. */
  lemma {:induction false} FirstExists<V>(key: V -> int, m: map<Id, V>)
    requires m != map[]
    ensures exists k: Id :: IsFirst(key, m, k)
    decreases |m|
  {
    var x: Id :| x in m;
    var rest := m - {x};
    assert forall j: Id :: j in m && j != x ==> j in rest && rest[j] == m[j];
    if rest == map[] {
      assert IsFirst(key, m, x);
    } else {
      FirstExists(key, rest);
      var k: Id :| IsFirst(key, rest, k);
      if Precedes(key, k, m[k], x, m[x]) {
        forall j: Id | j in m ensures Precedes(key, k, m[k], j, m[j]) {
          if j != x { assert j in rest; }
        }
        assert IsFirst(key, m, k);
      } else {
        forall j: Id | j in m ensures Precedes(key, x, m[x], j, m[j]) {
          if j != x { assert j in rest && Precedes(key, k, rest[k], j, rest[j]); }
        }
        assert IsFirst(key, m, x);
      }
    }
  }

  /** Every entry of `s` is an entry of `m`. */
  ghost predicate EntriesOf<V>(m: map<Id, V>, s: seq<(Id, V)>) {
    forall i :: 0 <= i < |s| ==> s[i].0 in m && m[s[i].0] == s[i].1
  }

  /** Every entry of `m` appears in `s`. */
  ghost predicate Covers<V>(m: map<Id, V>, s: seq<(Id, V)>) {
    forall k :: k in m ==> (k, m[k]) in s
  }

  /** The entries of `m`, each once, sorted by `key` ascending and then by id. */
  function SortBy<V>(m: map<Id, V>, key: V -> int): (r: seq<(Id, V)>)
    ensures |r| == |m|
    ensures EntriesOf(m, r) && Covers(m, r)
    ensures Ordered(key, r)
    decreases |m|
  {
    if m == map[] then []
    else
      FirstExists(key, m);
      var k: Id :| IsFirst(key, m, k);
      var tail := SortBy(m - {k}, key);
      ConsSorted(key, m, k, tail);
      [(k, m[k])] + tail
  }

  /** Putting the first entry in front of the sorted rest lists the whole collection in order. */
  lemma ConsSorted<V>(key: V -> int, m: map<Id, V>, k: Id, tail: seq<(Id, V)>)
    requires IsFirst(key, m, k)
    requires EntriesOf(m - {k}, tail) && Covers(m - {k}, tail) && Ordered(key, tail)
    ensures EntriesOf(m, [(k, m[k])] + tail) && Covers(m, [(k, m[k])] + tail)
    ensures Ordered(key, [(k, m[k])] + tail)
  {
    var rest := m - {k};
    var r := [(k, m[k])] + tail;
    forall i | 0 <= i < |tail| ensures tail[i].0 in m && tail[i].0 != k && m[tail[i].0] == tail[i].1 {
      assert tail[i].0 in rest;
    }
    forall i | 0 <= i < |r| ensures r[i].0 in m && m[r[i].0] == r[i].1 {
      if i > 0 { assert r[i] == tail[i - 1]; }
    }
    forall j: Id | j in m ensures (j, m[j]) in r {
      if j != k { assert j in rest && (j, rest[j]) in tail; }
    }
    forall i, j | 0 <= i < j < |r|
      ensures r[i].0 != r[j].0 && Precedes(key, r[i].0, r[i].1, r[j].0, r[j].1)
    {
      assert r[j] == tail[j - 1];
      if i > 0 { assert r[i] == tail[i - 1]; }
    }
  }

  /** The query returns the first entry, then the rest sorted. */
  lemma SortByFirst<V>(m: map<Id, V>, key: V -> int, k: Id)
    requires IsFirst(key, m, k)
    ensures SortBy(m, key) == [(k, m[k])] + SortBy(m - {k}, key)
  {
  }

  /** Inserting an entry whose key is below every stored one puts it at the head of the listing. */
  lemma SortByInsertFirst<V>(m: map<Id, V>, key: V -> int, k: Id, v: V)
    requires k !in m
    requires forall j :: j in m ==> key(v) < key(m[j])
    ensures SortBy(m[k := v], key) == [(k, v)] + SortBy(m, key)
  {
    assert IsFirst(key, m[k := v], k);
    SortByFirst(m[k := v], key, k);
    RemoveUpdated(m, k, v);
    assert m - {k} == m;
  }

  /** `s` with the value stored under id `k` replaced by `v`, positions kept. */
  function Replaced<V>(s: seq<(Id, V)>, k: Id, v: V): (r: seq<(Id, V)>)
    ensures |r| == |s|
    ensures forall i :: 0 <= i < |s| ==> r[i].0 == s[i].0 && r[i].1 == (if s[i].0 == k then v else s[i].1)
  {
    seq(|s|, i requires 0 <= i < |s| => if s[i].0 == k then (k, v) else s[i])
  }

  /**
   * Changing a stored value without changing its sort key leaves the listing
   * in the same order, with the new value in the old one's place.
   */
  lemma {:induction false} SortByReplace<V>(m: map<Id, V>, key: V -> int, k: Id, v: V)
    requires k in m && key(v) == key(m[k])
    ensures SortBy(m[k := v], key) == Replaced(SortBy(m, key), k, v)
    decreases |m|
  {
    FirstExists(key, m);
    var f: Id :| IsFirst(key, m, f);
    var m' := m[k := v];
    assert IsFirst(key, m', f) by {
      forall j: Id | j in m' ensures Precedes(key, f, m'[f], j, m'[j]) {
        assert key(m'[f]) == key(m[f]) && key(m'[j]) == key(m[j]);
      }
    }
    var tail, tail' := SortBy(m - {f}, key), SortBy(m' - {f}, key);
    assert tail' == Replaced(tail, k, v) by {
      if f == k {
        RemoveUpdated(m, k, v);
        ReplacedAbsent(m - {f}, tail, k, v);
      } else {
        RemoveOther(m, f, k, v);
        SortByReplace(m - {f}, key, k, v);
      }
    }
    assert SortBy(m, key) == [(f, m[f])] + tail by { SortByFirst(m, key, f); }
    assert SortBy(m', key) == [(f, m'[f])] + tail' by { SortByFirst(m', key, f); }
    ReplacedCons(f, m[f], m'[f], tail, k, v);
  }

  lemma ReplacedAbsent<V>(m: map<Id, V>, s: seq<(Id, V)>, k: Id, v: V)
    requires EntriesOf(m, s) && k !in m
    ensures Replaced(s, k, v) == s
  {
    var r := Replaced(s, k, v);
    forall i | 0 <= i < |s| ensures r[i] == s[i] {
      assert s[i].0 in m;
    }
  }

  lemma RemoveUpdated<V>(m: map<Id, V>, k: Id, v: V)
    ensures m[k := v] - {k} == m - {k}
  {
  }

  lemma RemoveOther<V>(m: map<Id, V>, f: Id, k: Id, v: V)
    requires f != k
    ensures m[k := v] - {f} == (m - {f})[k := v]
  {
  }

  lemma ReplacedCons<V>(f: Id, a: V, b: V, tail: seq<(Id, V)>, k: Id, v: V)
    requires b == (if f == k then v else a)
    ensures Replaced([(f, a)] + tail, k, v) == [(f, b)] + Replaced(tail, k, v)
  {
    var l, r := Replaced([(f, a)] + tail, k, v), [(f, b)] + Replaced(tail, k, v);
    assert |l| == |r|;
    forall i | 0 <= i < |l| ensures l[i] == r[i] {
      if i > 0 { assert ([(f, a)] + tail)[i] == tail[i - 1]; }
    }
  }
}

/**
 * Rust's `BTreeMap` keyed by paths, as an association list kept in ascending
 * key order. Keys compare as strings, character by character.
 */
module SortedMap {
  import opened Wrappers

  /** Strict lexicographic order on strings. */
  predicate Below(a: string, b: string)
    decreases |a|
  {
    if |a| == 0 then |b| > 0
    else if |b| == 0 then false
    else a[0] < b[0] || (a[0] == b[0] && Below(a[1..], b[1..]))
  }

  lemma {:induction false} BelowIrreflexive(a: string)
    ensures !Below(a, a)
    decreases |a|
  {
    if |a| > 0 {
      BelowIrreflexive(a[1..]);
    }
  }

  lemma {:induction false} BelowTransitive(a: string, b: string, c: string)
    ensures Below(a, b) && Below(b, c) ==> Below(a, c)
    decreases |a|
  {
    if |a| > 0 && |b| > 0 && |c| > 0 {
      BelowTransitive(a[1..], b[1..], c[1..]);
    }
  }

  lemma {:induction false} BelowTotal(a: string, b: string)
    ensures a == b || Below(a, b) || Below(b, a)
    decreases |a|
  {
    if |a| > 0 && |b| > 0 && a[0] == b[0] {
      BelowTotal(a[1..], b[1..]);
      if a[1..] == b[1..] {
        assert a == [a[0]] + a[1..] && b == [b[0]] + b[1..];
      }
    }
  }

  /** Entries in strictly ascending key order: each key once. */
  predicate Sorted<V>(es: seq<(string, V)>)
  {
    forall i, j :: 0 <= i < j < |es| ==> Below(es[i].0, es[j].0)
  }

  function Keys<V>(es: seq<(string, V)>): (r: seq<string>)
    ensures |r| == |es| && forall i :: 0 <= i < |es| ==> r[i] == es[i].0
  {
    seq(|es|, i requires 0 <= i < |es| => es[i].0)
  }

  /** The value stored under `k`, if any. */
  function Get<V>(es: seq<(string, V)>, k: string): (r: Option<V>)
    ensures r.Some? <==> exists i :: 0 <= i < |es| && es[i].0 == k
    ensures r.Some? ==> exists i :: 0 <= i < |es| && es[i] == (k, r.value)
  {
    if es == [] then None
    else if es[0].0 == k then Some(es[0].1)
    else Get(es[1..], k)
  }

  /** In a sorted map the entry for a key is the one `Get` finds. */
  lemma {:induction false} GetSorted<V>(es: seq<(string, V)>, i: nat)
    requires Sorted(es) && i < |es|
    ensures Get(es, es[i].0) == Some(es[i].1)
  {
    if i > 0 {
      assert Below(es[0].0, es[i].0);
      BelowIrreflexive(es[0].0);
      assert Sorted(es[1..]);
      GetSorted(es[1..], i - 1);
    }
  }

  /** `insert`: the map with `k` bound to `v`, replacing any earlier value, kept sorted. */
  function Insert<V>(es: seq<(string, V)>, k: string, v: V): (r: seq<(string, V)>)
    requires Sorted(es)
    ensures Sorted(r)
    ensures Get(r, k) == Some(v)
    ensures forall k' :: k' != k ==> Get(r, k') == Get(es, k')
    decreases |es|
  {
    if es == [] then [(k, v)]
    else if es[0].0 == k then
      assert Sorted(es[1..]);
      [(k, v)] + es[1..]
    else if Below(k, es[0].0) then
      assert forall j :: 0 <= j < |es| ==> Below(k, es[j].0) by {
        forall j | 0 <= j < |es| ensures Below(k, es[j].0) {
          BelowTransitive(k, es[0].0, es[j].0);
        }
      }
      [(k, v)] + es
    else
      assert Sorted(es[1..]);
      var rest := Insert(es[1..], k, v);
      InsertBelow(es[0].0, es[1..], k, v, rest);
      [es[0]] + rest
  }

  /** A key below every key of a map and below `k` stays below every key after inserting `k`. */
  lemma InsertBelow<V>(first: string, es: seq<(string, V)>, k: string, v: V, rest: seq<(string, V)>)
    requires !Below(k, first) && first != k
    requires forall j :: 0 <= j < |es| ==> Below(first, es[j].0)
    requires Get(rest, k) == Some(v) && forall k' :: k' != k ==> Get(rest, k') == Get(es, k')
    ensures forall j :: 0 <= j < |rest| ==> Below(first, rest[j].0)
  {
    BelowTotal(k, first);
    forall j | 0 <= j < |rest| ensures Below(first, rest[j].0) {
      var key := rest[j].0;
      assert Get(rest, key).Some?;
      if key != k {
        assert Get(es, key).Some?;
      }
    }
  }

  /** The value the last pair for `k` carries, if any: what `collect` keeps when a key repeats. */
  function LastValue<V>(ps: seq<(string, V)>, k: string): (r: Option<V>)
    ensures r.Some? <==> exists i :: 0 <= i < |ps| && ps[i].0 == k
    decreases |ps|
  {
    if ps == [] then None
    else if ps[|ps| - 1].0 == k then Some(ps[|ps| - 1].1)
    else LastValue(ps[..|ps| - 1], k)
  }

  /** `collect` into a `BTreeMap`: the pairs inserted one after another. */
  function FromPairs<V>(ps: seq<(string, V)>): (r: seq<(string, V)>)
    ensures Sorted(r)
    ensures forall k :: Get(r, k) == LastValue(ps, k)
    decreases |ps|
  {
    if ps == [] then []
    else Insert(FromPairs(ps[..|ps| - 1]), ps[|ps| - 1].0, ps[|ps| - 1].1)
  }

  /** The entries whose key satisfies `p`, in order: `iter().filter(..).collect()`. */
  function Restrict<V>(es: seq<(string, V)>, p: string -> bool): (r: seq<(string, V)>)
    ensures |r| <= |es|
    ensures forall i :: 0 <= i < |r| ==> r[i] in es && p(r[i].0)
    ensures forall i :: 0 <= i < |es| && p(es[i].0) ==> es[i] in r
    decreases |es|
  {
    if es == [] then []
    else if p(es[0].0) then [es[0]] + Restrict(es[1..], p)
    else Restrict(es[1..], p)
  }

  /** Restricting a sorted map keeps it sorted. */
  lemma {:induction false} RestrictSorted<V>(es: seq<(string, V)>, p: string -> bool)
    requires Sorted(es)
    ensures Sorted(Restrict(es, p))
    decreases |es|
  {
    if es != [] {
      assert Sorted(es[1..]);
      RestrictSorted(es[1..], p);
      var rest := Restrict(es[1..], p);
      if p(es[0].0) {
        forall j | 0 <= j < |rest| ensures Below(es[0].0, rest[j].0) {
          assert rest[j] in es[1..];
        }
      }
    }
  }

  /** A key of a restricted map is looked up as before if it satisfies `p`, and is absent otherwise. */
  lemma {:induction false} RestrictGet<V>(es: seq<(string, V)>, p: string -> bool, k: string)
    ensures Get(Restrict(es, p), k) == if p(k) then Get(es, k) else None
    decreases |es|
  {
    if es != [] {
      RestrictGet(es[1..], p, k);
    }
  }

  /** The same keys in the same order, each value transformed. */
  function MapValues<V, W>(es: seq<(string, V)>, f: V -> W): (r: seq<(string, W)>)
    ensures |r| == |es| && forall i :: 0 <= i < |es| ==> r[i] == (es[i].0, f(es[i].1))
  {
    seq(|es|, i requires 0 <= i < |es| => (es[i].0, f(es[i].1)))
  }

  /** Looking up in a transformed map transforms the value found. */
  lemma {:induction false} MapValuesGet<V, W>(es: seq<(string, V)>, f: V -> W, k: string)
    ensures Get(MapValues(es, f), k) == if Get(es, k).Some? then Some(f(Get(es, k).value)) else None
    decreases |es|
  {
    if es != [] {
      assert MapValues(es, f)[1..] == MapValues(es[1..], f);
      MapValuesGet(es[1..], f, k);
    }
  }

  /** Transforming the values keeps the key order. */
  lemma MapValuesSorted<V, W>(es: seq<(string, V)>, f: V -> W)
    requires Sorted(es)
    ensures Sorted(MapValues(es, f))
  {
  }
}

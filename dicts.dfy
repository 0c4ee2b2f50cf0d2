/**
 Python's insertion-ordered `dict`, as the parsers use it.

 A dict is kept as the sequence of `d[k] = v` assignments that built it, oldest
 first. Looking a key up sees its latest assignment (`ToMap`); iterating sees
 every key once, at the position where it was first assigned (`Keys`). With
 this representation `d.update(e)` is `d + e` and `d[k] = v` is `d + [(k, v)]`.
 */
module Dicts {

  type Dict<K, V> = seq<(K, V)>

  /** The key/value view of a dict: the last assignment to a key wins. */
  function ToMap<K(==), V>(d: Dict<K, V>): map<K, V>
  {
    if d == [] then map[] else ToMap(d[..|d| - 1])[d[|d| - 1].0 := d[|d| - 1].1]
  }

  /** The iteration order of a dict: each key at the place of its first assignment. */
  function Keys<K(==), V>(d: Dict<K, V>): seq<K>
  {
    if d == [] then []
    else
      var ks := Keys(d[..|d| - 1]);
      if d[|d| - 1].0 in ks then ks else ks + [d[|d| - 1].0]
  }

  predicate Distinct<T(==)>(s: seq<T>)
  {
    forall i, j | 0 <= i < j < |s| :: s[i] != s[j]
  }

  /** The assignments of `e` to keys that `d` does not hold yet. */
  function Unseen<K(==), V>(e: Dict<K, V>, d: Dict<K, V>): Dict<K, V>
  {
    if e == [] then []
    else Unseen(e[..|e| - 1], d) + (if e[|e| - 1].0 in ToMap(d) then [] else [e[|e| - 1]])
  }

  /** Iteration visits each key of the dict exactly once. */
  lemma {:induction false} KeysAgree<K, V>(d: Dict<K, V>)
    ensures Distinct(Keys(d))
    ensures forall k :: k in Keys(d) <==> k in ToMap(d)
  {
    if d != [] {
      KeysAgree(d[..|d| - 1]);
    }
  }

  /** A key is held exactly when some assignment wrote it. */
  lemma {:induction false} InMap<K, V>(d: Dict<K, V>, k: K)
    ensures k in ToMap(d) <==> exists i :: 0 <= i < |d| && d[i].0 == k
  {
    if d != [] {
      var p := d[..|d| - 1];
      InMap(p, k);
      if k in ToMap(p) {
        var i :| 0 <= i < |p| && p[i].0 == k;
        assert d[i].0 == k;
      }
      if exists i :: 0 <= i < |d| && d[i].0 == k {
        var i :| 0 <= i < |d| && d[i].0 == k;
        if i < |p| {
          assert p[i].0 == k;
        }
      }
    }
  }

  /** The value of a key is the one its last assignment wrote. */
  lemma {:induction false} LastWins<K, V>(d: Dict<K, V>, i: nat)
    requires i < |d|
    requires forall j | i < j < |d| :: d[j].0 != d[i].0
    ensures d[i].0 in ToMap(d) && ToMap(d)[d[i].0] == d[i].1
  {
    if i < |d| - 1 {
      LastWins(d[..|d| - 1], i);
    }
  }

  /** `d.update(e)`: every pair of `e` overrides `d`. */
  lemma {:induction false} ToMapAppend<K, V>(d: Dict<K, V>, e: Dict<K, V>)
    ensures ToMap(d + e) == ToMap(d) + ToMap(e)
  {
    if e == [] {
      assert d + e == d;
    } else {
      var p := e[..|e| - 1];
      assert (d + e)[..|d + e| - 1] == d + p;
      ToMapAppend(d, p);
    }
  }

  /** `d.update(e)`: keys of `d` keep their places; keys new to `d` follow in the order `e` gives them. */
  lemma {:induction false} KeysAppend<K, V>(d: Dict<K, V>, e: Dict<K, V>)
    ensures Keys(d + e) == Keys(d) + Keys(Unseen(e, d))
  {
    if e == [] {
      assert d + e == d;
    } else {
      var p := e[..|e| - 1];
      var x := e[|e| - 1];
      assert (d + e)[..|d + e| - 1] == d + p;
      KeysAppend(d, p);
      KeysAgree(d);
      if x.0 in ToMap(d) {
        assert Unseen(e, d) == Unseen(p, d);
      } else {
        var u := Unseen(p, d);
        assert Unseen(e, d) == u + [x];
        assert (u + [x])[..|u + [x]| - 1] == u;
      }
    }
  }

  /** `d[k] = v` for a key `d` already holds: the iteration order stays, the value changes. */
  lemma Reassign<K, V>(d: Dict<K, V>, k: K, v: V)
    requires k in ToMap(d)
    ensures Keys(d + [(k, v)]) == Keys(d)
    ensures ToMap(d + [(k, v)]) == ToMap(d)[k := v]
  {
    assert (d + [(k, v)])[..|d|] == d;
    KeysAgree(d);
  }

  /** A dict whose assignments write distinct keys iterates them in assignment order. */
  lemma {:induction false} KeysOfDistinct<K, V>(d: Dict<K, V>)
    requires forall i, j | 0 <= i < j < |d| :: d[i].0 != d[j].0
    ensures Keys(d) == seq(|d|, i requires 0 <= i < |d| => d[i].0)
  {
    if d != [] {
      var p := d[..|d| - 1];
      KeysOfDistinct(p);
      KeysAgree(p);
      InMap(p, d[|d| - 1].0);
    }
  }
}

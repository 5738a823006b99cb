/**
 * The two ways the loaders fill a Python dictionary in one pass over a file:
 * plain assignment `d[k] = v` (the later line overwrites the earlier one) and
 * accumulation `d[k] = d.get(k, []); d[k].append(v)` (every line is kept, in
 * file order).
 */
module Dicts {

  /** The dictionary left by `d = {}` followed by `d[k] = v` for each pair, in order. */
  function Assign<K, V>(es: seq<(K, V)>): map<K, V>
    decreases |es|
  {
    if es == [] then map[]
    else Assign(es[..|es| - 1])[es[|es| - 1].0 := es[|es| - 1].1]
  }

  lemma AssignSnoc<K, V>(es: seq<(K, V)>, e: (K, V))
    ensures Assign(es + [e]) == Assign(es)[e.0 := e.1]
  {
    assert (es + [e])[..|es|] == es;
  }

  /**
   * Last write wins: the keys are exactly the keys assigned, and a key holds
   * the value of the last pair that assigns it.
   */
  lemma {:induction false} AssignLastWins<K, V>(es: seq<(K, V)>)
    ensures forall k :: k in Assign(es) ==> exists i :: 0 <= i < |es| && es[i].0 == k && es[i].1 == Assign(es)[k]
    ensures forall i :: 0 <= i < |es| ==> es[i].0 in Assign(es)
    ensures forall i :: 0 <= i < |es| && (forall j :: i < j < |es| ==> es[j].0 != es[i].0) ==>
                        es[i].0 in Assign(es) && Assign(es)[es[i].0] == es[i].1
    decreases |es|
  {
    if es != [] {
      var init, last := es[..|es| - 1], es[|es| - 1];
      AssignLastWins(init);
      assert es == init + [last];
      forall k | k in Assign(es) ensures exists i :: 0 <= i < |es| && es[i].0 == k && es[i].1 == Assign(es)[k] {
        if k != last.0 {
          assert k in Assign(init);
          var i :| 0 <= i < |init| && init[i].0 == k && init[i].1 == Assign(init)[k];
          assert es[i] == init[i];
        } else {
          assert es[|es| - 1].0 == k;
        }
      }
      forall i | 0 <= i < |es| ensures es[i].0 in Assign(es) {
        if i < |init| { assert init[i] == es[i]; }
      }
      forall i | 0 <= i < |es| && (forall j :: i < j < |es| ==> es[j].0 != es[i].0)
        ensures es[i].0 in Assign(es) && Assign(es)[es[i].0] == es[i].1
      {
        if i < |init| {
          assert init[i] == es[i];
          assert forall j :: i < j < |init| ==> init[j] == es[j];
        }
      }
    }
  }

  /** The keys assigned are exactly the keys of the pairs. */
  lemma AssignKeys<K, V>(es: seq<(K, V)>)
    ensures forall k :: k in Assign(es) ==> exists i :: 0 <= i < |es| && es[i].0 == k
    ensures forall i :: 0 <= i < |es| ==> es[i].0 in Assign(es)
  {
    AssignLastWins(es);
  }

  /** Assigning `a` then `b` is a merge in which `b` takes precedence. */
  lemma {:induction false} AssignConcat<K, V>(a: seq<(K, V)>, b: seq<(K, V)>)
    ensures Assign(a + b) == Assign(a) + Assign(b)
    decreases |b|
  {
    if b == [] {
      assert a + b == a;
    } else {
      var init, last := b[..|b| - 1], b[|b| - 1];
      AssignConcat(a, init);
      assert a + b == (a + init) + [last];
      AssignSnoc(a + init, last);
      assert b == init + [last];
      AssignSnoc(init, last);
    }
  }

  /** Distinct keys give one entry per pair. */
  lemma {:induction false} AssignSize<K, V>(es: seq<(K, V)>)
    requires forall i, j :: 0 <= i < j < |es| ==> es[i].0 != es[j].0
    ensures |Assign(es)| == |es|
    decreases |es|
  {
    if es != [] {
      var init, last := es[..|es| - 1], es[|es| - 1];
      AssignSize(init);
      AssignLastWins(init);
      assert last.0 !in Assign(init) by {
        forall i | 0 <= i < |init| ensures init[i].0 != last.0 {
          assert init[i] == es[i];
        }
      }
    }
  }

  /** Of two assignments to one key, the second stays. */
  lemma AssignPair<K, V>(k: K, a: V, b: V)
    ensures Assign([(k, a), (k, b)]) == map[k := b]
  {
    assert [(k, a), (k, b)][..1] == [(k, a)] && [(k, a)][..0] == [];
    var none: map<K, V> := map[];
    assert Assign([(k, a)]) == none[k := a];
    assert Assign([(k, a), (k, b)]) == none[k := a][k := b];
  }

  /** The dictionary left by `d = {}` followed by `d[k] = d.get(k, []); d[k].append(v)` for each pair. */
  function Accumulate<K, V>(es: seq<(K, V)>): map<K, seq<V>>
    decreases |es|
  {
    if es == [] then map[]
    else
      var m := Accumulate(es[..|es| - 1]);
      var k := es[|es| - 1].0;
      m[k := (if k in m then m[k] else []) + [es[|es| - 1].1]]
  }

  lemma AccumulateSnoc<K, V>(es: seq<(K, V)>, e: (K, V))
    ensures Accumulate(es + [e]) ==
              Accumulate(es)[e.0 := (if e.0 in Accumulate(es) then Accumulate(es)[e.0] else []) + [e.1]]
  {
    assert (es + [e])[..|es|] == es;
  }

  /** Two values appended under one key are both kept, in order. */
  lemma AccumulatePair<K, V>(k: K, a: V, b: V)
    ensures Accumulate([(k, a), (k, b)]) == map[k := [a, b]]
  {
    assert [(k, a), (k, b)][..1] == [(k, a)] && [(k, a)][..0] == [];
    var none: seq<V> := [];
    var empty: map<K, seq<V>> := map[];
    assert none + [a] == [a] && [a] + [b] == [a, b];
    assert Accumulate([(k, a)]) == empty[k := none + [a]];
    assert Accumulate([(k, a), (k, b)]) == empty[k := [a]][k := [a] + [b]];
  }

  /** The values paired with `k`, in order. */
  function ValuesFor<K(==), V>(es: seq<(K, V)>, k: K): seq<V>
    decreases |es|
  {
    if es == [] then []
    else ValuesFor(es[..|es| - 1], k) + (if es[|es| - 1].0 == k then [es[|es| - 1].1] else [])
  }

  /**
   * Nothing is overwritten: a key is present exactly when some pair has it,
   * and it holds every value paired with it, in order.
   */
  lemma {:induction false} AccumulateKeepsAll<K, V>(es: seq<(K, V)>)
    ensures forall k :: k in Accumulate(es) ==> exists i :: 0 <= i < |es| && es[i].0 == k
    ensures forall i :: 0 <= i < |es| ==> es[i].0 in Accumulate(es)
    ensures forall k :: k in Accumulate(es) ==> Accumulate(es)[k] == ValuesFor(es, k)
    ensures forall k :: k !in Accumulate(es) ==> ValuesFor(es, k) == []
    decreases |es|
  {
    if es != [] {
      var init, last := es[..|es| - 1], es[|es| - 1];
      AccumulateKeepsAll(init);
      assert es == init + [last];
      forall k | k in Accumulate(es) ensures exists i :: 0 <= i < |es| && es[i].0 == k {
        if k != last.0 {
          assert k in Accumulate(init);
          var i :| 0 <= i < |init| && init[i].0 == k;
          assert es[i].0 == k;
        } else {
          assert es[|es| - 1].0 == k;
        }
      }
      forall i | 0 <= i < |es| ensures es[i].0 in Accumulate(es) {
        if i < |init| { assert init[i] == es[i]; }
      }
    }
  }
}

/**
 * `itertools.groupby`, which both `asdict` (grouping lines by record
 * identifier) and `aplot` (grouping points by whether they are missing) use.
 */
module Itertools {

  /** One `(key, group)` pair that `groupby` yields, with the group as a list. */
  datatype Group<K, T> = Group(key: K, items: seq<T>)

  /** The groups' items laid end to end. */
  function Ungroup<K, T>(gs: seq<Group<K, T>>): seq<T>
    decreases |gs|
  {
    if gs == [] then [] else gs[0].items + Ungroup(gs[1..])
  }

  /** Every group is non-empty and all its items have the group's key. */
  ghost predicate Homogeneous<K, T>(gs: seq<Group<K, T>>, key: T -> K)
  {
    forall i :: 0 <= i < |gs| ==>
      |gs[i].items| > 0 && forall x :: x in gs[i].items ==> key(x) == gs[i].key
  }

  /** Neighbouring groups have different keys, so no group could be extended. */
  ghost predicate Maximal<K, T>(gs: seq<Group<K, T>>)
  {
    forall i :: 0 < i < |gs| ==> gs[i - 1].key != gs[i].key
  }

  /**
   * `groupby(s, key)`: the maximal runs of consecutive elements with equal
   * keys, in order; laid end to end they give back `s`.
   */
  function GroupBy<T, K(==)>(s: seq<T>, key: T -> K): (gs: seq<Group<K, T>>)
    ensures Ungroup(gs) == s
    ensures Homogeneous(gs, key)
    ensures Maximal(gs)
    ensures s != [] ==> |gs| > 0 && gs[0].key == key(s[0])
    decreases |s|
  {
    if s == [] then []
    else
      var rest := GroupBy(s[1..], key);
      if rest != [] && rest[0].key == key(s[0]) then
        var gs := [Group(rest[0].key, [s[0]] + rest[0].items)] + rest[1..];
        assert gs[1..] == rest[1..];
        assert s == [s[0]] + s[1..];
        gs
      else
        var gs := [Group(key(s[0]), [s[0]])] + rest;
        assert gs[1..] == rest;
        assert s == [s[0]] + s[1..];
        gs
  }

  /**
   * The three properties determine the grouping: any sequence of groups that
   * lays out `s`, is homogeneous and is maximal is `GroupBy(s, key)`.
   */
  lemma {:induction false} GroupByUnique<T, K>(s: seq<T>, key: T -> K, gs: seq<Group<K, T>>)
    requires Ungroup(gs) == s && Homogeneous(gs, key) && Maximal(gs)
    ensures gs == GroupBy(s, key)
    decreases |s|
  {
    if gs != [] {
      var g := gs[0];
      assert s == g.items + Ungroup(gs[1..]);
      assert s[0] == g.items[0];
      if |g.items| == 1 {
        var tail := gs[1..];
        assert Ungroup(tail) == s[1..];
        assert Homogeneous(tail, key) by {
          forall i | 0 <= i < |tail| ensures |tail[i].items| > 0 && forall x :: x in tail[i].items ==> key(x) == tail[i].key {
            assert tail[i] == gs[i + 1];
          }
        }
        assert Maximal(tail) by {
          forall i | 0 < i < |tail| ensures tail[i - 1].key != tail[i].key {
            assert tail[i - 1] == gs[i] && tail[i] == gs[i + 1];
          }
        }
        GroupByUnique(s[1..], key, tail);
        if tail != [] {
          assert tail[0] == gs[1];
          assert tail[0].items[0] in tail[0].items;
          assert s[1..][0] == tail[0].items[0];
          assert key(s[1..][0]) == tail[0].key;
        }
        assert g == Group(key(s[0]), [s[0]]);
        assert gs == [g] + tail;
      } else {
        var shorter := [Group(g.key, g.items[1..])] + gs[1..];
        assert shorter[1..] == gs[1..];
        assert Ungroup(shorter) == s[1..] by {
          assert g.items == [g.items[0]] + g.items[1..];
        }
        assert Homogeneous(shorter, key) by {
          forall i | 0 <= i < |shorter| ensures |shorter[i].items| > 0 && forall x :: x in shorter[i].items ==> key(x) == shorter[i].key {
            if i > 0 { assert shorter[i] == gs[i]; }
          }
        }
        assert Maximal(shorter) by {
          forall i | 0 < i < |shorter| ensures shorter[i - 1].key != shorter[i].key {
            assert shorter[i] == gs[i];
            if i > 1 { assert shorter[i - 1] == gs[i - 1]; }
          }
        }
        GroupByUnique(s[1..], key, shorter);
        assert g.items[1] in g.items;
        assert key(s[0]) == g.key;
        assert g.items == [s[0]] + shorter[0].items;
        assert gs == [Group(shorter[0].key, [s[0]] + shorter[0].items)] + shorter[1..];
      }
    }
  }

  /** Neighbours within one group are neighbours in the input, so any relation between input neighbours holds within groups. */
  lemma {:induction false} GroupsKeepPairs<K, T>(gs: seq<Group<K, T>>, rel: (T, T) -> bool)
    requires forall k :: 0 <= k < |Ungroup(gs)| - 1 ==> rel(Ungroup(gs)[k], Ungroup(gs)[k + 1])
    ensures forall j, k :: 0 <= j < |gs| && 0 <= k < |gs[j].items| - 1 ==> rel(gs[j].items[k], gs[j].items[k + 1])
    decreases |gs|
  {
    if gs != [] {
      var head, u, rest := gs[0].items, Ungroup(gs), Ungroup(gs[1..]);
      assert u == head + rest;
      forall k | 0 <= k < |rest| - 1 ensures rel(rest[k], rest[k + 1]) {
        assert rest[k] == u[|head| + k] && rest[k + 1] == u[|head| + k + 1];
      }
      GroupsKeepPairs(gs[1..], rel);
      forall j, k | 0 <= j < |gs| && 0 <= k < |gs[j].items| - 1 ensures rel(gs[j].items[k], gs[j].items[k + 1]) {
        if j == 0 {
          assert head[k] == u[k] && head[k + 1] == u[k + 1];
        } else {
          assert gs[j] == gs[1..][j - 1];
        }
      }
    }
  }
}

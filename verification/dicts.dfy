/** Python dicts kept as their key/value pairs in insertion order.

    A pair list may repeat a key (a JSON object text may); the dict Python
    builds from it keeps each key at its first position with its last value.
    Lookups here follow that rule everywhere. Keys are strings throughout:
    JSON object keys and row column names. */
module Dicts {
  import opened Options
  import opened Seqs

  /** The keys of `ps`, in order. */
  function Keys<V>(ps: seq<(string, V)>): (ks: seq<string>)
    ensures |ks| == |ps|
    ensures forall i :: 0 <= i < |ps| ==> ks[i] == ps[i].0
  {
    seq(|ps|, i requires 0 <= i < |ps| => ps[i].0)
  }

  /** No key occurs twice: the representation invariant of a dict. */
  predicate DistinctKeys<V>(ps: seq<(string, V)>)
  {
    forall i, j :: 0 <= i < j < |ps| ==> ps[i].0 != ps[j].0
  }

  lemma KeysOfPrefix<V>(ps: seq<(string, V)>)
    requires |ps| > 0
    ensures Keys(ps) == Keys(ps[..|ps| - 1]) + [ps[|ps| - 1].0]
  {
  }

  /** `d.get(k)`: the value of the LAST pair with key `k`, or None. */
  function Get<V>(ps: seq<(string, V)>, k: string): (r: Option<V>)
    ensures r.None? <==> k !in Keys(ps)
    ensures r.Some? ==> (k, r.value) in ps
  {
    if |ps| == 0 then None
    else
      KeysOfPrefix(ps);
      if ps[|ps| - 1].0 == k then Some(ps[|ps| - 1].1)
      else Get(ps[..|ps| - 1], k)
  }

  /** `get` returns the value of the last pair with the key: the last
      value wins. */
  lemma {:induction false} GetLast<V>(ps: seq<(string, V)>, k: string, i: nat)
    requires i < |ps| && ps[i].0 == k
    requires forall j :: i < j < |ps| ==> ps[j].0 != k
    ensures Get(ps, k) == Some(ps[i].1)
    decreases |ps|
  {
    if i < |ps| - 1 {
      GetLast(ps[..|ps| - 1], k, i);
    }
  }

  /** In a dict, the value stored at a key's position is what `get` returns. */
  lemma {:induction false} GetAt<V>(ps: seq<(string, V)>, i: nat)
    requires DistinctKeys(ps)
    requires i < |ps|
    ensures Get(ps, ps[i].0) == Some(ps[i].1)
    decreases |ps|
  {
    if i < |ps| - 1 {
      GetAt(ps[..|ps| - 1], i);
    }
  }

  /** The first position of `x` in `s`. */
  function IndexOf<T(==)>(s: seq<T>, x: T): (i: nat)
    requires x in s
    ensures i < |s| && s[i] == x
    ensures forall j :: 0 <= j < i ==> s[j] != x
  {
    if s[0] == x then 0 else 1 + IndexOf(s[1..], x)
  }

  /** What an in-place update at position `i` does to lookups. */
  lemma {:induction false} GetAfterReplace<V>(d: seq<(string, V)>, i: nat, v: V)
    requires DistinctKeys(d)
    requires i < |d|
    ensures DistinctKeys(d[i := (d[i].0, v)])
    ensures Get(d[i := (d[i].0, v)], d[i].0) == Some(v)
    ensures forall j :: j != d[i].0 ==> Get(d[i := (d[i].0, v)], j) == Get(d, j)
  {
    var r := d[i := (d[i].0, v)];
    assert Keys(r) == Keys(d);
    GetAt(r, i);
    forall j | j != d[i].0
      ensures Get(r, j) == Get(d, j)
    {
      if j in Keys(d) {
        var n := IndexOf(Keys(d), j);
        GetAt(r, n);
        GetAt(d, n);
      }
    }
  }

  /** What appending a new key does to lookups. */
  lemma {:induction false} GetAfterAppend<V>(d: seq<(string, V)>, k: string, v: V)
    requires DistinctKeys(d)
    requires k !in Keys(d)
    ensures DistinctKeys(d + [(k, v)])
    ensures Get(d + [(k, v)], k) == Some(v)
    ensures forall j :: j != k ==> Get(d + [(k, v)], j) == Get(d, j)
  {
    var r := d + [(k, v)];
    assert r[..|r| - 1] == d;
    forall i, j | 0 <= i < j < |r|
      ensures r[i].0 != r[j].0
    {
      if j == |r| - 1 {
        assert Keys(d)[i] == d[i].0;
      }
    }
  }

  /** `d[k] = v`: a present key keeps its position and takes the new value;
      a new key goes to the end. */
  function Set<V>(d: seq<(string, V)>, k: string, v: V): (r: seq<(string, V)>)
    requires DistinctKeys(d)
    ensures DistinctKeys(r)
    ensures k in Keys(d) ==> Keys(r) == Keys(d)
    ensures k !in Keys(d) ==> Keys(r) == Keys(d) + [k]
    ensures Get(r, k) == Some(v)
    ensures forall j :: j != k ==> Get(r, j) == Get(d, j)
  {
    if k in Keys(d) then
      var i := IndexOf(Keys(d), k);
      GetAfterReplace(d, i, v);
      assert Keys(d[i := (k, v)]) == Keys(d);
      d[i := (k, v)]
    else
      GetAfterAppend(d, k, v);
      d + [(k, v)]
  }

  /** `for k, v in ps: d[k] = v`, the assignments made in order. */
  function SetAll<V>(d: seq<(string, V)>, ps: seq<(string, V)>): (r: seq<(string, V)>)
    requires DistinctKeys(d)
    ensures DistinctKeys(r)
    decreases |ps|
  {
    if |ps| == 0 then d
    else Set(SetAll(d, ps[..|ps| - 1]), ps[|ps| - 1].0, ps[|ps| - 1].1)
  }

  /** After the assignments each key reads its last assigned value, or its
      old value when it was not assigned. */
  lemma {:induction false} SetAllGet<V>(d: seq<(string, V)>, ps: seq<(string, V)>, k: string)
    requires DistinctKeys(d)
    ensures Get(SetAll(d, ps), k) == if k in Keys(ps) then Get(ps, k) else Get(d, k)
    decreases |ps|
  {
    if |ps| > 0 {
      KeysOfPrefix(ps);
      SetAllGet(d, ps[..|ps| - 1], k);
    }
  }

  /** The old keys stay first and in place, and the key set is the union
      of the old and the assigned keys. */
  lemma {:induction false} SetAllKeys<V>(d: seq<(string, V)>, ps: seq<(string, V)>)
    requires DistinctKeys(d)
    ensures Keys(d) <= Keys(SetAll(d, ps))
    ensures forall k :: k in Keys(SetAll(d, ps)) <==> k in Keys(d) || k in Keys(ps)
    decreases |ps|
  {
    if |ps| > 0 {
      var init := ps[..|ps| - 1];
      var last := ps[|ps| - 1];
      KeysOfPrefix(ps);
      SetAllKeys(d, init);
      var before := SetAll(d, init);
      assert Keys(before) <= Keys(Set(before, last.0, last.1));
    }
  }

  /** When the assigned keys are distinct and new, they follow the old keys
      in assignment order. */
  lemma {:induction false} SetAllFreshKeys<V>(d: seq<(string, V)>, ps: seq<(string, V)>)
    requires DistinctKeys(d)
    requires DistinctKeys(ps)
    requires forall i :: 0 <= i < |ps| ==> ps[i].0 !in Keys(d)
    ensures Keys(SetAll(d, ps)) == Keys(d) + Keys(ps)
    decreases |ps|
  {
    if |ps| > 0 {
      var init := ps[..|ps| - 1];
      var last := ps[|ps| - 1];
      KeysOfPrefix(ps);
      SetAllFreshKeys(d, init);
      SetAllKeys(d, init);
      assert last.0 !in Keys(init);
      assert last.0 !in Keys(SetAll(d, init));
    }
  }

  /** Assigning the pairs of a dict to a dict holding only `k`: `k` stays
      first, and the other keys follow in order. */
  lemma {:induction false} SetAllOntoOne<V>(k: string, v: V, ps: seq<(string, V)>)
    requires DistinctKeys(ps)
    ensures Keys(SetAll([(k, v)], ps)) == [k] + Without(Keys(ps), k)
    decreases |ps|
  {
    var base := [(k, v)];
    assert Keys(base) == [k];
    if |ps| > 0 {
      var init := ps[..|ps| - 1];
      var last := ps[|ps| - 1];
      var ks := Keys(ps);
      KeysOfPrefix(ps);
      SetAllOntoOne(k, v, init);
      SetAllKeys(base, init);
      assert ks[..|ks| - 1] == Keys(init);
      assert ks[|ks| - 1] == last.0;
      if last.0 != k {
        assert last.0 !in Keys(init) by {
          forall i | 0 <= i < |init|
            ensures Keys(init)[i] != last.0
          {
            assert ps[i].0 != ps[|ps| - 1].0;
          }
        }
        ConcatAssoc([k], Without(Keys(init), k), [last.0]);
      }
    }
  }

  /** The dict Python builds from a pair list (`dict(ps)`, or `json.loads`
      building an object): first position and last value of every key. */
  function DictOf<V>(ps: seq<(string, V)>): (r: seq<(string, V)>)
    ensures DistinctKeys(r)
    ensures forall k :: k in Keys(r) <==> k in Keys(ps)
    ensures forall k :: Get(r, k) == Get(ps, k)
    ensures Keys(r) == Dedup(Keys(ps))
    ensures DistinctKeys(ps) ==> r == ps
    ensures |r| == 0 <==> |ps| == 0
  {
    ReplayFromEmpty(ps);
    ReplayKeyOrder(ps);
    assert DistinctKeys(ps) ==> SetAll([], ps) == ps by {
      if DistinctKeys(ps) { ReplayDistinct(ps); }
    }
    SetAll([], ps)
  }

  /** Replaying a pair list onto an empty dict. */
  lemma {:induction false} ReplayFromEmpty<V>(ps: seq<(string, V)>)
    ensures forall k :: k in Keys(SetAll([], ps)) <==> k in Keys(ps)
    ensures forall k :: Get(SetAll([], ps), k) == Get(ps, k)
  {
    SetAllKeys([], ps);
    forall k
      ensures Get(SetAll([], ps), k) == Get(ps, k)
    {
      SetAllGet([], ps, k);
    }
  }

  /** Replaying a pair list onto an empty dict leaves each key at its first
      occurrence. */
  lemma {:induction false} ReplayKeyOrder<V>(ps: seq<(string, V)>)
    ensures Keys(SetAll([], ps)) == Dedup(Keys(ps))
    decreases |ps|
  {
    if |ps| > 0 {
      var init := ps[..|ps| - 1];
      var ks := Keys(ps);
      KeysOfPrefix(ps);
      ReplayKeyOrder(init);
      SetAllKeys([], init);
      assert ks[..|ks| - 1] == Keys(init);
      assert ks[|ks| - 1] == ps[|ps| - 1].0;
    }
  }

  /** A pair list that is already a dict is rebuilt unchanged. */
  lemma {:induction false} ReplayDistinct<V>(ps: seq<(string, V)>)
    requires DistinctKeys(ps)
    ensures SetAll([], ps) == ps
  {
    ReplayFromEmpty(ps);
    SetAllFreshKeys([], ps);
    DistinctDictsAgree(SetAll([], ps), ps);
  }

  /** Two dicts with the same keys in the same order and the same lookups
      are the same pair list. */
  lemma {:induction false} DistinctDictsAgree<V>(a: seq<(string, V)>, b: seq<(string, V)>)
    requires DistinctKeys(a) && DistinctKeys(b)
    requires Keys(a) == Keys(b)
    requires forall k :: Get(a, k) == Get(b, k)
    ensures a == b
  {
    assert |a| == |Keys(a)| == |b|;
    forall i | 0 <= i < |a|
      ensures a[i] == b[i]
    {
      assert Keys(a)[i] == Keys(b)[i];
      GetAt(a, i);
      GetAt(b, i);
    }
  }
}

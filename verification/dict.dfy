/** An insertion-ordered dictionary with ordinal (case-sensitive) string keys,
    as `Dictionary<string, object?>` behaves when it is only ever written through
    its indexer: assigning an existing key replaces that key's value in place,
    assigning a new key appends an entry. */
module Dict {
  import opened Wrappers

  datatype Entry<V> = Entry(key: string, value: V)

  /** The keys present, in any order. */
  function Keys<V>(es: seq<Entry<V>>): (r: set<string>)
    ensures forall i :: 0 <= i < |es| ==> es[i].key in r
    ensures forall k :: k in r ==> exists i :: 0 <= i < |es| && es[i].key == k
  {
    if |es| == 0 then {}
    else
      var rest := Keys(es[1..]);
      assert forall i :: 1 <= i < |es| ==> es[i] == es[1..][i - 1];
      {es[0].key} + rest
  }

  ghost predicate DistinctKeys<V>(es: seq<Entry<V>>) {
    forall i, j :: 0 <= i < j < |es| ==> es[i].key != es[j].key
  }

  /** The value stored under `k`: that of the first entry with key `k`. */
  function Get<V>(es: seq<Entry<V>>, k: string): (r: Option<V>)
    ensures r.None? <==> k !in Keys(es)
    ensures r.Some? ==> exists i :: 0 <= i < |es| && es[i] == Entry(k, r.value)
  {
    if |es| == 0 then None
    else if es[0].key == k then Some(es[0].value)
    else
      var r := Get(es[1..], k);
      assert forall i :: 1 <= i < |es| ==> es[i] == es[1..][i - 1];
      r
  }

  /** `dict[k] = v`. */
  function Put<V>(es: seq<Entry<V>>, k: string, v: V): (r: seq<Entry<V>>)
    ensures Keys(r) == Keys(es) + {k}
    ensures Get(r, k) == Some(v)
    ensures k !in Keys(es) ==> r == es + [Entry(k, v)]
  {
    if |es| == 0 then [Entry(k, v)]
    else if es[0].key == k then
      assert ([Entry(k, v)] + es[1..])[1..] == es[1..];
      [Entry(k, v)] + es[1..]
    else
      var rest := Put(es[1..], k, v);
      assert ([es[0]] + rest)[1..] == rest;
      assert es == [es[0]] + es[1..];
      [es[0]] + rest
  }

  /** Assigning `k` leaves every other key's value alone. */
  lemma {:induction false} PutOther<V>(es: seq<Entry<V>>, k: string, v: V, k': string)
    requires k' != k
    ensures Get(Put(es, k, v), k') == Get(es, k')
  {
    if |es| > 0 && es[0].key != k {
      PutOther(es[1..], k, v, k');
      assert ([es[0]] + Put(es[1..], k, v))[1..] == Put(es[1..], k, v);
    } else if |es| > 0 {
      assert ([Entry(k, v)] + es[1..])[1..] == es[1..];
    }
  }

  /** Assigning never creates a second entry for a key. */
  lemma {:induction false} PutDistinct<V>(es: seq<Entry<V>>, k: string, v: V)
    requires DistinctKeys(es)
    ensures DistinctKeys(Put(es, k, v))
  {
    if |es| == 0 {
    } else if es[0].key == k {
      var r := [Entry(k, v)] + es[1..];
      assert r == Put(es, k, v);
      forall i, j | 0 <= i < j < |r|
        ensures r[i].key != r[j].key
      {
        assert r[i].key == es[i].key && r[j].key == es[j].key;
      }
    } else {
      PutDistinct(es[1..], k, v);
      assert es[0].key !in Keys(es[1..]) by {
        forall j | 0 <= j < |es[1..]|
          ensures es[1..][j].key != es[0].key
        {
          assert es[1..][j] == es[j + 1];
        }
      }
      assert Put(es, k, v) == [es[0]] + Put(es[1..], k, v);
      ConsDistinct(es[0], Put(es[1..], k, v), Keys(es[1..]) + {k});
    }
  }

  /** Prepending an entry whose key is outside the rest's key set keeps keys distinct. */
  lemma ConsDistinct<V>(e: Entry<V>, rest: seq<Entry<V>>, ks: set<string>)
    requires DistinctKeys(rest)
    requires Keys(rest) <= ks
    requires e.key !in ks
    ensures DistinctKeys([e] + rest)
  {
    var r := [e] + rest;
    forall i, j | 0 <= i < j < |r|
      ensures r[i].key != r[j].key
    {
      assert r[j] == rest[j - 1];
      if i > 0 {
        assert r[i] == rest[i - 1];
      }
    }
  }

  /** Assigns every entry of `xs` in order, starting from `es`. */
  function PutAll<V>(es: seq<Entry<V>>, xs: seq<Entry<V>>): seq<Entry<V>>
    decreases |xs|
  {
    if |xs| == 0 then es else PutAll(Put(es, xs[0].key, xs[0].value), xs[1..])
  }

  /** The key set after the assignments is the old one plus every assigned key. */
  lemma {:induction false} PutAllKeys<V>(es: seq<Entry<V>>, xs: seq<Entry<V>>)
    ensures Keys(PutAll(es, xs)) == Keys(es) + Keys(xs)
    decreases |xs|
  {
    if |xs| > 0 {
      PutAllKeys(Put(es, xs[0].key, xs[0].value), xs[1..]);
    }
  }

  /** Assignments never create two entries with the same key. */
  lemma {:induction false} PutAllDistinct<V>(es: seq<Entry<V>>, xs: seq<Entry<V>>)
    requires DistinctKeys(es)
    ensures DistinctKeys(PutAll(es, xs))
    decreases |xs|
  {
    if |xs| > 0 {
      PutDistinct(es, xs[0].key, xs[0].value);
      PutAllDistinct(Put(es, xs[0].key, xs[0].value), xs[1..]);
    }
  }

  /** A key that is never assigned keeps its old value. */
  lemma {:induction false} PutAllUntouched<V>(es: seq<Entry<V>>, xs: seq<Entry<V>>, k: string)
    requires forall i :: 0 <= i < |xs| ==> xs[i].key != k
    ensures Get(PutAll(es, xs), k) == Get(es, k)
    decreases |xs|
  {
    if |xs| > 0 {
      assert forall i :: 1 <= i < |xs| ==> xs[i] == xs[1..][i - 1];
      PutOther(es, xs[0].key, xs[0].value, k);
      PutAllUntouched(Put(es, xs[0].key, xs[0].value), xs[1..], k);
    }
  }

  /** The last assignment to a key wins. */
  lemma {:induction false} PutAllLastWins<V>(es: seq<Entry<V>>, xs: seq<Entry<V>>, i: nat)
    requires i < |xs|
    requires forall j :: i < j < |xs| ==> xs[j].key != xs[i].key
    ensures Get(PutAll(es, xs), xs[i].key) == Some(xs[i].value)
    decreases |xs|
  {
    var es' := Put(es, xs[0].key, xs[0].value);
    var tail := xs[1..];
    if i == 0 {
      forall j | 0 <= j < |tail|
        ensures tail[j].key != xs[0].key
      {
        assert tail[j] == xs[j + 1];
      }
      PutAllUntouched(es', tail, xs[0].key);
    } else {
      assert tail[i - 1] == xs[i];
      forall j | i - 1 < j < |tail|
        ensures tail[j].key != tail[i - 1].key
      {
        assert tail[j] == xs[j + 1];
      }
      PutAllLastWins(es', tail, i - 1);
    }
  }
}

/** A Python `dict` as the scripts use it: entries kept in insertion order,
    at most one entry per key, assignment to an existing key overwriting the
    value in place. */
module OrderedDict {
  import opened Wrappers
  import opened Pairs

  /** The entries of a dict, in iteration order. A sequence of (key, value)
      pairs with possibly repeated keys doubles as the input of a dict
      comprehension. Its keys in iteration order (`for k in d`) are
      `Firsts(d)`, its values `Seconds(d)`. */
  type Dict<K, V> = seq<(K, V)>

  ghost predicate Distinct<K>(s: seq<K>)
  {
    forall i, j :: 0 <= i < j < |s| ==> s[i] != s[j]
  }

  /** What every Python dict satisfies: no key appears twice. */
  ghost predicate WellFormed<K, V>(d: Dict<K, V>)
  {
    Distinct(Firsts(d))
  }

  /** Position of the first occurrence of `x` in `s`. */
  function IndexOf<K(==)>(s: seq<K>, x: K): (i: nat)
    requires x in s
    ensures i < |s| && s[i] == x
    ensures forall j :: 0 <= j < i ==> s[j] != x
  {
    if s[0] == x then 0 else 1 + IndexOf(s[1..], x)
  }

  /** Position of the last occurrence of `x` in `s`. */
  function LastIndexOf<K(==)>(s: seq<K>, x: K): (i: nat)
    requires x in s
    ensures i < |s| && s[i] == x
    ensures forall j :: i < j < |s| ==> s[j] != x
  {
    if s[|s| - 1] == x then |s| - 1 else LastIndexOf(s[..|s| - 1], x)
  }

  /** `d.get(k)`: the value stored under `k`, if any. */
  function Get<K(==), V>(d: Dict<K, V>, k: K): (r: Option<V>)
    ensures r.Some? <==> k in Firsts(d)
  {
    var ks := Firsts(d);
    if k in ks then Some(d[IndexOf(ks, k)].1) else None
  }

  /** `d[k] = v`: an existing key keeps its position and takes the new value;
      a new key is appended at the end. */
  function Put<K(==), V>(d: Dict<K, V>, k: K, v: V): (r: Dict<K, V>)
    ensures Firsts(r) == if k in Firsts(d) then Firsts(d) else Firsts(d) + [k]
    ensures WellFormed(d) ==> WellFormed(r)
    ensures WellFormed(d) ==> forall k' :: k' in Firsts(r) ==> Get(r, k') == if k' == k then Some(v) else Get(d, k')
  {
    var ks := Firsts(d);
    if k in ks then
      var r := d[IndexOf(ks, k) := (k, v)];
      assert Firsts(r) == ks;
      r
    else
      var r := d + [(k, v)];
      assert Firsts(r) == ks + [k];
      assert forall k' :: k' != k && k' in ks ==> IndexOf(Firsts(r), k') == IndexOf(ks, k') by {
        forall k' | k' != k && k' in ks
          ensures IndexOf(Firsts(r), k') == IndexOf(ks, k')
        {
          IndexOfAppend(ks, k, k');
        }
      }
      r
  }

  /** The dict comprehension `{k: v for (k, v) in ps}`: the pairs assigned one
      after the other, left to right. */
  function FromPairs<K(==), V>(ps: seq<(K, V)>): (d: Dict<K, V>)
    ensures WellFormed(d)
    ensures |d| <= |ps|
  {
    if |ps| == 0 then [] else
      var last := ps[|ps| - 1];
      Put(FromPairs(ps[..|ps| - 1]), last.0, last.1)
  }

  lemma IndexOfAppend<K>(s: seq<K>, x: K, y: K)
    requires y in s
    ensures IndexOf(s + [x], y) == IndexOf(s, y)
  {
    var i := IndexOf(s, y);
    var j := IndexOf(s + [x], y);
    assert (s + [x])[i] == y;
    assert s[j] == y || j == |s|;
  }

  lemma KeysPrefix<K, V>(ps: seq<(K, V)>)
    requires |ps| > 0
    ensures Firsts(ps) == Firsts(ps[..|ps| - 1]) + [ps[|ps| - 1].0]
  {
  }

  /** The comprehension has exactly the keys of its input pairs. */
  lemma {:induction false} FromPairsKeys<K, V>(ps: seq<(K, V)>)
    ensures forall k :: k in Firsts(FromPairs(ps)) <==> k in Firsts(ps)
  {
    if |ps| > 0 {
      FromPairsKeys(ps[..|ps| - 1]);
      KeysPrefix(ps);
    }
  }

  /** Every key of `dk` occurs in `ks`, and `dk` lists them in the order of
      their first occurrence in `ks`. */
  ghost predicate FirstOccurrenceOrder<K>(ks: seq<K>, dk: seq<K>)
  {
    (forall a :: 0 <= a < |dk| ==> dk[a] in ks) &&
    forall a, b :: 0 <= a < b < |dk| ==> dk[a] in ks && dk[b] in ks && IndexOf(ks, dk[a]) < IndexOf(ks, dk[b])
  }

  /** One more pair whose key is already present keeps the order. */
  lemma FirstOccurrenceExtend<K>(ks: seq<K>, dk: seq<K>, k: K)
    requires FirstOccurrenceOrder(ks, dk)
    ensures FirstOccurrenceOrder(ks + [k], dk)
  {
    forall y | y in ks
      ensures IndexOf(ks + [k], y) == IndexOf(ks, y)
    {
      IndexOfAppend(ks, k, y);
    }
    assert forall a :: 0 <= a < |dk| ==> dk[a] in ks + [k];
  }

  /** A pair with a new key appends that key last. */
  lemma FirstOccurrenceAppend<K>(ks: seq<K>, dk: seq<K>, k: K)
    requires FirstOccurrenceOrder(ks, dk) && k !in ks
    ensures FirstOccurrenceOrder(ks + [k], dk + [k])
  {
    FirstOccurrenceExtend(ks, dk, k);
    var ks' := ks + [k];
    var dk' := dk + [k];
    assert IndexOf(ks', k) == |ks| by {
      assert ks'[|ks|] == k;
    }
    forall a | 0 <= a < |dk|
      ensures dk'[a] == dk[a] && IndexOf(ks', dk[a]) < |ks|
    {
    }
  }

  /** Keys iterate in the order in which each key first occurs among the pairs:
      overwriting a key never moves it. */
  lemma {:induction false} FromPairsFirstOccurrence<K, V>(ps: seq<(K, V)>)
    ensures forall k :: k in Firsts(FromPairs(ps)) <==> k in Firsts(ps)
    ensures FirstOccurrenceOrder(Firsts(ps), Firsts(FromPairs(ps)))
  {
    FromPairsKeys(ps);
    if |ps| > 0 {
      var pre := ps[..|ps| - 1];
      var k := ps[|ps| - 1].0;
      var d := FromPairs(pre);
      FromPairsFirstOccurrence(pre);
      KeysPrefix(ps);
      if k in Firsts(d) {
        assert Firsts(FromPairs(ps)) == Firsts(d);
        FirstOccurrenceExtend(Firsts(pre), Firsts(d), k);
      } else {
        assert Firsts(FromPairs(ps)) == Firsts(d) + [k];
        FirstOccurrenceAppend(Firsts(pre), Firsts(d), k);
      }
    }
  }

  /** Last write wins: each key holds the value of the last pair carrying it,
      and a key carried by no pair is absent. */
  lemma {:induction false} FromPairsLastWins<K, V>(ps: seq<(K, V)>)
    ensures forall k :: k in Firsts(ps) ==> Get(FromPairs(ps), k) == Some(ps[LastIndexOf(Firsts(ps), k)].1)
    ensures forall k :: k !in Firsts(ps) ==> Get(FromPairs(ps), k) == None
  {
    FromPairsKeys(ps);
    if |ps| > 0 {
      var pre := ps[..|ps| - 1];
      var last := ps[|ps| - 1];
      FromPairsLastWins(pre);
      KeysPrefix(ps);
      forall k | k in Firsts(ps)
        ensures Get(FromPairs(ps), k) == Some(ps[LastIndexOf(Firsts(ps), k)].1)
      {
        if k != last.0 {
          assert k in Firsts(pre);
          assert LastIndexOf(Firsts(ps), k) == LastIndexOf(Firsts(pre), k);
        }
      }
    }
  }

  /** In a well-formed dict, looking up the key of entry `n` finds entry `n`. */
  lemma GetEntry<K, V>(d: Dict<K, V>, n: nat)
    requires WellFormed(d) && n < |d|
    ensures Get(d, d[n].0) == Some(d[n].1)
  {
    assert Firsts(d)[n] == d[n].0;
    var i := IndexOf(Firsts(d), d[n].0);
    assert i == n;
  }

  /** The key order of a comprehension depends on the keys of its pairs only. */
  lemma {:induction false} FromPairsSameKeys<K, V, W>(ps: seq<(K, V)>, qs: seq<(K, W)>)
    requires Firsts(ps) == Firsts(qs)
    ensures Firsts(FromPairs(ps)) == Firsts(FromPairs(qs))
  {
    if |ps| > 0 {
      assert Firsts(ps[..|ps| - 1]) == Firsts(qs[..|qs| - 1]);
      assert ps[|ps| - 1].0 == Firsts(ps)[|ps| - 1];
      FromPairsSameKeys(ps[..|ps| - 1], qs[..|qs| - 1]);
    }
  }
}

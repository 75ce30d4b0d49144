/** The dataset transformer of main.py: `relabel_set` restricts a dataset to
    the annotated indices, `unbalance_set` thins it out class by class. The
    images are opaque (type parameter `D`); `random.random()` is replaced by
    a supplied sequence of draws, one per sample, consumed in order. */
module Transform {
  import opened Wrappers
  import opened Python
  import opened OrderedDict
  import opened Counting
  import opened Pairs

  /** A torchvision dataset reduced to what the scripts touch: the parallel
      `data` and `targets` lists. */
  datatype Dataset<D, T> = Dataset(data: seq<D>, targets: seq<T>)

  /** The class ratios main.py passes with `--unbalance_dataset`. */
  const MainRatios: seq<real> := [0.1, 1.0, 1.0, 1.0, 1.0, 1.0, 1.0, 1.0, 1.0, 1.0]

  /** `[xs[k] for k in keys]`: IndexError at the first key outside `xs`. */
  function Project<X>(xs: seq<X>, keys: seq<int>): (r: Result<seq<X>>)
    ensures r.Ok? <==> forall n :: 0 <= n < |keys| ==> Subscript(keys[n], |xs|).Some?
    ensures r.Err? ==> r.error == IndexError
    ensures r.Ok? ==> |r.value| == |keys|
    ensures r.Ok? ==> forall n :: 0 <= n < |keys| ==> r.value[n] == xs[Subscript(keys[n], |xs|).value]
  {
    if |keys| == 0 then Ok([]) else
      var pre := keys[..|keys| - 1];
      var k := keys[|keys| - 1];
      assert forall n :: 0 <= n < |pre| ==> pre[n] == keys[n];
      match Project(xs, pre)
      case Err(e) => Err(e)
      case Ok(front) =>
        match Subscript(k, |xs|)
        case None => Err(IndexError)
        case Some(i) => Ok(front + [xs[i]])
  }

  /** `relabel_set`: the samples at the annotated indices, in key order, each
      with its original target (`use_original_labels`) or its annotation. */
  function RelabelSet<D, T>(ds: Dataset<D, T>, labels: Dict<int, T>, useOriginal: bool): (r: Result<Dataset<D, T>>)
    ensures r.Ok? <==> forall n :: 0 <= n < |labels| ==>
              Subscript(labels[n].0, |ds.data|).Some? &&
              (useOriginal ==> Subscript(labels[n].0, |ds.targets|).Some?)
    ensures r.Err? ==> r.error == IndexError
    ensures r.Ok? ==> |r.value.data| == |labels| && |r.value.targets| == |labels|
    ensures r.Ok? ==> forall n :: 0 <= n < |labels| ==>
              r.value.data[n] == ds.data[Subscript(labels[n].0, |ds.data|).value]
    ensures r.Ok? ==> forall n :: 0 <= n < |labels| ==>
              r.value.targets[n] ==
                if useOriginal then ds.targets[Subscript(labels[n].0, |ds.targets|).value]
                else labels[n].1
  {
    var keys := Firsts(labels);
    match Project(ds.data, keys)
    case Err(e) => Err(e)
    case Ok(data) =>
      if useOriginal then
        match Project(ds.targets, keys)
        case Err(e) => Err(e)
        case Ok(targets) => Ok(Dataset(data, targets))
      else
        Ok(Dataset(data, Seconds(labels)))
  }

  function Min(a: nat, b: nat): nat { if a <= b then a else b }

  /** `zip(data, targets)`: pairs up to the shorter list. */
  function Zip<A, B>(a: seq<A>, b: seq<B>): (z: seq<(A, B)>)
    ensures |z| == Min(|a|, |b|)
    ensures forall i :: 0 <= i < |z| ==> z[i] == (a[i], b[i])
  {
    seq(Min(|a|, |b|), i requires 0 <= i < Min(|a|, |b|) => (a[i], b[i]))
  }

  /** Unzipping a zip, `zip(*zip(a, b))`, gives back both lists cut to the
      shorter length. */
  lemma UnzipZip<A, B>(a: seq<A>, b: seq<B>)
    ensures Firsts(Zip(a, b)) == a[..Min(|a|, |b|)]
    ensures Seconds(Zip(a, b)) == b[..Min(|a|, |b|)]
  {
  }

  /** Pair `i` has its target's ratio and draws below it. */
  ghost predicate Drawn<D>(pairs: seq<(D, int)>, ratios: seq<real>, draws: seq<real>, i: int)
  {
    0 <= i < |pairs| && i < |draws| && Item(ratios, pairs[i].1).Ok? &&
    draws[i] < Item(ratios, pairs[i].1).value
  }

  /** The comprehension of `unbalance_set`: pair `i` is kept when
      `draws[i] < ratios[target]`; IndexError when a target is no subscript
      of `ratios`. */
  function KeepDrawn<D>(pairs: seq<(D, int)>, ratios: seq<real>, draws: seq<real>): (r: Result<seq<(D, int)>>)
    requires |draws| >= |pairs|
    ensures r.Ok? <==> forall i :: 0 <= i < |pairs| ==> Item(ratios, pairs[i].1).Ok?
    ensures r.Err? ==> r.error == IndexError
    ensures r.Ok? ==> |r.value| <= |pairs|
  {
    if |pairs| == 0 then Ok([]) else
      var n := |pairs| - 1;
      var pre := pairs[..n];
      assert forall i :: 0 <= i < n ==> pre[i] == pairs[i];
      match KeepDrawn(pre, ratios, draws)
      case Err(e) => Err(e)
      case Ok(front) =>
        match Item(ratios, pairs[n].1)
        case Err(e) => Err(e)
        case Ok(ratio) => Ok(front + if draws[n] < ratio then [pairs[n]] else [])
  }

  /** `unbalance_set`: the kept pairs unzipped back into `data` and
      `targets`; unpacking `zip(*[])` raises ValueError when nothing is kept. */
  function UnbalanceSet<D>(ds: Dataset<D, int>, ratios: seq<real>, draws: seq<real>): (r: Result<Dataset<D, int>>)
    requires |draws| >= Min(|ds.data|, |ds.targets|)
    ensures r.Ok? ==> |r.value.data| == |r.value.targets|
    ensures r.Ok? ==> 0 < |r.value.data| <= Min(|ds.data|, |ds.targets|)
    ensures r.Err? ==> r.error == IndexError || r.error == ValueError
    ensures r == Err(IndexError) <==>
              exists i :: 0 <= i < Min(|ds.data|, |ds.targets|) && Item(ratios, ds.targets[i]).Err?
  {
    assert forall i :: 0 <= i < Min(|ds.data|, |ds.targets|) ==> Zip(ds.data, ds.targets)[i].1 == ds.targets[i];
    match KeepDrawn(Zip(ds.data, ds.targets), ratios, draws)
    case Err(e) => Err(e)
    case Ok(kept) =>
      if |kept| == 0 then Err(ValueError) else Ok(Dataset(Firsts(kept), Seconds(kept)))
  }

  // ---------------------------------------------------------------- lemmas

  /** The positions of the kept pairs, in increasing order. */
  ghost function KeptPositions<D>(pairs: seq<(D, int)>, ratios: seq<real>, draws: seq<real>): (idx: seq<nat>)
    requires |draws| >= |pairs|
    ensures forall a, b :: 0 <= a < b < |idx| ==> idx[a] < idx[b]
    ensures forall k :: 0 <= k < |idx| ==> idx[k] < |pairs|
    ensures forall i :: i in idx <==> Drawn(pairs, ratios, draws, i)
  {
    if |pairs| == 0 then [] else
      var n := |pairs| - 1;
      var pre := pairs[..n];
      assert forall i :: 0 <= i < n ==> pre[i] == pairs[i];
      assert forall i :: Drawn(pre, ratios, draws, i) <==> Drawn(pairs, ratios, draws, i) && i < n;
      KeptPositions(pre, ratios, draws) + if Drawn(pairs, ratios, draws, n) then [n] else []
  }

  /** One step of the comprehension: the last pair is kept or not after
      the others. */
  lemma KeepDrawnLast<D>(pairs: seq<(D, int)>, ratios: seq<real>, draws: seq<real>)
    requires |draws| >= |pairs| > 0
    requires KeepDrawn(pairs, ratios, draws).Ok?
    ensures KeepDrawn(pairs[..|pairs| - 1], ratios, draws).Ok?
    ensures Item(ratios, pairs[|pairs| - 1].1).Ok?
    ensures var n := |pairs| - 1;
            KeepDrawn(pairs, ratios, draws).value ==
              KeepDrawn(pairs[..n], ratios, draws).value +
              if draws[n] < Item(ratios, pairs[n].1).value then [pairs[n]] else []
  {
  }

  /** One step of the kept positions: `n` joins them when pair `n` is drawn. */
  lemma KeptPositionsLast<D>(pairs: seq<(D, int)>, ratios: seq<real>, draws: seq<real>)
    requires |draws| >= |pairs| > 0
    ensures var n := |pairs| - 1;
            KeptPositions(pairs, ratios, draws) ==
              KeptPositions(pairs[..n], ratios, draws) + if Drawn(pairs, ratios, draws, n) then [n] else []
  {
  }

  /** `out` lists the elements of `xs` at the positions `idx`. */
  ghost predicate SelectedAt<X>(out: seq<X>, xs: seq<X>, idx: seq<nat>)
  {
    |out| == |idx| && forall k :: 0 <= k < |idx| ==> idx[k] < |xs| && out[k] == xs[idx[k]]
  }

  /** A selection from the first `n` elements, extended by element `n` or not. */
  lemma SelectedAtSnoc<X>(out: seq<X>, xs: seq<X>, idx: seq<nat>, keep: bool)
    requires |xs| > 0 && SelectedAt(out, xs[..|xs| - 1], idx)
    ensures var n := |xs| - 1;
            SelectedAt(out + (if keep then [xs[n]] else []), xs, idx + (if keep then [n] else []))
  {
    var n := |xs| - 1;
    var out' := out + (if keep then [xs[n]] else []);
    var idx' := idx + (if keep then [n] else []);
    forall k | 0 <= k < |idx'|
      ensures idx'[k] < |xs| && out'[k] == xs[idx'[k]]
    {
      if k < |idx| {
        assert out'[k] == out[k] == xs[..n][idx[k]];
      }
    }
  }

  /** `unbalance_set` keeps exactly the pairs whose draw falls below their
      class ratio, in their original order, each data item still with its
      own target. */
  lemma {:induction false} KeepDrawnSelects<D>(pairs: seq<(D, int)>, ratios: seq<real>, draws: seq<real>)
    requires |draws| >= |pairs|
    requires KeepDrawn(pairs, ratios, draws).Ok?
    ensures SelectedAt(KeepDrawn(pairs, ratios, draws).value, pairs, KeptPositions(pairs, ratios, draws))
  {
    if |pairs| > 0 {
      var n := |pairs| - 1;
      var pre := pairs[..n];
      KeepDrawnLast(pairs, ratios, draws);
      KeptPositionsLast(pairs, ratios, draws);
      KeepDrawnSelects(pre, ratios, draws);
      var ratio := Item(ratios, pairs[n].1).value;
      assert Drawn(pairs, ratios, draws, n) <==> draws[n] < ratio;
      SelectedAtSnoc(KeepDrawn(pre, ratios, draws).value, pairs, KeptPositions(pre, ratios, draws), draws[n] < ratio);
    }
  }

  /** The same, stated on the dataset: output sample `k` is input sample
      `KeptPositions(..)[k]`, data and target together. */
  lemma UnbalanceSelects<D>(ds: Dataset<D, int>, ratios: seq<real>, draws: seq<real>)
    requires |draws| >= Min(|ds.data|, |ds.targets|)
    requires UnbalanceSet(ds, ratios, draws).Ok?
    ensures var idx := KeptPositions(Zip(ds.data, ds.targets), ratios, draws);
            var out := UnbalanceSet(ds, ratios, draws).value;
            |out.data| == |idx| &&
            forall k :: 0 <= k < |idx| ==>
              out.data[k] == ds.data[idx[k]] && out.targets[k] == ds.targets[idx[k]]
  {
    KeepDrawnSelects(Zip(ds.data, ds.targets), ratios, draws);
  }

  /** Every ratio lookup succeeds and no draw falls below its ratio. */
  ghost predicate NoneDrawn<D>(ds: Dataset<D, int>, ratios: seq<real>, draws: seq<real>)
    requires |draws| >= Min(|ds.data|, |ds.targets|)
  {
    forall i :: 0 <= i < Min(|ds.data|, |ds.targets|) ==>
      Item(ratios, ds.targets[i]).Ok? && draws[i] >= Item(ratios, ds.targets[i]).value
  }

  /** Given that every ratio lookup succeeds, nothing is kept exactly when
      no pair is drawn. */
  lemma KeepDrawnNothing<D>(pairs: seq<(D, int)>, ratios: seq<real>, draws: seq<real>)
    requires |draws| >= |pairs|
    requires KeepDrawn(pairs, ratios, draws).Ok?
    ensures |KeepDrawn(pairs, ratios, draws).value| == 0 <==>
              forall i :: 0 <= i < |pairs| ==> !Drawn(pairs, ratios, draws, i)
  {
    var idx := KeptPositions(pairs, ratios, draws);
    KeepDrawnSelects(pairs, ratios, draws);
    if |idx| > 0 {
      assert Drawn(pairs, ratios, draws, idx[0]);
    } else {
      assert forall i :: 0 <= i < |pairs| ==> i !in idx;
    }
  }

  /** `unbalance_set` raises ValueError exactly when every ratio lookup
      succeeds and no draw falls below its ratio. */
  lemma UnbalanceNothingKept<D>(ds: Dataset<D, int>, ratios: seq<real>, draws: seq<real>)
    requires |draws| >= Min(|ds.data|, |ds.targets|)
    ensures UnbalanceSet(ds, ratios, draws) == Err(ValueError) <==> NoneDrawn(ds, ratios, draws)
  {
    var pairs := Zip(ds.data, ds.targets);
    var m := Min(|ds.data|, |ds.targets|);
    assert forall i :: 0 <= i < m ==> pairs[i].1 == ds.targets[i];
    var kept := KeepDrawn(pairs, ratios, draws);
    if kept.Err? {
      assert !NoneDrawn(ds, ratios, draws) by {
        var i :| 0 <= i < |pairs| && Item(ratios, pairs[i].1).Err?;
        assert Item(ratios, ds.targets[i]).Err?;
      }
    } else {
      KeepDrawnNothing(pairs, ratios, draws);
      forall i | 0 <= i < m
        ensures !Drawn(pairs, ratios, draws, i) <==>
                Item(ratios, ds.targets[i]).Ok? && draws[i] >= Item(ratios, ds.targets[i]).value
      {
        assert Item(ratios, pairs[i].1).Ok?;
      }
    }
  }

  /** A class whose ratio is at least 1 is kept whole (draws are below 1); a
      class whose ratio is at most 0 vanishes (draws are at least 0). */
  lemma {:induction false} KeepDrawnWholeClass<D>(pairs: seq<(D, int)>, ratios: seq<real>, draws: seq<real>, t: int)
    requires |draws| >= |pairs|
    requires forall i :: 0 <= i < |draws| ==> 0.0 <= draws[i] < 1.0
    requires KeepDrawn(pairs, ratios, draws).Ok? && Item(ratios, t).Ok?
    ensures Item(ratios, t).value >= 1.0 ==>
              Count(Seconds(KeepDrawn(pairs, ratios, draws).value), t) == Count(Seconds(pairs), t)
    ensures Item(ratios, t).value <= 0.0 ==>
              Count(Seconds(KeepDrawn(pairs, ratios, draws).value), t) == 0
  {
    if |pairs| > 0 {
      var n := |pairs| - 1;
      var pre := pairs[..n];
      KeepDrawnLast(pairs, ratios, draws);
      KeepDrawnWholeClass(pre, ratios, draws, t);
      var front := KeepDrawn(pre, ratios, draws).value;
      var out := KeepDrawn(pairs, ratios, draws).value;
      var hit := if pairs[n].1 == t then 1 else 0;
      assert Count(Seconds(pairs), t) == Count(Seconds(pre), t) + hit by {
        assert pairs == pre + [pairs[n]];
        SecondsSnoc(pre, pairs[n]);
        CountSnoc(Seconds(pre), pairs[n].1, t);
      }
      if draws[n] < Item(ratios, pairs[n].1).value {
        assert out == front + [pairs[n]];
        assert Count(Seconds(out), t) == Count(Seconds(front), t) + hit by {
          SecondsSnoc(front, pairs[n]);
          CountSnoc(Seconds(front), pairs[n].1, t);
        }
      } else {
        assert out == front;
      }
    }
  }

  /** With main.py's hard-coded ratios every sample of the classes 1 to 9
      survives `unbalance_set`. */
  lemma MainRatiosKeepClassesOneToNine<D>(ds: Dataset<D, int>, draws: seq<real>, t: int)
    requires |draws| >= Min(|ds.data|, |ds.targets|)
    requires forall i :: 0 <= i < |draws| ==> 0.0 <= draws[i] < 1.0
    requires 1 <= t <= 9
    requires UnbalanceSet(ds, MainRatios, draws).Ok?
    ensures Count(UnbalanceSet(ds, MainRatios, draws).value.targets, t) ==
            Count(Seconds(Zip(ds.data, ds.targets)), t)
  {
    var pairs := Zip(ds.data, ds.targets);
    assert Item(MainRatios, t) == Ok(1.0);
    KeepDrawnWholeClass(pairs, MainRatios, draws, t);
  }
}

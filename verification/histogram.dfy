/** The counting part of `determine_class_weights` in main.py: the number of
    training targets per class, accumulated batch by batch with
    `np.bincount(targets, minlength=10)`. The weights derived from it are
    floating point and are not modelled. */
module ClassHistogram {
  import opened Wrappers
  import opened Counting

  /** The number of classes, the length of the accumulator `np.zeros(10)`. */
  const Classes: nat := 10

  /** The per-class counts of `targets`. ValueError when a target is
      negative (`np.bincount` rejects it) or at least 10 (its bincount is
      longer than the accumulator and cannot be added to it). */
  function Histogram(targets: seq<int>): (r: Result<seq<nat>>)
    ensures r.Ok? <==> forall i :: 0 <= i < |targets| ==> 0 <= targets[i] < Classes
    ensures r.Err? ==> r.error == ValueError
    ensures r.Ok? ==> |r.value| == Classes
  {
    if |targets| == 0 then Ok(Zeros(Classes)) else
      var n := |targets| - 1;
      var t := targets[n];
      assert forall i :: 0 <= i < n ==> targets[..n][i] == targets[i];
      match Histogram(targets[..n])
      case Err(e) => Err(e)
      case Ok(h) => if 0 <= t < Classes then Ok(h[t := h[t] + 1]) else Err(ValueError)
  }

  /** Bin `c` holds the number of targets equal to `c`, and the bins add up
      to the number of targets. */
  lemma {:induction false} HistogramCounts(targets: seq<int>)
    requires Histogram(targets).Ok?
    ensures forall c :: 0 <= c < Classes ==> Histogram(targets).value[c] == Count(targets, c)
    ensures Sum(Histogram(targets).value) == |targets|
  {
    if |targets| == 0 {
      SumZeros(Classes);
    } else {
      var n := |targets| - 1;
      HistogramCounts(targets[..n]);
      var h := Histogram(targets[..n]).value;
      SumIncrement(h, targets[n]);
    }
  }

  /** The order of the targets does not matter: a shuffled loader yields the
      same histogram. */
  lemma HistogramShuffle(a: seq<int>, b: seq<int>)
    requires multiset(a) == multiset(b)
    ensures Histogram(a) == Histogram(b)
  {
    assert forall x :: x in a <==> x in b by {
      forall x ensures x in a <==> x in b {
        assert x in a <==> x in multiset(a);
        assert x in b <==> x in multiset(b);
      }
    }
    ClassesByMembers(a);
    ClassesByMembers(b);
    if Histogram(a).Ok? && Histogram(b).Ok? {
      HistogramCounts(a);
      HistogramCounts(b);
      forall c | 0 <= c < Classes
        ensures Histogram(a).value[c] == Histogram(b).value[c]
      {
        CountIsMultiplicity(a, c);
        CountIsMultiplicity(b, c);
      }
      assert Histogram(a).value == Histogram(b).value;
    }
  }

  lemma ClassesByMembers(s: seq<int>)
    ensures (forall i :: 0 <= i < |s| ==> 0 <= s[i] < Classes) <==> (forall x :: x in s ==> 0 <= x < Classes)
  {
    if forall i :: 0 <= i < |s| ==> 0 <= s[i] < Classes {
      forall x | x in s
        ensures 0 <= x < Classes
      {
        var i :| 0 <= i < |s| && s[i] == x;
      }
    }
    if forall x :: x in s ==> 0 <= x < Classes {
      forall i | 0 <= i < |s|
        ensures 0 <= s[i] < Classes
      {
        assert s[i] in s;
      }
    }
  }

  /** `counts += batch`, bin by bin. */
  function AddBins(a: seq<nat>, b: seq<nat>): (r: seq<nat>)
    requires |a| == |b|
    ensures |r| == |a| && forall c :: 0 <= c < |a| ==> r[c] == a[c] + b[c]
  {
    seq(|a|, c requires 0 <= c < |a| => a[c] + b[c])
  }

  /** Counting two parts separately and adding the bins counts the whole. */
  lemma HistogramAppend(a: seq<int>, b: seq<int>)
    ensures Histogram(a + b).Ok? <==> Histogram(a).Ok? && Histogram(b).Ok?
    ensures Histogram(a + b).Ok? ==>
              Histogram(a + b).value == AddBins(Histogram(a).value, Histogram(b).value)
  {
    var ab := a + b;
    assert forall i :: 0 <= i < |a| ==> ab[i] == a[i];
    assert forall i :: 0 <= i < |b| ==> ab[|a| + i] == b[i];
    if Histogram(ab).Ok? {
      HistogramCounts(a);
      HistogramCounts(b);
      HistogramCounts(ab);
      forall c | 0 <= c < Classes
        ensures Histogram(ab).value[c] == Histogram(a).value[c] + Histogram(b).value[c]
      {
        CountAppend(a, b, c);
      }
    }
  }

  /** All targets of a sequence of batches, in loader order. */
  function Flatten(batches: seq<seq<int>>): seq<int>
  {
    if |batches| == 0 then [] else Flatten(batches[..|batches| - 1]) + batches[|batches| - 1]
  }

  /** The loop of `determine_class_weights`: per-batch bincounts added into
      ten zero bins. It computes the histogram of all targets at once. */
  method ClassCounts(batches: seq<seq<int>>) returns (r: Result<seq<nat>>)
    ensures r == Histogram(Flatten(batches))
  {
    var counts := Zeros(Classes);
    var i := 0;
    while i < |batches|
      invariant 0 <= i <= |batches|
      invariant Histogram(Flatten(batches[..i])) == Ok(counts)
    {
      assert batches[..i + 1][..i] == batches[..i];
      var batch := Histogram(batches[i]);
      HistogramAppend(Flatten(batches[..i]), batches[i]);
      if batch.Err? {
        FlattenAppend(batches[..i + 1], batches[i + 1..]);
        assert batches[..i + 1] + batches[i + 1..] == batches;
        HistogramAppend(Flatten(batches[..i + 1]), Flatten(batches[i + 1..]));
        return Err(ValueError);
      }
      counts := AddBins(counts, batch.value);
      i := i + 1;
    }
    assert batches[..i] == batches;
    r := Ok(counts);
  }

  lemma {:induction false} FlattenAppend(a: seq<seq<int>>, b: seq<seq<int>>)
    ensures Flatten(a + b) == Flatten(a) + Flatten(b)
    decreases |b|
  {
    if |b| == 0 {
      assert a + b == a;
    } else {
      var ab := a + b;
      var n := |b| - 1;
      assert ab[..|ab| - 1] == a + b[..n];
      assert ab[|ab| - 1] == b[n];
      assert Flatten(ab) == Flatten(a + b[..n]) + b[n];
      FlattenAppend(a, b[..n]);
      assert Flatten(b) == Flatten(b[..n]) + b[n];
    }
  }
}

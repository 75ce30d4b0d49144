/** The training-set pipeline of main.py (lines 191-193): load the
    annotations, relabel the training set, and optionally unbalance it with
    the ratios `[.1, 1, ..., 1]`.

    main.py's `load_labels` keeps each `newLabel` as the string read from the
    annotation file. With revised labels (`use_original_labels` false) those
    strings become the dataset's targets, and `unbalance_set` then indexes the
    ratio list with a string, which Python rejects with a TypeError. The
    members below model that pipeline as written, over dynamically typed
    Python values, and the corrected pipeline that converts each label with
    `int()` as label_statistics.py's `load_labels` does. */
module Findings {
  import opened Wrappers
  import opened OrderedDict
  import opened Annotations
  import opened Transform
  import opened Pairs
  import Python

  /** The Python values a target can hold in the pipeline as written. */
  datatype PyValue = PyInt(i: int) | PyStr(s: string)

  /** `ratios[target]` for a dynamically typed target: a list index must be
      an integer, so a string raises TypeError. */
  function PyRatioAt(ratios: seq<real>, target: PyValue): (r: Result<real>)
    ensures target.PyStr? ==> r == Err(TypeError)
    ensures target.PyInt? ==> r == Python.Item(ratios, target.i)
  {
    match target
    case PyStr(_) => Err(TypeError)
    case PyInt(t) => Python.Item(ratios, t)
  }

  /** The comprehension of `unbalance_set` over dynamically typed targets,
      evaluated front to back: the first pair whose ratio lookup fails raises
      that error. */
  function KeepDrawnPy<D>(pairs: seq<(D, PyValue)>, ratios: seq<real>, draws: seq<real>): (r: Result<seq<(D, PyValue)>>)
    requires |draws| >= |pairs|
    ensures r.Ok? <==> forall i :: 0 <= i < |pairs| ==> PyRatioAt(ratios, pairs[i].1).Ok?
    ensures r.Ok? ==> |r.value| <= |pairs|
  {
    if |pairs| == 0 then Ok([]) else
      assert forall i :: 1 <= i < |pairs| ==> pairs[1..][i - 1] == pairs[i];
      match PyRatioAt(ratios, pairs[0].1)
      case Err(e) => Err(e)
      case Ok(ratio) =>
        match KeepDrawnPy(pairs[1..], ratios, draws[1..])
        case Err(e) => Err(e)
        case Ok(rest) => Ok((if draws[0] < ratio then [pairs[0]] else []) + rest)
  }

  /** `unbalance_set` over dynamically typed targets. */
  function UnbalancePy<D>(ds: Dataset<D, PyValue>, ratios: seq<real>, draws: seq<real>): (r: Result<Dataset<D, PyValue>>)
    requires |draws| >= Min(|ds.data|, |ds.targets|)
    ensures r.Ok? ==> |r.value.data| == |r.value.targets| > 0
  {
    match KeepDrawnPy(Zip(ds.data, ds.targets), ratios, draws)
    case Err(e) => Err(e)
    case Ok(kept) =>
      if |kept| == 0 then Err(ValueError) else Ok(Dataset(Firsts(kept), Seconds(kept)))
  }

  /** The original integer targets as Python values. */
  function PyInts(targets: seq<int>): (vs: seq<PyValue>)
    ensures |vs| == |targets| && forall i :: 0 <= i < |targets| ==> vs[i] == PyInt(targets[i])
  {
    seq(|targets|, i requires 0 <= i < |targets| => PyInt(targets[i]))
  }

  /** The annotation strings of main.py's `load_labels` as Python values. */
  function PyStrings(labels: Dict<int, string>): (d: Dict<int, PyValue>)
    ensures |d| == |labels| && forall n :: 0 <= n < |labels| ==> d[n] == (labels[n].0, PyStr(labels[n].1))
  {
    seq(|labels|, n requires 0 <= n < |labels| => (labels[n].0, PyStr(labels[n].1)))
  }

  /** main.py lines 191-193 as written, with unbalancing switched on:
      `relabel_set` with the string labels, then `unbalance_set`. */
  function TrainingSetAsWritten<D>(ds: Dataset<D, int>, rs: seq<Record>, useOriginal: bool, ratios: seq<real>, draws: seq<real>): (r: Result<Dataset<D, PyValue>>)
    requires |draws| >= |rs|
  {
    var labels := LoadLabels(rs);
    match RelabelSet(Dataset(ds.data, PyInts(ds.targets)), PyStrings(labels), useOriginal)
    case Err(e) => Err(e)
    case Ok(relabeled) => UnbalancePy(relabeled, ratios, draws)
  }

  /** As written, unbalancing a set relabeled with the revised labels always
      fails with TypeError as soon as one annotation survives the
      placeholder filter and the relabeling succeeds. */
  lemma AsWrittenRevisedLabelsFail<D>(ds: Dataset<D, int>, rs: seq<Record>, ratios: seq<real>, draws: seq<real>)
    requires |draws| >= |rs|
    requires |LoadLabels(rs)| > 0
    requires RelabelSet(Dataset(ds.data, PyInts(ds.targets)), PyStrings(LoadLabels(rs)), false).Ok?
    ensures TrainingSetAsWritten(ds, rs, false, ratios, draws) == Err(TypeError)
  {
    var relabeled := RelabelSet(Dataset(ds.data, PyInts(ds.targets)), PyStrings(LoadLabels(rs)), false).value;
    var pairs := Zip(relabeled.data, relabeled.targets);
    assert pairs[0].1 == PyStr(LoadLabels(rs)[0].1);
    assert KeepDrawnPy(pairs, ratios, draws) == Err(TypeError);
  }

  /** main.py's loader keeps the annotation "3" as the string "3". */
  lemma ExampleLabels()
    ensures LoadLabels([Record(0, "3")]) == [(0, "3")]
  {
    var rs := [Record(0, "3")];
    assert !IsPlaceholder("3") by {
      ForeignCharacterSurvives("3", 0);
    }
    assert Survivors(rs) == rs by {
      SurvivorsSingle(Record(0, "3"));
    }
    assert Entries(rs) == [(0, "3")];
    assert FromPairs([(0, "3")]) == [(0, "3")] by {
      assert [(0, "3")][..0] == [];
    }
  }

  /** The smallest input that shows it: one annotation "3" for sample 0. */
  lemma AsWrittenCounterexample()
    ensures TrainingSetAsWritten(Dataset([0], [5]), [Record(0, "3")], false, MainRatios, [0.5]) == Err(TypeError)
  {
    ExampleLabels();
    assert Python.Subscript(0, 1) == Some(0);
    AsWrittenRevisedLabelsFail(Dataset([0], [5]), [Record(0, "3")], MainRatios, [0.5]);
  }

  /** The corrected pipeline: labels converted with `int()` when loaded, as
      label_statistics.py does, then `relabel_set` and `unbalance_set`. */
  function TrainingSet<D>(ds: Dataset<D, int>, rs: seq<Record>, useOriginal: bool, ratios: seq<real>, draws: seq<real>): (r: Result<Dataset<D, int>>)
    requires |draws| >= |rs|
    ensures r.Err? ==> r.error in {ValueError, IndexError}
  {
    match LoadIntLabels(rs)
    case Err(e) => Err(e)
    case Ok(labels) =>
      LoadIntLabelsLength(rs);
      match RelabelSet(ds, labels, useOriginal)
      case Err(e) => Err(e)
      case Ok(relabeled) => UnbalanceSet(relabeled, ratios, draws)
  }

  /** The converted annotations never outnumber the records. */
  lemma LoadIntLabelsLength(rs: seq<Record>)
    requires LoadIntLabels(rs).Ok?
    ensures |LoadIntLabels(rs).value| <= |rs|
  {
    var ps := ParseLabels(Survivors(rs)).value;
    assert |Firsts(ps)| == |Indices(Survivors(rs))|;
  }

  /** Corrected, revised digit labels always index the ten ratios: the only
      way the pipeline can still fail after relabeling is that every sample
      is dropped, and every kept target is one of the revised labels. */
  lemma CorrectedRevisedLabelsIndexRatios<D>(ds: Dataset<D, int>, rs: seq<Record>, ratios: seq<real>, draws: seq<real>)
    requires |draws| >= |rs| && |ratios| == 10
    requires LoadIntLabels(rs).Ok?
    requires forall n :: 0 <= n < |LoadIntLabels(rs).value| ==> 0 <= LoadIntLabels(rs).value[n].1 < 10
    requires RelabelSet(ds, LoadIntLabels(rs).value, false).Ok?
    ensures TrainingSet(ds, rs, false, ratios, draws).Ok? || TrainingSet(ds, rs, false, ratios, draws) == Err(ValueError)
    ensures TrainingSet(ds, rs, false, ratios, draws).Ok? ==>
              forall t :: t in TrainingSet(ds, rs, false, ratios, draws).value.targets ==> t in Seconds(LoadIntLabels(rs).value)
  {
    var labels := LoadIntLabels(rs).value;
    LoadIntLabelsLength(rs);
    var relabeled := RelabelSet(ds, labels, false).value;
    var pairs := Zip(relabeled.data, relabeled.targets);
    forall i | 0 <= i < |pairs|
      ensures Python.Item(ratios, pairs[i].1).Ok?
    {
      assert pairs[i].1 == labels[i].1;
    }
    assert KeepDrawn(pairs, ratios, draws).Ok?;
    if UnbalanceSet(relabeled, ratios, draws).Ok? {
      UnbalanceSelects(relabeled, ratios, draws);
      var out := UnbalanceSet(relabeled, ratios, draws).value;
      forall t | t in out.targets
        ensures t in Seconds(labels)
      {
        var k :| 0 <= k < |out.targets| && out.targets[k] == t;
        var idx := KeptPositions(pairs, ratios, draws);
        assert out.targets[k] == relabeled.targets[idx[k]];
        assert labels[idx[k]].1 == Seconds(labels)[idx[k]];
      }
    }
  }

  /** The corrected loader reads a one-digit annotation `str(v)` as the
      integer v. */
  lemma CorrectedDigitLabel(v: int)
    requires 0 <= v <= 9
    ensures LoadIntLabels([Record(0, Python.DecimalString(v))]) == Ok([(0, v)])
  {
    var text := Python.DecimalString(v);
    var rs := [Record(0, text)];
    assert text == [Python.DigitChar(v)];
    assert !IsPlaceholder(text) by {
      ForeignCharacterSurvives(text, 0);
    }
    assert Survivors(rs) == rs by {
      SurvivorsSingle(Record(0, text));
    }
    assert Python.ParseInt(text) == Ok(v) by {
      Python.ParseDecimalString(v);
    }
    var ps := ParseLabels(rs);
    assert ps.Ok?;
    assert Firsts(ps.value) == Indices(rs) == [0];
    assert Ok(ps.value[0].1) == Python.ParseInt(text);
    assert ps.value == [(0, v)];
    assert FromPairs([(0, v)]) == [(0, v)] by {
      assert [(0, v)][..0] == [];
    }
  }

  /** Relabeling the single sample 0 with the integer v. */
  lemma CorrectedRelabelSingle<D>(d: D, o: int, v: int)
    ensures RelabelSet(Dataset([d], [o]), [(0, v)], false) == Ok(Dataset([d], [v]))
  {
    var relabeled := RelabelSet(Dataset([d], [o]), [(0, v)], false);
    assert Python.Subscript(0, 1) == Some(0);
    assert relabeled.Ok?;
    assert relabeled.value.data == [d] && relabeled.value.targets == [v];
  }

  /** Classes 1 to 9 have ratio 1, so any draw below 1 keeps their sample. */
  lemma CorrectedUnbalanceSingle<D>(d: D, v: int, draw: real)
    requires 1 <= v <= 9 && draw < 1.0
    ensures UnbalanceSet(Dataset([d], [v]), MainRatios, [draw]) == Ok(Dataset([d], [v]))
  {
    var pairs := [(d, v)];
    assert Zip([d], [v]) == pairs;
    assert Python.Item(MainRatios, v) == Ok(1.0);
    assert pairs[..0] == [];
    assert KeepDrawn(pairs[..0], MainRatios, [draw]) == Ok([]);
    assert [] + [pairs[0]] == pairs;
    assert KeepDrawn(pairs, MainRatios, [draw]) == Ok(pairs);
    assert Firsts(pairs) == [d] && Seconds(pairs) == [v];
  }

  /** On the counterexample's input shape, with any digit 1 to 9 as the
      annotation and any draw below 1, the corrected pipeline keeps the
      sample with the annotated label. */
  lemma CorrectedExample<D>(d: D, o: int, v: int, draw: real)
    requires 1 <= v <= 9 && draw < 1.0
    ensures TrainingSet(Dataset([d], [o]), [Record(0, Python.DecimalString(v))], false, MainRatios, [draw]) ==
            Ok(Dataset([d], [v]))
  {
    CorrectedDigitLabel(v);
    CorrectedRelabelSingle(d, o, v);
    CorrectedUnbalanceSingle(d, v, draw);
  }
}

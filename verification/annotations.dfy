/** The annotation loader, in both of its versions: `load_labels` of main.py
    keeps each surviving label as a string, `load_labels` of
    label_statistics.py converts it with `int()`. The JSON file is read
    elsewhere; the loader starts from the parsed list of records. */
module Annotations {
  import opened Wrappers
  import opened Python
  import opened OrderedDict
  import opened Pairs

  /** One JSON annotation object `{"index": ..., "newLabel": ...}`. */
  datatype Record = Record(index: int, newLabel: string)

  /** A label that is a substring of this string is a placeholder. */
  const Placeholders: string := "psud-"

  /** `label in "psud-"`: the label is a substring of the placeholder string. */
  predicate IsPlaceholder(text: string)
  {
    Contains(Placeholders, text)
  }

  /** The list comprehension that drops placeholder records, in input order. */
  function Survivors(rs: seq<Record>): (out: seq<Record>)
    ensures |out| <= |rs|
  {
    if |rs| == 0 then [] else
      var last := rs[|rs| - 1];
      Survivors(rs[..|rs| - 1]) + (if IsPlaceholder(last.newLabel) then [] else [last])
  }

  /** The `index` fields of some records, in order. */
  function Indices(rs: seq<Record>): (ks: seq<int>)
    ensures |ks| == |rs|
    ensures forall i :: 0 <= i < |rs| ==> ks[i] == rs[i].index
  {
    seq(|rs|, i requires 0 <= i < |rs| => rs[i].index)
  }

  /** The (index, newLabel) pairs the comprehension of main.py assigns. */
  function Entries(rs: seq<Record>): (ps: seq<(int, string)>)
    ensures Firsts(ps) == Indices(rs)
    ensures forall i :: 0 <= i < |rs| ==> ps[i] == (rs[i].index, rs[i].newLabel)
  {
    var ps := seq(|rs|, i requires 0 <= i < |rs| => (rs[i].index, rs[i].newLabel));
    assert Firsts(ps) == Indices(rs);
    ps
  }

  /** `load_labels` of main.py: placeholder records dropped, then a dict from
      index to label string, later records overwriting earlier ones. */
  function LoadLabels(rs: seq<Record>): (d: Dict<int, string>)
    ensures WellFormed(d)
    ensures |d| <= |rs|
  {
    FromPairs(Entries(Survivors(rs)))
  }

  /** The (index, int(newLabel)) pairs of label_statistics.py, or the
      ValueError `int()` raises on the first label it rejects (every
      rejection is a ValueError, so which label fails first does not show). */
  function ParseLabels(rs: seq<Record>): (r: Result<seq<(int, int)>>)
    ensures r.Ok? <==> forall i :: 0 <= i < |rs| ==> ParseInt(rs[i].newLabel).Ok?
    ensures r.Err? ==> r.error == ValueError
    ensures r.Ok? ==> Firsts(r.value) == Indices(rs)
    ensures r.Ok? ==> forall i :: 0 <= i < |rs| ==> Ok(r.value[i].1) == ParseInt(rs[i].newLabel)
  {
    if forall i :: 0 <= i < |rs| ==> ParseInt(rs[i].newLabel).Ok? then
      var ps := seq(|rs|, i requires 0 <= i < |rs| && ParseInt(rs[i].newLabel).Ok? =>
                            (rs[i].index, ParseInt(rs[i].newLabel).value));
      assert Firsts(ps) == Indices(rs);
      Ok(ps)
    else
      Err(ValueError)
  }

  /** `load_labels` of label_statistics.py: as in main.py, but every surviving
      label goes through `int()`. */
  function LoadIntLabels(rs: seq<Record>): (r: Result<Dict<int, int>>)
    ensures r.Ok? ==> WellFormed(r.value)
    ensures r.Err? ==> r.error == ValueError
  {
    match ParseLabels(Survivors(rs))
    case Err(e) => Err(e)
    case Ok(ps) => Ok(FromPairs(ps))
  }

  // ---------------------------------------------------------------- lemmas

  /** Filtering is done record by record: the survivors of a concatenation are
      the survivors of each part, in order. */
  lemma {:induction false} SurvivorsAppend(a: seq<Record>, b: seq<Record>)
    ensures Survivors(a + b) == Survivors(a) + Survivors(b)
    decreases |b|
  {
    if |b| > 0 {
      var ab := a + b;
      assert ab[..|ab| - 1] == a + b[..|b| - 1];
      assert ab[|ab| - 1] == b[|b| - 1];
      SurvivorsAppend(a, b[..|b| - 1]);
    } else {
      assert a + b == a;
    }
  }

  /** A record survives exactly when it is in the input and its label is not
      a placeholder. */
  lemma {:induction false} SurvivorsMembers(rs: seq<Record>)
    ensures forall r :: r in Survivors(rs) <==> r in rs && !IsPlaceholder(r.newLabel)
  {
    if |rs| > 0 {
      var pre := rs[..|rs| - 1];
      SurvivorsMembers(pre);
      assert rs == pre + [rs[|rs| - 1]];
    }
  }

  /** A single record survives exactly when its label is not a placeholder. */
  lemma SurvivorsSingle(r: Record)
    ensures Survivors([r]) == if IsPlaceholder(r.newLabel) then [] else [r]
  {
    assert [r][..0] == [];
  }

  /** Every substring of the placeholder string, the empty one included. */
  const PlaceholderSubstrings: set<string> :=
    {"", "p", "s", "u", "d", "-", "ps", "su", "ud", "d-",
     "psu", "sud", "ud-", "psud", "sud-", "psud-"}

  lemma PlaceholderIsListed(s: string)
    requires IsPlaceholder(s)
    ensures s in PlaceholderSubstrings
  {
    var h := Placeholders;
    assert |h| == 5 && h[0] == 'p' && h[1] == 's' && h[2] == 'u' && h[3] == 'd' && h[4] == '-';
    var i :| OccursAt(h, s, i);
    assert s == h[i..i + |s|];
    if |s| == 0 { assert s == ""; }
    else if i == 0 && |s| == 1 { assert s == h[0..1] == "p"; }
    else if i == 0 && |s| == 2 { assert s == h[0..2] == "ps"; }
    else if i == 0 && |s| == 3 { assert s == h[0..3] == "psu"; }
    else if i == 0 && |s| == 4 { assert s == h[0..4] == "psud"; }
    else if i == 0 && |s| == 5 { assert s == h[0..5] == "psud-"; }
    else if i == 1 && |s| == 1 { assert s == h[1..2] == "s"; }
    else if i == 1 && |s| == 2 { assert s == h[1..3] == "su"; }
    else if i == 1 && |s| == 3 { assert s == h[1..4] == "sud"; }
    else if i == 1 && |s| == 4 { assert s == h[1..5] == "sud-"; }
    else if i == 2 && |s| == 1 { assert s == h[2..3] == "u"; }
    else if i == 2 && |s| == 2 { assert s == h[2..4] == "ud"; }
    else if i == 2 && |s| == 3 { assert s == h[2..5] == "ud-"; }
    else if i == 3 && |s| == 1 { assert s == h[3..4] == "d"; }
    else if i == 3 && |s| == 2 { assert s == h[3..5] == "d-"; }
    else if i == 4 && |s| == 1 { assert s == h[4..5] == "-"; }
  }

  lemma ListedArePlaceholders()
    ensures forall s :: s in PlaceholderSubstrings ==> IsPlaceholder(s)
  {
    var h := Placeholders;
    assert OccursAt(h, "", 0);
    assert h[0..1] == "p" && h[1..2] == "s" && h[2..3] == "u" && h[3..4] == "d" && h[4..5] == "-";
    assert OccursAt(h, "p", 0) && OccursAt(h, "s", 1) && OccursAt(h, "u", 2);
    assert OccursAt(h, "d", 3) && OccursAt(h, "-", 4);
    assert h[0..2] == "ps" && h[1..3] == "su" && h[2..4] == "ud" && h[3..5] == "d-";
    assert OccursAt(h, "ps", 0) && OccursAt(h, "su", 1) && OccursAt(h, "ud", 2) && OccursAt(h, "d-", 3);
    assert h[0..3] == "psu" && h[1..4] == "sud" && h[2..5] == "ud-";
    assert OccursAt(h, "psu", 0) && OccursAt(h, "sud", 1) && OccursAt(h, "ud-", 2);
    assert h[0..4] == "psud" && h[1..5] == "sud-" && h[0..5] == "psud-";
    assert OccursAt(h, "psud", 0) && OccursAt(h, "sud-", 1) && OccursAt(h, "psud-", 0);
  }

  /** The labels `in "psud-"` accepts: every substring of it, the empty
      string and multi-character ones included. */
  lemma PlaceholderLabels(s: string)
    ensures IsPlaceholder(s) <==> s in PlaceholderSubstrings
  {
    ListedArePlaceholders();
    if IsPlaceholder(s) {
      PlaceholderIsListed(s);
    }
  }

  /** For one-character labels the substring test is membership in the
      placeholder characters. */
  lemma SingleCharacterPlaceholders(c: char)
    ensures IsPlaceholder([c]) <==> c in {'p', 's', 'u', 'd', '-'}
  {
    PlaceholderLabels([c]);
  }

  /** A label holding any character outside the placeholder string, a digit
      for one, always survives. */
  lemma ForeignCharacterSurvives(s: string, k: nat)
    requires k < |s| && s[k] !in Placeholders
    ensures !IsPlaceholder(s)
  {
    forall i | 0 <= i && i + |s| <= |Placeholders|
      ensures !OccursAt(Placeholders, s, i)
    {
      var w := Placeholders[i..i + |s|];
      assert w[k] == Placeholders[i + k];
      assert w[k] in Placeholders;
      assert w != s;
    }
  }

  /** main.py's loader keeps a key exactly when some record carries it as
      its index and has a label that is not a placeholder. */
  lemma LoadLabelsKeys(rs: seq<Record>)
    ensures forall k :: k in Firsts(LoadLabels(rs)) <==>
              exists r :: r in rs && !IsPlaceholder(r.newLabel) && r.index == k
  {
    var s := Survivors(rs);
    FromPairsKeys(Entries(s));
    SurvivorsMembers(rs);
    forall k | k in Firsts(LoadLabels(rs))
      ensures exists r :: r in rs && !IsPlaceholder(r.newLabel) && r.index == k
    {
      var i :| 0 <= i < |s| && Indices(s)[i] == k;
      assert s[i] in s;
    }
    forall k | exists r :: r in rs && !IsPlaceholder(r.newLabel) && r.index == k
      ensures k in Firsts(LoadLabels(rs))
    {
      var r :| r in rs && !IsPlaceholder(r.newLabel) && r.index == k;
      var i :| 0 <= i < |s| && s[i] == r;
      assert Indices(s)[i] == k;
    }
  }

  /** main.py's loader: the keys are exactly the indices of surviving records,
      each key holds the label of the LAST surviving record with that index,
      and keys come in the order of their FIRST surviving occurrence. */
  lemma LoadLabelsSpec(rs: seq<Record>)
    ensures forall k :: k in Firsts(LoadLabels(rs)) <==>
              exists r :: r in rs && !IsPlaceholder(r.newLabel) && r.index == k
    ensures forall k :: k in Firsts(LoadLabels(rs)) ==>
              var s := Survivors(rs);
              k in Indices(s) && Get(LoadLabels(rs), k) == Some(s[LastIndexOf(Indices(s), k)].newLabel)
    ensures FirstOccurrenceOrder(Indices(Survivors(rs)), Firsts(LoadLabels(rs)))
  {
    var ps := Entries(Survivors(rs));
    LoadLabelsKeys(rs);
    FromPairsFirstOccurrence(ps);
    FromPairsLastWins(ps);
  }

  /** label_statistics.py's loader fails exactly when some surviving label is
      rejected by `int()`. */
  lemma LoadIntLabelsFails(rs: seq<Record>)
    ensures LoadIntLabels(rs).Ok? <==>
              forall r :: r in rs && !IsPlaceholder(r.newLabel) ==> ParseInt(r.newLabel).Ok?
  {
    var s := Survivors(rs);
    SurvivorsMembers(rs);
    if ParseLabels(s).Ok? {
      forall r | r in rs && !IsPlaceholder(r.newLabel)
        ensures ParseInt(r.newLabel).Ok?
      {
        var i :| 0 <= i < |s| && s[i] == r;
      }
    } else {
      var i :| 0 <= i < |s| && ParseInt(s[i].newLabel).Err?;
      assert s[i] in s;
    }
  }

  /** When it succeeds, label_statistics.py's loader yields main.py's dict,
      key for key and in the same order, with every label passed through
      `int()`. */
  lemma LoadIntLabelsAgrees(rs: seq<Record>)
    requires LoadIntLabels(rs).Ok?
    ensures Firsts(LoadIntLabels(rs).value) == Firsts(LoadLabels(rs))
    ensures forall n :: 0 <= n < |LoadLabels(rs)| ==>
              Ok(LoadIntLabels(rs).value[n].1) == ParseInt(LoadLabels(rs)[n].1)
  {
    var s := Survivors(rs);
    var qs := ParseLabels(s).value;
    var ps := Entries(s);
    var dq := FromPairs(qs);
    var dp := FromPairs(ps);
    FromPairsSameKeys(ps, qs);
    FromPairsLastWins(ps);
    FromPairsLastWins(qs);
    FromPairsKeys(ps);
    forall n | 0 <= n < |dp|
      ensures Ok(dq[n].1) == ParseInt(dp[n].1)
    {
      var k := dp[n].0;
      assert Firsts(dp)[n] == k && Firsts(dq)[n] == k;
      GetEntry(dp, n);
      GetEntry(dq, n);
      var i := LastIndexOf(Indices(s), k);
      assert dp[n].1 == ps[i].1 == s[i].newLabel;
      assert dq[n].1 == qs[i].1;
    }
  }
}

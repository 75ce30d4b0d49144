# MNIST relabeling pipeline, modelled in Dafny

The repository trains an MNIST classifier on a training set whose labels
were revised by hand. Around the training code sit a few small,
deterministic pieces of list and dictionary logic, and this project models
those:

- **The annotation loader.** `load_labels` exists twice. The main.py
  version reads a list of `{index, newLabel}` records and drops every
  record whose label is a substring of `"psud-"`. It then builds a dict
  from index to label. A later record overwrites an earlier one, but the
  key keeps the position where it first appeared. The label_statistics.py
  version does the same and also converts each label with `int()`.
- **The dataset transformer.** `relabel_set` keeps the samples at the
  annotated indices, in key order. Each sample carries either its original
  target or its annotation. `unbalance_set` keeps a sample when its random
  draw falls below the ratio of its class. main.py calls it with the
  ratios `[.1, 1, …, 1]`.
- **The class histogram.** This is the `np.bincount` loop of
  `determine_class_weights`.
- **The statistics reporter.** `report_statistics` counts the annotations
  that agree with the original labels and tallies the 10×10 confusion
  matrix. `print_confusion` prints that matrix as a fixed-width table.

Python's own behaviour is modelled where the scripts depend on it:

- a negative list, tensor or numpy subscript counts from the end;
- `in` on two strings is a substring test;
- `int()` ignores surrounding space, `\t`, `\n`, `\v`, `\f` and `\r` and accepts a sign;
- `f'{x:5d}'` right-aligns `str(x)`.

Every Python exception the code can raise on these inputs is a `Result`
error. The error kinds are `IndexError`, `TypeError`, `ValueError` and
`ZeroDivisionError`.

The placeholder filter (main.py:99, commented only as removing non-integer
input) reads naturally as a test for the five single-character
placeholders. The code uses substring `in`, which also drops `""`, `"ud"`
and `"psud-"`, and the model follows the code.
`Annotations.PlaceholderLabels` lists every label that is dropped.

Negative indices and labels are not ruled out by preconditions. The code
accepts them and Python wraps them around, so the model wraps them too. As
a result, the trace of the confusion matrix equals the agreement count only
when no label is negative. Otherwise the trace is an upper bound:
`Statistics.ReportTrace` proves the bound in general and the equality
without negative labels.

Modules:

- `Wrappers`: `Option`, `Result` and the Python error kinds.
- `Python`: subscripts, `in`, `str`, `int` and field formatting.
- `OrderedDict`: an insertion-ordered dict, as a sequence of pairs.
- `Counting`: occurrence counts and sums.
- `Annotations`: both loaders.
- `Transform`: `relabel_set` and `unbalance_set`.
- `ClassHistogram`: the bincount loop.
- `Statistics`: `report_statistics`.
- `ConfusionTable`: `print_confusion`.
- `Findings`: the training-set pipeline of main.py lines 191-193, as
  written and corrected.

## Model

| member | source | states |
|---|---|---|
| Python.Subscript | main.py:106 | A subscript selects a position exactly when it lies in -n..n-1: position i for i ≥ 0 and n + i for negative i, always inside the sequence |
| Python.Item | main.py:119 | `xs[i]` on a list succeeds exactly when i is a valid subscript, giving the element it selects; otherwise IndexError. The same lookup is `ratios[target]` and `original_labels[index]` (label_statistics.py line 32) |
| Python.Contains | main.py:99 | `needle in hay` holds exactly when the needle occurs at some offset of the haystack |
| Python.ParseDecimalString | label_statistics.py:12 | Of `Python.ParseInt` and `Python.DecimalString`: `int(str(n)) == n` for every integer n, negative ones included |
| Python.ParseFormatInt | label_statistics.py:20 | `Python.ParseInt`, the model of `int()`, reads back `Python.FormatInt`, the model of the format: `int()` reads back `f'{x:wd}'` as x for every x and every width w: the padding is whitespace that `int()` ignores |
| Python.SeparatorNotSkipped | label_statistics.py:12 | `int()` reads `"\t 3\n"` as 3 but rejects `"\x1c3"` with ValueError: it skips only space, `\t`, `\n`, `\v`, `\f` and `\r`, not every character `str.isspace` accepts |
| Python.ParseIntNeedsDigit | label_statistics.py:12 | A label that contains no decimal digit is always rejected by `int()` with ValueError |
| Python.PadLeftLayout | label_statistics.py:20 | A right-aligned field ends in the text itself and holds only spaces before it |
| Python.DecimalStringLength | label_statistics.py:20 | `str(x)` fits a field of width w when 0 <= x < 10^w, or when x is negative with at most w-1 digits |
| OrderedDict.Put | main.py:100 | Assigning to an existing key keeps the key order and appends a new key at the end; the assigned key then maps to the new value and every other key keeps its value |
| OrderedDict.FromPairsKeys | main.py:100 | Of `OrderedDict.FromPairs`, the dict comprehension: a dict comprehension has exactly the keys of its pairs |
| OrderedDict.FromPairsFirstOccurrence | main.py:100 | The comprehension's keys come in the order of each key's first occurrence among the pairs |
| OrderedDict.FromPairsLastWins | main.py:100 | Of `OrderedDict.FromPairs`: each key holds the value of the last pair that carries it, and a key that no pair carries is absent |
| OrderedDict.FromPairsSameKeys | label_statistics.py:12 | The key order of a comprehension depends only on the keys of its pairs, not on their values |
| Annotations.SurvivorsAppend | main.py:99 | The filter decides record by record: the survivors of a concatenation are the survivors of each part, in input order |
| Annotations.SurvivorsMembers | main.py:99 | Of `Annotations.Survivors`, the filter of the comprehension: a record survives exactly when it is in the input and its label is not a placeholder |
| Annotations.PlaceholderLabels | main.py:99 | A label is dropped exactly when it is one of the 16 substrings of "psud-", the empty string included |
| Annotations.SingleCharacterPlaceholders | main.py:99 | A one-character label is dropped exactly when it is p, s, u, d or - |
| Annotations.ForeignCharacterSurvives | main.py:99 | A label containing any character outside "psud-", such as a digit, is never dropped |
| Annotations.LoadLabelsKeys | main.py:99-100 | The loaded dict has a key exactly when some record carries that index and has a non-placeholder label |
| Annotations.LoadLabelsSpec | main.py:96-101 | Of `Annotations.LoadLabels`, main.py's `load_labels`: the keys are the surviving indices; each key holds the label of its last surviving record; keys iterate in the order of their first surviving occurrence |
| Annotations.ParseLabels | label_statistics.py:12 | The conversion succeeds exactly when every label is accepted by `int()`; it fails only with ValueError; it keeps the indices and converts each label |
| Annotations.LoadIntLabelsFails | label_statistics.py:11-12 | label_statistics.py's loader fails exactly when some record that survives the filter has a label that `int()` rejects |
| Annotations.LoadIntLabelsAgrees | label_statistics.py:7-13 | Of `Annotations.LoadIntLabels`, label_statistics.py's `load_labels`: when it succeeds, label_statistics.py's loader yields main.py's dict with the same keys in the same order, and each value is `int()` of main.py's string |
| Transform.Project | main.py:106 | `[xs[k] for k in keys]` succeeds exactly when every key is a valid subscript; otherwise it raises IndexError; on success element n is the element the n-th key selects |
| Transform.RelabelSet | main.py:104-112 | Succeeds exactly when every key is a valid subscript of data (and of targets, when the original labels are used); otherwise IndexError. On success data and targets have one entry per key; entry n is the sample of key n, with its original target or its annotation |
| Transform.Zip | main.py:118 | `zip` pairs position by position up to the shorter list |
| Transform.UnzipZip | main.py:118-121 | Unzipping the zipped lists gives back data and targets cut to the shorter length |
| Transform.KeepDrawn | main.py:116-120 | The comprehension succeeds exactly when every target's ratio lookup succeeds; otherwise IndexError; it never keeps more pairs than it was given |
| Transform.KeptPositions | main.py:116-120 | The drawn positions are strictly increasing and inside the input, and a position is among them exactly when its draw falls below its class ratio |
| Transform.KeepDrawnSelects | main.py:116-120 | The kept pairs are exactly the input pairs at the drawn positions, in their original order |
| Transform.UnbalanceSet | main.py:115-122 | It raises IndexError exactly when some sample's target has no ratio; otherwise it raises ValueError exactly when nothing is drawn (with `Transform.UnbalanceNothingKept`) and succeeds. On success data and targets are equally long, non-empty and no longer than the input |
| Transform.UnbalanceSelects | main.py:115-122 | Output sample k is the input sample at the k-th drawn position, data and target together |
| Transform.UnbalanceNothingKept | main.py:121 | `unbalance_set` raises ValueError exactly when every ratio lookup succeeds and no draw falls below its ratio |
| Transform.KeepDrawnWholeClass | main.py:119 | With draws in [0, 1), a class whose ratio is at least 1 is kept whole and a class whose ratio is at most 0 is dropped entirely |
| Transform.MainRatiosKeepClassesOneToNine | main.py:193 | With main.py's ratios, every sample of classes 1 to 9 survives `unbalance_set` |
| ClassHistogram.Histogram | main.py:50 | The bincount succeeds exactly when every target is in 0..9, giving ten bins; a negative target or one of 10 or more raises ValueError |
| ClassHistogram.HistogramCounts | main.py:47-50 | Bin c holds the number of targets equal to c, and the bins sum to the number of targets |
| ClassHistogram.HistogramShuffle | main.py:49-50 | The histogram depends only on the multiset of targets, so shuffling the loader does not change it |
| ClassHistogram.HistogramAppend | main.py:50 | Counting two parts separately and adding their bins gives the histogram of the whole, and the whole succeeds exactly when both parts do |
| ClassHistogram.ClassCounts | main.py:46-50 | The batch loop computes the histogram of all targets of all batches, or its error |
| Statistics.NrCorrect | label_statistics.py:32 | The agreement count succeeds exactly when every key has an original label; otherwise IndexError. It is at most the number of keys, equals it exactly when every key agrees, and is 0 exactly when none does |
| Statistics.NrCorrectCounts | label_statistics.py:32 | The agreement count is the number of entries whose annotation equals the original label of its key |
| Statistics.CellOf | label_statistics.py:37 | `confusion[original_labels[index], labels[index]]` exists exactly when the key is a subscript of the original labels and both labels lie in -10..9; otherwise IndexError. The cell is (o, v) with each negative label wrapped to 10 plus it |
| Statistics.Cells | label_statistics.py:36-37 | The loop visits one cell per key, in key order, and succeeds exactly when every key's cell exists; otherwise IndexError |
| Statistics.Percent | label_statistics.py:33 | The percentage is between 0 and 100 and equals 100·nr_correct/len(labels) exactly |
| Statistics.ReportStatistics | label_statistics.py:29-38 | An empty annotation dict gives ZeroDivisionError; otherwise the report succeeds exactly when every key's cell exists and fails only with IndexError; it reports the key count, the agreement count, the percentage and the 10×10 confusion matrix of its keys |
| Statistics.ReportedCell | label_statistics.py:35-37 | Entry (r, c) of the reported matrix is the number of keys whose cell is (r, c) |
| Statistics.TallyCell | label_statistics.py:35-37 | Each matrix cell counts the keys that incremented it |
| Statistics.TallyTotal | label_statistics.py:35-37 | All cells of the matrix sum to the number of increments |
| Statistics.ConfusionCounts | label_statistics.py:35-37 | Of `Statistics.Confusion`, the tallied matrix: the matrix cells sum to the number of keys. Cell (r, c) counts the keys whose cell is (r, c). Row r sums to the keys whose original label selects row r, and column c to the keys whose annotation selects column c |
| Statistics.CellOnDiagonal | label_statistics.py:32 | A key whose annotation agrees lands on the diagonal; when both labels are non-negative, only agreeing keys do |
| Statistics.NrCorrectBelowDiagonal | label_statistics.py:32 | The agreement count never exceeds the number of keys on the diagonal, and equals it when no label is negative |
| Statistics.ReportTrace | label_statistics.py:32-37 | The trace of the reported matrix bounds `nr_correct` from above, and equals it when no label is negative |
| ConfusionTable.FormatCellWidth | label_statistics.py:20 | `f'{x:5d}'` is exactly five characters for -9999 <= x <= 99999 |
| ConfusionTable.ConcatLayout | label_statistics.py:19-20 | Five-character cells printed one after another occupy positions 5j to 5j+5 |
| ConfusionTable.LineReadsBack | label_statistics.py:17-21 | A printed row is 4+5·len(row) wide, starts with its first column, and cell j is `f'{row[j]:5d}'`, which `int()` reads back as row[j] |
| ConfusionTable.NumberedLineReadsBack | label_statistics.py:24-25 | The line of matrix row i starts with `f"{i:2d}"`, which reads back as i, then a space and a vertical bar; cell j is `f'{row[j]:5d}'` and reads back as row[j] |
| ConfusionTable.HeaderReadsBack | label_statistics.py:22 | The header is three spaces and a vertical bar, followed by each column index right-aligned in five characters |
| ConfusionTable.RenderShape | label_statistics.py:15-26 | Of `ConfusionTable.RenderConfusion`, the lines `print_confusion` prints: the table has one line per matrix row plus four: an empty line, the header, the rule, the row lines in order, and an empty line. The header, the rule and every row line are 4+5·cols wide, and the rule is all dashes |
| ConfusionTable.RenderReadsBack | label_statistics.py:15-26 | Of `ConfusionTable.RenderConfusion`: reading the printed table back recovers the column indices from the header, the row index of each row line, and every matrix entry |
| ConfusionTable.RenderedCell | label_statistics.py:15-26 | Cell c of line 3 + r of the printed table reads back as the matrix entry m[r][c] |
| ConfusionTable.ReportPrintsConfusion | label_statistics.py:29-38 | In the table `report_statistics` prints for fewer than 100000 keys, cell c of row r reads back as the number of keys whose original label selects row r and whose annotation selects column c |
| Findings.PyRatioAt | main.py:119 | A ratio lookup with a string target always raises TypeError; one with an integer target behaves as for integers |
| Findings.KeepDrawnPy | main.py:116-120 | Over dynamically typed targets, the comprehension succeeds exactly when every target's ratio lookup succeeds |
| Findings.AsWrittenRevisedLabelsFail | main.py:191-193 | Of `Findings.UnbalancePy` and `Findings.TrainingSetAsWritten`, `unbalance_set` and the pipeline with dynamically typed targets: as written, unbalancing a set relabeled with the revised labels always raises TypeError once one annotation survives and the relabeling succeeds |
| Findings.AsWrittenCounterexample | main.py:191-193 | One annotation "3" for the single sample 0, with unbalancing on and revised labels, raises TypeError |
| Findings.TrainingSet | main.py:191-193 | The corrected pipeline fails only with ValueError or IndexError, never with TypeError |
| Findings.CorrectedRevisedLabelsIndexRatios | main.py:191-193 | When corrected revised labels are digits, the ten ratios are always indexable: the pipeline succeeds unless nothing is kept, and every kept target is one of the revised labels |
| Findings.CorrectedExample | main.py:191-193 | On the counterexample's input shape, a single sample annotated with any digit 1 to 9, and any draw below 1, the corrected pipeline keeps the sample with the annotated label |

## Left out

- Network definition, training, testing, optimizer, scheduler, focal loss and model saving (main.py:21-93, 197-210). These are PyTorch numerics.
- The class weights `sum / count` (main.py:51). They are floating point, and a class with no samples gives inf. Only the integer bin counts are modelled.
- Reading the JSON annotation and label files and downloading MNIST (main.py:97-98, 187-190; label_statistics.py:8-9, 46-51). These are I/O. The loaders start from the parsed list of records, and the reporter starts from the list of original labels.
- Command-line parsing and device selection (main.py:125-186; label_statistics.py:41-53). These are plumbing.
- `random.random()` is external randomness. The draws are a parameter, one per sample, consumed in order. Only `Transform.KeepDrawnWholeClass` and `Transform.MainRatiosKeepClassesOneToNine` need them to lie in [0, 1), and `Findings.CorrectedUnbalanceSingle`, `Findings.CorrectedExample` need the one draw to be below 1, as `random.random()` guarantees.
- The printed summary lines of `report_statistics` (label_statistics.py:30, 33) are output. The printed values are modelled; the `:.3f` rounding of the percentage is not.
- The MNIST dataset's `__getitem__` conversion of each target with `int()` belongs to torchvision, which is not part of this model. It happens only after `unbalance_set`, so it does not affect the finding below.
- The images are an opaque type parameter, and the dataset is reduced to its `data` and `targets` lists.
- Python.ParseInt: accepts only ASCII digits and the six ASCII whitespace characters `int()` skips. Python's `int()` also accepts underscores between digits (`"1_0"`) and non-ASCII digits and spaces; the model rejects them with ValueError.
- Python.ParseDecimalString: holds for every integer because the model has no digit limit. Python 3.11 and later raise ValueError in `int()` and `str()` for numbers of more than 4300 digits, so there the round trip holds only below that size; the same applies to `Python.ParseFormatInt`.
- ConfusionTable.ReportPrintsConfusion: holds for fewer than 100000 keys only. Beyond that a count can be wider than its five-character cell and the columns shift.
- The JSON records are modelled as `Record(index: int, newLabel: string)`. A record with a missing key or a non-string label would raise KeyError or TypeError at main.py:99; the model cannot express such a record.
- Statistics.Percent: is an exact rational. The model reads `/` between integers as exact division, while Python's `/` returns a binary float.

## Findings

| source | as written | input that shows it | evidently intended | confidence | as-written member | corrected member |
|---|---|---|---|---|---|---|
| main.py:100 | `load_labels` keeps each `newLabel` as a string. Without `--use_original_labels`, `relabel_set` makes those strings the targets. With `--unbalance_dataset`, `unbalance_set` then evaluates `ratios[target]` with a string target (main.py:119), which raises TypeError | the annotation list `[{"index": 0, "newLabel": "3"}]` on a one-sample training set, with `--unbalance_dataset` and without `--use_original_labels` | convert each surviving label with `int()` when loading, as label_statistics.py:12 does, so that the targets are integers and index the ratios | not executed | Findings.AsWrittenCounterexample | Findings.CorrectedRevisedLabelsIndexRatios |

# Ensemble evaluator for two-feature linear classifiers — a Dafny model

The program evaluates an ensemble of linear multi-class classifiers. Every classifier is a
weight matrix with one row per class, `(betha_0, betha_1, bias)`. For each validation
instance `(length, width)` it scores each class as `bias + betha_0*length + betha_1*width`.
It picks the first class with the highest score. The ensemble then takes a hard majority
vote: it tallies the classifiers' predicted classes and picks the first class with the most
votes. Finally it counts how many votes match the first column of the label rows. The
program is a single file, `main.cpp`.

The model is a set of pure functions over sequences. Scores are `real`. Tallies are `nat`,
converted to `real` for the shared arg-max, because the source keeps them in a
`vector<float>`. Accuracy is a record `Score(matches, total)` plus a separate `Ratio`.

| module | file | models |
|---|---|---|
| `Seqs` | seqs.dfy | helpers: `Map`, `Sum`, mapping preserves permutations |
| `Csv` | csv.dfy | `getline` splitting of rows into fields and of file contents into lines, `read_csv` |
| `Strings` | strings.dfy | `ends_with`, as written and as intended |
| `ArgMax` | argmax.dfy | `get_max_index` |
| `Linear` | linear.dfy | `get_scores`, `predict` (one classifier), `predict_linearly` |
| `Voting` | voting.dfy | the tally, `get_final_class`, `voter` |
| `Accuracy` | accuracy.dfy | `get_score` |
| `Pipeline` | pipeline.dfy | the composition in `predict(string, string)` once the data is loaded |

The source reads several things without checking them. The model states each one as a
precondition:
- at least one weight matrix (`weight_vectors[0]`);
- a non-empty list for the arg-max (`list[0]`);
- two features per dataset row and three coefficients per weight row;
- class ids inside the tally;
- a class column in every label row, and no more labels than predictions.

Choices the model makes where the code is silent or unsafe:
- The code converts fields with `atof`, which turns unparseable text into a number without
  failing. It also reads a file that cannot be opened as if it were empty. Conversion is the
  parameter `convert`, and file opening is outside the model.
- The code reads `list[0]` in the arg-max and `weight_vectors[0]` in the composition without
  checking either. The model makes a non-empty list and at least one weight matrix
  preconditions.
- `get_score` loops over the labels but divides by the prediction's length. `GetScore` keeps
  exactly that shape.
- `ends_with` is not a suffix test when the two strings have the same length. The model has
  both the code as written and the intended test (see Findings).

## Model

| member | source | states |
|---|---|---|
| ArgMax.MaxIndex | main.cpp:200-213 | needs a non-empty list; the result is a valid index whose value is at least every element and strictly greater than every earlier element, so the first maximum wins |
| ArgMax.MaxIndexFrom | main.cpp:205-210 | continuing the scan from any prefix whose best index is its first maximum ends at the first maximum of the whole list |
| ArgMax.MaxIndexExactly | main.cpp:200-213 | an index is the scan's result exactly when it is the first maximum, in both directions |
| ArgMax.TieGoesToLowerIndex | main.cpp:205-210 | of two positions with equal values, the later one is never chosen (the scan moves only on a strictly greater value) |
| Linear.GetScores | main.cpp:184-198 | exactly `number_of_classes` scores; score `c` is `betha[c][BIAS] + betha[c][BETHA_0]*row[LENGTH] + betha[c][BETHA_1]*row[WIDTH]` |
| Linear.Predict | main.cpp:215-228 | one class per dataset row, in row order; each is in `[0, n)`, its score is at least every class's score, and every lower class scores strictly less |
| Linear.PredictLinearly | main.cpp:269-282 | one prediction vector per weight matrix, in weight-matrix order, each as long as the dataset with class ids in `[0, n)` |
| Voting.Tally | main.cpp:246-249 | the tally has `number_of_classes` entries; entry `c` is the number of classifiers voting for `c` |
| Voting.TallySum | main.cpp:246-249 | the tally entries add up to the number of votes cast |
| Voting.FinalClassTally | main.cpp:243-253 | the tally of an instance has `number_of_classes` entries summing to `number_of_classifier` when every vote is in range |
| Voting.FinalClass | main.cpp:243-253 | needs, at the one instance read, an in-range class id from each of the first `number_of_classifier` vectors; the winner is a class id below `number_of_classes`, has at least as many votes as every class, and strictly more than every lower class id |
| Voting.Voter | main.cpp:255-267 | one final class per dataset row, each in `[0, number_of_classes)` and equal to that instance's majority vote |
| Voting.Unanimity | main.cpp:246-251 | if every classifier predicts `c` at an instance, the ensemble predicts `c` |
| Voting.SplitGoesToLowerClass | main.cpp:246-251 | a one-one split of two classifiers between classes `a < b` resolves to `a`, so a 0/1 split resolves to class 0 |
| Voting.ColumnPermutation | main.cpp:248-249 | permuting the prediction vectors permutes the votes cast at each instance |
| Voting.VoterIgnoresClassifierOrder | main.cpp:255-267 | permuting the classifiers' prediction vectors leaves the ensemble prediction unchanged |
| Accuracy.MatchCount | main.cpp:233-237 | the count is at most the number of labels; it equals that number exactly when every label matches, and is zero exactly when none matches |
| Accuracy.MatchCountIsHitSetSize | main.cpp:233-237 | the count is the size of the set of indices whose label's first column equals the prediction |
| Accuracy.GetScore | main.cpp:230-241 | the denominator is the prediction's length; matches equal it exactly when the lengths agree and every label matches; matches are zero exactly when none does |
| Accuracy.Ratio | main.cpp:239 | for a positive denominator the fraction is in [0, 1] whenever the count does not exceed the total; it is 1 exactly when the count equals the total, and 0 exactly when the count is zero |
| Accuracy.RatioBounds | main.cpp:239 | for equal, non-empty lengths the accuracy lies in [0, 1]; it is 1 exactly when all labels match and 0 exactly when none does |
| Csv.Split | main.cpp:84-86 | no field holds the delimiter; the text yields no field exactly when it is empty |
| Csv.SplitTerminated | main.cpp:78-89 | splitting a text in which every field is followed by the delimiter gives back exactly those fields, empty ones included |
| Csv.TerminatedSplit | main.cpp:78-89 | writing the fields back, each followed by the delimiter, gives the text, plus a final delimiter when the text lacked one |
| Csv.SplitIgnoresTrailingDelimiter | main.cpp:84-86 | a trailing delimiter after a non-empty final segment adds no field |
| Csv.SplitJoin | main.cpp:78-89 | a comma-joined row whose last field is not empty splits back into its fields |
| Csv.ParseRow | main.cpp:78-102 | one value per `getline` field of the line, in order, each the conversion of that field; an empty line gives no values |
| Csv.ParseJoinedRow | main.cpp:78-102 | a joined row parses to the converted fields in order; an empty line parses to no values |
| Csv.Lines | main.cpp:109-112 | no row holds a newline; empty contents give no rows; otherwise there is one row per `getline` line except the first (see `LinesDropHeader` for which lines) |
| Csv.LinesDropHeader | main.cpp:104-115 | the first line is dropped and every later line becomes a row |
| Csv.TrailingNewlineAddsNoRow | main.cpp:111-112 | a newline at the end of the file adds no row |
| Csv.HeaderOnlyHasNoRows | main.cpp:104-115 | a file with only a header line, with or without its newline, has no rows |
| Csv.ReadCsv | main.cpp:104-128 | one parsed row per line after the header |
| Csv.ReadCsvRows | main.cpp:104-128 | a header plus newline-terminated lines reads back as one parsed row per line, in file order |
| Strings.EndsWithAsWritten | main.cpp:135-148 | the code as written is true exactly for a proper suffix, or when both strings are empty |
| Strings.EndsWithAsWrittenRejectsItself | main.cpp:143-144 | a non-empty string never ends with itself under the code as written; ".csv" is an example |
| Strings.EndsWithAsWrittenDiffers | main.cpp:140-147 | the code as written and the suffix test disagree exactly when the two strings are equal and non-empty |
| Strings.EndsWith | main.cpp:135-148 | false when `first` is shorter; otherwise true exactly when `second` is a suffix of `first` |
| Strings.EndsWithIsConcatenation | main.cpp:135-148 | `p + s` ends with `s`; a string ending with `s` is its prefix followed by `s`; the empty suffix always matches |
| Pipeline.Evaluate | main.cpp:296-314 | with at least one classifier, the accuracy's denominator is the number of validation instances and its count is at most the number of labels |
| Pipeline.EvaluateIdenticalClassifiers | main.cpp:309-313 | an ensemble of identical classifiers scores exactly as one of them |
| Pipeline.PredictionsPermuted | main.cpp:274-281 | permuting the weight matrices permutes their prediction vectors |
| Pipeline.EvaluateIgnoresClassifierOrder | main.cpp:302-313 | the directory's enumeration order does not change the accuracy when all matrices have the same class count |
| Pipeline.EndToEndExample | main.cpp:296-314 | instances (1, 1), (5, 5) labelled 0, 1, with two identical separating classifiers, give 2 matches out of 2 |

## Left out

- Directory scanning (`get_datasets`, `load_dataset`, main.cpp:150-182): operating-system I/O with an unspecified enumeration order. The model takes the loaded weight matrices as a sequence. `EvaluateIgnoresClassifierOrder` shows their order does not matter when every weight matrix has the same number of rows. With different row counts, the enumeration order decides the class count, which comes from the first matrix (main.cpp:304). It also decides whether a shorter matrix is read past its end.
- Opening and closing files in `read_csv`: I/O. The model splits file contents that are already read. A file that cannot be opened reads as empty text, so it has no rows (`HeaderOnlyHasNoRows`).
- Number conversion (`atof`, and the truncating cast to `int` in `get_new_int_row`): C library behaviour, including prefix parsing and zero on failure. It is the parameter `convert`.
- IEEE float rounding in the scores, the tally and the accuracy division: the model uses `real` and `nat`.
- Output formatting (`setprecision`, `fixed`, and the `Accuracy: NN.NN%` line, main.cpp:292-293): I/O. `Ratio` gives the value before it is multiplied by 100.
- `main`'s unchecked `argv` indexing and `get_full_path`: command-line handling and plain string concatenation.
- The per-classifier `get_score` call in `predict_linearly` (main.cpp:279): its result is unused. The final `get_score` needs the same preconditions.
- Accuracy.Ratio: an empty prediction is not modelled. The source then divides `0.0f / 0` (main.cpp:239), which yields NaN and prints `Accuracy: nan%`. `Ratio` requires a positive total, and `GetScore` still returns `Score(0, 0)` for that case.
- Pipeline.Evaluate: an empty weight directory is a precondition, not the crash on `weight_vectors[0]` (main.cpp:304).
- Strings.EndsWithAsWritten: lengths are assumed to fit the `int` locals of the source (main.cpp:137-138). Only the conversion of a negative count to `size_t` is modelled.

## Findings

| source | as written | input that shows it | evidently intended | confidence | as-written member | corrected member |
|---|---|---|---|---|---|---|
| main.cpp:143-144 | `first.substr(first_LENGTH - second_LENGTH, first_LENGTH - 1) == second`: the count is one character short when the lengths are equal | `ends_with(".csv", ".csv")` is false, so a weight file named exactly `.csv` is skipped | true exactly when `second` is a suffix of `first` | high for the discrepancy, which is proved; low for its practical impact; not executed | Strings.EndsWithAsWritten | Strings.EndsWith |

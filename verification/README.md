# Income classifier, modelled in Dafny

A model of the census income classifier in `prog_and_alg_ca.py`. The
program reads the UCI "adult" data set and trains a profile on the first
95 percent of the records. It then predicts, for each remaining record,
whether the person earns over or under 50K, and reports an accuracy
figure. The model covers the four stages after the download:

- **Encoding** (`create_data`), in `encoder.dfy`.
  - Each comma-separated line is split. Five columns are read with `int()`
    and three are dropped (set to `None`).
  - The two income classes and the values of the six categorical columns
    are counted.
  - A second pass replaces every categorical text by its count divided by
    the size of the record's own class.
  - The first line that raises ends ingestion. The records already read are
    kept.
- **Profile building** (`classifier`), in `profile.dfy`.
  - Records are split on `entry[14].lstrip() == '<=50K'`.
  - Each numeric column is averaged within each group.
  - Slots 0, 1 and 4-12 of the 14-slot profile keep the midpoint of the
    two group means. Slots 2 and 3 are `None`, and slot 13 is `">50K"`.
  - An empty over group raises first, then an empty under group.
- **Voting and accuracy** (`test`), in `evaluator.dfy`.
  - Each of the first 14 fields of a test record is compared with the
    profile slot the field's own value indexes. A field whose comparison
    raises is skipped.
  - A strict majority of under votes predicts under 50K; anything else,
    including a tie, predicts over.
  - The accuracy is the number of records labelled `<=50K` divided by the
    number predicted under, times 100.
- **The split** in `main`, in `pipeline.dfy`: `int(n * 95 / 100)` records
  train the profile and the rest test it.

Python's dynamically typed list cells are the datatype `Val` (`VInt`,
`VReal`, `VStr`, `VNone`), and a record is a `seq<Val>` (`values.dfy`). The
string operations the program relies on live in `pytext.dfy`:
`split` with a one-character separator, `strip(" ")`, `lstrip()` and
base-10 `int()`. A raised exception is a `Failure` of the `Result` type in
`wrappers.dfy`. Where a raise only ends or skips one step of a loop, the
model says so in that step's own terms: a line that raises in
`create_data` parses to `None` (`Encoder.ParseLine`), a comparison that
raises in `test` is a `Skip` vote (`Evaluator.FieldVote`), and a record
without a last field makes the prediction loop fail
(`Evaluator.PredictAll`).

### How the code behaves

The model follows the code. In two places the code differs from what its
comments suggest:

- The numerator of an encoded categorical value counts the value over all
  kept records, but the divisor is the record's own class size (lines
  79-129). Encoded values are therefore not relative frequencies and can
  exceed 1 (`Encoder.SharedValueExceedsOne`).
- Line 238 compares `entry[index]` with `classifier_data[entry[index]]`.
  This is the slot the field's value names, not the field's own slot. Only
  integers between -14 and 13 name a slot (negative ones wrap around), and
  only averaged slots can be compared. So at most the five integer columns
  vote (`Evaluator.VoteOnProfile`, `Evaluator.AtMostFiveVotes`). A record
  whose integer fields are all out of range casts no vote and is predicted
  over (`Evaluator.OutOfRangeRecordPredictsOver`).

Two further behaviours follow from the code as written:

- Line 245 predicts under only on a strict majority of under votes. A tie,
  including no votes at all, predicts over 50K (`Evaluator.MajorityRule`).
- The accuracy is, as the docstring of `test` says (line 219), a quotient
  of counted and predicted cases: records labelled `<=50K` over records
  predicted under, times 100 (line 265). It does not compare a record's
  prediction with its own label, and it exceeds 100 whenever more test
  records are labelled under than are predicted under
  (`Evaluator.AccuracyCanExceedHundred`).

The three label tests are kept as written. `create_data` (lines 74 and 116)
and `test` (lines 258 and 260) strip spaces only, from the last field.
`classifier` (line 154) strips all leading whitespace, from field 14.

## Model

| member | source | states |
|---|---|---|
| PyText.SplitCount | prog_and_alg_ca.py:64 | `str.split` on one character gives one more piece than there are separators, so an empty line still gives one piece |
| PyText.SplitPieces | prog_and_alg_ca.py:64 | no piece of a split holds the separator |
| PyText.SplitJoinBack | prog_and_alg_ca.py:64 | joining the pieces with the separator gives back the split string |
| PyText.SplitJoin | prog_and_alg_ca.py:64 | splitting undoes joining for separator-free pieces, so a line's fields are exactly the comma-separated texts it was written from |
| PyText.TrimStartSpec | prog_and_alg_ca.py:154 | `lstrip`-style trimming removes exactly a leading run of stripped characters and stops at the first kept one |
| PyText.TrimEndSpec | prog_and_alg_ca.py:74 | the trailing half of `strip(" ")` removes exactly a trailing run of stripped characters |
| PyText.StripPadded | prog_and_alg_ca.py:65-69 | `strip()` removes whitespace padding around text that neither starts nor ends with whitespace |
| PyText.ParseIntShowInt | prog_and_alg_ca.py:65-69 | `int()` reads back any integer written in decimal, with whitespace on either side, as in the space-padded numeric fields |
| Values.ListIndex | prog_and_alg_ca.py:238 | a Python list index finds a slot exactly for -len <= i < len, and a negative index counts from the end |
| Encoder.ReadFields | prog_and_alg_ca.py:64-72 | fields whose five `int()` calls succeed give a record of the raw shape: integers read by `int()` at 0, 4, 10-12, `None` at 2, 3, 13, the field text elsewhere |
| Encoder.ParseLine | prog_and_alg_ca.py:64-74 | a line that does not raise gives a record of the raw shape |
| Encoder.ParseLineKeeps | prog_and_alg_ca.py:64-74 | a line is kept iff it splits into at least 15 fields and the five `int()` calls succeed, and the kept record then reads those fields |
| Encoder.ParsedPrefix | prog_and_alg_ca.py:63-112 | the kept records are the parses of a prefix of the lines, and the line after the prefix, if any, raises |
| Encoder.Bump | prog_and_alg_ca.py:79-82 | the dictionary increment adds the key and raises its count by one, leaving every other count alone |
| Encoder.Tabulate | prog_and_alg_ca.py:74-107 | after the first loop `under_count + over_count` is the number of kept records, and every kept record finds its class count non-zero and its categorical values in the tables |
| Encoder.TabulateClassSizes | prog_and_alg_ca.py:74-77 | the two class counters are the numbers of kept records whose space-stripped label is, or is not, `<=50K` |
| Encoder.TabulateOccurrences | prog_and_alg_ca.py:79-107 | each table maps a value to the number of kept records, of either class, holding it in that column, and holds exactly the values that occur |
| Encoder.Normalize | prog_and_alg_ca.py:114-129 | the second pass keeps the record's length and leaves the encoded shape: integers, `None`s and label unchanged, positive reals at the six categorical positions |
| Encoder.NormalizeAll | prog_and_alg_ca.py:114-131 | every record the second pass returns has the encoded shape |
| Encoder.Encode | prog_and_alg_ca.py:63-131 | `create_data` after the fetch returns one encoded record per line of the parsed prefix and stops before the first line that raises |
| Encoder.NormalizedField | prog_and_alg_ca.py:114-129 | a categorical field becomes (records of either class holding the same text there) / (size of the record's own class, never zero); every other field is unchanged |
| Encoder.EncodedField | prog_and_alg_ca.py:63-131 | the same formula for the records `create_data` returns, in terms of the lines it read |
| Encoder.SharedValueExceedsOne | prog_and_alg_ca.py:79-129 | two records of opposite classes sharing a categorical value both encode it as 2, so encoded values are not bounded by 1 |
| Profile.Group | prog_and_alg_ca.py:153-159 | a group holds exactly the training records on its side of `entry[14].lstrip() == '<=50K'` |
| Profile.GroupsPartition | prog_and_alg_ca.py:153-159 | the two groups share the training records between them: their sizes add up and their multisets add up to the training multiset |
| Profile.BuildProfile | prog_and_alg_ca.py:143-211 | a built profile has 14 slots: reals at the averaged positions, `None` at 2 and 3, `">50K"` at 13 |
| Profile.BuildProfileFails | prog_and_alg_ca.py:161-193 | the profile exists iff both classes occur; no over record raises at line 166 even when there is no under record either, and otherwise no under record raises at line 181 |
| Profile.ColumnSumWithin | prog_and_alg_ca.py:166-193 | a column of values between lo and hi sums to between n copies of lo and n copies of hi |
| Profile.MeanWithin | prog_and_alg_ca.py:166-193 | a group mean lies between the column's bounds |
| Profile.ProfileWithin | prog_and_alg_ca.py:166-208 | each averaged profile value lies between the smallest and largest value of its column in the training slice |
| Profile.ProfileOfConstantColumn | prog_and_alg_ca.py:166-208 | a column with one value throughout the training slice puts that value in the profile |
| Profile.ProfileOfTwo | prog_and_alg_ca.py:153-208 | with one record per class the profile slot is the midpoint of their two values |
| Profile.ProfileOfDoubled | prog_and_alg_ca.py:153-208 | training on every record twice gives the same profile: only the class means matter |
| Profile.EncodedIsTrainable | prog_and_alg_ca.py:154-193 | every record `create_data` returns has text at position 14 and numbers at all averaged positions, so the classifier can digest it |
| Evaluator.FieldVote | prog_and_alg_ca.py:237-243 | a value votes iff it is an integer in -len..len-1 whose slot (index mod len) is numeric, and votes over iff it exceeds that slot |
| Evaluator.TallyVotes | prog_and_alg_ca.py:233-243 | the inner loop's two counters are the numbers of over and under votes among the first 14 fields |
| Evaluator.VoteOnProfile | prog_and_alg_ca.py:236-243 | on an encoded record and a built profile, only integer positions vote, and a field votes iff its value is in -14..13 and wraps to an averaged slot; it votes over iff it exceeds that slot |
| Evaluator.AtMostFiveVotes | prog_and_alg_ca.py:236-243 | an encoded record casts at most five votes |
| Evaluator.MajorityRule | prog_and_alg_ca.py:245-252 | a record is predicted under iff its under votes strictly outnumber its over votes, and over iff they do not, ties of any size included |
| Evaluator.SilentRecordPredictsOver | prog_and_alg_ca.py:245-252 | a record with no votes ties at 0-0 and is predicted over |
| Evaluator.OutOfRangeRecordPredictsOver | prog_and_alg_ca.py:236-252 | an encoded record whose integer fields all lie outside -14..13 is predicted over, whatever the profile |
| Evaluator.PredictionsTotal | prog_and_alg_ca.py:245-252 | each record is predicted exactly one way, so the two prediction counts add up to the number of records |
| Evaluator.OutcomesTotal | prog_and_alg_ca.py:257-263 | labels of neither class are counted in neither counter, so the two label counts add up to at most the number of records |
| Evaluator.Evaluate | prog_and_alg_ca.py:224-265 | on success `under_predicted + over_predicted` is the number of test records, `under_counted + over_counted` is at most that, and `under_predicted` is non-zero |
| Evaluator.PredictAll | prog_and_alg_ca.py:231-255 | the first loop fails iff some record is empty, and otherwise counts the records predicted under and over |
| Evaluator.CountLabels | prog_and_alg_ca.py:257-263 | the second loop fails iff some last field is not text, and otherwise counts the labels that strip to `<=50K` and to `>50K` |
| Evaluator.RunTest | prog_and_alg_ca.py:224-265 | the two loops and the quotient compute exactly the evaluation: its counters, its accuracy and its errors |
| Evaluator.AccuracyCanExceedHundred | prog_and_alg_ca.py:257-265 | the accuracy exceeds 100 whenever more records are labelled under than predicted under |
| Pipeline.Lines | prog_and_alg_ca.py:49 | the downloaded text, stripped of outer spaces, splits into newline-free lines, one more than its newlines, that join back to it |
| Pipeline.LinesOfJoined | prog_and_alg_ca.py:49 | newline-free lines whose joined text has no outer spaces are read back exactly from that text |
| Pipeline.TrainSize | prog_and_alg_ca.py:280 | the training size is the largest k with 100k <= 95n |
| Pipeline.SplitData | prog_and_alg_ca.py:280-282 | the training and test slices concatenate to the data, and the test slice has n - k records |
| Pipeline.TrainingRecords | prog_and_alg_ca.py:279-280 | the training slice of encoded records is one the classifier can digest |
| Pipeline.Run | prog_and_alg_ca.py:278-283 | a successful run predicts every record of the test slice exactly once |
| Pipeline.RunText | prog_and_alg_ca.py:49-283 | a successful run on the downloaded text predicts every record of the test slice exactly once |
| Pipeline.RunTextOfLines | prog_and_alg_ca.py:49-283 | running on the newline-joined text of such lines is running on the lines themselves |
| Pipeline.RunFailsWithoutOver | prog_and_alg_ca.py:279-281 | the run stops at the classifier's empty over group iff the training slice has no over record |
| Pipeline.RunFailsWithoutUnder | prog_and_alg_ca.py:279-281 | the run stops at the empty under group iff the training slice has over records but no under record |
| Pipeline.RunSucceedsOnlyWithBothClasses | prog_and_alg_ca.py:279-283 | a successful run had both classes in its training slice |
| Pipeline.BadFirstLineFails | prog_and_alg_ca.py:279-281 | no lines, or a bad first line, leave no records and the run fails on the empty over group |
| Pipeline.RunNeedsThreeRecords | prog_and_alg_ca.py:279-283 | a successful run kept at least three records, since 95 percent of two records leaves one to train on |

## Left out

- The HTTP fetch and its on-disk cache (lines 47-48), and byte decoding
  (line 49). The model starts from the downloaded text (`Pipeline.RunText`)
  or from its lines (`Pipeline.Run`). A failed fetch raises inside the
  `try` and leaves no records, which is `Run([])`.
- The `print` of the accuracy (line 267). `Evaluator.Report` carries the
  printed value instead.
- The `results` list (lines 254-255). It is built and never read.
- The `__main__` guard (line 292).
- IEEE floating point. Frequencies, means, midpoints and the accuracy are
  exact reals, so rounding is not modelled.
- Pipeline.TrainSize: models `int(n * 95 / 100)` as exact floor division.
  The source divides in floating point first, which can round differently
  for very large n.
- Python `int()` corner cases: underscores between digits and non-ASCII
  decimal digits are not accepted by `PyText.ParseInt`. Surrounding Unicode
  whitespace and a sign are. `PyText.ParseInt` also accepts digit strings
  of any length, where Python 3.11 and later raise `ValueError` beyond
  4300 digits. The list is not meant to be complete.
- Profile.BuildProfile: requires records with text at position 14 and
  numbers at the averaged positions. It does not model the `IndexError` or
  `TypeError` other records would raise. `create_data` only returns such
  records (`Profile.EncodedIsTrainable`).
- Encoder.Normalize: requires a record that the counts cover. The second
  pass runs outside the `try` (line 114), so a lookup miss would escape.
  `Encoder.Tabulate` proves that no miss can happen.
- Pipeline.Run: states the prediction total. The other report properties
  follow from `Evaluator.Evaluate`, whose result `Run` returns unchanged.

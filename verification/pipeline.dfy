/**
 * The program flow (`main` in prog_and_alg_ca.py): encode the downloaded
 * lines, train the profile on the first 95 percent of the records and
 * evaluate it on the rest.
 */
module Pipeline {
  import opened Wrappers
  import opened PyText
  import opened Values
  import Encoder
  import Profile
  import Evaluator

  /** `PERCENT` (line 23). */
  const Percent: nat := 95

  /** `int(len(data) * PERCENT / 100)` (lines 280 and 282): the largest
      count of records that is at most 95 percent of them. */
  function TrainSize(n: nat): (k: nat)
    ensures k <= n
    ensures k * 100 <= n * Percent < (k + 1) * 100
  {
    n * Percent / 100
  }

  /** The two slices of lines 280 and 282: together they are the data, and
      the test slice holds the records the training slice leaves. */
  function SplitData(data: seq<Row>): (parts: (seq<Row>, seq<Row>))
    ensures parts.0 + parts.1 == data
    ensures |parts.0| == TrainSize(|data|)
    ensures |parts.1| == |data| - TrainSize(|data|)
  {
    var k := TrainSize(|data|);
    assert data[..k] + data[k..] == data;
    (data[..k], data[k..])
  }

  /** The split of the downloaded text into lines (line 49): newline-free
      pieces, one more than the newlines left after stripping the outer
      spaces, which joined back with newlines give that stripped text. */
  function Lines(text: string): (ls: seq<string>)
    ensures |ls| == multiset(StripBlanks(text))['\n'] + 1
    ensures forall i :: 0 <= i < |ls| ==> '\n' !in ls[i]
    ensures Join(ls, '\n') == StripBlanks(text)
  {
    var t := StripBlanks(text);
    SplitCount(t, '\n');
    SplitPieces(t, '\n');
    SplitJoinBack(t, '\n');
    Split(t, '\n')
  }

  /** Text that neither starts nor ends with a space is its own `strip(" ")`. */
  lemma StripBlanksUnpadded(t: string)
    requires |t| > 0 ==> !IsBlank(t[0]) && !IsBlank(t[|t| - 1])
    ensures StripBlanks(t) == t
  {
  }

  /** Reading lines back from their newline-joined text gives the same
      lines, as long as the text does not start or end with a space. */
  lemma LinesOfJoined(ls: seq<string>)
    requires |ls| >= 1 && forall i :: 0 <= i < |ls| ==> '\n' !in ls[i]
    requires var t := Join(ls, '\n'); |t| > 0 ==> t[0] != ' ' && t[|t| - 1] != ' '
    ensures Lines(Join(ls, '\n')) == ls
  {
    StripBlanksUnpadded(Join(ls, '\n'));
    SplitJoin(ls, '\n');
  }

  /** What the program raises after ingestion: the classifier's error on
      the training slice, or the evaluation's error on the test slice. */
  datatype PipelineError = ProfileFailed(Profile.ProfileError) | EvalFailed(Evaluator.EvalError)

  lemma EncodedAllTrainable(data: seq<Row>)
    requires forall i :: 0 <= i < |data| ==> Encoder.IsEncoded(data[i])
    ensures Profile.AllTrainable(data)
  {
    forall r | r in data
      ensures Profile.Trainable(r)
    {
      var i :| 0 <= i < |data| && data[i] == r;
      Profile.EncodedIsTrainable(r);
    }
  }

  /** `training_data` (line 280): the encoded records the classifier can
      digest. */
  function TrainingRecords(lines: seq<string>): (train: seq<Row>)
    ensures Profile.AllTrainable(train)
    ensures train == SplitData(Encoder.Encode(lines)).0
  {
    var train := SplitData(Encoder.Encode(lines)).0;
    EncodedAllTrainable(train);
    train
  }

  /** `main` after the download: encode, split, train, evaluate. */
  function Run(lines: seq<string>): (r: Result<Evaluator.Report, PipelineError>)
    ensures r.Success? ==> r.value.underPredicted + r.value.overPredicted
                             == |Encoder.Encode(lines)| - TrainSize(|Encoder.Encode(lines)|)
  {
    var train := TrainingRecords(lines);
    var test := SplitData(Encoder.Encode(lines)).1;
    match Profile.BuildProfile(train)
    case Failure(e) => Failure(ProfileFailed(e))
    case Success(profile) =>
      match Evaluator.Evaluate(test, profile)
      case Failure(e) => Failure(EvalFailed(e))
      case Success(report) => Success(report)
  }

  /** `main` on the downloaded text. */
  function RunText(text: string): (r: Result<Evaluator.Report, PipelineError>)
    ensures r.Success? ==> r.value.underPredicted + r.value.overPredicted
                             == |Encoder.Encode(Lines(text))| - TrainSize(|Encoder.Encode(Lines(text))|)
  {
    Run(Lines(text))
  }

  /** Running on the newline-joined text of some lines is running on those
      lines, as long as the text does not start or end with a space. */
  lemma RunTextOfLines(ls: seq<string>)
    requires |ls| >= 1 && forall i :: 0 <= i < |ls| ==> '\n' !in ls[i]
    requires var t := Join(ls, '\n'); |t| > 0 ==> t[0] != ' ' && t[|t| - 1] != ' '
    ensures RunText(Join(ls, '\n')) == Run(ls)
  {
    LinesOfJoined(ls);
  }

  /** With no over record in the training slice, the run stops at the
      classifier's empty over group, whatever the under group holds. */
  lemma RunFailsWithoutOver(lines: seq<string>)
    ensures (Run(lines) == Failure(ProfileFailed(Profile.EmptyOverGroup)))
              <==> !Profile.HasOver(TrainingRecords(lines))
  {
    var train := TrainingRecords(lines);
    Profile.BuildProfileFails(train);
    if Profile.HasOver(train) {
      assert Profile.BuildProfile(train) != Failure(Profile.EmptyOverGroup);
    }
  }

  /** With over records but no under record in the training slice, the run
      stops at the classifier's empty under group. */
  lemma RunFailsWithoutUnder(lines: seq<string>)
    ensures (Run(lines) == Failure(ProfileFailed(Profile.EmptyUnderGroup)))
              <==> Profile.HasOver(TrainingRecords(lines)) && !Profile.HasUnder(TrainingRecords(lines))
  {
    var train := TrainingRecords(lines);
    Profile.BuildProfileFails(train);
    if !(Profile.HasOver(train) && !Profile.HasUnder(train)) {
      assert Profile.BuildProfile(train) != Failure(Profile.EmptyUnderGroup);
    }
  }

  /** A successful run had a record of each class to train on. */
  lemma RunSucceedsOnlyWithBothClasses(lines: seq<string>)
    requires Run(lines).Success?
    ensures Profile.HasOver(TrainingRecords(lines)) && Profile.HasUnder(TrainingRecords(lines))
  {
    Profile.BuildProfileFails(TrainingRecords(lines));
  }

  /** If the first line does not parse, no record is kept and the
      classifier fails on its empty over group. */
  lemma BadFirstLineFails(lines: seq<string>)
    requires |lines| == 0 || Encoder.ParseLine(lines[0]).None?
    ensures Run(lines) == Failure(ProfileFailed(Profile.EmptyOverGroup))
  {
    assert |Encoder.Encode(lines)| == 0;
    RunFailsWithoutOver(lines);
  }

  /** A successful run needs two training records, one per class, and a
      test record; 95 percent of two records leaves only one for training,
      so at least three records must have been kept. */
  lemma RunNeedsThreeRecords(lines: seq<string>)
    requires Run(lines).Success?
    ensures |Encoder.Encode(lines)| >= 3
  {
    var train := TrainingRecords(lines);
    RunSucceedsOnlyWithBothClasses(lines);
    var a :| a in train && Profile.InUnderGroup(a);
    var b :| b in train && !Profile.InUnderGroup(b);
    assert a != b;
    DistinctMembers(train, a, b);
  }

  lemma DistinctMembers<T>(xs: seq<T>, a: T, b: T)
    requires a in xs && b in xs && a != b
    ensures |xs| >= 2
  {
    var i :| 0 <= i < |xs| && xs[i] == a;
    var j :| 0 <= j < |xs| && xs[j] == b;
    assert i != j;
  }
}

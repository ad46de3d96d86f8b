/**
 * The evaluation (`test` in prog_and_alg_ca.py): every test record votes
 * field by field against the profile, the majority of votes predicts its
 * class, and the accuracy is the number of records labelled under 50K over
 * the number predicted under 50K.
 */
module Evaluator {
  import opened Wrappers
  import opened PyText
  import opened Values
  import Encoder
  import Profile

  /** The positions the inner loop visits: `range(14)` (line 236). */
  const ScanLength: nat := 14

  /** What one field contributes: a vote for over, a vote for under, or
      nothing when the comparison raises and the `except` skips it. */
  datatype Vote = Over | Under | Skip

  /** Lines 238-241 for one value `v`: `v` indexes the profile, and the
      value is compared with the slot it indexes. Only an integer can index
      a list, only an in-range index finds a slot, and only a numeric slot
      can be compared with an integer; anything else raises and is skipped.
      The slot is the one `v` wraps to modulo the profile's length. */
  function FieldVote(v: Val, profile: Row): (r: Vote)
    ensures r != Skip <==>
              && v.VInt?
              && -(|profile| as int) <= v.i < |profile|
              && IsNumeric(profile[v.i % |profile|])
    ensures r == Over <==> r != Skip && v.i as real > Num(profile[v.i % |profile|])
  {
    if !v.VInt? then Skip
    else match ListIndex(|profile|, v.i)
      case None => Skip
      case Some(k) =>
        ListIndexIsRemainder(|profile|, v.i);
        if !IsNumeric(profile[k]) then Skip
        else if v.i as real > Num(profile[k]) then Over
        else Under
  }

  /** One pass of the inner loop: `entry[index]` itself raises when the
      record is shorter than the index. */
  function VoteAt(entry: Row, profile: Row, k: nat): Vote {
    if k < |entry| then FieldVote(entry[k], profile) else Skip
  }

  function Votes(entry: Row, profile: Row): (vs: seq<Vote>)
    ensures |vs| == ScanLength
  {
    seq(ScanLength, k requires 0 <= k < ScanLength => VoteAt(entry, profile, k))
  }

  function Count<T(==)>(xs: seq<T>, x: T): nat {
    multiset(xs)[x]
  }

  /** The inner loop of lines 236-243: the two per-record counters. */
  method TallyVotes(entry: Row, profile: Row) returns (over: nat, under: nat)
    ensures over == Count(Votes(entry, profile), Over)
    ensures under == Count(Votes(entry, profile), Under)
  {
    over, under := 0, 0;
    ghost var vs := Votes(entry, profile);
    for k := 0 to ScanLength
      invariant over == Count(vs[..k], Over)
      invariant under == Count(vs[..k], Under)
    {
      assert vs[..k + 1] == vs[..k] + [vs[k]];
      match VoteAt(entry, profile, k)
      case Over => over := over + 1;
      case Under => under := under + 1;
      case Skip =>
    }
    assert vs[..ScanLength] == vs;
  }

  datatype Prediction = Under50K | Over50K

  /** Lines 245-252: under only on a strict majority of under votes; a tie,
      including no votes at all, predicts over. */
  function Predict(over: nat, under: nat): Prediction {
    if under > over then Under50K else Over50K
  }

  function PredictRecord(entry: Row, profile: Row): Prediction {
    var vs := Votes(entry, profile);
    Predict(Count(vs, Over), Count(vs, Under))
  }

  /** On an encoded record and a built profile, exactly the five integer
      positions can vote, and one does so exactly when its value wraps to an
      averaged slot of the profile; it votes over exactly when it exceeds
      that slot. The value is compared with the slot it names, not with its
      own column's slot. */
  lemma VoteOnProfile(entry: Row, profile: Row, k: nat)
    requires Encoder.IsEncoded(entry) && Profile.IsProfile(profile) && k < ScanLength
    ensures VoteAt(entry, profile, k) != Skip ==> Encoder.IsIntPos(k)
    ensures VoteAt(entry, profile, k) != Skip <==>
              && entry[k].VInt?
              && -14 <= entry[k].i <= 13
              && Profile.IsMeanPos(entry[k].i % 14)
    ensures VoteAt(entry, profile, k) == Over <==>
              && entry[k].VInt?
              && -14 <= entry[k].i <= 13
              && Profile.IsMeanPos(entry[k].i % 14)
              && entry[k].i as real > profile[entry[k].i % 14].r
  {
    assert Encoder.EncodedFits(entry[k], Encoder.KindOf(k));
    if entry[k].VInt? && -14 <= entry[k].i <= 13 {
      assert Profile.ProfileFits(profile[entry[k].i % 14], entry[k].i % 14);
    }
  }

  /** How many positions below `n` hold an integer in an encoded record. */
  function IntPositionsBelow(n: nat): nat {
    if n == 0 then 0 else IntPositionsBelow(n - 1) + (if Encoder.IsIntPos(n - 1) then 1 else 0)
  }

  lemma {:induction false} VotesBelow(entry: Row, profile: Row, n: nat)
    requires Encoder.IsEncoded(entry) && n <= ScanLength
    ensures var vs := Votes(entry, profile)[..n];
            Count(vs, Over) + Count(vs, Under) <= IntPositionsBelow(n)
  {
    if n > 0 {
      var vs := Votes(entry, profile);
      VotesBelow(entry, profile, n - 1);
      assert vs[..n] == vs[..n - 1] + [vs[n - 1]];
      assert Encoder.EncodedFits(entry[n - 1], Encoder.KindOf(n - 1));
    }
  }

  /** Only the integer fields can vote on an encoded record: at most five
      votes are cast. */
  lemma AtMostFiveVotes(entry: Row, profile: Row)
    requires Encoder.IsEncoded(entry)
    ensures Count(Votes(entry, profile), Over) + Count(Votes(entry, profile), Under) <= 5
  {
    VotesBelow(entry, profile, ScanLength);
    assert Votes(entry, profile)[..ScanLength] == Votes(entry, profile);
  }

  /** The majority rule of line 245: a record is predicted under exactly
      when its under votes strictly outnumber its over votes, and over
      otherwise, ties of any size included. */
  lemma MajorityRule(entry: Row, profile: Row)
    ensures (PredictRecord(entry, profile) == Under50K)
              <==> (Count(Votes(entry, profile), Under) > Count(Votes(entry, profile), Over))
    ensures (PredictRecord(entry, profile) == Over50K)
              <==> (Count(Votes(entry, profile), Under) <= Count(Votes(entry, profile), Over))
  {
  }

  /** A record none of whose fields votes ties at 0-0, which predicts
      over. */
  lemma SilentRecordPredictsOver(entry: Row, profile: Row)
    requires forall k :: 0 <= k < ScanLength ==> VoteAt(entry, profile, k) == Skip
    ensures PredictRecord(entry, profile) == Over50K
  {
    var vs := Votes(entry, profile);
    assert Over !in vs && Under !in vs;
    MajorityRule(entry, profile);
  }

  /** An encoded record whose five integer fields all lie outside -14..13
      casts no vote and is predicted over, whatever the profile. Age and
      hours-per-week usually lie outside that range; education-num and a
      zero capital gain or loss usually do not, so most census records do
      vote. */
  lemma OutOfRangeRecordPredictsOver(entry: Row, profile: Row)
    requires Encoder.IsEncoded(entry) && Profile.IsProfile(profile)
    requires forall k :: 0 <= k < ScanLength && Encoder.IsIntPos(k) ==> entry[k].VInt? && !(-14 <= entry[k].i <= 13)
    ensures PredictRecord(entry, profile) == Over50K
  {
    forall k | 0 <= k < ScanLength
      ensures VoteAt(entry, profile, k) == Skip
    {
      VoteOnProfile(entry, profile, k);
    }
    SilentRecordPredictsOver(entry, profile);
  }

  // ---------------------------------------------------------------------
  // The test run (lines 224-265)
  // ---------------------------------------------------------------------

  /** The class a test record's label counts for (lines 257-263). */
  datatype Outcome = CountedUnder | CountedOver | Uncounted

  /** The last field exists (line 234) and is text (line 258). */
  predicate Testable(row: Row) {
    |row| > 0 && row[|row| - 1].VStr?
  }

  function OutcomeOf(row: Row): Outcome
    requires Testable(row)
  {
    var t := StripBlanks(row[|row| - 1].s);
    if t == Encoder.UnderLabel then CountedUnder
    else if t == Profile.OverLabel then CountedOver
    else Uncounted
  }

  function Outcomes(test: seq<Row>): (os: seq<Outcome>)
    requires forall i :: 0 <= i < |test| ==> Testable(test[i])
    ensures |os| == |test|
  {
    seq(|test|, i requires 0 <= i < |test| => OutcomeOf(test[i]))
  }

  function Predictions(test: seq<Row>, profile: Row): (ps: seq<Prediction>)
    ensures |ps| == |test|
  {
    seq(|test|, i requires 0 <= i < |test| => PredictRecord(test[i], profile))
  }

  /** The accuracy line 267 prints, with the four counters line 265 computes
      it from. */
  datatype Report = Report(
    underPredicted: nat,
    overPredicted: nat,
    underCounted: nat,
    overCounted: nat,
    accuracy: real)

  /** What `test` raises: `entry[-1]` of an empty record (line 234), `strip`
      on a last field that is not text (line 258), and the division by zero
      when no record is predicted under (line 265). */
  datatype EvalError = MissingOutcome | LabelNotText | NoUnderPredictions

  lemma {:induction false} PredictionsTotal(ps: seq<Prediction>)
    ensures Count(ps, Under50K) + Count(ps, Over50K) == |ps|
  {
    if |ps| > 0 {
      PredictionsTotal(ps[1..]);
      assert ps == [ps[0]] + ps[1..];
      assert multiset(ps) == multiset{ps[0]} + multiset(ps[1..]);
      assert ps[0] == Under50K || ps[0] == Over50K;
    }
  }

  lemma {:induction false} OutcomesTotal(os: seq<Outcome>)
    ensures Count(os, CountedUnder) + Count(os, CountedOver) <= |os|
  {
    if |os| > 0 {
      OutcomesTotal(os[1..]);
      assert os == [os[0]] + os[1..];
      assert multiset(os) == multiset{os[0]} + multiset(os[1..]);
    }
  }

  /** `test(test_data, classifier_data)`: each record is predicted once, so
      the two prediction counters add up to the number of test records,
      while records whose label is neither class are counted in neither
      label counter. */
  function Evaluate(test: seq<Row>, profile: Row): (r: Result<Report, EvalError>)
    ensures r.Success? ==> r.value.underPredicted + r.value.overPredicted == |test|
    ensures r.Success? ==> r.value.underCounted + r.value.overCounted <= |test|
    ensures r.Success? ==> r.value.underPredicted > 0
  {
    if exists i :: 0 <= i < |test| && |test[i]| == 0 then Failure(MissingOutcome)
    else if exists i :: 0 <= i < |test| && !Testable(test[i]) then Failure(LabelNotText)
    else
      var ps := Predictions(test, profile);
      var os := Outcomes(test);
      PredictionsTotal(ps);
      OutcomesTotal(os);
      var up := Count(ps, Under50K);
      var uc := Count(os, CountedUnder);
      if up == 0 then Failure(NoUnderPredictions)
      else Success(Report(up, Count(ps, Over50K), uc, Count(os, CountedOver), uc as real / up as real * 100.0))
  }

  /** The first loop of `test` (lines 231-255): every record is predicted,
      unless one has no last field to read. */
  method PredictAll(test: seq<Row>, profile: Row) returns (ok: bool, underPredicted: nat, overPredicted: nat)
    ensures ok <==> forall j :: 0 <= j < |test| ==> |test[j]| > 0
    ensures ok ==> underPredicted == Count(Predictions(test, profile), Under50K)
    ensures ok ==> overPredicted == Count(Predictions(test, profile), Over50K)
  {
    underPredicted, overPredicted := 0, 0;
    ghost var ps := Predictions(test, profile);
    for i := 0 to |test|
      invariant forall j :: 0 <= j < i ==> |test[j]| > 0
      invariant underPredicted == Count(ps[..i], Under50K)
      invariant overPredicted == Count(ps[..i], Over50K)
    {
      if |test[i]| == 0 {
        return false, underPredicted, overPredicted;
      }
      var over, under := TallyVotes(test[i], profile);
      assert ps[..i + 1] == ps[..i] + [ps[i]];
      if under > over {
        underPredicted := underPredicted + 1;
      } else {
        overPredicted := overPredicted + 1;
      }
    }
    assert ps[..|test|] == ps;
    ok := true;
  }

  /** The second loop of `test` (lines 257-263): every label is counted,
      unless one is not text. */
  method CountLabels(test: seq<Row>) returns (ok: bool, underCounted: nat, overCounted: nat)
    ensures ok <==> forall j :: 0 <= j < |test| ==> Testable(test[j])
    ensures ok ==> underCounted == Count(Outcomes(test), CountedUnder)
    ensures ok ==> overCounted == Count(Outcomes(test), CountedOver)
  {
    underCounted, overCounted := 0, 0;
    for i := 0 to |test|
      invariant forall j :: 0 <= j < i ==> Testable(test[j])
      invariant underCounted == Count(Outcomes(test[..i]), CountedUnder)
      invariant overCounted == Count(Outcomes(test[..i]), CountedOver)
    {
      if !Testable(test[i]) {
        return false, underCounted, overCounted;
      }
      assert Outcomes(test[..i + 1]) == Outcomes(test[..i]) + [OutcomeOf(test[i])];
      var t := StripBlanks(test[i][|test[i]| - 1].s);
      if t == Encoder.UnderLabel {
        underCounted := underCounted + 1;
      } else if t == Profile.OverLabel {
        overCounted := overCounted + 1;
      }
    }
    assert test[..|test|] == test;
    ok := true;
  }

  /** The two loops of `test` as written, then the quotient. */
  method RunTest(test: seq<Row>, profile: Row) returns (r: Result<Report, EvalError>)
    ensures r == Evaluate(test, profile)
  {
    var predicted, underPredicted, overPredicted := PredictAll(test, profile);
    if !predicted {
      return Failure(MissingOutcome);
    }
    var counted, underCounted, overCounted := CountLabels(test);
    if !counted {
      return Failure(LabelNotText);
    }
    if underPredicted == 0 {
      return Failure(NoUnderPredictions);
    }
    r := Success(Report(underPredicted, overPredicted, underCounted, overCounted,
                        underCounted as real / underPredicted as real * 100.0));
  }

  /** The accuracy counts labels, not correct predictions: it exceeds 100
      whenever more test records are labelled under 50K than are predicted
      so. */
  lemma AccuracyCanExceedHundred(test: seq<Row>, profile: Row)
    requires Evaluate(test, profile).Success?
    requires Evaluate(test, profile).value.underCounted > Evaluate(test, profile).value.underPredicted
    ensures Evaluate(test, profile).value.accuracy > 100.0
  {
    var rep := Evaluate(test, profile).value;
    QuotientAboveOne(rep.underCounted as real, rep.underPredicted as real);
  }

  lemma QuotientAboveOne(a: real, b: real)
    requires 0.0 < b < a
    ensures a / b * 100.0 > 100.0
  {
    var q := a / b;
    assert q * b == a;
    assert (q - 1.0) * b == a - b;
  }
}

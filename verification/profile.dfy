/**
 * The decision profile (`classifier` in prog_and_alg_ca.py): split the
 * training records by the label at position 14, average every numeric
 * column within each group, and keep the midpoint of the two averages.
 */
module Profile {
  import opened Wrappers
  import opened PyText
  import opened Values
  import Encoder

  /** Length of the profile list (line 146). */
  const ProfileSize: nat := 14

  /** The position whose text decides the group (line 154). */
  const LabelPos: nat := 14

  /** The text left in the last profile slot (line 209). */
  const OverLabel: string := ">50K"

  /** The positions lines 166-178 and 181-193 average: all of 0-12 except
      fnlwgt and education. */
  predicate IsMeanPos(p: int) {
    0 <= p <= 12 && p != 2 && p != 3
  }

  /** A record the classifier can digest: a text at position 14 and a number
      at every averaged position. */
  predicate Trainable(row: Row) {
    && |row| > LabelPos
    && row[LabelPos].VStr?
    && forall p :: 0 <= p < LabelPos && IsMeanPos(p) ==> IsNumeric(row[p])
  }

  predicate AllTrainable(rows: seq<Row>) {
    forall r :: r in rows ==> Trainable(r)
  }

  /** Line 154: only leading whitespace is stripped before the comparison. */
  predicate InUnderGroup(row: Row)
    requires Trainable(row)
  {
    LStrip(row[LabelPos].s) == Encoder.UnderLabel
  }

  /** The records lines 153-160 append to `under_data` (`under`) or to
      `over_data`, in their original order. */
  function Group(rows: seq<Row>, under: bool): (g: seq<Row>)
    requires AllTrainable(rows)
    ensures |g| <= |rows|
    ensures forall r :: r in g ==> r in rows && InUnderGroup(r) == under
    ensures forall r :: r in rows && InUnderGroup(r) == under ==> r in g
    decreases |rows|
  {
    if |rows| == 0 then []
    else
      assert rows[0] in rows;
      assert forall r :: r in rows[1..] ==> r in rows;
      var rest := Group(rows[1..], under);
      assert forall r :: r in rows ==> r == rows[0] || r in rows[1..];
      if InUnderGroup(rows[0]) == under then [rows[0]] + rest else rest
  }

  /** The two groups split the training records between them. */
  lemma {:induction false} GroupsPartition(rows: seq<Row>)
    requires AllTrainable(rows)
    ensures |Group(rows, true)| + |Group(rows, false)| == |rows|
    ensures multiset(Group(rows, true)) + multiset(Group(rows, false)) == multiset(rows)
    decreases |rows|
  {
    if |rows| > 0 {
      assert forall r :: r in rows[1..] ==> r in rows;
      GroupsPartition(rows[1..]);
      assert rows == [rows[0]] + rows[1..];
    }
  }

  /** `sum(temp_list[p])`: the column total of a group. */
  function ColumnSum(rows: seq<Row>, p: nat): real
    requires AllTrainable(rows) && IsMeanPos(p)
    decreases |rows|
  {
    if |rows| == 0 then 0.0
    else
      assert rows[0] in rows;
      assert forall r :: r in rows[1..] ==> r in rows;
      Num(rows[0][p]) + ColumnSum(rows[1..], p)
  }

  /** `sum(temp_list[p]) / count` for a non-empty group. */
  function Mean(rows: seq<Row>, p: nat): real
    requires AllTrainable(rows) && IsMeanPos(p) && |rows| > 0
  {
    ColumnSum(rows, p) / |rows| as real
  }

  /** What the classifier raises: `temp_list_over[0]` on an empty over group
      (line 166), then `temp_list_under[0]` on an empty under group (line
      181). */
  datatype ProfileError = EmptyOverGroup | EmptyUnderGroup

  /** The value the profile holds at each slot (lines 196-209). */
  predicate ProfileFits(v: Val, p: nat) {
    if IsMeanPos(p) then v.VReal?
    else if p == ProfileSize - 1 then v == VStr(OverLabel)
    else v == VNone
  }

  predicate IsProfile(pr: Row) {
    && |pr| == ProfileSize
    && forall p :: 0 <= p < ProfileSize ==> ProfileFits(pr[p], p)
  }

  /** `classifier(training_data)`: for every averaged column, the midpoint
      of the over group's mean and the under group's mean. */
  function BuildProfile(training: seq<Row>): (r: Result<Row, ProfileError>)
    requires AllTrainable(training)
    ensures r.Success? ==> IsProfile(r.value)
  {
    var over := Group(training, false);
    var under := Group(training, true);
    if |over| == 0 then Failure(EmptyOverGroup)
    else if |under| == 0 then Failure(EmptyUnderGroup)
    else
      Success(seq(ProfileSize, p requires 0 <= p < ProfileSize =>
        if IsMeanPos(p) then VReal((Mean(over, p) + Mean(under, p)) / 2.0)
        else if p == ProfileSize - 1 then VStr(OverLabel)
        else VNone))
  }

  predicate HasUnder(rows: seq<Row>)
    requires AllTrainable(rows)
  {
    exists r :: r in rows && InUnderGroup(r)
  }

  predicate HasOver(rows: seq<Row>)
    requires AllTrainable(rows)
  {
    exists r :: r in rows && !InUnderGroup(r)
  }

  /** The profile exists exactly when both classes occur in the training
      records; with no over record the over group is the one reported, even
      when the under group is empty too. */
  lemma BuildProfileFails(training: seq<Row>)
    requires AllTrainable(training)
    ensures BuildProfile(training).Success? <==> HasOver(training) && HasUnder(training)
    ensures BuildProfile(training) == Failure(EmptyOverGroup) <==> !HasOver(training)
    ensures BuildProfile(training) == Failure(EmptyUnderGroup) <==> HasOver(training) && !HasUnder(training)
  {
    var over := Group(training, false);
    var under := Group(training, true);
    if HasOver(training) {
      var r :| r in training && !InUnderGroup(r);
      assert r in over;
    }
    if HasUnder(training) {
      var r :| r in training && InUnderGroup(r);
      assert r in under;
    }
    if |over| > 0 {
      assert over[0] in over;
    }
    if |under| > 0 {
      assert under[0] in under;
    }
  }

  // ---------------------------------------------------------------------
  // Where the profile lies
  // ---------------------------------------------------------------------

  predicate ColumnWithin(rows: seq<Row>, p: nat, lo: real, hi: real)
    requires AllTrainable(rows) && IsMeanPos(p)
  {
    forall r :: r in rows ==> lo <= Num(r[p]) <= hi
  }

  /** `n` copies of `x` added up. */
  function Times(n: nat, x: real): (t: real)
    decreases n
  {
    if n == 0 then 0.0 else Times(n - 1, x) + x
  }

  lemma {:induction false} TimesIsProduct(n: nat, x: real)
    ensures Times(n, x) == n as real * x
    decreases n
  {
    if n > 0 {
      TimesIsProduct(n - 1, x);
      assert n as real * x == (n - 1) as real * x + x;
    }
  }

  /** A column whose values lie between `lo` and `hi` adds up to between
      `n` copies of `lo` and `n` copies of `hi`. */
  lemma {:induction false} ColumnSumWithin(rows: seq<Row>, p: nat, lo: real, hi: real)
    requires AllTrainable(rows) && IsMeanPos(p)
    requires ColumnWithin(rows, p, lo, hi)
    ensures Times(|rows|, lo) <= ColumnSum(rows, p) <= Times(|rows|, hi)
    decreases |rows|
  {
    if |rows| > 0 {
      assert rows[0] in rows;
      assert forall r :: r in rows[1..] ==> r in rows;
      ColumnSumWithin(rows[1..], p, lo, hi);
    }
  }

  /** A total between `n * lo` and `n * hi` averages to between `lo` and
      `hi`. */
  lemma AverageWithin(s: real, n: real, lo: real, hi: real)
    requires n > 0.0 && n * lo <= s <= n * hi
    ensures lo <= s / n <= hi
  {
    assert s / n - lo == (s - n * lo) / n;
    assert hi - s / n == (n * hi - s) / n;
  }

  lemma MeanWithin(rows: seq<Row>, p: nat, lo: real, hi: real)
    requires AllTrainable(rows) && IsMeanPos(p) && |rows| > 0
    requires ColumnWithin(rows, p, lo, hi)
    ensures lo <= Mean(rows, p) <= hi
  {
    var n := |rows|;
    var sum := ColumnSum(rows, p);
    ColumnSumWithin(rows, p, lo, hi);
    assert Times(n, lo) <= sum <= Times(n, hi);
    TimesIsProduct(n, lo);
    TimesIsProduct(n, hi);
    assert n as real * lo <= sum <= n as real * hi;
    AverageWithin(sum, n as real, lo, hi);
    assert Mean(rows, p) == sum / n as real;
  }

  /** Every averaged profile value lies between the smallest and the
      largest value of its column in the training records. */
  lemma ProfileWithin(training: seq<Row>, p: nat, lo: real, hi: real)
    requires AllTrainable(training) && IsMeanPos(p)
    requires ColumnWithin(training, p, lo, hi)
    requires BuildProfile(training).Success?
    ensures p < |BuildProfile(training).value|
    ensures BuildProfile(training).value[p].VReal?
    ensures lo <= BuildProfile(training).value[p].r <= hi
  {
    var over := Group(training, false);
    var under := Group(training, true);
    MeanWithin(over, p, lo, hi);
    MeanWithin(under, p, lo, hi);
  }

  /** A column holding the same number in every training record passes that
      number straight into the profile. */
  lemma ProfileOfConstantColumn(training: seq<Row>, p: nat, c: real)
    requires AllTrainable(training) && IsMeanPos(p)
    requires forall r :: r in training ==> Num(r[p]) == c
    requires BuildProfile(training).Success?
    ensures p < |BuildProfile(training).value|
    ensures BuildProfile(training).value[p] == VReal(c)
  {
    ProfileWithin(training, p, c, c);
  }

  /** With one record of each class the profile is the plain midpoint of
      their two values. */
  lemma ProfileOfTwo(under: Row, over: Row, p: nat)
    requires Trainable(under) && Trainable(over) && IsMeanPos(p)
    requires InUnderGroup(under) && !InUnderGroup(over)
    ensures var pr := BuildProfile([under, over]);
            && pr.Success? && p < |pr.value|
            && pr.value[p] == VReal((Num(under[p]) + Num(over[p])) / 2.0)
  {
    var rows := [under, over];
    assert Group(rows, true) == [under] by {
      assert rows[1..] == [over];
      assert [over][1..] == [];
    }
    assert Group(rows, false) == [over] by {
      assert rows[1..] == [over];
      assert [over][1..] == [];
    }
    assert ColumnSum([under], p) == Num(under[p]) by {
      assert [under][1..] == [];
    }
    assert ColumnSum([over], p) == Num(over[p]) by {
      assert [over][1..] == [];
    }
  }

  lemma {:induction false} GroupAppend(a: seq<Row>, b: seq<Row>, under: bool)
    requires AllTrainable(a) && AllTrainable(b)
    ensures AllTrainable(a + b)
    ensures Group(a + b, under) == Group(a, under) + Group(b, under)
    decreases |a|
  {
    assert forall r :: r in a + b ==> r in a || r in b;
    if |a| > 0 {
      assert forall r :: r in a[1..] ==> r in a;
      assert (a + b)[1..] == a[1..] + b;
      assert (a + b)[0] == a[0];
      GroupAppend(a[1..], b, under);
    } else {
      assert a + b == b;
    }
  }

  lemma {:induction false} ColumnSumAppend(a: seq<Row>, b: seq<Row>, p: nat)
    requires AllTrainable(a) && AllTrainable(b) && IsMeanPos(p)
    ensures AllTrainable(a + b)
    ensures ColumnSum(a + b, p) == ColumnSum(a, p) + ColumnSum(b, p)
    decreases |a|
  {
    assert forall r :: r in a + b ==> r in a || r in b;
    if |a| > 0 {
      assert forall r :: r in a[1..] ==> r in a;
      assert (a + b)[1..] == a[1..] + b;
      assert (a + b)[0] == a[0];
      ColumnSumAppend(a[1..], b, p);
    } else {
      assert a + b == b;
    }
  }

  lemma MeanDoubled(g: seq<Row>, p: nat)
    requires AllTrainable(g) && IsMeanPos(p) && |g| > 0
    ensures AllTrainable(g + g)
    ensures Mean(g + g, p) == Mean(g, p)
  {
    ColumnSumAppend(g, g, p);
    var s := ColumnSum(g, p);
    var n := |g| as real;
    assert Mean(g + g, p) == (s + s) / (n + n);
    assert (s + s) / (n + n) == s / n;
  }

  /** Training on every record twice builds the same profile: only the
      two class means matter, not how many records produced them. */
  lemma ProfileOfDoubled(training: seq<Row>)
    requires AllTrainable(training)
    ensures AllTrainable(training + training)
    ensures BuildProfile(training + training) == BuildProfile(training)
  {
    GroupAppend(training, training, false);
    GroupAppend(training, training, true);
    var over := Group(training, false);
    var under := Group(training, true);
    if |over| > 0 && |under| > 0 {
      forall p | 0 <= p < ProfileSize && IsMeanPos(p)
        ensures Mean(over + over, p) == Mean(over, p) && Mean(under + under, p) == Mean(under, p)
      {
        MeanDoubled(over, p);
        MeanDoubled(under, p);
      }
      assert BuildProfile(training + training).value == BuildProfile(training).value;
    }
  }

  /** `create_data` hands the classifier records it can digest. */
  lemma EncodedIsTrainable(row: Row)
    requires Encoder.IsEncoded(row)
    ensures Trainable(row)
  {
    assert Encoder.EncodedFits(row[LabelPos], Encoder.KindOf(LabelPos));
    forall p | 0 <= p < LabelPos && IsMeanPos(p)
      ensures IsNumeric(row[p])
    {
      assert Encoder.EncodedFits(row[p], Encoder.KindOf(p));
    }
  }
}

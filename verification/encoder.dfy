/**
 * The record encoder (`create_data` in prog_and_alg_ca.py): parse each
 * comma-separated census line, count the two income classes and the values
 * of the six categorical columns, then replace every categorical value by
 * its dataset-wide count divided by the size of the record's own class.
 */
module Encoder {
  import opened Wrappers
  import opened PyText
  import opened Values

  const FieldSeparator: char := ','

  /** A line with fewer fields raises before it is kept: at most 12 fields
      fail an `int()` or index at lines 65-69, 13 fields fail `entry[13] =
      None` at line 72, and with 14 fields the last field has just become
      `None`, which has no `strip` (line 74). */
  const MinFields: nat := 15

  const UnderLabel: string := "<=50K"

  /** Number of categorical columns: workclass, marital-status, occupation,
      relationship, race, sex. */
  const CatCount: nat := 6

  /** What the first pass does with each position. */
  datatype Kind =
    | IntCol      // age, education-num, capital-gain, capital-loss, hours-per-week
    | DroppedCol  // fnlwgt, education, native-country
    | CatCol      // workclass, marital-status, occupation, relationship, race, sex
    | TextCol     // the label, and any field after it

  function KindOf(p: nat): Kind {
    if p == 0 || p == 4 || 10 <= p <= 12 then IntCol
    else if p == 2 || p == 3 || p == 13 then DroppedCol
    else if p == 1 || 5 <= p <= 9 then CatCol
    else TextCol
  }

  predicate IsIntPos(p: int) {
    p >= 0 && KindOf(p) == IntCol
  }

  predicate IsNullPos(p: int) {
    p >= 0 && KindOf(p) == DroppedCol
  }

  predicate IsCatPos(p: int) {
    p >= 0 && KindOf(p) == CatCol
  }

  /** Column of the `c`-th frequency table. */
  function CatPos(c: nat): (p: nat)
    requires c < CatCount
    ensures IsCatPos(p)
  {
    if c == 0 then 1 else c + 4
  }

  /** Frequency table of a categorical column. */
  function CatIndex(p: int): (c: nat)
    requires IsCatPos(p)
    ensures c < CatCount && CatPos(c) == p
  {
    if p == 1 then 0 else p - 4
  }

  // ---------------------------------------------------------------------
  // First pass: parsing (lines 63-72)
  // ---------------------------------------------------------------------

  function Fields(line: string): seq<string> {
    Split(line, FieldSeparator)
  }

  /** The last field is text: the label lines 74 and 116 strip. */
  predicate HasLabel(row: Row) {
    |row| > 0 && row[|row| - 1].VStr?
  }

  /** The value the first pass leaves at a position of the given kind. */
  predicate RawFits(v: Val, k: Kind) {
    match k
    case IntCol => v.VInt?
    case DroppedCol => v == VNone
    case CatCol => v.VStr?
    case TextCol => v.VStr?
  }

  /** A record as the first pass leaves it. */
  predicate IsRaw(row: Row) {
    && |row| >= MinFields
    && HasLabel(row)
    && forall p :: 0 <= p < |row| ==> RawFits(row[p], KindOf(p))
  }

  /** `row` is the first pass's reading of the fields `f`: one value per
      field, the integer `int()` reads at an integer position, the field's
      text everywhere that is neither integer nor dropped. */
  predicate ReadsFields(row: Row, f: seq<string>) {
    && |row| == |f|
    && (forall p :: 0 <= p < |f| && IsIntPos(p) ==> row[p].VInt? && ParseInt(f[p]) == Some(row[p].i))
    && (forall p :: 0 <= p < |f| && !IsIntPos(p) && !IsNullPos(p) ==> row[p] == VStr(f[p]))
  }

  /** The five `int()` calls of lines 65-69 all succeed. */
  predicate IntsParse(f: seq<string>) {
    forall p :: 0 <= p < |f| && IsIntPos(p) ==> ParseInt(f[p]).Some?
  }

  /** Lines 65-72 on fields that do not raise. */
  function ReadFields(f: seq<string>): (row: Row)
    requires |f| >= MinFields && IntsParse(f)
    ensures IsRaw(row) && ReadsFields(row, f)
  {
    var row := seq(|f|, p requires 0 <= p < |f| =>
      if IsIntPos(p) then VInt(ParseInt(f[p]).value)
      else if IsNullPos(p) then VNone
      else VStr(f[p]));
    row
  }

  /** One iteration of the first loop up to the append: `None` when the line
      raises. */
  function ParseLine(line: string): (r: Option<Row>)
    ensures r.Some? ==> IsRaw(r.value)
  {
    var f := Fields(line);
    if |f| < MinFields || !IntsParse(f) then None else Some(ReadFields(f))
  }

  /** A line is kept exactly when it splits into at least fifteen fields
      and the five `int()` calls succeed, and the record then reads its
      fields. */
  lemma ParseLineKeeps(line: string)
    ensures ParseLine(line).Some? <==> |Fields(line)| >= MinFields && IntsParse(Fields(line))
    ensures ParseLine(line).Some? ==> ReadsFields(ParseLine(line).value, Fields(line))
  {
  }

  /** The `try` encloses the whole loop, so the first line that raises ends
      ingestion and every record appended before it is kept. */
  function ParsedPrefix(lines: seq<string>): (rows: seq<Row>)
    ensures |rows| <= |lines|
    ensures forall i :: 0 <= i < |rows| ==> ParseLine(lines[i]) == Some(rows[i])
    ensures |rows| < |lines| ==> ParseLine(lines[|rows|]).None?
    decreases |lines|
  {
    if |lines| == 0 then []
    else match ParseLine(lines[0])
      case None => []
      case Some(row) => [row] + ParsedPrefix(lines[1..])
  }

  // ---------------------------------------------------------------------
  // Counting (lines 74-107)
  // ---------------------------------------------------------------------

  /** The record's label with spaces stripped, as lines 74 and 116 test it. */
  predicate IsUnderLabel(row: Row)
    requires HasLabel(row)
  {
    StripBlanks(row[|row| - 1].s) == UnderLabel
  }

  datatype Frequencies = Frequencies(under: nat, over: nat, tables: seq<map<string, nat>>)

  function CountOf(table: map<string, nat>, key: string): nat {
    if key in table then table[key] else 0
  }

  /** The dictionary increment of lines 79-82 (and its five copies). */
  function Bump(table: map<string, nat>, key: string): (r: map<string, nat>)
    ensures r.Keys == table.Keys + {key}
    ensures forall k :: CountOf(r, k) == CountOf(table, k) + (if k == key then 1 else 0)
  {
    if key in table then table[key := table[key] + 1] else table[key := 1]
  }

  /** The divisor of line 117 or 124: the size of the record's own class. */
  function ClassTotal(f: Frequencies, row: Row): nat
    requires HasLabel(row)
  {
    if IsUnderLabel(row) then f.under else f.over
  }

  /** Every dictionary lookup and division the second pass makes for `row`
      succeeds. */
  predicate Covers(f: Frequencies, row: Row)
    requires IsRaw(row) && |f.tables| == CatCount
  {
    && ClassTotal(f, row) > 0
    && forall c :: 0 <= c < CatCount ==> CountOf(f.tables[c], row[CatPos(c)].s) > 0
  }

  /** The counts after the first loop has taken in `rows`, in order. Each
      record adds one to exactly one class, and the counts cover every record
      taken in, so the second pass never misses a key nor divides by zero. */
  function Tabulate(rows: seq<Row>): (f: Frequencies)
    requires forall i :: 0 <= i < |rows| ==> IsRaw(rows[i])
    ensures |f.tables| == CatCount
    ensures f.under + f.over == |rows|
    ensures forall i :: 0 <= i < |rows| ==> Covers(f, rows[i])
    decreases |rows|
  {
    if |rows| == 0 then Frequencies(0, 0, seq(CatCount, _ => map[]))
    else
      var prev := Tabulate(rows[..|rows| - 1]);
      var row := rows[|rows| - 1];
      assert IsRaw(row);
      var f := Frequencies(
        if IsUnderLabel(row) then prev.under + 1 else prev.under,
        if IsUnderLabel(row) then prev.over else prev.over + 1,
        seq(CatCount, c requires 0 <= c < CatCount => Bump(prev.tables[c], row[CatPos(c)].s)));
      assert forall i :: 0 <= i < |rows| - 1 ==> rows[i] == rows[..|rows| - 1][i];
      f
  }

  /** The values at position `p`, one per record. */
  function Column(rows: seq<Row>, p: nat): (col: seq<Val>)
    requires forall i :: 0 <= i < |rows| ==> p < |rows[i]|
    ensures |col| == |rows|
  {
    seq(|rows|, i requires 0 <= i < |rows| => rows[i][p])
  }

  /** How many records hold the text `v` at position `p`. */
  function Occurrences(rows: seq<Row>, p: nat, v: string): nat
    requires forall i :: 0 <= i < |rows| ==> p < |rows[i]|
  {
    multiset(Column(rows, p))[VStr(v)]
  }

  /** Whether each record's label reads as the under class. */
  function Classes(rows: seq<Row>): (col: seq<bool>)
    requires forall i :: 0 <= i < |rows| ==> IsRaw(rows[i])
    ensures |col| == |rows|
  {
    seq(|rows|, i requires 0 <= i < |rows| => assert IsRaw(rows[i]); IsUnderLabel(rows[i]))
  }

  /** How many records fall in the under class (`under`) or the other one. */
  function ClassSize(rows: seq<Row>, under: bool): nat
    requires forall i :: 0 <= i < |rows| ==> IsRaw(rows[i])
  {
    multiset(Classes(rows))[under]
  }

  lemma OccurrencesSnoc(rows: seq<Row>, p: nat, v: string)
    requires |rows| > 0
    requires forall i :: 0 <= i < |rows| ==> p < |rows[i]|
    ensures Occurrences(rows, p, v) ==
              Occurrences(rows[..|rows| - 1], p, v) + (if rows[|rows| - 1][p] == VStr(v) then 1 else 0)
  {
    assert Column(rows, p) == Column(rows[..|rows| - 1], p) + [rows[|rows| - 1][p]];
  }

  lemma ClassSizeSnoc(rows: seq<Row>, under: bool)
    requires |rows| > 0
    requires forall i :: 0 <= i < |rows| ==> IsRaw(rows[i])
    ensures ClassSize(rows, under) ==
              ClassSize(rows[..|rows| - 1], under) + (if IsUnderLabel(rows[|rows| - 1]) == under then 1 else 0)
  {
    assert Classes(rows) == Classes(rows[..|rows| - 1]) + [IsUnderLabel(rows[|rows| - 1])];
  }

  /** The two class counters of the first loop are the class sizes. */
  lemma {:induction false} TabulateClassSizes(rows: seq<Row>)
    requires forall i :: 0 <= i < |rows| ==> IsRaw(rows[i])
    ensures Tabulate(rows).under == ClassSize(rows, true)
    ensures Tabulate(rows).over == ClassSize(rows, false)
    decreases |rows|
  {
    if |rows| > 0 {
      TabulateClassSizes(rows[..|rows| - 1]);
      ClassSizeSnoc(rows, true);
      ClassSizeSnoc(rows, false);
    }
  }

  /** Each frequency table holds, for every value, the number of kept
      records with that value in its column, and holds exactly the values
      that occur. */
  lemma {:induction false} TabulateOccurrences(rows: seq<Row>, c: nat)
    requires forall i :: 0 <= i < |rows| ==> IsRaw(rows[i])
    requires c < CatCount
    ensures forall v :: CountOf(Tabulate(rows).tables[c], v) == Occurrences(rows, CatPos(c), v)
    ensures forall v :: v in Tabulate(rows).tables[c] <==> Occurrences(rows, CatPos(c), v) > 0
    decreases |rows|
  {
    if |rows| > 0 {
      TabulateOccurrences(rows[..|rows| - 1], c);
      forall v
        ensures Occurrences(rows, CatPos(c), v) ==
                  Occurrences(rows[..|rows| - 1], CatPos(c), v)
                  + (if rows[|rows| - 1][CatPos(c)] == VStr(v) then 1 else 0)
      {
        OccurrencesSnoc(rows, CatPos(c), v);
      }
    }
  }

  // ---------------------------------------------------------------------
  // Second pass: normalisation (lines 114-129)
  // ---------------------------------------------------------------------

  /** A record as `create_data` returns it. */
  predicate IsEncoded(row: Row) {
    && |row| >= MinFields
    && HasLabel(row)
    && forall p :: 0 <= p < |row| ==> EncodedFits(row[p], KindOf(p))
  }

  /** The value `create_data` returns at a position of the given kind: a
      categorical value has become a positive frequency. */
  predicate EncodedFits(v: Val, k: Kind) {
    match k
    case IntCol => v.VInt?
    case DroppedCol => v == VNone
    case CatCol => v.VReal? && v.r > 0.0
    case TextCol => v.VStr?
  }

  /** Lines 116-129 for one record: each categorical text becomes its count
      over the class total, which leaves a record of the encoded shape. */
  function Normalize(row: Row, f: Frequencies): (r: Row)
    requires IsRaw(row) && |f.tables| == CatCount && Covers(f, row)
    ensures |r| == |row| && IsEncoded(r)
    ensures forall p :: 0 <= p < |row| && !IsCatPos(p) ==> r[p] == row[p]
  {
    var total := ClassTotal(f, row) as real;
    var r := seq(|row|, p requires 0 <= p < |row| =>
      if IsCatPos(p) then VReal(f.tables[CatIndex(p)][row[p].s] as real / total)
      else row[p]);
    assert forall p :: 0 <= p < |row| ==> EncodedFits(r[p], KindOf(p)) by {
      forall p | 0 <= p < |row|
        ensures EncodedFits(r[p], KindOf(p))
      {
        if IsCatPos(p) {
          assert CountOf(f.tables[CatIndex(p)], row[p].s) > 0;
        } else {
          assert RawFits(row[p], KindOf(p));
        }
      }
    }
    r
  }

  /** The second loop over the kept records, with the counts of all of
      them. Every record comes out with the encoded shape. */
  function NormalizeAll(rows: seq<Row>): (data: seq<Row>)
    requires forall j :: 0 <= j < |rows| ==> IsRaw(rows[j])
    ensures |data| == |rows|
    ensures forall i :: 0 <= i < |data| ==> IsEncoded(data[i])
  {
    var f := Tabulate(rows);
    seq(|rows|, i requires 0 <= i < |rows| => Normalize(rows[i], f))
  }

  /** `create_data` after the fetch: ingestion keeps the records of the
      lines before the first one that raises, and every kept record is
      encoded. */
  function Encode(lines: seq<string>): (data: seq<Row>)
    ensures |data| <= |lines|
    ensures forall i :: 0 <= i < |data| ==> ParseLine(lines[i]).Some?
    ensures |data| < |lines| ==> ParseLine(lines[|data|]).None?
    ensures forall i :: 0 <= i < |data| ==> IsEncoded(data[i])
  {
    NormalizeAll(ParsedPrefix(lines))
  }

  /** What the second pass makes of each field. The record keeps its
      length, and every field other than the six categorical ones keeps the
      first pass's value (so the integers, the dropped fields and the label
      are unchanged). A categorical field becomes the number of records, of
      either class, holding the same raw text at that position, divided by
      the number of records in the record's own class, which is never zero. */
  lemma NormalizedField(rows: seq<Row>, i: nat, p: nat)
    requires forall j :: 0 <= j < |rows| ==> IsRaw(rows[j])
    requires i < |rows| && p < |rows[i]|
    ensures |NormalizeAll(rows)[i]| == |rows[i]|
    ensures ClassSize(rows, Classes(rows)[i]) > 0
    ensures NormalizeAll(rows)[i][p] ==
              if IsCatPos(p) then
                VReal(Occurrences(rows, p, rows[i][p].s) as real
                      / ClassSize(rows, Classes(rows)[i]) as real)
              else rows[i][p]
  {
    var f := Tabulate(rows);
    var row := rows[i];
    assert NormalizeAll(rows)[i] == Normalize(row, f);
    TabulateClassSizes(rows);
    assert ClassTotal(f, row) == ClassSize(rows, IsUnderLabel(row));
    if IsCatPos(p) {
      var c := CatIndex(p);
      TabulateOccurrences(rows, c);
      assert f.tables[c][row[p].s] == CountOf(f.tables[c], row[p].s);
    }
  }

  /** `NormalizedField` for the records `create_data` keeps. */
  lemma EncodedField(lines: seq<string>, i: nat, p: nat)
    requires i < |Encode(lines)| && p < |Encode(lines)[i]|
    ensures var rows := ParsedPrefix(lines);
            && |Encode(lines)[i]| == |rows[i]|
            && ClassSize(rows, Classes(rows)[i]) > 0
            && Encode(lines)[i][p] ==
                 if IsCatPos(p) then
                   VReal(Occurrences(rows, p, rows[i][p].s) as real
                         / ClassSize(rows, Classes(rows)[i]) as real)
                 else rows[i][p]
  {
    NormalizedField(ParsedPrefix(lines), i, p);
  }

  /** The numerator counts both classes but the divisor only one, so an
      encoded value can exceed 1: two records of opposite classes sharing a
      categorical value both get 2. */
  lemma SharedValueExceedsOne(rows: seq<Row>, p: nat)
    requires |rows| == 2 && IsRaw(rows[0]) && IsRaw(rows[1])
    requires IsCatPos(p) && rows[0][p] == rows[1][p]
    requires IsUnderLabel(rows[0]) && !IsUnderLabel(rows[1])
    ensures NormalizeAll(rows)[0][p] == VReal(2.0)
    ensures NormalizeAll(rows)[1][p] == VReal(2.0)
  {
    var v := rows[0][p].s;
    assert Occurrences(rows, p, v) == 2 by {
      assert Column(rows, p) == [VStr(v), VStr(v)];
    }
    assert Classes(rows) == [true, false];
    assert ClassSize(rows, true) == 1 && ClassSize(rows, false) == 1;
    TwiceOverOnce(rows, 0, p, v);
    TwiceOverOnce(rows, 1, p, v);
  }

  /** A categorical value held by two records, in a record alone in its
      class, encodes as 2. */
  lemma TwiceOverOnce(rows: seq<Row>, i: nat, p: nat, v: string)
    requires forall j :: 0 <= j < |rows| ==> IsRaw(rows[j])
    requires forall j :: 0 <= j < |rows| ==> p < |rows[j]|
    requires i < |rows| && IsCatPos(p) && rows[i][p] == VStr(v)
    requires Occurrences(rows, p, v) == 2
    requires ClassSize(rows, Classes(rows)[i]) == 1
    ensures NormalizeAll(rows)[i][p] == VReal(2.0)
  {
    NormalizedField(rows, i, p);
    TwoOverOne(Occurrences(rows, p, v), ClassSize(rows, Classes(rows)[i]));
  }

  lemma TwoOverOne(n: nat, d: nat)
    requires n == 2 && d == 1
    ensures n as real / d as real == 2.0
  {
  }
}

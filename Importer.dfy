/** Bulk import of questions from an uploaded spreadsheet (the `import` branch of
    `manage_questions`, app.py). The sheet is read with every cell as text; a cell
    pandas reads as missing is `None`. Either every row becomes a question and all of
    them are committed together, or the first failing row (or a missing column) is
    reported and nothing is stored. */
module Importer {
  import opened Base
  import opened PyText
  import opened Records
  import Upload

  const QuestionStatement: string := "question_statement"
  const Option1: string := "option_1"
  const Option2: string := "option_2"
  const Option3: string := "option_3"
  const Option4: string := "option_4"
  const CorrectOption: string := "correct_option"
  const ImageUrl: string := "image_url"

  /** The columns a sheet must have, in the order they are checked. */
  const RequiredColumns: seq<string> :=
    [QuestionStatement, Option1, Option2, Option3, Option4, CorrectOption]

  /** The column names are pairwise different, and the required ones are listed in order. */
  lemma ColumnNames()
    ensures QuestionStatement != Option4 && Option1 != Option4 && Option2 != Option4 && Option3 != Option4
    ensures CorrectOption != Option4 && ImageUrl != Option4
    ensures RequiredColumns[0] == QuestionStatement && RequiredColumns[1] == Option1 && RequiredColumns[2] == Option2
    ensures RequiredColumns[3] == Option3 && RequiredColumns[4] == Option4 && RequiredColumns[5] == CorrectOption
  {
    assert QuestionStatement[0] != Option4[0];
    assert Option1[7] != Option4[7] && Option2[7] != Option4[7] && Option3[7] != Option4[7];
    assert CorrectOption[0] != Option4[0] && ImageUrl[0] != Option4[0];
  }

  /** What a missing or "none" fourth option is stored as. */
  const NotApplicable: string := "Not applicable"

  /** A cell: its text, or `None` when the sheet has no value there. */
  type Cell = Option<string>

  /** One row of the sheet, by column name. */
  type Row = map<string, Cell>

  /** A sheet: its header and its rows in order. */
  datatype Table = Table(columns: seq<string>, rows: seq<Row>)

  /** Why a row is refused. */
  datatype RowFailure =
    | FieldEmpty(field: string)      // a required field other than option_4 is missing or blank
    | NotANumber(text: string)       // `float()` refused the correct_option text
    | NaNOption                      // correct_option is a NaN, which `int()` refuses
    | InfiniteOption                 // correct_option is infinite, which `int()` refuses
    | OptionOutOfRange(value: int)   // correct_option truncates to a number outside 1..4

  /** Why an import is refused; rows are numbered from 1. */
  datatype ImportError =
    | MissingColumns(columns: seq<string>)
    | RowError(row: nat, failure: RowFailure)

  /** What the administrator is told. */
  datatype ImportOutcome = Imported(count: nat) | ImportFailed(error: ImportError)

  /** The cell of `row` under `column`; a column the sheet lacks reads as missing. */
  function CellOf(row: Row, column: string): Cell {
    if column in row then row[column] else None
  }

  /** `str(v)` of a cell read as text: its text; a missing value prints as "nan". */
  function CellText(c: Cell): string {
    match c
    case Some(v) => v
    case None => "nan"
  }

  /** A cell that is missing or holds only whitespace. */
  predicate IsBlank(c: Cell) {
    c.None? || AllSpace(c.value)
  }

  /** `IsBlank` is the source's test `pd.isna(v) or str(v).strip() == ''`. */
  lemma IsBlankIsStripEmpty(c: Cell)
    ensures IsBlank(c) <==> c.None? || Strip(c.value) == []
  {
    if c.Some? {
      StripEmptyIffAllSpace(c.value);
    }
  }

  /** Whether a fourth-option cell is missing or says "none" in any case, around spaces. */
  predicate SaysNone(c: Cell) {
    c.None? || LowerAscii(Strip(c.value)) == "none"
  }

  // ---------------------------------------------------------------- columns

  /** `[col for col in required if col not in columns]` */
  function Missing(required: seq<string>, columns: seq<string>): (r: seq<string>)
  {
    if required == [] then []
    else
      var rest := Missing(required[..|required| - 1], columns);
      var last := required[|required| - 1];
      if last in columns then rest else rest + [last]
  }

  /** The missing-column list names exactly the required columns the header lacks, in
      the order the required columns are listed. */
  lemma MissingExact(required: seq<string>, columns: seq<string>)
    ensures forall c :: c in Missing(required, columns) <==> c in required && c !in columns
    ensures IsSubsequence(Missing(required, columns), required)
  {
    MissingMembers(required, columns);
    MissingInOrder(required, columns);
  }

  /** Which columns the missing-column list names. */
  lemma {:induction false} MissingMembers(required: seq<string>, columns: seq<string>)
    ensures forall c :: c in Missing(required, columns) <==> c in required && c !in columns
  {
    if required != [] {
      var init := required[..|required| - 1];
      var last := required[|required| - 1];
      MissingMembers(init, columns);
      assert required == init + [last];
      forall c ensures c in required <==> c in init || c == last {
      }
    }
  }

  /** The missing-column list keeps the order of the required columns. */
  lemma {:induction false} MissingInOrder(required: seq<string>, columns: seq<string>)
    ensures IsSubsequence(Missing(required, columns), required)
  {
    if required != [] {
      var init := required[..|required| - 1];
      var last := required[|required| - 1];
      MissingInOrder(init, columns);
      assert required == init + [last];
      var rest := Missing(init, columns);
      if last !in columns {
        assert (rest + [last])[..|rest + [last]| - 1] == rest;
      } else {
        SubsequenceOfPrefix(rest, init, last);
      }
    }
  }

  /** Dropping the last element of `t` keeps every subsequence of the rest a subsequence. */
  lemma {:induction false} SubsequenceOfPrefix<T>(s: seq<T>, t: seq<T>, x: T)
    requires IsSubsequence(s, t)
    ensures IsSubsequence(s, t + [x])
    decreases |t|, |s|, 1
  {
    if s != [] {
      assert (t + [x])[..|t + [x]| - 1] == t;
      if s[|s| - 1] == x {
        assert s[..|s| - 1] + [s[|s| - 1]] == s;
        SubsequenceWeaken(s[..|s| - 1], t, s[|s| - 1]);
      }
    }
  }

  /** A subsequence of a sequence's first part is a subsequence of the whole. */
  lemma {:induction false} SubsequenceWeaken<T>(s: seq<T>, t: seq<T>, x: T)
    requires IsSubsequence(s + [x], t)
    ensures IsSubsequence(s, t)
    decreases |t|, |s| + 1, 0
  {
    var sx := s + [x];
    assert sx[..|sx| - 1] == s;
    if t != [] {
      var init := t[..|t| - 1];
      if sx[|sx| - 1] == t[|t| - 1] {
        SubsequenceOfPrefix(s, init, t[|t| - 1]);
        assert init + [t[|t| - 1]] == t;
      } else {
        SubsequenceWeaken(s, init, x);
        SubsequenceOfPrefix(s, init, t[|t| - 1]);
        assert init + [t[|t| - 1]] == t;
      }
    }
  }

  // ---------------------------------------------------------------- one row

  /** The first of `fields`, other than option_4, that `row` leaves blank. */
  function FirstBlankAmong(row: Row, fields: seq<string>): (r: Option<string>)
    ensures r.Some? ==> r.value in fields && r.value != Option4 && IsBlank(CellOf(row, r.value))
    ensures r.None? ==> forall f :: f in fields && f != Option4 ==> !IsBlank(CellOf(row, f))
    ensures r.Some? ==> exists i :: 0 <= i < |fields| && fields[i] == r.value && FilledAmong(row, fields[..i])
  {
    if fields == [] then None
    else if fields[0] != Option4 && IsBlank(CellOf(row, fields[0])) then
      assert FilledAmong(row, fields[..0]);
      Some(fields[0])
    else
      var rest := FirstBlankAmong(row, fields[1..]);
      if rest.Some? then
        var i :| 0 <= i < |fields[1..]| && fields[1..][i] == rest.value && FilledAmong(row, fields[1..][..i]);
        forall f | f in fields[..i + 1] && f != Option4 ensures !IsBlank(CellOf(row, f)) {
          var k :| 0 <= k <= i && fields[k] == f;
          if k > 0 {
            assert fields[1..][..i][k - 1] == f;
          }
        }
        assert fields[i + 1] == rest.value;
        rest
      else rest
  }

  /** Every one of `fields` other than option_4 is filled in `row`. */
  predicate FilledAmong(row: Row, fields: seq<string>) {
    forall f :: f in fields && f != Option4 ==> !IsBlank(CellOf(row, f))
  }

  /** The first required field, other than option_4, that `row` leaves blank. */
  function FirstBlankField(row: Row): Option<string> {
    FirstBlankAmong(row, RequiredColumns)
  }

  /** What a missing or "none" fourth option is replaced with before the row is used. */
  function NormalizeOption4(row: Row): (r: Row)
    ensures forall c :: c != Option4 ==> CellOf(r, c) == CellOf(row, c)
    ensures SaysNone(CellOf(row, Option4)) ==> CellOf(r, Option4) == Some(NotApplicable)
    ensures !SaysNone(CellOf(row, Option4)) ==> r == row
  {
    if SaysNone(CellOf(row, Option4)) then row[Option4 := Some(NotApplicable)] else row
  }

  /** The required-field pass over a row: the first blank field refuses it, and a
      fourth option that is missing or "none" becomes "Not applicable". */
  function RequiredFieldsCheck(row: Row): Result<Row, RowFailure> {
    match FirstBlankField(row)
    case Some(field) => Err(FieldEmpty(field))
    case None => Ok(NormalizeOption4(row))
  }

  /** One column of the required-field pass: only option_4, the fifth, is never refused. */
  lemma RequiredColumnStep(row: Row, j: nat)
    requires j < |RequiredColumns|
    ensures (RequiredColumns[j] == Option4) == (j == 4)
    ensures FirstBlankAmong(row, RequiredColumns[j..]) ==
      if j != 4 && IsBlank(CellOf(row, RequiredColumns[j])) then Some(RequiredColumns[j])
      else FirstBlankAmong(row, RequiredColumns[j + 1..])
  {
    assert RequiredColumns[j..][1..] == RequiredColumns[j + 1..];
    assert RequiredColumns[4] == Option4;
    if j != 4 {
      assert RequiredColumns[j] != Option4 by {
        assert RequiredColumns[j][7] != Option4[7];
      }
    }
  }

  /** The loop over the required columns (app.py:144-151). */
  method CheckRequiredFields(row: Row) returns (r: Result<Row, RowFailure>)
    ensures r == RequiredFieldsCheck(row)
  {
    var current := row;
    for j := 0 to |RequiredColumns|
      invariant current == if j <= 4 then row else NormalizeOption4(row)
      invariant FirstBlankField(row) == FirstBlankAmong(row, RequiredColumns[j..])
    {
      var field := RequiredColumns[j];
      RequiredColumnStep(row, j);
      if field == Option4 {
        if SaysNone(CellOf(current, field)) {
          current := current[field := Some(NotApplicable)];
        }
      } else if IsBlank(CellOf(current, field)) {
        return Err(FieldEmpty(field));
      }
    }
    return Ok(current);
  }

  /** `int(float(row['correct_option']))`, refused outside 1..4. */
  function ParseCorrectOption(text: string): (r: Result<int, RowFailure>)
    ensures r.Ok? ==> 1 <= r.value <= 4
    ensures r.Err? ==> !r.error.FieldEmpty?
  {
    match ParseFloat(text)
    case None => Err(NotANumber(text))
    case Some(f) =>
      match TruncateFloat(f)
      case Err(CannotConvertNaN) => Err(NaNOption)
      case Err(CannotConvertInfinity) => Err(InfiniteOption)
      case Ok(k) => if 1 <= k <= 4 then Ok(k) else Err(OptionOutOfRange(k))
  }

  /** A whole number written out is accepted as itself exactly when it is 1 to 4. */
  lemma ParseCorrectOptionOfNumber(n: int)
    ensures 1 <= n <= 4 ==> ParseCorrectOption(Str(n)) == Ok(n)
    ensures !(1 <= n <= 4) ==> ParseCorrectOption(Str(n)) == Err(OptionOutOfRange(n))
  {
    TruncateFloatStr(n);
  }

  /** Once `float()` has read the text, `int()` and the range check decide. */
  lemma ParseCorrectOptionRead(text: string, f: PyFloat)
    requires ParseFloat(text) == Some(f)
    ensures f.NaN? ==> ParseCorrectOption(text) == Err(NaNOption)
    ensures f.Infinite? ==> ParseCorrectOption(text) == Err(InfiniteOption)
    ensures f.Finite? ==>
      var k := TruncateFloat(f).value;
      ParseCorrectOption(text) == if 1 <= k <= 4 then Ok(k) else Err(OptionOutOfRange(k))
  {
  }

  /** A fractional correct option is cut toward zero before the range check: "4.5"
      is option 4. */
  lemma FractionalOptionTruncated()
    ensures ParseCorrectOption("4.5") == Ok(4)
  {
    FourAndAHalf();
    ParseCorrectOptionRead("4.5", Finite(false, 45, -1));
  }

  /** A NaN correct option is refused by the integer conversion, not by the range check. */
  lemma NaNOptionRefused()
    ensures ParseCorrectOption("NaN") == Err(NaNOption)
  {
    NaNWord();
    ParseCorrectOptionRead("NaN", NaN);
  }

  /** The fourth option as stored: "Not applicable" when the cell is missing or says
      "none", otherwise its text without surrounding white space. */
  function Option4Value(c: Cell): (r: string)
    ensures SaysNone(c) ==> r == NotApplicable
    ensures !SaysNone(c) ==> r == Strip(c.value) && LowerAscii(r) != "none"
  {
    if SaysNone(c) then NotApplicable else Strip(c.value)
  }

  /** "Not applicable" itself does not read as "none", stripped or not. */
  lemma NotApplicableSaysNone()
    ensures Strip(NotApplicable) == NotApplicable
    ensures LowerAscii(NotApplicable) != "none"
  {
    StripUntrimmed(NotApplicable);
    assert |LowerAscii(NotApplicable)| == |NotApplicable|;
  }

  /** The question built from a checked row (app.py:162-175). */
  function BuildQuestion(quizId: nat, row: Row, correct: int): Question {
    var option4 := Strip(CellText(CellOf(row, Option4)));
    Question(
      quizId,
      Strip(CellText(CellOf(row, QuestionStatement))),
      CellOf(row, ImageUrl),
      Strip(CellText(CellOf(row, Option1))),
      Strip(CellText(CellOf(row, Option2))),
      Strip(CellText(CellOf(row, Option3))),
      if LowerAscii(option4) == "none" then NotApplicable else option4,
      correct)
  }

  /** The fourth option is replaced twice in the source, once in the required-field pass and
      once when the question is built; together they store `Option4Value` of the cell. */
  lemma BuildAfterNormalize(quizId: nat, row: Row, correct: int)
    ensures BuildQuestion(quizId, NormalizeOption4(row), correct).option4 == Option4Value(CellOf(row, Option4))
  {
    var c := CellOf(row, Option4);
    if SaysNone(c) {
      assert CellOf(NormalizeOption4(row), Option4) == Some(NotApplicable);
      StripUntrimmed(NotApplicable);
      assert |LowerAscii(NotApplicable)| == 14;
    }
  }

  /** A question built from a row whose required fields are all present has a statement
      and three first options that are not empty. */
  lemma BuildChecked(quizId: nat, row: Row, correct: int)
    requires FirstBlankField(row).None?
    ensures var q := BuildQuestion(quizId, NormalizeOption4(row), correct);
      q.quizId == quizId && q.correctOption == correct
      && q.statement != [] && q.option1 != [] && q.option2 != [] && q.option3 != []
      && q.image == CellOf(row, ImageUrl)
  {
    ColumnNames();
    var checked := NormalizeOption4(row);
    assert !IsBlank(CellOf(row, QuestionStatement)) && !IsBlank(CellOf(row, Option1));
    assert !IsBlank(CellOf(row, Option2)) && !IsBlank(CellOf(row, Option3));
    IsBlankIsStripEmpty(CellOf(row, QuestionStatement));
    IsBlankIsStripEmpty(CellOf(row, Option1));
    IsBlankIsStripEmpty(CellOf(row, Option2));
    IsBlankIsStripEmpty(CellOf(row, Option3));
  }

  /** What follows the required-field pass (app.py:153-175): the correct option is
      parsed and the question built. */
  function FinishRow(quizId: nat, row: Row): Result<Question, RowFailure> {
    match ParseCorrectOption(CellText(CellOf(row, CorrectOption)))
    case Err(e) => Err(e)
    case Ok(k) => Ok(BuildQuestion(quizId, row, k))
  }

  /** The pass over `fields` (app.py:144-151), then the rest of the row's processing. */
  function ValidateFields(quizId: nat, row: Row, fields: seq<string>): Result<Question, RowFailure>
    decreases |fields|
  {
    if fields == [] then FinishRow(quizId, row)
    else if fields[0] == Option4 then ValidateFields(quizId, NormalizeOption4(row), fields[1..])
    else if IsBlank(CellOf(row, fields[0])) then Err(FieldEmpty(fields[0]))
    else ValidateFields(quizId, row, fields[1..])
  }

  /** What one row yields (app.py:141-176): a question, or why it is refused. */
  function ValidateRow(quizId: nat, row: Row): Result<Question, RowFailure> {
    ValidateFields(quizId, row, RequiredColumns)
  }

  /** Replacing the fourth option twice is replacing it once. */
  lemma NormalizeTwice(row: Row)
    ensures NormalizeOption4(NormalizeOption4(row)) == NormalizeOption4(row)
  {
    if SaysNone(CellOf(row, Option4)) {
      NotApplicableSaysNone();
      assert CellOf(NormalizeOption4(row), Option4) == Some(NotApplicable);
    }
  }

  /** The blank-field search does not look at option_4. */
  lemma {:induction false} FirstBlankIgnoresOption4(row: Row, other: Row, fields: seq<string>)
    requires forall c :: c != Option4 ==> CellOf(other, c) == CellOf(row, c)
    ensures FirstBlankAmong(other, fields) == FirstBlankAmong(row, fields)
  {
    if fields != [] {
      FirstBlankIgnoresOption4(row, other, fields[1..]);
    }
  }

  /** The pass over any list of fields reports its first blank field other than option_4,
      and otherwise goes on with the row, its fourth option replaced if the list names it. */
  lemma {:induction false} ValidateFieldsSteps(quizId: nat, row: Row, fields: seq<string>)
    ensures ValidateFields(quizId, row, fields) ==
      match FirstBlankAmong(row, fields)
      case Some(f) => Err(FieldEmpty(f))
      case None => FinishRow(quizId, if Option4 in fields then NormalizeOption4(row) else row)
    decreases |fields|
  {
    if fields != [] {
      var rest := fields[1..];
      assert fields == [fields[0]] + rest;
      if fields[0] == Option4 {
        var normal := NormalizeOption4(row);
        ValidateFieldsSteps(quizId, normal, rest);
        FirstBlankIgnoresOption4(row, normal, rest);
        NormalizeTwice(row);
      } else if !IsBlank(CellOf(row, fields[0])) {
        ValidateFieldsSteps(quizId, row, rest);
      }
    }
  }

  /** A row is refused for its first blank required field; otherwise its fourth option is
      replaced if need be, and the correct option decides. */
  lemma ValidateRowSteps(quizId: nat, row: Row)
    ensures ValidateRow(quizId, row) ==
      match RequiredFieldsCheck(row)
      case Err(f) => Err(f)
      case Ok(checked) => FinishRow(quizId, checked)
  {
    ValidateFieldsSteps(quizId, row, RequiredColumns);
    ColumnNames();
  }

  /** Every question an accepted row yields has a correct option of 1 to 4 and a
      statement and three first options that are not empty; a blank field that refuses a
      row is a required one other than option_4. */
  lemma ValidRowFields(quizId: nat, row: Row)
    ensures var r := ValidateRow(quizId, row);
      r.Ok? ==> r.value.quizId == quizId && 1 <= r.value.correctOption <= 4
                && r.value.statement != [] && r.value.option1 != [] && r.value.option2 != [] && r.value.option3 != []
    ensures var r := ValidateRow(quizId, row);
      r.Err? && r.error.FieldEmpty? ==> r.error.field in RequiredColumns && r.error.field != Option4
  {
    ValidateRowSteps(quizId, row);
    var checked := RequiredFieldsCheck(row);
    if checked.Ok? {
      var parsed := ParseCorrectOption(CellText(CellOf(checked.value, CorrectOption)));
      if parsed.Ok? {
        BuildChecked(quizId, row, parsed.value);
      }
    }
  }

  /** An accepted row stores its image text unchanged and its fourth option as
      `Option4Value` says. */
  lemma ValidRowOptions(quizId: nat, row: Row)
    ensures ValidateRow(quizId, row).Ok? ==>
      ValidateRow(quizId, row).value.option4 == Option4Value(CellOf(row, Option4))
      && ValidateRow(quizId, row).value.image == CellOf(row, ImageUrl)
  {
    ValidateRowSteps(quizId, row);
    var checked := RequiredFieldsCheck(row);
    if checked.Ok? {
      var parsed := ParseCorrectOption(CellText(CellOf(checked.value, CorrectOption)));
      if parsed.Ok? {
        BuildChecked(quizId, row, parsed.value);
        BuildAfterNormalize(quizId, row, parsed.value);
      }
    }
  }

  /** An accepted row stores its statement and first three options stripped, and as its
      correct option the number its cell truncates to. */
  lemma ValidRowTexts(quizId: nat, row: Row)
    ensures var r := ValidateRow(quizId, row);
      r.Ok? ==>
        && r.value.statement == Strip(CellText(CellOf(row, QuestionStatement)))
        && r.value.option1 == Strip(CellText(CellOf(row, Option1)))
        && r.value.option2 == Strip(CellText(CellOf(row, Option2)))
        && r.value.option3 == Strip(CellText(CellOf(row, Option3)))
        && ParseCorrectOption(CellText(CellOf(row, CorrectOption))) == Ok(r.value.correctOption)
  {
    ValidateRowSteps(quizId, row);
    ColumnNames();
  }

  // ---------------------------------------------------------------- the sheet

  /** What each row yields, in order. */
  function RowResults(quizId: nat, rows: seq<Row>): (r: seq<Result<Question, RowFailure>>)
    ensures |r| == |rows|
    ensures forall i :: 0 <= i < |rows| ==> r[i] == ValidateRow(quizId, rows[i])
  {
    seq(|rows|, i requires 0 <= i < |rows| => ValidateRow(quizId, rows[i]))
  }

  /** Rows taken in order: the questions of all of them, or the first failure with its
      row number, counted from 1. */
  function CollectRows(results: seq<Result<Question, RowFailure>>): Result<seq<Question>, ImportError> {
    if results == [] then Ok([])
    else
      match CollectRows(results[..|results| - 1])
      case Err(e) => Err(e)
      case Ok(qs) =>
        match results[|results| - 1]
        case Err(f) => Err(RowError(|results|, f))
        case Ok(q) => Ok(qs + [q])
  }

  /** The rows of a sheet with a complete header. */
  function ImportRows(quizId: nat, rows: seq<Row>): Result<seq<Question>, ImportError> {
    CollectRows(RowResults(quizId, rows))
  }

  /** The whole import: a header check, then every row. */
  function ImportSheet(quizId: nat, table: Table): Result<seq<Question>, ImportError> {
    if !(forall c | c in RequiredColumns :: c in table.columns) then
      Err(MissingColumns(Missing(RequiredColumns, table.columns)))
    else
      ImportRows(quizId, table.rows)
  }

  /** Rows are collected exactly when none failed, and then in order, one question each. */
  lemma {:induction false} CollectRowsOk(results: seq<Result<Question, RowFailure>>)
    ensures CollectRows(results).Ok? <==> forall i :: 0 <= i < |results| ==> results[i].Ok?
    ensures CollectRows(results).Ok? ==>
      |CollectRows(results).value| == |results|
      && forall i :: 0 <= i < |results| ==> CollectRows(results).value[i] == results[i].value
  {
    if results != [] {
      var init := results[..|results| - 1];
      CollectRowsOk(init);
      if CollectRows(init).Err? {
        var i :| 0 <= i < |init| && !init[i].Ok?;
        assert results[i] == init[i];
      } else if results[|results| - 1].Ok? {
        var qs := CollectRows(init).value + [results[|results| - 1].value];
        forall i | 0 <= i < |results| ensures qs[i] == results[i].value {
          if i < |init| { assert results[i] == init[i]; }
        }
      }
    }
  }

  /** A failed collection names its first failing row, counted from 1, and that row's failure. */
  lemma {:induction false} CollectRowsErr(results: seq<Result<Question, RowFailure>>)
    ensures CollectRows(results).Err? ==>
      var e := CollectRows(results).error;
      e.RowError? && 1 <= e.row <= |results|
      && results[e.row - 1] == Err(e.failure)
      && forall j :: 0 <= j < e.row - 1 ==> results[j].Ok?
  {
    if results != [] {
      var init := results[..|results| - 1];
      CollectRowsErr(init);
      CollectRowsOk(init);
      if CollectRows(init).Err? {
        var e := CollectRows(init).error;
        assert forall j :: 0 <= j < e.row ==> results[j] == init[j];
      }
    }
  }

  /** A sheet imports exactly when every row is valid, and then row i becomes question i. */
  lemma ImportRowsOk(quizId: nat, rows: seq<Row>)
    ensures ImportRows(quizId, rows).Ok? <==> forall i :: 0 <= i < |rows| ==> ValidateRow(quizId, rows[i]).Ok?
    ensures ImportRows(quizId, rows).Ok? ==>
      |ImportRows(quizId, rows).value| == |rows|
      && forall i :: 0 <= i < |rows| ==> ImportRows(quizId, rows).value[i] == ValidateRow(quizId, rows[i]).value
  {
    CollectRowsOk(RowResults(quizId, rows));
  }

  /** A refused sheet names its first invalid row, numbered from 1, and why it is refused. */
  lemma ImportRowsErr(quizId: nat, rows: seq<Row>)
    ensures ImportRows(quizId, rows).Err? ==>
      var e := ImportRows(quizId, rows).error;
      e.RowError? && 1 <= e.row <= |rows|
      && ValidateRow(quizId, rows[e.row - 1]) == Err(e.failure)
      && forall j :: 0 <= j < e.row - 1 ==> ValidateRow(quizId, rows[j]).Ok?
  {
    var results := RowResults(quizId, rows);
    CollectRowsErr(results);
    if CollectRows(results).Err? {
      var e := CollectRows(results).error;
      assert results[e.row - 1] == ValidateRow(quizId, rows[e.row - 1]);
      forall j | 0 <= j < e.row - 1 ensures ValidateRow(quizId, rows[j]).Ok? {
        assert results[j].Ok?;
      }
    }
  }

  /** A sheet that lacks a required column is refused whatever its rows, naming exactly
      the absent columns; a complete header defers to the rows. */
  lemma ImportSheetColumns(quizId: nat, table: Table)
    ensures (exists c :: c in RequiredColumns && c !in table.columns) <==> ImportSheet(quizId, table).Err? && ImportSheet(quizId, table).error.MissingColumns?
    ensures ImportSheet(quizId, table).Err? && ImportSheet(quizId, table).error.MissingColumns? ==>
      forall c :: c in ImportSheet(quizId, table).error.columns <==> c in RequiredColumns && c !in table.columns
  {
    MissingExact(RequiredColumns, table.columns);
    var missing := Missing(RequiredColumns, table.columns);
    if exists c :: c in RequiredColumns && c !in table.columns {
      var c :| c in RequiredColumns && c !in table.columns;
      assert c in missing;
    }
    if missing == [] {
      ImportRowsErr(quizId, table.rows);
      forall c | c in RequiredColumns ensures c in table.columns {
        assert c !in missing;
      }
    } else {
      assert missing[0] in missing;
    }
  }

  /** An imported sheet yields one question per row, each in the quiz, with a correct
      option of 1 to 4 and a statement and first three options that are not empty. */
  lemma ImportedQuestionsWellFormed(quizId: nat, table: Table)
    ensures ImportSheet(quizId, table).Ok? ==>
      var qs := ImportSheet(quizId, table).value;
      |qs| == |table.rows|
      && forall i :: 0 <= i < |qs| ==>
           qs[i].quizId == quizId && 1 <= qs[i].correctOption <= 4
           && qs[i].statement != [] && qs[i].option1 != [] && qs[i].option2 != [] && qs[i].option3 != []
  {
    if ImportSheet(quizId, table).Ok? {
      ImportRowsOk(quizId, table.rows);
      forall i | 0 <= i < |table.rows| {
        ValidRowFields(quizId, table.rows[i]);
      }
    }
  }

  /** What the administrator is told for a sheet: the number of its rows, or the error. */
  function Outcome(quizId: nat, table: Table): ImportOutcome {
    match ImportSheet(quizId, table)
    case Ok(_) => Imported(|table.rows|)
    case Err(e) => ImportFailed(e)
  }

  /** The questions a successful import adds. */
  function Added(quizId: nat, table: Table): seq<Question> {
    match ImportSheet(quizId, table)
    case Ok(qs) => qs
    case Err(_) => []
  }

  /** One more row taken: its question is added, or its failure reported with its number. */
  lemma CollectRowsStep(results: seq<Result<Question, RowFailure>>, i: nat)
    requires i < |results| && CollectRows(results[..i]).Ok?
    ensures results[i].Ok? ==> CollectRows(results[..i + 1]) == Ok(CollectRows(results[..i]).value + [results[i].value])
    ensures results[i].Err? ==> CollectRows(results[..i + 1]) == Err(RowError(i + 1, results[i].error))
  {
    assert results[..i + 1][..i] == results[..i];
    assert results[..i + 1][i] == results[i];
  }

  /** Once a prefix of the rows fails, the whole sheet fails the same way. */
  lemma {:induction false} CollectRowsPrefixErr(results: seq<Result<Question, RowFailure>>, k: nat)
    requires k <= |results|
    requires CollectRows(results[..k]).Err?
    ensures CollectRows(results) == CollectRows(results[..k])
    decreases |results| - k
  {
    if k < |results| {
      assert results[..k + 1][..k] == results[..k];
      CollectRowsPrefixErr(results, k + 1);
    } else {
      assert results[..k] == results;
    }
  }

  /** One pass of the row loop (app.py:141-182): an accepted row's question is added to
      the session; a refused row rolls the session back and reports why. */
  method ImportRow(db: Database, quizId: nat, row: Row) returns (failure: Option<RowFailure>)
    modifies db`pending
    ensures ValidateRow(quizId, row).Ok? ==>
      failure == None && db.pending == old(db.pending) + [ValidateRow(quizId, row).value]
    ensures ValidateRow(quizId, row).Err? ==>
      failure == Some(ValidateRow(quizId, row).error) && db.pending == []
  {
    ValidateRowSteps(quizId, row);
    var checked := CheckRequiredFields(row);
    if checked.Err? {
      db.Rollback();
      return Some(checked.error);
    }
    var parsed := ParseCorrectOption(CellText(CellOf(checked.value, CorrectOption)));
    if parsed.Err? {
      db.Rollback();
      return Some(parsed.error);
    }
    db.Add(BuildQuestion(quizId, checked.value, parsed.value));
    return None;
  }

  /** The row loop (app.py:141-182): the rows' questions are staged in order, up to the
      first refused row, which rolls the session back and is reported with its number. */
  method StageRows(db: Database, quizId: nat, rows: seq<Row>) returns (failure: Option<ImportError>)
    modifies db`pending
    ensures ImportRows(quizId, rows).Ok? ==>
      failure == None && db.pending == old(db.pending) + ImportRows(quizId, rows).value
    ensures ImportRows(quizId, rows).Err? ==> failure == Some(ImportRows(quizId, rows).error) && db.pending == []
  {
    ghost var results := RowResults(quizId, rows);
    var i := 0;
    while i < |rows|
      invariant 0 <= i <= |rows|
      invariant CollectRows(results[..i]).Ok?
      invariant db.pending == old(db.pending) + CollectRows(results[..i]).value
    {
      CollectRowsStep(results, i);
      assert results[i] == ValidateRow(quizId, rows[i]);
      var refused := ImportRow(db, quizId, rows[i]);
      if refused.Some? {
        CollectRowsPrefixErr(results, i + 1);
        return Some(RowError(i + 1, refused.value));
      }
      i := i + 1;
    }
    assert results[..i] == results;
    return None;
  }

  /** The import itself (app.py:134-191): rows are added to the session one by one; any
      failure rolls the session back, and only a sheet without failures is committed. */
  method ImportQuestions(db: Database, quizId: nat, table: Table) returns (outcome: ImportOutcome)
    requires db.Valid()
    modifies db
    ensures db.Valid()
    ensures outcome == Outcome(quizId, table)
    ensures outcome.Imported? ==>
      db.questions == old(db.questions) + Numbered(old(db.pending) + Added(quizId, table), old(db.nextQuestionId))
    ensures outcome.ImportFailed? ==> db.questions == old(db.questions)
    ensures db.pending == []
    ensures db.scores == old(db.scores) && db.nextScoreId == old(db.nextScoreId)
  {
    MissingExact(RequiredColumns, table.columns);
    if !(forall c | c in RequiredColumns :: c in table.columns) {
      db.Rollback();
      return ImportFailed(MissingColumns(Missing(RequiredColumns, table.columns)));
    }
    assert ImportSheet(quizId, table) == ImportRows(quizId, table.rows);
    var failure := StageRows(db, quizId, table.rows);
    if failure.Some? {
      return ImportFailed(failure.value);
    }
    db.Commit();
    return Imported(|table.rows|);
  }

  /** The outcome of an upload: refused before reading, or what the import reported. */
  datatype UploadOutcome = AccessDenied | FileRefused | Processed(outcome: ImportOutcome)

  /** The import branch as a whole: only the administrator may import, and a file whose
      name is not allowed is not read (`handle_file_upload` returns nothing). */
  method ImportUpload(db: Database, principal: Principal, quizId: nat, filename: string, table: Table)
    returns (result: UploadOutcome)
    requires db.Valid()
    modifies db
    ensures db.Valid()
    ensures !principal.Admin? ==> result == AccessDenied && db.questions == old(db.questions) && db.pending == old(db.pending)
    ensures principal.Admin? && !Upload.AllowedFile(filename) ==> result == FileRefused && db.questions == old(db.questions) && db.pending == old(db.pending)
    ensures principal.Admin? && Upload.AllowedFile(filename) ==> result == Processed(Outcome(quizId, table))
    ensures db.scores == old(db.scores)
  {
    if !principal.Admin? {
      return AccessDenied;
    }
    if !Upload.AllowedFile(filename) {
      return FileRefused;
    }
    var outcome := ImportQuestions(db, quizId, table);
    return Processed(outcome);
  }
}

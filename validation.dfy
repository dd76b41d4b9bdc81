/**
 * The input-table validator `validate_input_excel` (utils.py lines 5-54):
 * Vietnamese headers are renamed to English ones, then an ordered chain of
 * checks runs and the first failing check decides the message.
 */
module Validation {
  import opened Wrappers
  import Demand

  /**
   * One data row after numeric conversion. A missing profile code is `None`; a
   * blank Length or Quantity cell, which numeric conversion keeps as NaN, is
   * `None` too.
   */
  datatype Row = Row(code: Option<string>, length: Option<real>, quantity: Option<real>)

  /** `cell <= 0`: false for a blank (NaN) cell. */
  predicate NonPositive(cell: Option<real>)
  {
    cell.Some? && cell.value <= 0.0
  }

  /**
   * The table: its column headers in order, its rows, and whether the Length
   * and Quantity columns converted to numbers.
   */
  datatype Table = Table(columns: seq<string>, rows: seq<Row>, numeric: bool)

  const ProfileCode: string := "Profile Code"
  const Length: string := "Length"
  const Quantity: string := "Quantity"

  /** The required columns, in the order they are reported. */
  const Required: seq<string> := [ProfileCode, Length, Quantity]

  /** The header renaming table, in the order the renames are applied. */
  const VietnameseHeaders: seq<(string, string)> :=
    [("Mã Thanh", ProfileCode), ("Chiều Dài", Length), ("Số Lượng", Quantity)]

  /** The English name of a header: its translation if it is a Vietnamese header, itself otherwise. */
  function Translate(header: string): string
  {
    if header == "Mã Thanh" then ProfileCode
    else if header == "Chiều Dài" then Length
    else if header == "Số Lượng" then Quantity
    else header
  }

  /** `df.rename(columns={from: to})`: every header equal to `from` becomes `to`. */
  function Rename(columns: seq<string>, from: string, to: string): (r: seq<string>)
    ensures |r| == |columns|
  {
    seq(|columns|, j requires 0 <= j < |columns| => if columns[j] == from then to else columns[j])
  }

  /** The renames applied so far: the first `i` pairs, in order, to one header. */
  function TranslateFirst(header: string, i: nat): string
    requires i <= |VietnameseHeaders|
  {
    if i == 0 then header
    else
      var h := TranslateFirst(header, i - 1);
      if h == VietnameseHeaders[i - 1].0 then VietnameseHeaders[i - 1].1 else h
  }

  /**
   * Lines 22-25: rename the Vietnamese headers in place, one pair at a time.
   * Every header ends up translated, and nothing else changes.
   */
  method RenameHeaders(columns: seq<string>) returns (renamed: seq<string>)
    ensures |renamed| == |columns|
    ensures forall j :: 0 <= j < |columns| ==> renamed[j] == Translate(columns[j])
  {
    renamed := columns;
    for i := 0 to |VietnameseHeaders|
      invariant |renamed| == |columns|
      invariant forall j :: 0 <= j < |columns| ==> renamed[j] == TranslateFirst(columns[j], i)
    {
      var (from, to) := VietnameseHeaders[i];
      if from in renamed {
        renamed := Rename(renamed, from, to);
      }
    }
    forall j | 0 <= j < |columns|
      ensures renamed[j] == Translate(columns[j])
    {
      TranslateAll(columns[j]);
    }
  }

  /** Applying the three renames in order is the one-step translation. */
  lemma TranslateAll(header: string)
    ensures TranslateFirst(header, 3) == Translate(header)
  {
    var h1 := TranslateFirst(header, 1);
    var h2 := TranslateFirst(header, 2);
    assert VietnameseHeaders[0] == ("Mã Thanh", ProfileCode);
    assert VietnameseHeaders[1] == ("Chiều Dài", Length);
    assert VietnameseHeaders[2] == ("Số Lượng", Quantity);
    assert TranslateFirst(header, 0) == header;
    assert h1 == if header == "Mã Thanh" then ProfileCode else header;
    assert ProfileCode != "Chiều Dài" && ProfileCode != "Số Lượng" by {
      assert |ProfileCode| == 12 && |"Chiều Dài"| == 9 && |"Số Lượng"| == 8;
    }
    assert Length != "Số Lượng" by {
      assert Length[0] == 'L';
    }
    assert h2 == if h1 == "Chiều Dài" then Length else h1;
  }

  /** Line 28: the required columns that are absent, in the order Profile Code, Length, Quantity. */
  function MissingColumns(columns: seq<string>): (missing: seq<string>)
    ensures forall c :: c in missing <==> c in Required && c !in columns
    ensures forall i, j :: 0 <= i < j < |missing| ==> RequiredRank(missing[i]) < RequiredRank(missing[j])
  {
    (if ProfileCode in columns then [] else [ProfileCode])
    + (if Length in columns then [] else [Length])
    + (if Quantity in columns then [] else [Quantity])
  }

  /** The position of a required column in the reporting order. */
  function RequiredRank(c: string): nat
  {
    if c == ProfileCode then 0 else if c == Length then 1 else 2
  }

  /** The outcome of validation: valid, or the first check that failed. */
  datatype Verdict =
    | Valid
    | MissingRequired(missing: seq<string>)
    | NotNumeric
    | NonPositiveLength
    | NonPositiveQuantity
    | EmptyProfileCode
    | EmptyTable

  predicate HasNonPositiveLength(rows: seq<Row>)
  {
    exists i :: 0 <= i < |rows| && NonPositive(rows[i].length)
  }

  predicate HasNonPositiveQuantity(rows: seq<Row>)
  {
    exists i :: 0 <= i < |rows| && NonPositive(rows[i].quantity)
  }

  /** A null or empty profile code. */
  predicate HasEmptyCode(rows: seq<Row>)
  {
    exists i :: 0 <= i < |rows| && (rows[i].code.None? || rows[i].code.value == "")
  }

  /** Lines 27-54 on a table whose headers are already renamed. */
  function Check(t: Table): Verdict
  {
    var missing := MissingColumns(t.columns);
    if |missing| > 0 then MissingRequired(missing)
    else if !t.numeric then NotNumeric
    else if HasNonPositiveLength(t.rows) then NonPositiveLength
    else if HasNonPositiveQuantity(t.rows) then NonPositiveQuantity
    else if HasEmptyCode(t.rows) then EmptyProfileCode
    else if |t.rows| == 0 then EmptyTable
    else Valid
  }

  /** `validate_input_excel`: rename the headers, then check. */
  function ValidateInput(t: Table): Verdict
  {
    Check(t.(columns := seq(|t.columns|, j requires 0 <= j < |t.columns| => Translate(t.columns[j]))))
  }

  /** The `(is_valid, message)` pair the validator returns. */
  function Outcome(v: Verdict): (r: (bool, string))
    ensures r.0 <==> v == Valid
  {
    match v
    case Valid => (true, "Tệp hợp lệ")
    case MissingRequired(missing) => (false, "Thiếu các cột bắt buộc: " + JoinComma(missing))
    case NotNumeric => (false, "Các cột 'Chiều Dài' và 'Số Lượng' phải chứa giá trị số")
    case NonPositiveLength => (false, "Giá trị 'Chiều Dài' phải là số dương")
    case NonPositiveQuantity => (false, "Giá trị 'Số Lượng' phải là số dương")
    case EmptyProfileCode => (false, "'Mã Thanh' không được để trống")
    case EmptyTable => (false, "Tệp không chứa bất kỳ dữ liệu nào")
  }

  /** `', '.join(names)`. */
  function JoinComma(names: seq<string>): string
  {
    if |names| == 0 then "" else if |names| == 1 then names[0] else names[0] + ", " + JoinComma(names[1..])
  }

  /** Every check passes: columns present, numeric, no value at or below 0 (blank cells pass), codes given, at least one row. */
  predicate AllChecksPass(t: Table)
  {
    (forall c :: c in Required ==> c in t.columns)
    && t.numeric
    && (forall i :: 0 <= i < |t.rows| ==>
          (t.rows[i].length.None? || t.rows[i].length.value > 0.0)
          && (t.rows[i].quantity.None? || t.rows[i].quantity.value > 0.0))
    && (forall i :: 0 <= i < |t.rows| ==> t.rows[i].code.Some? && t.rows[i].code.value != "")
    && |t.rows| > 0
  }

  /** The table is accepted exactly when every check passes. */
  lemma CheckValidIff(t: Table)
    ensures Check(t) == Valid <==> AllChecksPass(t)
  {
  }

  /**
   * The first failing check decides: a missing column is reported before
   * anything else, then non-numeric data, then a non-positive length, then a
   * non-positive quantity, then an empty profile code, and the empty table last.
   */
  lemma CheckOrder(t: Table)
    ensures (exists c :: c in Required && c !in t.columns) <==> Check(t).MissingRequired?
    ensures Check(t).MissingRequired? ==> Check(t).missing == MissingColumns(t.columns)
    ensures Check(t) == NotNumeric <==> |MissingColumns(t.columns)| == 0 && !t.numeric
    ensures Check(t) == NonPositiveLength <==>
      |MissingColumns(t.columns)| == 0 && t.numeric && HasNonPositiveLength(t.rows)
    ensures Check(t) == NonPositiveQuantity <==>
      |MissingColumns(t.columns)| == 0 && t.numeric && !HasNonPositiveLength(t.rows) && HasNonPositiveQuantity(t.rows)
    ensures Check(t) == EmptyProfileCode <==>
      |MissingColumns(t.columns)| == 0 && t.numeric && !HasNonPositiveLength(t.rows)
      && !HasNonPositiveQuantity(t.rows) && HasEmptyCode(t.rows)
  {
    var m := MissingColumns(t.columns);
    if exists c :: c in Required && c !in t.columns {
      var c :| c in Required && c !in t.columns;
      assert c in m;
    }
  }

  /**
   * An empty table with all columns is rejected, and only by the last check: the
   * per-row checks find nothing on zero rows.
   */
  lemma EmptyTableRejectedLast(columns: seq<string>)
    requires forall c :: c in Required ==> c in columns
    ensures Check(Table(columns, [], true)) == EmptyTable
  {
  }

  /** A Vietnamese-headed table is judged exactly as the same table with English headers. */
  lemma VietnameseHeadersAccepted(rows: seq<Row>, numeric: bool)
    ensures ValidateInput(Table(["Mã Thanh", "Chiều Dài", "Số Lượng"], rows, numeric))
         == Check(Table(Required, rows, numeric))
  {
    var t := Table(["Mã Thanh", "Chiều Dài", "Số Lượng"], rows, numeric);
    var renamed := seq(|t.columns|, j requires 0 <= j < |t.columns| => Translate(t.columns[j]));
    assert renamed == Required;
  }

  /**
   * A fractional positive quantity passes validation (there is no integer
   * check) and is later truncated by the expansion: 2.5 becomes 2 items.
   */
  lemma FractionalQuantityPasses()
    ensures Check(Table(Required, [Row(Some("A"), Some(1000.0), Some(2.5))], true)) == Valid
    ensures Demand.Copies(2.5) == 2
  {
    CheckValidIff(Table(Required, [Row(Some("A"), Some(1000.0), Some(2.5))], true));
  }

  /**
   * Blank Length and Quantity cells pass every check: NaN is not `<= 0`, so the
   * table is accepted.
   */
  lemma BlankCellsPass()
    ensures Check(Table(Required, [Row(Some("A"), None, None)], true)) == Valid
    ensures !HasNonPositiveLength([Row(Some("A"), None, None)])
  {
    CheckValidIff(Table(Required, [Row(Some("A"), None, None)], true));
  }
}

/** Structural checks and clean-up policies for the two input frames
    (etl_vouchers/validator.py). The great_expectations checks are modelled by
    their list semantics: each yields a response whose `success` flag the
    validators combine with `IsValid`. */
module Validator {
  import opened Frames
  import opened Seqs

  /** The part of a great_expectations response the validators read. */
  datatype ValidationResponse = ValidationResponse(success: bool)

  /** `is_valid`: every response succeeded (vacuously so for no response). */
  function IsValid(responses: seq<ValidationResponse>): (r: bool)
    ensures r <==> forall i :: 0 <= i < |responses| ==> responses[i].success
  {
    if responses == [] then true
    else responses[0].success && IsValid(responses[1..])
  }

  /** The four cases of `is_valid`'s parametrised test, and the empty list. */
  lemma IsValidExamples()
    ensures !IsValid([ValidationResponse(true), ValidationResponse(false)])
    ensures !IsValid([ValidationResponse(false), ValidationResponse(false)])
    ensures !IsValid([ValidationResponse(false), ValidationResponse(true)])
    ensures IsValid([ValidationResponse(true), ValidationResponse(true)])
    ensures IsValid([])
  {
  }

  // ---------------------------------------------------------------------------
  // The expectations used, over a frame's column list and one column's cells.

  /** `expect_column_to_exist(column, column_index=i)`: the column is present
      and its first occurrence is at position `i`. */
  function ExpectColumnToExist<R>(f: Frame<R>, column: string, columnIndex: nat): ValidationResponse {
    ValidationResponse(
      columnIndex < |f.columns| && f.columns[columnIndex] == column
      && column !in f.columns[..columnIndex])
  }

  /** `expect_column_values_to_not_be_null`: the column is present (a missing
      column makes the expectation fail) and none of its cells is null. */
  function ExpectColumnValuesToNotBeNull<R>(f: Frame<R>, column: string, cells: seq<Option<int>>): ValidationResponse {
    ValidationResponse(column in f.columns && forall i :: 0 <= i < |cells| ==> cells[i].Some?)
  }

  /** `expect_column_values_to_be_unique`: no two non-null cells are equal
      (null cells are ignored by the expectation). */
  function ExpectColumnValuesToBeUnique<R>(f: Frame<R>, column: string, cells: seq<Option<int>>): ValidationResponse {
    ValidationResponse(
      column in f.columns
      && forall i, j :: 0 <= i < j < |cells| && cells[i].Some? ==> cells[i] != cells[j])
  }

  /** The `customer_id` and `order_id` columns of an orders frame. */
  function CustomerIdCells(rows: seq<OrderRow>): (cells: seq<Option<int>>)
    ensures |cells| == |rows| && forall i :: 0 <= i < |rows| ==> cells[i] == rows[i].customerId
  {
    seq(|rows|, i requires 0 <= i < |rows| => rows[i].customerId)
  }

  function OrderIdCells(rows: seq<OrderRow>): (cells: seq<Option<int>>)
    ensures |cells| == |rows| && forall i :: 0 <= i < |rows| ==> cells[i] == rows[i].orderId
  {
    seq(|rows|, i requires 0 <= i < |rows| => rows[i].orderId)
  }

  /** The `barcode` column of a barcodes frame. */
  function BarcodeCells(rows: seq<BarcodeRow>): (cells: seq<Option<int>>)
    ensures |cells| == |rows| && forall i :: 0 <= i < |rows| ==> cells[i] == rows[i].barcode
  {
    seq(|rows|, i requires 0 <= i < |rows| => rows[i].barcode)
  }

  // ---------------------------------------------------------------------------
  // Orders

  const OrdersFormatMessage: string := "Orders csv file has to contain 2 columns - customer_id, order_id"
  const BarcodesFormatMessage: string := "Barcode csv file has to contain 2 columns - barcode, order_id"

  /** `OrdersValidator.has_expected_format`, evaluated on a frame. */
  predicate OrdersHaveExpectedFormat(f: OrdersFrame) {
    IsValid([
      ExpectColumnToExist(f, CustomerIdColumn, 0),
      ExpectColumnValuesToNotBeNull(f, CustomerIdColumn, CustomerIdCells(f.rows)),
      ExpectColumnToExist(f, OrderIdColumn, 1),
      ExpectColumnValuesToNotBeNull(f, OrderIdColumn, OrderIdCells(f.rows))
    ])
  }

  /** An orders frame is well formed exactly when `customer_id` and `order_id`
      are its first two columns and no row has a null in either. */
  lemma OrdersFormatExactly(f: OrdersFrame)
    ensures OrdersHaveExpectedFormat(f) <==>
      && |f.columns| >= 2 && f.columns[0] == CustomerIdColumn && f.columns[1] == OrderIdColumn
      && forall i :: 0 <= i < |f.rows| ==> f.rows[i].customerId.Some? && f.rows[i].orderId.Some?
  {
    var responses := [
      ExpectColumnToExist(f, CustomerIdColumn, 0),
      ExpectColumnValuesToNotBeNull(f, CustomerIdColumn, CustomerIdCells(f.rows)),
      ExpectColumnToExist(f, OrderIdColumn, 1),
      ExpectColumnValuesToNotBeNull(f, OrderIdColumn, OrderIdCells(f.rows))
    ];
    if OrdersHaveExpectedFormat(f) {
      assert responses[0].success && responses[2].success;
      assert responses[1].success && responses[3].success;
      forall i | 0 <= i < |f.rows|
        ensures f.rows[i].customerId.Some? && f.rows[i].orderId.Some?
      {
        assert CustomerIdCells(f.rows)[i].Some?;
        assert OrderIdCells(f.rows)[i].Some?;
      }
    }
    if |f.columns| >= 2 && f.columns[0] == CustomerIdColumn && f.columns[1] == OrderIdColumn {
      assert f.columns[..1] == [CustomerIdColumn];
      assert CustomerIdColumn in f.columns && OrderIdColumn in f.columns;
    }
  }

  /** The cases of the orders validator's parametrised test. */
  lemma OrdersFormatExamples()
    ensures !OrdersHaveExpectedFormat(Frame(["customer_ids", "order_id"], []))
    ensures !OrdersHaveExpectedFormat(Frame(["customer_id", "order_ids"], []))
    ensures !OrdersHaveExpectedFormat(Frame(["customer_id", "order_id"], [OrderRow(Some(1), None)]))
    ensures !OrdersHaveExpectedFormat(Frame(["customer_id", "order_id"], [OrderRow(None, Some(1))]))
    ensures OrdersHaveExpectedFormat(Frame(["customer_id", "order_id"], [OrderRow(Some(1), Some(1))]))
  {
    assert |"customer_ids"| != |CustomerIdColumn| && |"order_ids"| != |OrderIdColumn|;
    OrdersFormatExactly(Frame(["customer_ids", "order_id"], []));
    OrdersFormatExactly(Frame(["customer_id", "order_ids"], []));
    var missingOrder := Frame(["customer_id", "order_id"], [OrderRow(Some(1), None)]);
    OrdersFormatExactly(missingOrder);
    assert missingOrder.rows[0].orderId.None?;
    var missingCustomer := Frame(["customer_id", "order_id"], [OrderRow(None, Some(1))]);
    OrdersFormatExactly(missingCustomer);
    assert missingCustomer.rows[0].customerId.None?;
    OrdersFormatExactly(Frame(["customer_id", "order_id"], [OrderRow(Some(1), Some(1))]));
  }

  /** The orders of a frame that passed the format check, with their cells unwrapped. */
  function ValidatedOrders(rows: seq<OrderRow>): (orders: seq<Order>)
    requires forall i :: 0 <= i < |rows| ==> rows[i].customerId.Some? && rows[i].orderId.Some?
    ensures |orders| == |rows|
    ensures forall i :: 0 <= i < |rows| ==>
      Some(orders[i].customerId) == rows[i].customerId && Some(orders[i].orderId) == rows[i].orderId
  {
    seq(|rows|, i requires 0 <= i < |rows| && rows[i].customerId.Some? && rows[i].orderId.Some? =>
      Order(rows[i].customerId.value, rows[i].orderId.value))
  }

  /** The orders of a frame that passes the orders format check. */
  function OrdersOf(f: OrdersFrame): (orders: seq<Order>)
    requires OrdersHaveExpectedFormat(f)
    ensures |orders| == |f.rows|
    ensures forall i :: 0 <= i < |f.rows| ==>
      Some(orders[i].customerId) == f.rows[i].customerId && Some(orders[i].orderId) == f.rows[i].orderId
  {
    OrdersFormatExactly(f);
    ValidatedOrders(f.rows)
  }

  /** `OrdersValidator`: the frame is captured at construction and only checked. */
  class OrdersValidator {
    const df: OrdersFrame
    /** The snapshot the expectations run on (`ge.from_pandas(df)`). */
    const dfe: OrdersFrame
    const silent: bool

    constructor (df: OrdersFrame, silent: bool)
      ensures this.df == df && this.dfe == df && this.silent == silent
    {
      this.df := df;
      this.dfe := df;
      this.silent := silent;
    }

    predicate HasExpectedFormat() {
      OrdersHaveExpectedFormat(dfe)
    }

    /** `__call__`: raise on a malformed frame, otherwise hand the frame back unchanged. */
    method Call() returns (r: Result<OrdersFrame>)
      ensures r.Success? <==> OrdersHaveExpectedFormat(dfe)
      ensures r.Success? ==> r.value == df
      ensures r.Failure? ==> r.error == InvalidSourceFile(OrdersFormatMessage)
    {
      if !HasExpectedFormat() {
        return Failure(InvalidSourceFile(OrdersFormatMessage));
      }
      return Success(df);
    }
  }

  // ---------------------------------------------------------------------------
  // Barcodes: checks

  /** `BarcodesValidator.has_expected_format`: only the column positions are
      checked; null cells pass. */
  predicate BarcodesHaveExpectedFormat(f: BarcodesFrame) {
    IsValid([
      ExpectColumnToExist(f, BarcodeColumn, 0),
      ExpectColumnToExist(f, OrderIdColumn, 1)
    ])
  }

  /** A barcodes frame is well formed exactly when `barcode` and `order_id` are
      its first two columns, whatever its cells hold. */
  lemma BarcodesFormatExactly(f: BarcodesFrame)
    ensures BarcodesHaveExpectedFormat(f) <==>
      |f.columns| >= 2 && f.columns[0] == BarcodeColumn && f.columns[1] == OrderIdColumn
  {
    var responses := [ExpectColumnToExist(f, BarcodeColumn, 0), ExpectColumnToExist(f, OrderIdColumn, 1)];
    if BarcodesHaveExpectedFormat(f) {
      assert responses[0].success && responses[1].success;
    }
    if |f.columns| >= 2 && f.columns[0] == BarcodeColumn {
      assert f.columns[..1] == [BarcodeColumn];
    }
  }

  /** `no_duplicate_barcodes`: no non-null barcode value occurs twice. */
  predicate NoDuplicateBarcodes(f: BarcodesFrame) {
    IsValid([ExpectColumnValuesToBeUnique(f, BarcodeColumn, BarcodeCells(f.rows))])
  }

  /** `no_orders_without_barcodes`: no row has a null barcode. */
  predicate NoOrdersWithoutBarcodes(f: BarcodesFrame) {
    IsValid([ExpectColumnValuesToNotBeNull(f, BarcodeColumn, BarcodeCells(f.rows))])
  }

  /** The cases of the barcodes validator's parametrised tests. */
  lemma BarcodesChecksExamples()
    ensures !BarcodesHaveExpectedFormat(Frame(["barcodes", "order_id"], []))
    ensures !BarcodesHaveExpectedFormat(Frame(["barcode", "order_ids"], []))
    ensures BarcodesHaveExpectedFormat(Frame(["barcode", "order_id"], [BarcodeRow(Some(1), Some(1))]))
    ensures !NoDuplicateBarcodes(Frame(["barcode", "order_id"], [BarcodeRow(Some(1), Some(1)), BarcodeRow(Some(1), Some(2))]))
    ensures NoDuplicateBarcodes(Frame(["barcode", "order_id"], [BarcodeRow(Some(1), Some(1)), BarcodeRow(Some(2), Some(2))]))
    ensures !NoOrdersWithoutBarcodes(Frame(["barcode", "order_id"], [BarcodeRow(None, Some(1)), BarcodeRow(Some(1), Some(2))]))
    ensures NoOrdersWithoutBarcodes(Frame(["barcode", "order_id"], [BarcodeRow(Some(1), Some(1)), BarcodeRow(Some(2), Some(2))]))
  {
    BarcodesFormatExactly(Frame(["barcodes", "order_id"], []));
    BarcodesFormatExactly(Frame(["barcode", "order_ids"], []));
    BarcodesFormatExactly(Frame(["barcode", "order_id"], [BarcodeRow(Some(1), Some(1))]));
    var dup := [BarcodeRow(Some(1), Some(1)), BarcodeRow(Some(1), Some(2))];
    assert BarcodeCells(dup)[0] == BarcodeCells(dup)[1];
    var nul := [BarcodeRow(None, Some(1)), BarcodeRow(Some(1), Some(2))];
    assert BarcodeCells(nul)[0] == None;
  }

  // ---------------------------------------------------------------------------
  // Barcodes: clean-up operations

  /** Rows whose barcode cell equals `x` (null matches null, as in pandas' duplicate detection). */
  function WithBarcode(x: Option<int>): BarcodeRow -> bool {
    (row: BarcodeRow) => row.barcode == x
  }

  /** How many rows carry the barcode cell `x`. */
  function Occurrences(rows: seq<BarcodeRow>, x: Option<int>): nat {
    CountIf(WithBarcode(x), rows)
  }

  /** Rows whose barcode cell occurs on no other row of `rows`. */
  function UniqueIn(rows: seq<BarcodeRow>): BarcodeRow -> bool {
    (row: BarcodeRow) => Occurrences(rows, row.barcode) == 1
  }

  function HasBarcode(): BarcodeRow -> bool {
    (row: BarcodeRow) => row.barcode.Some?
  }

  /** Rows that survive a full clean-up of `rows`: a non-null barcode that no other row repeats. */
  function UsableIn(rows: seq<BarcodeRow>): BarcodeRow -> bool {
    (row: BarcodeRow) => row.barcode.Some? && Occurrences(rows, row.barcode) == 1
  }

  /** `drop_duplicates(subset=["barcode"], keep=False)`: every row of a
      duplicate group goes, not just the repeats. */
  function DropDuplicatesKeepNone(f: BarcodesFrame): (r: BarcodesFrame)
    ensures r.columns == f.columns
    ensures forall i :: 0 <= i < |r.rows| ==> r.rows[i] in f.rows && Occurrences(f.rows, r.rows[i].barcode) == 1
    ensures forall i :: 0 <= i < |f.rows| && Occurrences(f.rows, f.rows[i].barcode) == 1 ==> f.rows[i] in r.rows
  {
    Frame(f.columns, Filter(UniqueIn(f.rows), f.rows))
  }

  /** `dropna(subset=["barcode"])`. */
  function DropNullBarcodes(f: BarcodesFrame): (r: BarcodesFrame)
    ensures r.columns == f.columns
    ensures forall i :: 0 <= i < |r.rows| ==> r.rows[i] in f.rows && r.rows[i].barcode.Some?
    ensures forall i :: 0 <= i < |f.rows| && f.rows[i].barcode.Some? ==> f.rows[i] in r.rows
  {
    Frame(f.columns, Filter(HasBarcode(), f.rows))
  }

  /** The barcodes `duplicated(subset=["barcode"])` flags (every occurrence
      after the first), listed in the duplicates diagnostic. */
  function DuplicatedBarcodes(rows: seq<BarcodeRow>): seq<Option<int>>
    decreases |rows|
  {
    if rows == [] then []
    else
      var init, last := rows[..|rows| - 1], rows[|rows| - 1];
      DuplicatedBarcodes(init) + (if Occurrences(init, last.barcode) > 0 then [last.barcode] else [])
  }

  /** A value is reported as duplicated exactly when it occurs on two rows or more. */
  lemma {:induction false} DuplicatedBarcodesExactly(rows: seq<BarcodeRow>, x: Option<int>)
    ensures x in DuplicatedBarcodes(rows) <==> Occurrences(rows, x) >= 2
    decreases |rows|
  {
    if rows != [] {
      var init, last := rows[..|rows| - 1], rows[|rows| - 1];
      assert rows == init + [last];
      CountAppend(WithBarcode(x), init, [last]);
      CountAppend(WithBarcode(last.barcode), init, [last]);
      DuplicatedBarcodesExactly(init, x);
    }
  }

  /** The order ids listed in the missing-barcode diagnostic. */
  function OrderIdsWithoutBarcode(rows: seq<BarcodeRow>): (ids: seq<Option<int>>)
    ensures |ids| <= |rows|
    ensures forall x :: x in ids <==> exists i :: 0 <= i < |rows| && rows[i].barcode.None? && rows[i].orderId == x
  {
    if rows == [] then []
    else (if rows[0].barcode.None? then [rows[0].orderId] else []) + OrderIdsWithoutBarcode(rows[1..])
  }

  /** What the validator prints; the model keeps it as data instead of text. */
  datatype Diagnostic =
    | DuplicatedBarcodesReport(barcodes: seq<Option<int>>)
    | OrdersWithoutBarcodesReport(orderIds: seq<Option<int>>)

  /** The frame after the duplicate step of `BarcodesValidator.__call__`:
      the decision is taken on the snapshot `dfe`, the rows removed from `df`. */
  function AfterDuplicateStep(df: BarcodesFrame, dfe: BarcodesFrame): BarcodesFrame {
    if !NoDuplicateBarcodes(dfe) then DropDuplicatesKeepNone(df) else df
  }

  /** The frame `BarcodesValidator.__call__` returns when the format check passes. */
  function CleanBarcodes(df: BarcodesFrame, dfe: BarcodesFrame): BarcodesFrame {
    var afterDuplicates := AfterDuplicateStep(df, dfe);
    if !NoOrdersWithoutBarcodes(dfe) then DropNullBarcodes(afterDuplicates) else afterDuplicates
  }

  /** What `BarcodesValidator.__call__` prints when not silent. */
  function CleanDiagnostics(df: BarcodesFrame, dfe: BarcodesFrame): seq<Diagnostic> {
    (if !NoDuplicateBarcodes(dfe) then [DuplicatedBarcodesReport(DuplicatedBarcodes(df.rows))] else [])
    + (if !NoOrdersWithoutBarcodes(dfe)
       then [OrdersWithoutBarcodesReport(OrderIdsWithoutBarcode(AfterDuplicateStep(df, dfe).rows))]
       else [])
  }

  /** `BarcodesValidator`: the checks read the snapshot `dfe` taken at
      construction, while the clean-up steps reassign `df` one after the other. */
  class BarcodesValidator {
    var df: BarcodesFrame
    const dfe: BarcodesFrame
    const silent: bool
    /** The diagnostics sent to standard output so far. */
    var printed: seq<Diagnostic>

    constructor (df: BarcodesFrame, silent: bool)
      ensures this.df == df && this.dfe == df && this.silent == silent && printed == []
    {
      this.df := df;
      this.dfe := df;
      this.silent := silent;
      printed := [];
    }

    predicate HasExpectedFormat() {
      BarcodesHaveExpectedFormat(dfe)
    }

    predicate NoDuplicates() {
      NoDuplicateBarcodes(dfe)
    }

    predicate NoOrdersWithout() {
      NoOrdersWithoutBarcodes(dfe)
    }

    /** `__call__`. The returned rows never depend on `silent`; only `printed` does. */
    method Call() returns (r: Result<BarcodesFrame>)
      modifies this
      ensures r.Success? <==> BarcodesHaveExpectedFormat(dfe)
      ensures r.Failure? ==>
                r.error == InvalidSourceFile(BarcodesFormatMessage) && df == old(df) && printed == old(printed)
      ensures r.Success? ==>
                && r.value == df
                && df == CleanBarcodes(old(df), dfe)
                && printed == old(printed) + (if silent then [] else CleanDiagnostics(old(df), dfe))
    {
      if !HasExpectedFormat() {
        return Failure(InvalidSourceFile(BarcodesFormatMessage));
      }
      var frame, out := df, [];
      if !NoDuplicates() {
        if !silent {
          out := out + [DuplicatedBarcodesReport(DuplicatedBarcodes(frame.rows))];
        }
        frame := DropDuplicatesKeepNone(frame);
      }
      if !NoOrdersWithout() {
        if !silent {
          out := out + [OrdersWithoutBarcodesReport(OrderIdsWithoutBarcode(frame.rows))];
        }
        frame := DropNullBarcodes(frame);
      }
      assert out == if silent then [] else CleanDiagnostics(df, dfe);
      df, printed := frame, printed + out;
      return Success(df);
    }
  }

  // ---------------------------------------------------------------------------
  // Barcodes: what the clean-up guarantees

  /** A frame that passes the uniqueness check has every non-null barcode exactly once. */
  lemma UniqueBarcodesOccurOnce(f: BarcodesFrame, k: int)
    requires NoDuplicateBarcodes(f)
    requires 0 <= k < |f.rows| && f.rows[k].barcode.Some?
    ensures Occurrences(f.rows, f.rows[k].barcode) == 1
  {
    var cells := BarcodeCells(f.rows);
    forall i | 0 <= i < |f.rows| && WithBarcode(f.rows[k].barcode)(f.rows[i])
      ensures i == k
    {
      assert cells[i] == f.rows[i].barcode && cells[k] == f.rows[k].barcode;
    }
    CountOne(WithBarcode(f.rows[k].barcode), f.rows, k);
  }

  /** On its first call (`df` is still the snapshot) the barcodes validator keeps
      exactly the rows with a non-null barcode that no other row repeats, in order. */
  lemma {:induction false} CleanKeepsExactlyUsableRows(f: BarcodesFrame)
    ensures CleanBarcodes(f, f).columns == f.columns
    ensures CleanBarcodes(f, f).rows == Filter(UsableIn(f.rows), f.rows)
  {
    var rows := f.rows;
    if !NoDuplicateBarcodes(f) {
      if !NoOrdersWithoutBarcodes(f) {
        FilterFilter(UniqueIn(rows), HasBarcode(), UsableIn(rows), rows);
      } else {
        forall i | 0 <= i < |rows| ensures HasBarcode()(rows[i]) {
          assert BarcodeCells(rows)[i].Some?;
        }
        FilterAll(HasBarcode(), rows);
        FilterFilter(HasBarcode(), UniqueIn(rows), UsableIn(rows), rows);
      }
    } else {
      forall i | 0 <= i < |rows| && rows[i].barcode.Some?
        ensures Occurrences(rows, rows[i].barcode) == 1
      {
        UniqueBarcodesOccurOnce(f, i);
      }
      if !NoOrdersWithoutBarcodes(f) {
        FilterCongruent(HasBarcode(), UsableIn(rows), rows);
      } else {
        forall i | 0 <= i < |rows| ensures UsableIn(rows)(rows[i]) {
          assert BarcodeCells(rows)[i].Some?;
        }
        FilterAll(UsableIn(rows), rows);
      }
    }
  }

  /** The validator's promises on its first call: its result is an
      order-preserving subsequence of the input; it keeps every row with a
      non-null barcode that no other row repeats; and it keeps no null barcode
      and no barcode value that occurred more than once. */
  lemma CleanBarcodesGuarantees(f: BarcodesFrame)
    ensures IsSubsequence(CleanBarcodes(f, f).rows, f.rows)
    ensures forall i :: 0 <= i < |f.rows| && f.rows[i].barcode.Some? && Occurrences(f.rows, f.rows[i].barcode) == 1 ==>
                f.rows[i] in CleanBarcodes(f, f).rows
    ensures forall row :: row in CleanBarcodes(f, f).rows ==> row.barcode.Some?
    ensures forall row :: row in CleanBarcodes(f, f).rows ==> Occurrences(f.rows, row.barcode) == 1
  {
    CleanKeepsExactlyUsableRows(f);
    FilterIsSubsequence(UsableIn(f.rows), f.rows);
  }

  /** "Keep none": a barcode value that appears on two rows or more does not
      survive at all. Given [1, 1, 2], 1 is gone and 2 stays. */
  lemma DuplicatedValueVanishes(f: BarcodesFrame, x: int)
    requires Occurrences(f.rows, Some(x)) >= 2
    ensures forall row :: row in CleanBarcodes(f, f).rows ==> row.barcode != Some(x)
  {
    CleanBarcodesGuarantees(f);
  }

  /** Every row the clean-up keeps is still usable within the cleaned rows:
      removing rows cannot make a barcode repeat. */
  lemma CleanRowsStayUsable(f: BarcodesFrame)
    ensures var c := CleanBarcodes(f, f);
      forall i :: 0 <= i < |c.rows| ==> UsableIn(c.rows)(c.rows[i])
  {
    var c := CleanBarcodes(f, f);
    CleanKeepsExactlyUsableRows(f);
    forall i | 0 <= i < |c.rows|
      ensures UsableIn(c.rows)(c.rows[i])
    {
      var x := c.rows[i].barcode;
      assert UsableIn(f.rows)(c.rows[i]);
      CountFilterLe(WithBarcode(x), UsableIn(f.rows), f.rows);
      CountPositive(WithBarcode(x), c.rows);
    }
  }

  /** A frame with a barcode column whose every row is usable passes both checks. */
  lemma UsableRowsPassChecks(c: BarcodesFrame)
    requires BarcodeColumn in c.columns
    requires forall i :: 0 <= i < |c.rows| ==> UsableIn(c.rows)(c.rows[i])
    ensures NoDuplicateBarcodes(c) && NoOrdersWithoutBarcodes(c)
  {
    var cells := BarcodeCells(c.rows);
    forall i, j | 0 <= i < j < |cells| && cells[i].Some?
      ensures cells[i] != cells[j]
    {
      DistinctUsableRows(c.rows, i, j);
    }
  }

  /** The clean-up leaves a frame that passes both checks, so cleaning it again
      changes nothing. */
  lemma CleanBarcodesIdempotent(f: BarcodesFrame)
    requires BarcodesHaveExpectedFormat(f)
    ensures var c := CleanBarcodes(f, f);
      NoDuplicateBarcodes(c) && NoOrdersWithoutBarcodes(c) && CleanBarcodes(c, c) == c
  {
    var c := CleanBarcodes(f, f);
    CleanRowsStayUsable(f);
    BarcodesFormatExactly(f);
    assert c.columns == f.columns;
    UsableRowsPassChecks(c);
  }

  /** Two different rows that are both usable carry different barcodes. */
  lemma DistinctUsableRows(rows: seq<BarcodeRow>, i: int, j: int)
    requires 0 <= i < j < |rows|
    requires UsableIn(rows)(rows[i])
    ensures rows[i].barcode != rows[j].barcode
  {
    if rows[i].barcode == rows[j].barcode {
      CountAtLeastTwo(WithBarcode(rows[i].barcode), rows, i, j);
    }
  }

  /** In general (the validator called again after `df` moved away from the
      snapshot) the result is free of null barcodes exactly when the snapshot
      had a null, or when none was left after the duplicate step. */
  lemma NullFreeOnlyFromSnapshotCheck(df: BarcodesFrame, dfe: BarcodesFrame)
    ensures (forall row :: row in CleanBarcodes(df, dfe).rows ==> row.barcode.Some?) <==>
      (!NoOrdersWithoutBarcodes(dfe) || forall row :: row in AfterDuplicateStep(df, dfe).rows ==> row.barcode.Some?)
  {
  }

  /** The duplicate report names exactly the values the keep-none step removes. */
  lemma DiagnosticNamesRemovedValues(f: BarcodesFrame, x: Option<int>)
    ensures x in DuplicatedBarcodes(f.rows) <==>
      (exists i :: 0 <= i < |f.rows| && f.rows[i].barcode == x) && (forall row :: row in DropDuplicatesKeepNone(f).rows ==> row.barcode != x)
  {
    DuplicatedBarcodesExactly(f.rows, x);
    CountPositive(WithBarcode(x), f.rows);
    if Occurrences(f.rows, x) == 1 {
      var i :| 0 <= i < |f.rows| && WithBarcode(x)(f.rows[i]);
      assert f.rows[i] in DropDuplicatesKeepNone(f).rows;
    }
  }
}

/** The earlier version of the ETL kept in etl_vouchers/main.py: the same
    transformation behind an inverted flag and without validation, the same
    output path, and two reports whose definitions differ from those of
    etl_vouchers/statistic.py. */
module Legacy {
  import opened Frames
  import opened Seqs
  import opened Utils
  import opened Validator
  import VoucherTransform
  import Etl
  import Statistic

  // ---------------------------------------------------------------------------
  // _transform(df_orders, df_barcodes, ignore_empty_vouchers)

  /** Order rows whose `customer_id` and `order_id` are both present. */
  function KeyedRow(): OrderRow -> bool {
    (o: OrderRow) => o.customerId.Some? && o.orderId.Some?
  }

  /** The orders that reach the grouping: the keyed rows, in file order, as
      orders. Every order comes from such a row and every such row gives one. */
  function KeyedOrders(rows: seq<OrderRow>): (orders: seq<Order>)
    ensures |orders| <= |rows|
    ensures forall i :: 0 <= i < |orders| ==> OrderRow(Some(orders[i].customerId), Some(orders[i].orderId)) in rows
    ensures forall j :: 0 <= j < |rows| && rows[j].customerId.Some? && rows[j].orderId.Some? ==>
      Order(rows[j].customerId.value, rows[j].orderId.value) in orders
  {
    var keyed := Filter(KeyedRow(), rows);
    var orders := ValidatedOrders(keyed);
    assert forall i :: 0 <= i < |orders| ==> OrderRow(Some(orders[i].customerId), Some(orders[i].orderId)) == keyed[i];
    assert forall j :: 0 <= j < |rows| && rows[j].customerId.Some? && rows[j].orderId.Some? ==>
      Order(rows[j].customerId.value, rows[j].orderId.value) in orders
    by {
      forall j | 0 <= j < |rows| && rows[j].customerId.Some? && rows[j].orderId.Some?
        ensures Order(rows[j].customerId.value, rows[j].orderId.value) in orders
      {
        assert KeyedRow()(rows[j]);
        var i :| 0 <= i < |keyed| && keyed[i] == rows[j];
        assert orders[i] == Order(rows[j].customerId.value, rows[j].orderId.value);
      }
    }
    orders
  }

  /** The rows of `main._transform`'s output: the keyed orders grouped with
      their barcodes. `groupby` leaves out every row whose `customer_id` or
      `order_id` is null, so only the keyed orders reach the output, and
      `ignore_empty_vouchers` is the negation of `allow_useless_vouchers`. */
  function LegacyVouchers(orders: seq<OrderRow>, barcodes: seq<BarcodeRow>, ignoreEmptyVouchers: bool): seq<Voucher> {
    VoucherTransform.Transform(KeyedOrders(orders), barcodes, !ignoreEmptyVouchers)
  }

  /** `main._transform`. The merge on `order_id` raises `KeyError` when either
      frame lacks that column, the `astype` when there is no `barcode` column,
      and the sort when there is no `customer_id` column, in that order. */
  function LegacyTransform(orders: OrdersFrame, barcodes: BarcodesFrame, ignoreEmptyVouchers: bool): (r: Result<seq<Voucher>>)
    ensures r.Failure? <==>
      || OrderIdColumn !in orders.columns || OrderIdColumn !in barcodes.columns
      || BarcodeColumn !in barcodes.columns || CustomerIdColumn !in orders.columns
    ensures OrderIdColumn !in orders.columns || OrderIdColumn !in barcodes.columns ==>
      r == Failure(KeyError(OrderIdColumn))
    ensures OrderIdColumn in orders.columns && OrderIdColumn in barcodes.columns && BarcodeColumn !in barcodes.columns ==>
      r == Failure(KeyError(BarcodeColumn))
    ensures (OrderIdColumn in orders.columns && OrderIdColumn in barcodes.columns && BarcodeColumn in barcodes.columns
             && CustomerIdColumn !in orders.columns) ==> r == Failure(KeyError(CustomerIdColumn))
  {
    if OrderIdColumn !in orders.columns || OrderIdColumn !in barcodes.columns then Failure(KeyError(OrderIdColumn))
    else if BarcodeColumn !in barcodes.columns then Failure(KeyError(BarcodeColumn))
    else if CustomerIdColumn !in orders.columns then Failure(KeyError(CustomerIdColumn))
    else Success(LegacyVouchers(orders.rows, barcodes.rows, ignoreEmptyVouchers))
  }

  /** Without nulls in the keys every order row is kept. */
  lemma KeyedOrdersOfValidRows(rows: seq<OrderRow>)
    requires forall i :: 0 <= i < |rows| ==> rows[i].customerId.Some? && rows[i].orderId.Some?
    ensures KeyedOrders(rows) == ValidatedOrders(rows)
  {
    FilterAll(KeyedRow(), rows);
  }

  /** On an orders frame the orders validator accepts and a barcodes frame
      with both its columns, the earlier transformation with
      `ignore_empty_vouchers` gives what `etl._transform` gives with
      `allow_useless_vouchers` set to the opposite. */
  lemma LegacyTransformAgrees(f: OrdersFrame, barcodes: BarcodesFrame, ignoreEmptyVouchers: bool)
    requires OrdersHaveExpectedFormat(f)
    ensures OrderIdColumn in barcodes.columns && BarcodeColumn in barcodes.columns ==>
      LegacyTransform(f, barcodes, ignoreEmptyVouchers)
        == Success(VoucherTransform.Transform(OrdersOf(f), barcodes.rows, !ignoreEmptyVouchers))
  {
    OrdersFormatExactly(f);
    KeyedOrdersOfValidRows(f.rows);
  }

  /** One voucher per `(customer_id, order_id)` pair, in ascending pair order. */
  lemma LegacyTransformSorted(orders: seq<OrderRow>, barcodes: seq<BarcodeRow>, ignoreEmptyVouchers: bool)
    ensures VoucherTransform.StrictlySortedByKey(LegacyVouchers(orders, barcodes, ignoreEmptyVouchers))
  {
    VoucherTransform.TransformSorted(KeyedOrders(orders), barcodes, !ignoreEmptyVouchers);
  }

  /** A pair has a voucher exactly when some order row carries it with both
      cells present and, when empty vouchers are ignored, some barcode is
      expected for it. */
  lemma LegacyTransformKeys(orders: seq<OrderRow>, barcodes: seq<BarcodeRow>, ignoreEmptyVouchers: bool, k: Key)
    ensures var v := LegacyVouchers(orders, barcodes, ignoreEmptyVouchers);
      (exists i :: 0 <= i < |v| && v[i].GroupKey() == k) <==>
        && OrderRow(Some(k.customerId), Some(k.orderId)) in orders
        && (!ignoreEmptyVouchers || VoucherTransform.ExpectedBarcodes(KeyedOrders(orders), barcodes, k) != [])
  {
    var keyed := KeyedOrders(orders);
    VoucherTransform.TransformKeys(keyed, barcodes, !ignoreEmptyVouchers, k);
    VoucherTransform.VoucherKeysIndex(LegacyVouchers(orders, barcodes, ignoreEmptyVouchers), k);
    VoucherTransform.OrderKeysIndex(keyed, k);
    KeyedPairs(orders, k);
  }

  /** A pair is the key of a keyed order exactly when an order row carries it. */
  lemma KeyedPairs(orders: seq<OrderRow>, k: Key)
    ensures var keyed := KeyedOrders(orders);
      (exists i :: 0 <= i < |keyed| && keyed[i].GroupKey() == k) <==>
        OrderRow(Some(k.customerId), Some(k.orderId)) in orders
  {
    var keyed := KeyedOrders(orders);
    var row := OrderRow(Some(k.customerId), Some(k.orderId));
    if row in orders {
      var j :| 0 <= j < |orders| && orders[j] == row;
      assert Order(k.customerId, k.orderId) in keyed;
    }
    if exists i :: 0 <= i < |keyed| && keyed[i].GroupKey() == k {
      var i :| 0 <= i < |keyed| && keyed[i].GroupKey() == k;
      assert OrderRow(Some(keyed[i].customerId), Some(keyed[i].orderId)) == row;
    }
  }

  // ---------------------------------------------------------------------------
  // _load

  /** `main._load`'s destination: "./" by default, otherwise "/" appended when missing. */
  function LegacyOutputDirectory(destPath: Option<string>): (dir: string)
    ensures dir == Etl.OutputDirectory(destPath)
  {
    if destPath.None? then "./"
    else if !EndsWithSlash(destPath.value) then destPath.value + "/"
    else destPath.value
  }

  /** The file `main._load` writes, with the clock reading `now`. */
  function LegacyLoadPath(destPath: Option<string>, now: nat): (path: string)
    ensures path == Etl.LoadPath(destPath, now)
  {
    LegacyOutputDirectory(destPath) + "vouchers." + NatToString(now) + ".csv"
  }

  // ---------------------------------------------------------------------------
  // top_5_buyers

  /** `top_5_buyers`: the top-customers ranking cut at five rows. */
  function Top5Buyers(vouchers: seq<Voucher>): seq<CustomerCount> {
    Statistic.SliceTo(Statistic.Ranking(vouchers), 5)
  }

  /** At most five rows, ranked by voucher count with ties to the lower id,
      each with the customer's exact count; anyone left out ranks lower. */
  lemma Top5BuyersCorrect(vouchers: seq<Voucher>)
    ensures var r := Top5Buyers(vouchers);
      && |r| <= 5
      && Statistic.Ranked(r)
      && (forall i :: 0 <= i < |r| ==> r[i].amountOfTickets == Statistic.TicketCount(vouchers, r[i].customerId))
      && (forall i, j :: 0 <= i < j < |r| ==> r[i].amountOfTickets >= r[j].amountOfTickets)
      && (forall c :: Statistic.TicketCount(vouchers, c) > 0 && (forall i :: 0 <= i < |r| ==> r[i].customerId != c) ==>
            forall i :: 0 <= i < |r| ==> Statistic.RankedBefore(r[i], CustomerCount(c, Statistic.TicketCount(vouchers, c))))
  {
    Statistic.TopCustomersRanked(vouchers, 5);
    forall c | Statistic.TicketCount(vouchers, c) > 0 && (forall i :: 0 <= i < |Top5Buyers(vouchers)| ==> Top5Buyers(vouchers)[i].customerId != c)
      ensures forall i :: 0 <= i < |Top5Buyers(vouchers)| ==>
        Statistic.RankedBefore(Top5Buyers(vouchers)[i], CustomerCount(c, Statistic.TicketCount(vouchers, c)))
    {
      assert Top5Buyers(vouchers) == Statistic.TopCustomers(vouchers, 5);
      Statistic.TopCustomersLeftOut(vouchers, 5, c);
    }
  }

  // ---------------------------------------------------------------------------
  // unused_barcodes

  /** The order rows the left merge pairs with a barcode row: those with the
      same `order_id`. pandas pairs a null key with a null key, so a barcode
      row without an order id meets every order row without one. */
  function OrdersFor(orders: seq<OrderRow>, orderId: Option<int>): seq<OrderRow> {
    Filter((o: OrderRow) => o.orderId == orderId, orders)
  }

  function WithoutCustomer(): OrderRow -> bool {
    (o: OrderRow) => o.customerId.None?
  }

  /** The merged rows of one barcode row that have a null `customer_id`: the
      row itself when no order matches, otherwise one copy per matching order
      whose customer is null. */
  function UnusedRowsOf(b: BarcodeRow, orders: seq<OrderRow>): (rows: seq<BarcodeRow>)
    ensures forall i :: 0 <= i < |rows| ==> rows[i] == b
  {
    var matches := OrdersFor(orders, b.orderId);
    if matches == [] then [b] else seq(CountIf(WithoutCustomer(), matches), _ => b)
  }

  /** The rows of `main.VoucherStatistic.unused_barcodes`'s `df_resp`: the
      barcode rows merged with the orders, kept where `customer_id` came out
      null. */
  function UnusedAfterJoin(barcodes: seq<BarcodeRow>, orders: seq<OrderRow>): (r: seq<BarcodeRow>)
    ensures forall i :: 0 <= i < |r| ==> r[i] in barcodes
  {
    if barcodes == [] then []
    else UnusedRowsOf(barcodes[0], orders) + UnusedAfterJoin(barcodes[1..], orders)
  }

  /** Some order row pairs with `b` in the merge and has a null `customer_id`. */
  predicate MeetsOrderWithoutCustomer(b: BarcodeRow, orders: seq<OrderRow>) {
    exists o :: o in orders && o.orderId == b.orderId && o.customerId.None?
  }

  /** A barcode row yields a selected row exactly when no order row pairs with
      it, or some order row that does has a null customer. */
  lemma UnusedRowsOfNonEmpty(b: BarcodeRow, orders: seq<OrderRow>)
    ensures UnusedRowsOf(b, orders) != [] <==> OrdersFor(orders, b.orderId) == [] || MeetsOrderWithoutCustomer(b, orders)
  {
    var matches := OrdersFor(orders, b.orderId);
    if matches != [] {
      CountPositive(WithoutCustomer(), matches);
      if MeetsOrderWithoutCustomer(b, orders) {
        var o :| o in orders && o.orderId == b.orderId && o.customerId.None?;
        assert o in matches;
      }
    }
  }

  /** In general, a row is selected exactly when it is a barcode row that either
      pairs with no order row (a null order id pairing with a null one) or pairs
      with some order row whose customer is null. */
  lemma {:induction false} UnusedAfterJoinMembers(barcodes: seq<BarcodeRow>, orders: seq<OrderRow>, b: BarcodeRow)
    ensures b in UnusedAfterJoin(barcodes, orders) <==>
      b in barcodes && (OrdersFor(orders, b.orderId) == [] || MeetsOrderWithoutCustomer(b, orders))
  {
    if barcodes != [] {
      var own, rest := UnusedRowsOf(barcodes[0], orders), UnusedAfterJoin(barcodes[1..], orders);
      UnusedAfterJoinMembers(barcodes[1..], orders, b);
      UnusedRowsOfNonEmpty(barcodes[0], orders);
      assert UnusedAfterJoin(barcodes, orders) == own + rest;
      assert b in barcodes <==> b == barcodes[0] || b in barcodes[1..];
      if own != [] {
        assert own[0] == barcodes[0];
      }
    }
  }

  /** `main.VoucherStatistic.unused_barcodes`'s `df_resp`. The merge on
      `order_id` raises `KeyError` when either frame lacks that column, the
      selection when there is no `customer_id` column, and the listing of the
      barcodes when there is no `barcode` column, in that order. */
  function LegacyUnusedBarcodes(barcodes: BarcodesFrame, orders: OrdersFrame): (r: Result<seq<BarcodeRow>>)
    ensures r.Failure? <==>
      || OrderIdColumn !in barcodes.columns || OrderIdColumn !in orders.columns
      || CustomerIdColumn !in orders.columns || BarcodeColumn !in barcodes.columns
    ensures OrderIdColumn !in barcodes.columns || OrderIdColumn !in orders.columns ==>
      r == Failure(KeyError(OrderIdColumn))
    ensures (OrderIdColumn in barcodes.columns && OrderIdColumn in orders.columns && CustomerIdColumn !in orders.columns)
      ==> r == Failure(KeyError(CustomerIdColumn))
    ensures (OrderIdColumn in barcodes.columns && OrderIdColumn in orders.columns && CustomerIdColumn in orders.columns
             && BarcodeColumn !in barcodes.columns) ==> r == Failure(KeyError(BarcodeColumn))
    ensures r.Success? ==> forall b :: b in r.value <==>
      b in barcodes.rows && (OrdersFor(orders.rows, b.orderId) == [] || MeetsOrderWithoutCustomer(b, orders.rows))
  {
    if OrderIdColumn !in barcodes.columns || OrderIdColumn !in orders.columns then Failure(KeyError(OrderIdColumn))
    else if CustomerIdColumn !in orders.columns then Failure(KeyError(CustomerIdColumn))
    else if BarcodeColumn !in barcodes.columns then Failure(KeyError(BarcodeColumn))
    else
      assert forall b :: b in UnusedAfterJoin(barcodes.rows, orders.rows) <==>
        b in barcodes.rows && (OrdersFor(orders.rows, b.orderId) == [] || MeetsOrderWithoutCustomer(b, orders.rows))
      by {
        forall b: BarcodeRow {
          UnusedAfterJoinMembers(barcodes.rows, orders.rows, b);
        }
      }
      Success(UnusedAfterJoin(barcodes.rows, orders.rows))
  }

  /** A barcode row that no order row names, a null order id meeting a null one. */
  function Unmatched(orders: seq<OrderRow>): BarcodeRow -> bool {
    (b: BarcodeRow) => OrdersFor(orders, b.orderId) == []
  }

  /** When every order has a customer, "unused" means exactly "names no order":
      the rows whose `order_id` matches no order row, in file order. */
  lemma {:induction false} UnusedOnKeyedOrders(barcodes: seq<BarcodeRow>, orders: seq<OrderRow>)
    requires forall i :: 0 <= i < |orders| ==> orders[i].customerId.Some?
    ensures UnusedAfterJoin(barcodes, orders) == Filter(Unmatched(orders), barcodes)
  {
    if barcodes != [] {
      UnusedOnKeyedOrders(barcodes[1..], orders);
      var matches := OrdersFor(orders, barcodes[0].orderId);
      if matches != [] {
        CountZero(WithoutCustomer(), matches);
      }
    }
  }

  /** Against orders that all have an order id, a barcode row with a null
      `order_id` is unused by either definition, once. */
  lemma UnusedRowsWithoutOrder(b: BarcodeRow, orders: seq<OrderRow>)
    requires forall i :: 0 <= i < |orders| ==> orders[i].orderId.Some?
    ensures Filter(Statistic.WithoutOrder(), UnusedRowsOf(b, orders)) == Filter(Statistic.WithoutOrder(), [b])
  {
    var p := Statistic.WithoutOrder();
    if b.orderId.Some? {
      FilterNone(p, UnusedRowsOf(b, orders));
      FilterNone(p, [b]);
    } else {
      FilterNone((o: OrderRow) => o.orderId == b.orderId, orders);
      assert UnusedRowsOf(b, orders) == [b];
    }
  }

  /** When every order row has an order id, every barcode
      `statistic.unused_barcodes` selects (a null `order_id`) the earlier
      report selects too, in the same order; the earlier report may select
      more. */
  lemma {:induction false} UnusedCoversStatistic(barcodes: seq<BarcodeRow>, orders: seq<OrderRow>)
    requires forall i :: 0 <= i < |orders| ==> orders[i].orderId.Some?
    ensures Filter(Statistic.WithoutOrder(), UnusedAfterJoin(barcodes, orders))
            == Filter(Statistic.WithoutOrder(), barcodes)
  {
    if barcodes != [] {
      var p := Statistic.WithoutOrder();
      var b, tail := barcodes[0], barcodes[1..];
      var own, rest := UnusedRowsOf(b, orders), UnusedAfterJoin(tail, orders);
      UnusedCoversStatistic(tail, orders);
      assert UnusedAfterJoin(barcodes, orders) == own + rest;
      FilterAppend(p, own, rest);
      assert barcodes == [b] + tail;
      FilterAppend(p, [b], tail);
      UnusedRowsWithoutOrder(b, orders);
    }
  }

  /** Without that condition the two reports part ways on a null `order_id`
      too: the merge pairs the barcode with an order row whose `order_id` is
      null and whose customer is known, so the earlier report drops it. */
  lemma NullOrderIdsPair()
    ensures var barcodes := [BarcodeRow(Some(5), None)];
      var orders := [OrderRow(Some(1), None)];
      && UnusedAfterJoin(barcodes, orders) == []
      && Filter(Statistic.WithoutOrder(), barcodes) == barcodes
  {
    var barcodes := [BarcodeRow(Some(5), None)];
    var orders := [OrderRow(Some(1), None)];
    assert OrdersFor(orders, None) == orders;
    assert CountIf(WithoutCustomer(), orders) == 0;
  }

  /** The two definitions differ: a barcode whose order id names no order is
      unused for the earlier report but not for `statistic.unused_barcodes`. */
  lemma UnusedDefinitionsDiffer()
    ensures var barcodes := [BarcodeRow(Some(7), Some(99))];
      var orders := [OrderRow(Some(1), Some(1))];
      && UnusedAfterJoin(barcodes, orders) == barcodes
      && Filter(Statistic.WithoutOrder(), barcodes) == []
  {
    var barcodes := [BarcodeRow(Some(7), Some(99))];
    var orders := [OrderRow(Some(1), Some(1))];
    UnusedOnKeyedOrders(barcodes, orders);
    assert OrdersFor(orders, Some(99)) == [];
  }

  /** The report's sentence in the earlier wording: plural only above one. */
  function LegacyUnusedBarcodesHeader(num: nat): string {
    var multi := num > 1;
    "There " + (if multi then "are" else "is") + " " + NatToString(num)
      + " unused barcode" + (if multi then "s" else "")
  }

  /** The noun takes its "s" exactly for more than one barcode, so that a count
      of zero reads "There is 0 unused barcode". */
  lemma LegacyUnusedBarcodesHeaderGrammar(num: nat)
    ensures var h := LegacyUnusedBarcodesHeader(num);
      && (h[..10] == "There are " <==> num > 1)
      && (h[|h| - 1] == 's' <==> num > 1)
  {
    var h := LegacyUnusedBarcodesHeader(num);
    var tail := " " + NatToString(num) + " unused barcode";
    if num > 1 {
      assert h == "There are" + tail + "s";
    } else {
      assert h == "There is" + tail;
      assert h[..10][8] == ' ';
    }
  }

  /** For a count of zero the earlier wording reads "There is 0 unused barcode". */
  lemma LegacyUnusedBarcodesHeaderZero()
    ensures LegacyUnusedBarcodesHeader(0) == "There is 0 unused barcode"
  {
    assert NatToString(0) == "0";
  }
}

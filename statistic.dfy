/** The reports of etl_vouchers/statistic.py: the top customers by number of
    vouchers and the barcodes that name no order. The reports' printing is not
    modelled; each report's rows (`df_resp`) are the result. */
module Statistic {
  import opened Frames
  import opened Seqs
  import opened Utils
  import opened Validator
  import opened Etl

  // ---------------------------------------------------------------------------
  // groupby("customer_id").agg({"order_id": "count"})

  /** Voucher rows of customer `c`. */
  function OfCustomer(c: int): Voucher -> bool {
    (v: Voucher) => v.customerId == c
  }

  /** The number of voucher rows of customer `c`; every voucher row has an
      order id, so `count` counts them all. */
  function TicketCount(vouchers: seq<Voucher>, c: int): nat {
    CountIf(OfCustomer(c), vouchers)
  }

  /** Customer ids strictly ascending, as `groupby` lays out its groups. */
  ghost predicate IdsAscending(t: seq<CustomerCount>) {
    forall i, j :: 0 <= i < j < |t| ==> t[i].customerId < t[j].customerId
  }

  /** The amount recorded for customer `c`, 0 when the customer has no entry. */
  function Lookup(t: seq<CustomerCount>, c: int): nat {
    if t == [] then 0
    else if t[0].customerId == c then t[0].amountOfTickets
    else Lookup(t[1..], c)
  }

  /** Count one more voucher of customer `c` in a tally ordered by customer id. */
  function AddTicket(c: int, t: seq<CustomerCount>): (r: seq<CustomerCount>)
    ensures |t| <= |r| <= |t| + 1
    ensures forall i :: 0 <= i < |r| ==> r[i].customerId == c || r[i] in t
  {
    if t == [] then [CustomerCount(c, 1)]
    else if t[0].customerId == c then [t[0].(amountOfTickets := t[0].amountOfTickets + 1)] + t[1..]
    else if c < t[0].customerId then [CustomerCount(c, 1)] + t
    else [t[0]] + AddTicket(c, t[1..])
  }

  /** The per-customer counts, one entry per customer, by ascending customer id. */
  function Tally(vouchers: seq<Voucher>): seq<CustomerCount> {
    if vouchers == [] then [] else AddTicket(vouchers[0].customerId, Tally(vouchers[1..]))
  }

  /** An entry whose id is below every id of an ascending tally can go in front of it. */
  lemma PrependAscending(x: CustomerCount, t: seq<CustomerCount>)
    requires IdsAscending(t)
    requires forall j :: 0 <= j < |t| ==> x.customerId < t[j].customerId
    ensures IdsAscending([x] + t)
  {
    var r := [x] + t;
    forall i, j | 0 <= i < j < |r|
      ensures r[i].customerId < r[j].customerId
    {
      assert r[j] == t[j - 1];
      if i > 0 {
        assert r[i] == t[i - 1];
      }
    }
  }

  lemma {:induction false} AddTicketAscending(c: int, t: seq<CustomerCount>)
    requires IdsAscending(t)
    ensures IdsAscending(AddTicket(c, t))
  {
    if t == [] {
    } else {
      var tail := t[1..];
      assert IdsAscending(tail) by {
        forall i, j | 0 <= i < j < |tail|
          ensures tail[i].customerId < tail[j].customerId
        {
          assert tail[i] == t[i + 1] && tail[j] == t[j + 1];
        }
      }
      assert t == [t[0]] + tail;
      forall j | 0 <= j < |tail|
        ensures t[0].customerId < tail[j].customerId
      {
        assert tail[j] == t[j + 1];
      }
      if t[0].customerId == c {
        assert AddTicket(c, t) == [t[0].(amountOfTickets := t[0].amountOfTickets + 1)] + tail;
        PrependAscending(t[0].(amountOfTickets := t[0].amountOfTickets + 1), tail);
      } else if c < t[0].customerId {
        assert AddTicket(c, t) == [CustomerCount(c, 1)] + t;
        PrependAscending(CustomerCount(c, 1), t);
      } else {
        AddTicketAscending(c, tail);
        var added := AddTicket(c, tail);
        forall j | 0 <= j < |added|
          ensures t[0].customerId < added[j].customerId
        {
          if added[j].customerId != c {
            assert added[j] in tail;
            var m :| 0 <= m < |tail| && tail[m] == added[j];
            assert t[0].customerId < tail[m].customerId;
          }
        }
        assert AddTicket(c, t) == [t[0]] + added;
        PrependAscending(t[0], added);
      }
    }
  }

  lemma {:induction false} AddTicketLookup(c: int, t: seq<CustomerCount>, d: int)
    requires IdsAscending(t)
    ensures Lookup(AddTicket(c, t), d) == Lookup(t, d) + (if d == c then 1 else 0)
  {
    if t != [] {
      var r := AddTicket(c, t);
      if t[0].customerId == c {
        assert r[1..] == t[1..];
      } else if c < t[0].customerId {
        assert r[1..] == t;
        if d == c {
          LookupBelowFirst(t, d);
        }
      } else {
        assert r[1..] == AddTicket(c, t[1..]);
        AddTicketLookup(c, t[1..], d);
      }
    }
  }

  /** An id below the first id of an ascending tally has no entry. */
  lemma {:induction false} LookupBelowFirst(t: seq<CustomerCount>, d: int)
    requires IdsAscending(t) && t != [] && d < t[0].customerId
    ensures Lookup(t, d) == 0
  {
    if |t| > 1 {
      LookupBelowFirst(t[1..], d);
    }
  }

  /** In an ascending tally, looking up an entry's id finds that entry. */
  lemma {:induction false} LookupAt(t: seq<CustomerCount>, i: int)
    requires IdsAscending(t) && 0 <= i < |t|
    ensures Lookup(t, t[i].customerId) == t[i].amountOfTickets
  {
    if i > 0 {
      assert t[0].customerId < t[i].customerId;
      LookupAt(t[1..], i - 1);
    }
  }

  /** A positive amount is recorded only for a customer with an entry. */
  lemma {:induction false} LookupPositive(t: seq<CustomerCount>, d: int)
    requires Lookup(t, d) > 0
    ensures exists i :: 0 <= i < |t| && t[i].customerId == d
  {
    if t[0].customerId != d {
      LookupPositive(t[1..], d);
      var i :| 0 <= i < |t[1..]| && t[1..][i].customerId == d;
      assert t[i + 1] == t[1..][i];
    }
  }

  /** The tally is ordered by customer id, records exactly each customer's
      voucher count, and lists only customers that have vouchers. */
  lemma {:induction false} TallyCounts(vouchers: seq<Voucher>)
    ensures IdsAscending(Tally(vouchers))
    ensures forall d :: Lookup(Tally(vouchers), d) == TicketCount(vouchers, d)
    ensures forall i :: 0 <= i < |Tally(vouchers)| ==> Tally(vouchers)[i].amountOfTickets > 0
  {
    if vouchers != [] {
      var c, rest := vouchers[0].customerId, Tally(vouchers[1..]);
      TallyCounts(vouchers[1..]);
      AddTicketAscending(c, rest);
      forall d ensures Lookup(Tally(vouchers), d) == TicketCount(vouchers, d) {
        AddTicketLookup(c, rest, d);
      }
      var t := Tally(vouchers);
      forall i | 0 <= i < |t|
        ensures t[i].amountOfTickets > 0
      {
        LookupAt(t, i);
        AddTicketLookup(c, rest, t[i].customerId);
      }
    }
  }

  // ---------------------------------------------------------------------------
  // sort_values(by=["amount_of_tickets"], ascending=False)

  /** The report's order: more vouchers first, and on a tie the lower customer
      id first, because the sort keeps the ascending order of the groups. */
  predicate RankedBefore(a: CustomerCount, b: CustomerCount) {
    a.amountOfTickets > b.amountOfTickets
    || (a.amountOfTickets == b.amountOfTickets && a.customerId < b.customerId)
  }

  ghost predicate Ranked(t: seq<CustomerCount>) {
    forall i, j :: 0 <= i < j < |t| ==> RankedBefore(t[i], t[j])
  }

  /** Insert `x` before the first entry that does not have more vouchers, so
      that `x` stays ahead of the entries that tie with it. */
  function InsertByAmount(x: CustomerCount, sorted: seq<CustomerCount>): (r: seq<CustomerCount>)
    ensures |r| == |sorted| + 1
    ensures multiset(r) == multiset(sorted) + multiset{x}
  {
    if sorted == [] || sorted[0].amountOfTickets <= x.amountOfTickets then [x] + sorted
    else
      assert sorted == [sorted[0]] + sorted[1..];
      [sorted[0]] + InsertByAmount(x, sorted[1..])
  }

  /** The descending sort on the amount, stable on the order of `t`. */
  function SortByAmount(t: seq<CustomerCount>): (r: seq<CustomerCount>)
    ensures |r| == |t|
    ensures multiset(r) == multiset(t)
  {
    if t == [] then []
    else
      assert t == [t[0]] + t[1..];
      InsertByAmount(t[0], SortByAmount(t[1..]))
  }

  /** An entry ranked before every entry of a ranked list can go in front of it. */
  lemma PrependRanked(x: CustomerCount, t: seq<CustomerCount>)
    requires Ranked(t)
    requires forall j :: 0 <= j < |t| ==> RankedBefore(x, t[j])
    ensures Ranked([x] + t)
  {
    var r := [x] + t;
    forall i, j | 0 <= i < j < |r|
      ensures RankedBefore(r[i], r[j])
    {
      assert r[j] == t[j - 1];
      if i > 0 {
        assert r[i] == t[i - 1];
      }
    }
  }

  lemma {:induction false} InsertByAmountRanked(x: CustomerCount, sorted: seq<CustomerCount>)
    requires Ranked(sorted)
    requires forall i :: 0 <= i < |sorted| ==> x.customerId < sorted[i].customerId
    ensures Ranked(InsertByAmount(x, sorted))
  {
    if sorted == [] {
    } else if sorted[0].amountOfTickets <= x.amountOfTickets {
      forall j | 0 <= j < |sorted|
        ensures RankedBefore(x, sorted[j])
      {
        if j > 0 {
          assert RankedBefore(sorted[0], sorted[j]);
        }
      }
      PrependRanked(x, sorted);
    } else {
      var tail := sorted[1..];
      assert Ranked(tail) by {
        forall i, j | 0 <= i < j < |tail|
          ensures RankedBefore(tail[i], tail[j])
        {
          assert tail[i] == sorted[i + 1] && tail[j] == sorted[j + 1];
        }
      }
      InsertByAmountRanked(x, tail);
      var ins := InsertByAmount(x, tail);
      forall j | 0 <= j < |ins|
        ensures RankedBefore(sorted[0], ins[j])
      {
        assert ins[j] in multiset(ins);
        if ins[j] != x {
          assert ins[j] in multiset(tail);
          var m :| 0 <= m < |tail| && tail[m] == ins[j];
          assert sorted[m + 1] == tail[m];
        }
      }
      PrependRanked(sorted[0], ins);
    }
  }

  /** Sorting a tally ordered by customer id ranks it: amounts never increase,
      and ties are broken by ascending customer id. */
  lemma {:induction false} SortByAmountRanked(t: seq<CustomerCount>)
    requires IdsAscending(t)
    ensures Ranked(SortByAmount(t))
  {
    if t != [] {
      SortByAmountRanked(t[1..]);
      var s := SortByAmount(t[1..]);
      forall i | 0 <= i < |s|
        ensures t[0].customerId < s[i].customerId
      {
        assert s[i] in multiset(t[1..]);
        var m :| 0 <= m < |t[1..]| && t[1..][m] == s[i];
        assert t[m + 1] == s[i];
      }
      InsertByAmountRanked(t[0], s);
    }
  }

  // ---------------------------------------------------------------------------
  // [:top]

  /** Python's `s[:stop]`: a negative `stop` counts from the end. */
  function SliceTo<T>(s: seq<T>, stop: int): (r: seq<T>)
    ensures stop >= 0 ==> |r| == if stop < |s| then stop else |s|
    ensures stop < 0 ==> |r| == if |s| + stop > 0 then |s| + stop else 0
    ensures r == s[..|r|]
  {
    if stop >= 0 then (if stop < |s| then s[..stop] else s)
    else if |s| + stop > 0 then s[..|s| + stop]
    else []
  }

  /** Every customer with vouchers, ranked: the frame before the slice. */
  function Ranking(vouchers: seq<Voucher>): seq<CustomerCount> {
    SortByAmount(Tally(vouchers))
  }

  /** `top_customers(top)`'s `df_resp`, on the vouchers the pipeline produced. */
  function TopCustomers(vouchers: seq<Voucher>, top: int): seq<CustomerCount> {
    SliceTo(Ranking(vouchers), top)
  }

  /** The ranking lists each customer with vouchers once, with their count. */
  lemma RankingCounts(vouchers: seq<Voucher>)
    ensures var r := Ranking(vouchers);
      && Ranked(r)
      && (forall i :: 0 <= i < |r| ==>
            r[i].amountOfTickets == TicketCount(vouchers, r[i].customerId) && r[i].amountOfTickets > 0)
      && (forall c :: TicketCount(vouchers, c) > 0 ==>
            exists i :: 0 <= i < |r| && r[i].customerId == c)
  {
    var t := Tally(vouchers);
    var r := Ranking(vouchers);
    TallyCounts(vouchers);
    SortByAmountRanked(t);
    forall i | 0 <= i < |r|
      ensures r[i].amountOfTickets == TicketCount(vouchers, r[i].customerId) && r[i].amountOfTickets > 0
    {
      assert r[i] in multiset(t);
      var m :| 0 <= m < |t| && t[m] == r[i];
      LookupAt(t, m);
    }
    forall c | TicketCount(vouchers, c) > 0
      ensures exists i :: 0 <= i < |r| && r[i].customerId == c
    {
      LookupPositive(t, c);
      var m :| 0 <= m < |t| && t[m].customerId == c;
      assert t[m] in multiset(r);
      var i :| 0 <= i < |r| && r[i] == t[m];
    }
  }

  /** An entry of a ranked list that is absent from its first `n` entries
      ranks after each of them. */
  lemma BeyondPrefix(full: seq<CustomerCount>, n: int, k: int, c: int)
    requires Ranked(full) && 0 <= n <= |full| && 0 <= k < |full| && full[k].customerId == c
    requires forall i :: 0 <= i < n ==> full[i].customerId != c
    ensures forall i :: 0 <= i < n ==> RankedBefore(full[i], full[k])
  {
    assert k >= n;
  }

  /** `top_customers` keeps a prefix of the ranking: at most `top` rows (for
      `top >= 0`), ranked by count with ties going to the lower customer id,
      each holding a customer with vouchers and their exact voucher count. */
  lemma TopCustomersRanked(vouchers: seq<Voucher>, top: int)
    ensures var r := TopCustomers(vouchers, top);
      && (top >= 0 ==> |r| <= top)
      && Ranked(r)
      && (forall i :: 0 <= i < |r| ==>
            r[i].amountOfTickets == TicketCount(vouchers, r[i].customerId) && r[i].amountOfTickets > 0)
  {
    var full := Ranking(vouchers);
    var r := TopCustomers(vouchers, top);
    RankingCounts(vouchers);
    assert r == full[..|r|];
    forall i | 0 <= i < |r| ensures r[i] == full[i] {
    }
  }

  /** A customer with vouchers who is left out of `top_customers` ranks after
      every row shown. */
  lemma TopCustomersLeftOut(vouchers: seq<Voucher>, top: int, c: int)
    requires TicketCount(vouchers, c) > 0
    requires forall i :: 0 <= i < |TopCustomers(vouchers, top)| ==> TopCustomers(vouchers, top)[i].customerId != c
    ensures var r := TopCustomers(vouchers, top);
      forall i :: 0 <= i < |r| ==> RankedBefore(r[i], CustomerCount(c, TicketCount(vouchers, c)))
  {
    var full := Ranking(vouchers);
    var r := TopCustomers(vouchers, top);
    RankingCounts(vouchers);
    assert r == full[..|r|];
    var k :| 0 <= k < |full| && full[k].customerId == c;
    forall i | 0 <= i < |r| ensures full[i].customerId != c {
      assert r[i] == full[i];
    }
    BeyondPrefix(full, |r|, k, c);
  }

  /** Fewer rows than asked for means every customer with vouchers is listed. */
  lemma TopCustomersAllListed(vouchers: seq<Voucher>, top: int, c: int)
    requires 0 <= top && |TopCustomers(vouchers, top)| < top
    requires TicketCount(vouchers, c) > 0
    ensures var r := TopCustomers(vouchers, top);
      exists i :: 0 <= i < |r| && r[i].customerId == c
  {
    RankingCounts(vouchers);
  }

  /** The top customers of a pair of input frames: the pipeline runs in
      transform-only, silent mode with useless vouchers allowed, and its
      vouchers are ranked. A failing pipeline fails the report with its error. */
  method TopCustomersOfFiles(ordersFile: OrdersFrame, barcodesFile: BarcodesFrame, top: int, now: nat)
    returns (r: Result<seq<CustomerCount>>)
    ensures !OrdersHaveExpectedFormat(ordersFile) ==> r == Failure(InvalidSourceFile(OrdersFormatMessage))
    ensures OrdersHaveExpectedFormat(ordersFile) && BarcodeColumn !in barcodesFile.columns ==>
              r == Failure(KeyError(BarcodeColumn))
    ensures OrdersHaveExpectedFormat(ordersFile) && BarcodeColumn in barcodesFile.columns
              && !BarcodesHaveExpectedFormat(barcodesFile) ==>
              r == Failure(InvalidSourceFile(BarcodesFormatMessage))
    ensures r.Success? <==> OrdersHaveExpectedFormat(ordersFile) && BarcodesHaveExpectedFormat(barcodesFile)
    ensures r.Success? ==>
              r.value == TopCustomers(
                VoucherTransform.Transform(OrdersOf(ordersFile), CleanBarcodes(barcodesFile, barcodesFile).rows, true), top)
  {
    var response, printed := Pipeline(ordersFile, barcodesFile, None, true, true, true, now);
    if response.Failure? {
      return Failure(response.error);
    }
    return Success(TopCustomers(response.value.vouchers, top));
  }

  // ---------------------------------------------------------------------------
  // unused_barcodes

  /** Barcode rows without an order id. */
  function WithoutOrder(): BarcodeRow -> bool {
    (row: BarcodeRow) => row.orderId.None?
  }

  /** `unused_barcodes`'s `df_resp`: the rows of the barcodes file whose
      `order_id` is null, in file order. Selecting on a missing `order_id`
      column, or listing a missing `barcode` column, raises `KeyError`. */
  function UnusedBarcodes(f: BarcodesFrame): (r: Result<seq<BarcodeRow>>)
    ensures r.Failure? <==> OrderIdColumn !in f.columns || BarcodeColumn !in f.columns
    ensures OrderIdColumn !in f.columns ==> r == Failure(KeyError(OrderIdColumn))
    ensures OrderIdColumn in f.columns && BarcodeColumn !in f.columns ==> r == Failure(KeyError(BarcodeColumn))
  {
    if OrderIdColumn !in f.columns then Failure(KeyError(OrderIdColumn))
    else if BarcodeColumn !in f.columns then Failure(KeyError(BarcodeColumn))
    else Success(Filter(WithoutOrder(), f.rows))
  }

  /** The selection keeps file order, takes every row with a null order id and
      nothing else. */
  lemma UnusedBarcodesExactly(f: BarcodesFrame)
    requires OrderIdColumn in f.columns && BarcodeColumn in f.columns
    ensures var r := UnusedBarcodes(f).value;
      && IsSubsequence(r, f.rows)
      && (forall i :: 0 <= i < |r| ==> r[i].orderId.None?)
      && (forall i :: 0 <= i < |f.rows| && f.rows[i].orderId.None? ==> f.rows[i] in r)
      && |r| == CountIf(WithoutOrder(), f.rows)
  {
    FilterIsSubsequence(WithoutOrder(), f.rows);
    CountIsFilterLength(WithoutOrder(), f.rows);
  }

  /** The report's sentence, `There {are|is} {num} unused barcode{s}`. */
  function UnusedBarcodesHeader(num: nat): string {
    var multi := num > 1;
    "There " + (if multi then "are" else "is") + " " + NatToString(num)
      + " unused barcode" + (if multi || num == 0 then "s" else "")
  }

  /** The verb is "are" exactly for more than one barcode, and the noun is
      plural for every count other than one. */
  lemma UnusedBarcodesHeaderGrammar(num: nat)
    ensures var h := UnusedBarcodesHeader(num);
      && (h[..10] == "There are " <==> num > 1)
      && (h[|h| - 1] == 's' <==> num != 1)
  {
    var h := UnusedBarcodesHeader(num);
    var tail := " " + NatToString(num) + " unused barcode";
    if num > 1 {
      assert h == "There are" + tail + "s";
    } else if num == 1 {
      assert h == "There is" + tail;
      assert h[..10][8] == ' ';
    } else {
      assert h == "There is" + tail + "s";
      assert h[..10][8] == ' ';
    }
  }

  /** The test's barcode file: rows 1, 3 and 5 have no order id. */
  lemma UnusedBarcodesExample()
    ensures var f := Frame(["barcode", "order_id"],
                           [BarcodeRow(Some(1), None), BarcodeRow(Some(2), Some(2)), BarcodeRow(Some(3), None),
                            BarcodeRow(Some(4), Some(4)), BarcodeRow(Some(5), None)]);
      UnusedBarcodes(f) == Success([BarcodeRow(Some(1), None), BarcodeRow(Some(3), None), BarcodeRow(Some(5), None)])
  {
    var f := Frame(["barcode", "order_id"],
                   [BarcodeRow(Some(1), None), BarcodeRow(Some(2), Some(2)), BarcodeRow(Some(3), None),
                    BarcodeRow(Some(4), Some(4)), BarcodeRow(Some(5), None)]);
    assert BarcodeColumn in f.columns && OrderIdColumn in f.columns by {
      assert f.columns[0] == BarcodeColumn && f.columns[1] == OrderIdColumn;
    }
    WithoutOrderExample();
  }

  lemma WithoutOrderExample()
    ensures Filter(WithoutOrder(), [BarcodeRow(Some(1), None), BarcodeRow(Some(2), Some(2)), BarcodeRow(Some(3), None),
                                    BarcodeRow(Some(4), Some(4)), BarcodeRow(Some(5), None)])
            == [BarcodeRow(Some(1), None), BarcodeRow(Some(3), None), BarcodeRow(Some(5), None)]
  {
    var rows := [BarcodeRow(Some(1), None), BarcodeRow(Some(2), Some(2)), BarcodeRow(Some(3), None),
                 BarcodeRow(Some(4), Some(4)), BarcodeRow(Some(5), None)];
    assert Filter(WithoutOrder(), rows[4..]) == [rows[4]];
    assert Filter(WithoutOrder(), rows[3..]) == [rows[4]];
    assert Filter(WithoutOrder(), rows[2..]) == [rows[2], rows[4]];
    assert Filter(WithoutOrder(), rows[1..]) == [rows[2], rows[4]];
  }

  // ---------------------------------------------------------------------------
  // The report's test: customers 1, 2, 3, 1, 2, 4, 1, 3, 1 own orders 1 to 9.

  lemma TallyCons(v: Voucher, rest: seq<Voucher>)
    ensures Tally([v] + rest) == AddTicket(v.customerId, Tally(rest))
  {
    assert ([v] + rest)[1..] == rest;
  }

  lemma ExampleTally8()
    ensures Tally([Voucher(1, 9, [])]) == [CustomerCount(1, 1)]
  {
  }

  lemma ExampleAddTicket7()
    ensures AddTicket(3, [CustomerCount(1, 1)])
            == [CustomerCount(1, 1), CustomerCount(3, 1)]
  {
    assert [CustomerCount(1, 1)][1..] == [];
  }

  lemma ExampleTally7()
    ensures Tally([Voucher(3, 8, []), Voucher(1, 9, [])])
            == [CustomerCount(1, 1), CustomerCount(3, 1)]
  {
    ExampleTally8();
    ExampleAddTicket7();
    TallyCons(Voucher(3, 8, []), [Voucher(1, 9, [])]);
  }

  lemma ExampleAddTicket6()
    ensures AddTicket(1, [CustomerCount(1, 1), CustomerCount(3, 1)])
            == [CustomerCount(1, 2), CustomerCount(3, 1)]
  {
    assert [CustomerCount(1, 1), CustomerCount(3, 1)][1..] == [CustomerCount(3, 1)];
  }

  lemma ExampleTally6()
    ensures Tally([Voucher(1, 7, []), Voucher(3, 8, []), Voucher(1, 9, [])])
            == [CustomerCount(1, 2), CustomerCount(3, 1)]
  {
    ExampleTally7();
    ExampleAddTicket6();
    TallyCons(Voucher(1, 7, []), [Voucher(3, 8, []), Voucher(1, 9, [])]);
  }

  lemma ExampleAddTicket5()
    ensures AddTicket(4, [CustomerCount(1, 2), CustomerCount(3, 1)])
            == [CustomerCount(1, 2), CustomerCount(3, 1), CustomerCount(4, 1)]
  {
    assert [CustomerCount(1, 2), CustomerCount(3, 1)][1..] == [CustomerCount(3, 1)];
    assert [CustomerCount(3, 1)][1..] == [];
  }

  lemma ExampleTally5()
    ensures Tally([Voucher(4, 6, []), Voucher(1, 7, []), Voucher(3, 8, []), Voucher(1, 9, [])])
            == [CustomerCount(1, 2), CustomerCount(3, 1), CustomerCount(4, 1)]
  {
    ExampleTally6();
    ExampleAddTicket5();
    TallyCons(Voucher(4, 6, []), [Voucher(1, 7, []), Voucher(3, 8, []), Voucher(1, 9, [])]);
  }

  lemma ExampleAddTicket4()
    ensures AddTicket(2, [CustomerCount(1, 2), CustomerCount(3, 1), CustomerCount(4, 1)])
            == [CustomerCount(1, 2), CustomerCount(2, 1), CustomerCount(3, 1), CustomerCount(4, 1)]
  {
    assert [CustomerCount(1, 2), CustomerCount(3, 1), CustomerCount(4, 1)][1..] == [CustomerCount(3, 1), CustomerCount(4, 1)];
  }

  lemma ExampleTally4()
    ensures Tally([Voucher(2, 5, []), Voucher(4, 6, []), Voucher(1, 7, []), Voucher(3, 8, []), Voucher(1, 9, [])])
            == [CustomerCount(1, 2), CustomerCount(2, 1), CustomerCount(3, 1), CustomerCount(4, 1)]
  {
    ExampleTally5();
    ExampleAddTicket4();
    TallyCons(Voucher(2, 5, []), [Voucher(4, 6, []), Voucher(1, 7, []), Voucher(3, 8, []), Voucher(1, 9, [])]);
  }

  lemma ExampleAddTicket3()
    ensures AddTicket(1, [CustomerCount(1, 2), CustomerCount(2, 1), CustomerCount(3, 1), CustomerCount(4, 1)])
            == [CustomerCount(1, 3), CustomerCount(2, 1), CustomerCount(3, 1), CustomerCount(4, 1)]
  {
    assert [CustomerCount(1, 2), CustomerCount(2, 1), CustomerCount(3, 1), CustomerCount(4, 1)][1..] == [CustomerCount(2, 1), CustomerCount(3, 1), CustomerCount(4, 1)];
  }

  lemma ExampleTally3()
    ensures Tally([Voucher(1, 4, []), Voucher(2, 5, []), Voucher(4, 6, []), Voucher(1, 7, []), Voucher(3, 8, []), Voucher(1, 9, [])])
            == [CustomerCount(1, 3), CustomerCount(2, 1), CustomerCount(3, 1), CustomerCount(4, 1)]
  {
    ExampleTally4();
    ExampleAddTicket3();
    TallyCons(Voucher(1, 4, []), [Voucher(2, 5, []), Voucher(4, 6, []), Voucher(1, 7, []), Voucher(3, 8, []), Voucher(1, 9, [])]);
  }

  lemma ExampleAddTicket2()
    ensures AddTicket(3, [CustomerCount(1, 3), CustomerCount(2, 1), CustomerCount(3, 1), CustomerCount(4, 1)])
            == [CustomerCount(1, 3), CustomerCount(2, 1), CustomerCount(3, 2), CustomerCount(4, 1)]
  {
    assert [CustomerCount(1, 3), CustomerCount(2, 1), CustomerCount(3, 1), CustomerCount(4, 1)][1..] == [CustomerCount(2, 1), CustomerCount(3, 1), CustomerCount(4, 1)];
    assert [CustomerCount(2, 1), CustomerCount(3, 1), CustomerCount(4, 1)][1..] == [CustomerCount(3, 1), CustomerCount(4, 1)];
    assert [CustomerCount(3, 1), CustomerCount(4, 1)][1..] == [CustomerCount(4, 1)];
  }

  lemma ExampleTally2()
    ensures Tally([Voucher(3, 3, []), Voucher(1, 4, []), Voucher(2, 5, []), Voucher(4, 6, []), Voucher(1, 7, []), Voucher(3, 8, []), Voucher(1, 9, [])])
            == [CustomerCount(1, 3), CustomerCount(2, 1), CustomerCount(3, 2), CustomerCount(4, 1)]
  {
    ExampleTally3();
    ExampleAddTicket2();
    TallyCons(Voucher(3, 3, []), [Voucher(1, 4, []), Voucher(2, 5, []), Voucher(4, 6, []), Voucher(1, 7, []), Voucher(3, 8, []), Voucher(1, 9, [])]);
  }

  lemma ExampleAddTicket1()
    ensures AddTicket(2, [CustomerCount(1, 3), CustomerCount(2, 1), CustomerCount(3, 2), CustomerCount(4, 1)])
            == [CustomerCount(1, 3), CustomerCount(2, 2), CustomerCount(3, 2), CustomerCount(4, 1)]
  {
    assert [CustomerCount(1, 3), CustomerCount(2, 1), CustomerCount(3, 2), CustomerCount(4, 1)][1..] == [CustomerCount(2, 1), CustomerCount(3, 2), CustomerCount(4, 1)];
    assert [CustomerCount(2, 1), CustomerCount(3, 2), CustomerCount(4, 1)][1..] == [CustomerCount(3, 2), CustomerCount(4, 1)];
  }

  lemma ExampleTally1()
    ensures Tally([Voucher(2, 2, []), Voucher(3, 3, []), Voucher(1, 4, []), Voucher(2, 5, []), Voucher(4, 6, []), Voucher(1, 7, []), Voucher(3, 8, []), Voucher(1, 9, [])])
            == [CustomerCount(1, 3), CustomerCount(2, 2), CustomerCount(3, 2), CustomerCount(4, 1)]
  {
    ExampleTally2();
    ExampleAddTicket1();
    TallyCons(Voucher(2, 2, []), [Voucher(3, 3, []), Voucher(1, 4, []), Voucher(2, 5, []), Voucher(4, 6, []), Voucher(1, 7, []), Voucher(3, 8, []), Voucher(1, 9, [])]);
  }

  lemma ExampleAddTicket0()
    ensures AddTicket(1, [CustomerCount(1, 3), CustomerCount(2, 2), CustomerCount(3, 2), CustomerCount(4, 1)])
            == [CustomerCount(1, 4), CustomerCount(2, 2), CustomerCount(3, 2), CustomerCount(4, 1)]
  {
    assert [CustomerCount(1, 3), CustomerCount(2, 2), CustomerCount(3, 2), CustomerCount(4, 1)][1..] == [CustomerCount(2, 2), CustomerCount(3, 2), CustomerCount(4, 1)];
  }

  lemma ExampleTally0()
    ensures Tally([Voucher(1, 1, []), Voucher(2, 2, []), Voucher(3, 3, []), Voucher(1, 4, []), Voucher(2, 5, []), Voucher(4, 6, []), Voucher(1, 7, []), Voucher(3, 8, []), Voucher(1, 9, [])])
            == [CustomerCount(1, 4), CustomerCount(2, 2), CustomerCount(3, 2), CustomerCount(4, 1)]
  {
    ExampleTally1();
    ExampleAddTicket0();
    TallyCons(Voucher(1, 1, []), [Voucher(2, 2, []), Voucher(3, 3, []), Voucher(1, 4, []), Voucher(2, 5, []), Voucher(4, 6, []), Voucher(1, 7, []), Voucher(3, 8, []), Voucher(1, 9, [])]);
  }

  /** The tally is already in rank order: 4, then the 2-2 tie by id, then 1. */
  lemma ExampleSort()
    ensures SortByAmount([CustomerCount(1, 4), CustomerCount(2, 2), CustomerCount(3, 2), CustomerCount(4, 1)])
            == [CustomerCount(1, 4), CustomerCount(2, 2), CustomerCount(3, 2), CustomerCount(4, 1)]
  {
    var t := [CustomerCount(1, 4), CustomerCount(2, 2), CustomerCount(3, 2), CustomerCount(4, 1)];
    assert SortByAmount(t[3..]) == t[3..];
    assert SortByAmount(t[2..]) == t[2..];
    assert SortByAmount(t[1..]) == t[1..];
  }

  /** The two best customers: customer 1 with four vouchers, then customer 2,
      who ties with customer 3 on two and wins on the lower id. */
  lemma TopCustomersExample()
    ensures TopCustomers([Voucher(1, 1, []), Voucher(2, 2, []), Voucher(3, 3, []), Voucher(1, 4, []), Voucher(2, 5, []),
                          Voucher(4, 6, []), Voucher(1, 7, []), Voucher(3, 8, []), Voucher(1, 9, [])], 2)
            == [CustomerCount(1, 4), CustomerCount(2, 2)]
  {
    ExampleTally0();
    ExampleSort();
  }
}

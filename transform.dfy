/** The voucher transformation of etl_vouchers/etl.py, `_transform`:
    left-join the barcodes onto the orders by `order_id`, optionally drop the
    joined rows without a barcode, stable-sort by `(customer_id, order_id)`,
    and group by that pair, collecting the non-null barcodes of each group. */
module VoucherTransform {
  import opened Frames
  import opened Seqs

  /** A row of the joined frame `orders.merge(barcodes, on="order_id", how="left")`. */
  datatype JoinedRow = JoinedRow(customerId: int, orderId: int, barcode: Option<int>) {
    function GroupKey(): Key { Key(customerId, orderId) }
  }

  // ---------------------------------------------------------------------------
  // Row predicates

  /** Barcode rows attached to the order with id `orderId`. */
  function ForOrder(orderId: int): BarcodeRow -> bool {
    (b: BarcodeRow) => b.orderId == Some(orderId)
  }

  /** Joined rows of the group `k`. */
  function WithKey(k: Key): JoinedRow -> bool {
    (row: JoinedRow) => row.GroupKey() == k
  }

  /** Joined rows that carry a barcode. */
  function Redeemed(): JoinedRow -> bool {
    (row: JoinedRow) => row.barcode.Some?
  }

  // ---------------------------------------------------------------------------
  // Column values without nulls (`series.dropna().tolist()`)

  function BarcodeValues(rows: seq<JoinedRow>): (xs: seq<int>)
    ensures |xs| <= |rows|
  {
    if rows == [] then []
    else (if rows[0].barcode.Some? then [rows[0].barcode.value] else []) + BarcodeValues(rows[1..])
  }

  /** The non-null barcodes of a list of barcode rows, in order. */
  function NonNullBarcodes(bs: seq<BarcodeRow>): (xs: seq<int>)
    ensures |xs| <= |bs|
  {
    if bs == [] then []
    else (if bs[0].barcode.Some? then [bs[0].barcode.value] else []) + NonNullBarcodes(bs[1..])
  }

  lemma {:induction false} BarcodeValuesAppend(a: seq<JoinedRow>, b: seq<JoinedRow>)
    ensures BarcodeValues(a + b) == BarcodeValues(a) + BarcodeValues(b)
  {
    if a == [] {
      assert a + b == b;
    } else {
      var head := if a[0].barcode.Some? then [a[0].barcode.value] else [];
      assert (a + b)[0] == a[0];
      assert (a + b)[1..] == a[1..] + b;
      BarcodeValuesAppend(a[1..], b);
      calc {
        BarcodeValues(a + b);
        head + BarcodeValues(a[1..] + b);
        head + (BarcodeValues(a[1..]) + BarcodeValues(b));
        (head + BarcodeValues(a[1..])) + BarcodeValues(b);
      }
    }
  }

  /** Some row carries a barcode exactly when the list of values is not empty. */
  lemma {:induction false} BarcodeValuesEmpty(rows: seq<JoinedRow>)
    ensures BarcodeValues(rows) == [] <==> forall i :: 0 <= i < |rows| ==> rows[i].barcode.None?
  {
    if rows != [] {
      BarcodeValuesEmpty(rows[1..]);
      assert forall i :: 1 <= i < |rows| ==> rows[i] == rows[1..][i - 1];
    }
  }

  /** Dropping the rows without a barcode does not change the values collected. */
  lemma {:induction false} BarcodeValuesOfRedeemed(rows: seq<JoinedRow>)
    ensures BarcodeValues(Filter(Redeemed(), rows)) == BarcodeValues(rows)
  {
    if rows != [] {
      BarcodeValuesOfRedeemed(rows[1..]);
    }
  }

  /** Every value listed comes from a barcode row with that barcode. */
  lemma {:induction false} NonNullBarcodesFrom(bs: seq<BarcodeRow>, x: int)
    requires x in NonNullBarcodes(bs)
    ensures exists i :: 0 <= i < |bs| && bs[i].barcode == Some(x)
  {
    if bs[0].barcode != Some(x) {
      NonNullBarcodesFrom(bs[1..], x);
      var i :| 0 <= i < |bs[1..]| && bs[1..][i].barcode == Some(x);
      assert bs[i + 1] == bs[1..][i];
    }
  }

  // ---------------------------------------------------------------------------
  // Left join

  /** The barcode rows whose `order_id` equals `orderId`, in file order. */
  function MatchingBarcodes(barcodes: seq<BarcodeRow>, orderId: int): seq<BarcodeRow> {
    Filter(ForOrder(orderId), barcodes)
  }

  /** One joined row per matching barcode row, each carrying the order's columns. */
  function Attach(o: Order, bs: seq<BarcodeRow>): (rows: seq<JoinedRow>)
    ensures |rows| == |bs|
    ensures forall i :: 0 <= i < |bs| ==> rows[i] == JoinedRow(o.customerId, o.orderId, bs[i].barcode)
  {
    if bs == [] then []
    else [JoinedRow(o.customerId, o.orderId, bs[0].barcode)] + Attach(o, bs[1..])
  }

  /** The joined rows one order contributes: one per matching barcode row, or a
      single row with a null barcode when nothing matches. */
  function JoinOrder(o: Order, barcodes: seq<BarcodeRow>): (rows: seq<JoinedRow>)
    ensures |rows| >= 1
    ensures forall i :: 0 <= i < |rows| ==> rows[i].GroupKey() == o.GroupKey()
  {
    var matches := MatchingBarcodes(barcodes, o.orderId);
    if matches == [] then [JoinedRow(o.customerId, o.orderId, None)] else Attach(o, matches)
  }

  /** `orders.merge(barcodes, on=["order_id"], how="left")`: the orders in their
      order, each expanded by its matching barcode rows. */
  function LeftJoin(orders: seq<Order>, barcodes: seq<BarcodeRow>): (rows: seq<JoinedRow>)
    ensures |rows| >= |orders|
  {
    if orders == [] then []
    else JoinOrder(orders[0], barcodes) + LeftJoin(orders[1..], barcodes)
  }

  /** `dropna(subset=["barcode"])` on the joined frame. */
  function DropUnredeemed(rows: seq<JoinedRow>): seq<JoinedRow> {
    Filter(Redeemed(), rows)
  }

  // ---------------------------------------------------------------------------
  // Stable sort by (customer_id, order_id)

  ghost predicate SortedByKey(rows: seq<JoinedRow>) {
    forall i, j :: 0 <= i < j < |rows| ==> KeyLe(rows[i].GroupKey(), rows[j].GroupKey())
  }

  /** Insert `x` in front of the first row whose key is not smaller. */
  function InsertByKey(x: JoinedRow, sorted: seq<JoinedRow>): (rows: seq<JoinedRow>)
    ensures |rows| == |sorted| + 1
    ensures multiset(rows) == multiset(sorted) + multiset{x}
  {
    if sorted == [] then [x]
    else if KeyLe(x.GroupKey(), sorted[0].GroupKey()) then [x] + sorted
    else
      assert sorted == [sorted[0]] + sorted[1..];
      [sorted[0]] + InsertByKey(x, sorted[1..])
  }

  /** `sort_values(by=["customer_id", "order_id"])`, which pandas performs as a
      stable (lexicographic) sort. */
  function SortByKey(rows: seq<JoinedRow>): (sorted: seq<JoinedRow>)
    ensures |sorted| == |rows|
    ensures multiset(sorted) == multiset(rows)
  {
    if rows == [] then []
    else
      assert rows == [rows[0]] + rows[1..];
      InsertByKey(rows[0], SortByKey(rows[1..]))
  }

  lemma {:induction false} InsertByKeySorted(x: JoinedRow, sorted: seq<JoinedRow>)
    requires SortedByKey(sorted)
    ensures SortedByKey(InsertByKey(x, sorted))
  {
    if sorted == [] {
    } else if KeyLe(x.GroupKey(), sorted[0].GroupKey()) {
      var rows := [x] + sorted;
      forall i, j | 0 <= i < j < |rows|
        ensures KeyLe(rows[i].GroupKey(), rows[j].GroupKey())
      {
        assert rows[j] == sorted[j - 1];
        if i == 0 {
          if j > 1 {
            assert KeyLe(sorted[0].GroupKey(), sorted[j - 1].GroupKey());
          }
        } else {
          assert rows[i] == sorted[i - 1];
        }
      }
    } else {
      var tail := sorted[1..];
      assert SortedByKey(tail) by {
        forall i, j | 0 <= i < j < |tail|
          ensures KeyLe(tail[i].GroupKey(), tail[j].GroupKey())
        {
          assert tail[i] == sorted[i + 1] && tail[j] == sorted[j + 1];
        }
      }
      InsertByKeySorted(x, tail);
      var ins := InsertByKey(x, tail);
      var rows := [sorted[0]] + ins;
      assert InsertByKey(x, sorted) == rows;
      forall i, j | 0 <= i < j < |rows|
        ensures KeyLe(rows[i].GroupKey(), rows[j].GroupKey())
      {
        assert rows[j] == ins[j - 1];
        if i == 0 {
          assert ins[j - 1] in multiset(ins);
          if ins[j - 1] != x {
            assert ins[j - 1] in multiset(tail);
            var m :| 0 <= m < |tail| && tail[m] == ins[j - 1];
            assert sorted[m + 1] == tail[m];
          }
        } else {
          assert rows[i] == ins[i - 1];
        }
      }
    }
  }

  lemma {:induction false} SortByKeySorted(rows: seq<JoinedRow>)
    ensures SortedByKey(SortByKey(rows))
  {
    if rows != [] {
      SortByKeySorted(rows[1..]);
      InsertByKeySorted(rows[0], SortByKey(rows[1..]));
    }
  }

  /** Inserting `x` keeps the rows of every group in the order `[x] + sorted` has them. */
  lemma {:induction false} InsertByKeyStable(x: JoinedRow, sorted: seq<JoinedRow>, k: Key)
    requires SortedByKey(sorted)
    ensures Filter(WithKey(k), InsertByKey(x, sorted)) == Filter(WithKey(k), [x] + sorted)
  {
    if sorted != [] && !KeyLe(x.GroupKey(), sorted[0].GroupKey()) {
      var tail := sorted[1..];
      InsertByKeyStable(x, tail, k);
      assert ([sorted[0]] + InsertByKey(x, tail))[1..] == InsertByKey(x, tail);
      assert ([x] + tail)[1..] == tail;
      assert ([x] + sorted)[1..] == sorted;
      assert ([sorted[0]] + ([x] + tail))[1..] == [x] + tail;
      assert [x] + sorted == [x] + ([sorted[0]] + tail);
    }
  }

  /** The sort is stable: within each group the rows keep their input order. */
  lemma {:induction false} SortByKeyStable(rows: seq<JoinedRow>, k: Key)
    ensures Filter(WithKey(k), SortByKey(rows)) == Filter(WithKey(k), rows)
  {
    if rows != [] {
      SortByKeyStable(rows[1..], k);
      SortByKeySorted(rows[1..]);
      InsertByKeyStable(rows[0], SortByKey(rows[1..]), k);
      assert ([rows[0]] + SortByKey(rows[1..]))[1..] == SortByKey(rows[1..]);
    }
  }

  // ---------------------------------------------------------------------------
  // Group by (customer_id, order_id)

  /** `groupby(["customer_id", "order_id"]).apply(barcode.dropna().tolist())`
      on rows already sorted by the group key: each run of equal keys becomes
      one voucher. */
  function GroupRuns(rows: seq<JoinedRow>): (vouchers: seq<Voucher>)
    ensures |vouchers| <= |rows|
    ensures rows != [] ==> |vouchers| > 0 && vouchers[0].GroupKey() == rows[0].GroupKey()
  {
    if rows == [] then []
    else
      var rest := GroupRuns(rows[1..]);
      var first := BarcodeValues([rows[0]]);
      if rest != [] && rest[0].GroupKey() == rows[0].GroupKey()
      then [rest[0].(barcodes := first + rest[0].barcodes)] + rest[1..]
      else [Voucher(rows[0].customerId, rows[0].orderId, first)] + rest
  }

  ghost predicate StrictlySortedByKey(vouchers: seq<Voucher>) {
    forall i, j :: 0 <= i < j < |vouchers| ==> KeyLt(vouchers[i].GroupKey(), vouchers[j].GroupKey())
  }

  /** On sorted rows, a key smaller than the first key matches nothing. */
  lemma BelowFirstKey(rows: seq<JoinedRow>, k: Key)
    requires SortedByKey(rows) && rows != [] && KeyLt(k, rows[0].GroupKey())
    ensures Filter(WithKey(k), rows) == []
  {
    FilterNone(WithKey(k), rows);
  }

  /** The set of group keys present in joined rows. */
  function RowKeys(rows: seq<JoinedRow>): set<Key> {
    if rows == [] then {} else {rows[0].GroupKey()} + RowKeys(rows[1..])
  }

  /** The set of group keys of a list of vouchers. */
  function VoucherKeys(vouchers: seq<Voucher>): set<Key> {
    if vouchers == [] then {} else {vouchers[0].GroupKey()} + VoucherKeys(vouchers[1..])
  }

  /** Grouping neither loses nor invents a key. */
  lemma {:induction false} GroupRunsKeys(rows: seq<JoinedRow>)
    ensures VoucherKeys(GroupRuns(rows)) == RowKeys(rows)
  {
    if rows != [] {
      GroupRunsKeys(rows[1..]);
      var rest := GroupRuns(rows[1..]);
      if rest != [] && rest[0].GroupKey() == rows[0].GroupKey() {
        assert VoucherKeys(rest) == {rest[0].GroupKey()} + VoucherKeys(rest[1..]);
        assert ([rest[0].(barcodes := BarcodeValues([rows[0]]) + rest[0].barcodes)] + rest[1..])[1..] == rest[1..];
      } else {
        assert ([Voucher(rows[0].customerId, rows[0].orderId, BarcodeValues([rows[0]]))] + rest)[1..] == rest;
      }
    }
  }

  /** On sorted rows the vouchers come out strictly sorted by key, so each key occurs once. */
  lemma {:induction false} GroupRunsStrictlySorted(rows: seq<JoinedRow>)
    requires SortedByKey(rows)
    ensures StrictlySortedByKey(GroupRuns(rows))
  {
    if rows != [] {
      var r, tail := rows[0], rows[1..];
      GroupRunsStrictlySorted(tail);
      var rest := GroupRuns(tail);
      var vs := GroupRuns(rows);
      if rest != [] && rest[0].GroupKey() == r.GroupKey() {
        assert vs == [rest[0].(barcodes := BarcodeValues([r]) + rest[0].barcodes)] + rest[1..];
        forall i, j | 0 <= i < j < |vs|
          ensures KeyLt(vs[i].GroupKey(), vs[j].GroupKey())
        {
          assert vs[i].GroupKey() == rest[i].GroupKey() && vs[j] == rest[j];
        }
      } else if rest != [] {
        assert vs == [Voucher(r.customerId, r.orderId, BarcodeValues([r]))] + rest;
        assert rows[1] == tail[0];
        assert KeyLt(r.GroupKey(), rest[0].GroupKey());
        forall i, j | 0 <= i < j < |vs|
          ensures KeyLt(vs[i].GroupKey(), vs[j].GroupKey())
        {
          assert vs[j] == rest[j - 1];
          if i == 0 {
            if j - 1 > 0 {
              assert KeyLt(rest[0].GroupKey(), rest[j - 1].GroupKey());
            }
          } else {
            assert vs[i] == rest[i - 1];
          }
        }
      }
    }
  }

  /** Each voucher holds exactly the non-null barcodes of its group in `rows`, in row order. */
  ghost predicate CollectsGroups(vouchers: seq<Voucher>, rows: seq<JoinedRow>) {
    forall i :: 0 <= i < |vouchers| ==>
      vouchers[i].barcodes == BarcodeValues(Filter(WithKey(vouchers[i].GroupKey()), rows))
  }

  lemma FilterWithKeyCons(r: JoinedRow, tail: seq<JoinedRow>, k: Key)
    ensures Filter(WithKey(k), [r] + tail) == (if r.GroupKey() == k then [r] else []) + Filter(WithKey(k), tail)
  {
    assert ([r] + tail)[1..] == tail;
  }

  /** A later voucher of a strictly sorted run list has a key other than the first row's. */
  lemma LaterGroupSkipsFirst(r: JoinedRow, rest: seq<Voucher>, i: int)
    requires StrictlySortedByKey(rest) && 0 < i < |rest|
    requires rest[0].GroupKey() == r.GroupKey()
    ensures rest[i].GroupKey() != r.GroupKey()
  {
    assert KeyLt(rest[0].GroupKey(), rest[i].GroupKey());
  }

  /** The first row joins the first voucher of the rest: that voucher gains its barcode. */
  lemma GroupRunsContentsJoin(rows: seq<JoinedRow>)
    requires SortedByKey(rows) && rows != []
    requires var rest := GroupRuns(rows[1..]); rest != [] && rest[0].GroupKey() == rows[0].GroupKey()
    requires StrictlySortedByKey(GroupRuns(rows[1..]))
    requires CollectsGroups(GroupRuns(rows[1..]), rows[1..])
    ensures CollectsGroups(GroupRuns(rows), rows)
  {
    var r, tail := rows[0], rows[1..];
    var rest := GroupRuns(tail);
    var vs := GroupRuns(rows);
    assert rows == [r] + tail;
    assert vs == [rest[0].(barcodes := BarcodeValues([r]) + rest[0].barcodes)] + rest[1..];
    forall i | 0 <= i < |vs|
      ensures vs[i].barcodes == BarcodeValues(Filter(WithKey(vs[i].GroupKey()), rows))
    {
      FilterWithKeyCons(r, tail, vs[i].GroupKey());
      if i == 0 {
        BarcodeValuesAppend([r], Filter(WithKey(r.GroupKey()), tail));
      } else {
        LaterGroupSkipsFirst(r, rest, i);
      }
    }
  }

  /** A voucher put in front of the groups of `tail` collects its own group of
      `[r] + tail`, provided no later voucher shares the new row's key. */
  lemma CollectsPrepended(v: Voucher, rest: seq<Voucher>, r: JoinedRow, tail: seq<JoinedRow>)
    requires CollectsGroups(rest, tail)
    requires v.barcodes == BarcodeValues(Filter(WithKey(v.GroupKey()), [r] + tail))
    requires forall i :: 0 <= i < |rest| ==> rest[i].GroupKey() != r.GroupKey()
    ensures CollectsGroups([v] + rest, [r] + tail)
  {
    var vs := [v] + rest;
    forall i | 0 < i < |vs|
      ensures vs[i].barcodes == BarcodeValues(Filter(WithKey(vs[i].GroupKey()), [r] + tail))
    {
      assert vs[i] == rest[i - 1];
      FilterWithKeyCons(r, tail, vs[i].GroupKey());
    }
  }

  /** A row below every later key starts a voucher of its own. */
  lemma CollectsNewGroup(r: JoinedRow, tail: seq<JoinedRow>, rest: seq<Voucher>)
    requires SortedByKey([r] + tail)
    requires StrictlySortedByKey(rest) && CollectsGroups(rest, tail)
    requires rest == [] <==> tail == []
    requires rest != [] ==> rest[0].GroupKey() == tail[0].GroupKey() && rest[0].GroupKey() != r.GroupKey()
    ensures CollectsGroups([Voucher(r.customerId, r.orderId, BarcodeValues([r]))] + rest, [r] + tail)
  {
    var v := Voucher(r.customerId, r.orderId, BarcodeValues([r]));
    FilterWithKeyCons(r, tail, r.GroupKey());
    if rest != [] {
      assert ([r] + tail)[1] == tail[0];
      assert KeyLt(r.GroupKey(), rest[0].GroupKey());
      assert SortedByKey(tail) by {
        assert forall i :: 0 <= i < |tail| ==> tail[i] == ([r] + tail)[i + 1];
      }
      BelowFirstKey(tail, r.GroupKey());
      forall i | 0 <= i < |rest|
        ensures rest[i].GroupKey() != r.GroupKey()
      {
        EarlierGroupSkipsRest(r, rest, i);
      }
    }
    CollectsPrepended(v, rest, r, tail);
  }

  /** The first row starts a voucher of its own: no later row shares its key. */
  lemma GroupRunsContentsStart(rows: seq<JoinedRow>)
    requires SortedByKey(rows) && rows != []
    requires var rest := GroupRuns(rows[1..]); !(rest != [] && rest[0].GroupKey() == rows[0].GroupKey())
    requires StrictlySortedByKey(GroupRuns(rows[1..]))
    requires CollectsGroups(GroupRuns(rows[1..]), rows[1..])
    ensures CollectsGroups(GroupRuns(rows), rows)
  {
    var r, tail := rows[0], rows[1..];
    var rest := GroupRuns(tail);
    assert rows == [r] + tail;
    assert GroupRuns(rows) == [Voucher(r.customerId, r.orderId, BarcodeValues([r]))] + rest;
    CollectsNewGroup(r, tail, rest);
  }

  /** A row whose key is below the first of a strictly sorted run list has a key
      other than every voucher's. */
  lemma EarlierGroupSkipsRest(r: JoinedRow, rest: seq<Voucher>, i: int)
    requires StrictlySortedByKey(rest) && 0 <= i < |rest|
    requires KeyLt(r.GroupKey(), rest[0].GroupKey())
    ensures rest[i].GroupKey() != r.GroupKey()
  {
    if i > 0 {
      assert KeyLt(rest[0].GroupKey(), rest[i].GroupKey());
    }
  }

  /** On sorted rows each voucher holds exactly the non-null barcodes of its
      group, in row order. */
  lemma {:induction false} GroupRunsContents(rows: seq<JoinedRow>)
    requires SortedByKey(rows)
    ensures CollectsGroups(GroupRuns(rows), rows)
  {
    if rows != [] {
      GroupRunsContents(rows[1..]);
      GroupRunsStrictlySorted(rows[1..]);
      var rest := GroupRuns(rows[1..]);
      if rest != [] && rest[0].GroupKey() == rows[0].GroupKey() {
        GroupRunsContentsJoin(rows);
      } else {
        GroupRunsContentsStart(rows);
      }
    }
  }

  // ---------------------------------------------------------------------------
  // What the join contributes to each group

  /** The keys of the orders, as a set. */
  function OrderKeys(orders: seq<Order>): set<Key> {
    if orders == [] then {} else {orders[0].GroupKey()} + OrderKeys(orders[1..])
  }

  /** Reference definition of a group's barcode list: for every order with key
      `k`, in order, the non-null barcodes of the barcode rows that name its
      order id, in file order. */
  function ExpectedBarcodes(orders: seq<Order>, barcodes: seq<BarcodeRow>, k: Key): seq<int> {
    if orders == [] then []
    else
      (if orders[0].GroupKey() == k then NonNullBarcodes(MatchingBarcodes(barcodes, orders[0].orderId)) else [])
      + ExpectedBarcodes(orders[1..], barcodes, k)
  }

  lemma {:induction false} AttachValues(o: Order, bs: seq<BarcodeRow>)
    ensures BarcodeValues(Attach(o, bs)) == NonNullBarcodes(bs)
  {
    if bs != [] {
      AttachValues(o, bs[1..]);
    }
  }

  /** One order's joined rows carry the non-null barcodes of its matching rows. */
  lemma JoinOrderValues(o: Order, barcodes: seq<BarcodeRow>)
    ensures BarcodeValues(JoinOrder(o, barcodes)) == NonNullBarcodes(MatchingBarcodes(barcodes, o.orderId))
  {
    AttachValues(o, MatchingBarcodes(barcodes, o.orderId));
  }

  /** Filtering a join on a key keeps exactly the rows of the orders with that key. */
  lemma JoinOrderWithKey(o: Order, barcodes: seq<BarcodeRow>, k: Key)
    ensures Filter(WithKey(k), JoinOrder(o, barcodes)) == if o.GroupKey() == k then JoinOrder(o, barcodes) else []
  {
    if o.GroupKey() == k {
      FilterAll(WithKey(k), JoinOrder(o, barcodes));
    } else {
      FilterNone(WithKey(k), JoinOrder(o, barcodes));
    }
  }

  /** The barcodes the left join files under key `k` are the reference list. */
  lemma {:induction false} LeftJoinGroupValues(orders: seq<Order>, barcodes: seq<BarcodeRow>, k: Key)
    ensures BarcodeValues(Filter(WithKey(k), LeftJoin(orders, barcodes))) == ExpectedBarcodes(orders, barcodes, k)
  {
    if orders != [] {
      var o := orders[0];
      var head, tail := JoinOrder(o, barcodes), LeftJoin(orders[1..], barcodes);
      LeftJoinGroupValues(orders[1..], barcodes, k);
      FilterAppend(WithKey(k), head, tail);
      BarcodeValuesAppend(Filter(WithKey(k), head), Filter(WithKey(k), tail));
      JoinOrderWithKey(o, barcodes, k);
      JoinOrderValues(o, barcodes);
    }
  }

  /** A key is present in rows exactly when filtering on it leaves something. */
  lemma {:induction false} RowKeysFilter(rows: seq<JoinedRow>, k: Key)
    ensures k in RowKeys(rows) <==> Filter(WithKey(k), rows) != []
  {
    if rows != [] {
      RowKeysFilter(rows[1..], k);
    }
  }

  lemma {:induction false} RowKeysAppend(a: seq<JoinedRow>, b: seq<JoinedRow>)
    ensures RowKeys(a + b) == RowKeys(a) + RowKeys(b)
  {
    if a == [] {
      assert a + b == b;
    } else {
      assert (a + b)[1..] == a[1..] + b;
      RowKeysAppend(a[1..], b);
    }
  }

  /** The left join keeps every order: its keys are exactly the orders' keys. */
  lemma {:induction false} LeftJoinKeys(orders: seq<Order>, barcodes: seq<BarcodeRow>)
    ensures RowKeys(LeftJoin(orders, barcodes)) == OrderKeys(orders)
  {
    if orders != [] {
      var o := orders[0];
      var head := JoinOrder(o, barcodes);
      LeftJoinKeys(orders[1..], barcodes);
      RowKeysAppend(head, LeftJoin(orders[1..], barcodes));
      forall k ensures k in RowKeys(head) <==> k == o.GroupKey() {
        RowKeysFilter(head, k);
        JoinOrderWithKey(o, barcodes, k);
      }
    }
  }

  /** Dropping unredeemed rows does not change the barcodes of any group. */
  lemma DropUnredeemedGroupValues(rows: seq<JoinedRow>, k: Key)
    ensures BarcodeValues(Filter(WithKey(k), DropUnredeemed(rows))) == BarcodeValues(Filter(WithKey(k), rows))
  {
    FilterCommute(WithKey(k), Redeemed(), rows);
    BarcodeValuesOfRedeemed(Filter(WithKey(k), rows));
  }

  /** Rows that all carry a barcode give one value each. */
  lemma {:induction false} BarcodeValuesOfAllRedeemed(rows: seq<JoinedRow>)
    requires forall i :: 0 <= i < |rows| ==> rows[i].barcode.Some?
    ensures |BarcodeValues(rows)| == |rows|
  {
    if rows != [] {
      BarcodeValuesOfAllRedeemed(rows[1..]);
    }
  }

  /** After dropping unredeemed rows a key survives exactly when its group had a barcode. */
  lemma DropUnredeemedKeys(rows: seq<JoinedRow>, k: Key)
    ensures k in RowKeys(DropUnredeemed(rows)) <==> k in RowKeys(rows) && BarcodeValues(Filter(WithKey(k), rows)) != []
  {
    var group := Filter(WithKey(k), rows);
    RowKeysFilter(DropUnredeemed(rows), k);
    RowKeysFilter(rows, k);
    FilterCommute(WithKey(k), Redeemed(), rows);
    BarcodeValuesOfRedeemed(group);
    BarcodeValuesOfAllRedeemed(Filter(Redeemed(), group));
  }

  /** Sorting moves rows but neither adds nor removes a key. */
  lemma SortByKeyKeys(rows: seq<JoinedRow>, k: Key)
    ensures k in RowKeys(SortByKey(rows)) <==> k in RowKeys(rows)
  {
    RowKeysFilter(SortByKey(rows), k);
    RowKeysFilter(rows, k);
    SortByKeyStable(rows, k);
  }

  // ---------------------------------------------------------------------------
  // The transformation

  /** `_transform(df_orders, df_barcodes, allow_useless_vouchers)`. */
  function Transform(orders: seq<Order>, barcodes: seq<BarcodeRow>, allowUselessVouchers: bool): seq<Voucher> {
    var joined := LeftJoin(orders, barcodes);
    var kept := if allowUselessVouchers then joined else DropUnredeemed(joined);
    GroupRuns(SortByKey(kept))
  }

  /** The vouchers come out strictly ascending by `(customer_id, order_id)`,
      so each pair occurs at most once. */
  lemma TransformSorted(orders: seq<Order>, barcodes: seq<BarcodeRow>, allowUselessVouchers: bool)
    ensures StrictlySortedByKey(Transform(orders, barcodes, allowUselessVouchers))
  {
    var joined := LeftJoin(orders, barcodes);
    var kept := if allowUselessVouchers then joined else DropUnredeemed(joined);
    SortByKeySorted(kept);
    GroupRunsStrictlySorted(SortByKey(kept));
  }

  /** Each voucher holds the reference barcode list of its key: the non-null
      barcodes of its order, in file order, whatever the flag. */
  lemma TransformContents(orders: seq<Order>, barcodes: seq<BarcodeRow>, allowUselessVouchers: bool)
    ensures var vs := Transform(orders, barcodes, allowUselessVouchers);
      forall i :: 0 <= i < |vs| ==> vs[i].barcodes == ExpectedBarcodes(orders, barcodes, vs[i].GroupKey())
  {
    var joined := LeftJoin(orders, barcodes);
    var kept := if allowUselessVouchers then joined else DropUnredeemed(joined);
    var sorted := SortByKey(kept);
    var vs := GroupRuns(sorted);
    SortByKeySorted(kept);
    GroupRunsContents(sorted);
    forall i | 0 <= i < |vs|
      ensures vs[i].barcodes == ExpectedBarcodes(orders, barcodes, vs[i].GroupKey())
    {
      var k := vs[i].GroupKey();
      SortByKeyStable(kept, k);
      DropUnredeemedGroupValues(joined, k);
      LeftJoinGroupValues(orders, barcodes, k);
    }
  }

  /** A key gets a voucher exactly when some order has it and, unless useless
      vouchers are allowed, its reference barcode list is not empty. */
  lemma TransformKeys(orders: seq<Order>, barcodes: seq<BarcodeRow>, allowUselessVouchers: bool, k: Key)
    ensures k in VoucherKeys(Transform(orders, barcodes, allowUselessVouchers)) <==>
      k in OrderKeys(orders) && (allowUselessVouchers || ExpectedBarcodes(orders, barcodes, k) != [])
  {
    var joined := LeftJoin(orders, barcodes);
    var kept := if allowUselessVouchers then joined else DropUnredeemed(joined);
    GroupRunsKeys(SortByKey(kept));
    SortByKeyKeys(kept, k);
    LeftJoinKeys(orders, barcodes);
    DropUnredeemedKeys(joined, k);
    LeftJoinGroupValues(orders, barcodes, k);
  }

  /** A key is in a voucher list exactly when some voucher carries it. */
  lemma {:induction false} VoucherKeysIndex(vouchers: seq<Voucher>, k: Key)
    ensures k in VoucherKeys(vouchers) <==> exists i :: 0 <= i < |vouchers| && vouchers[i].GroupKey() == k
  {
    if vouchers != [] {
      VoucherKeysIndex(vouchers[1..], k);
      if exists i :: 0 <= i < |vouchers[1..]| && vouchers[1..][i].GroupKey() == k {
        var i :| 0 <= i < |vouchers[1..]| && vouchers[1..][i].GroupKey() == k;
        assert vouchers[i + 1] == vouchers[1..][i];
      }
      if exists i :: 1 <= i < |vouchers| && vouchers[i].GroupKey() == k {
        var i :| 1 <= i < |vouchers| && vouchers[i].GroupKey() == k;
        assert vouchers[1..][i - 1] == vouchers[i];
      }
    }
  }

  /** A key is among the orders' keys exactly when some order carries it. */
  lemma {:induction false} OrderKeysIndex(orders: seq<Order>, k: Key)
    ensures k in OrderKeys(orders) <==> exists i :: 0 <= i < |orders| && orders[i].GroupKey() == k
  {
    if orders != [] {
      OrderKeysIndex(orders[1..], k);
      if exists i :: 0 <= i < |orders[1..]| && orders[1..][i].GroupKey() == k {
        var i :| 0 <= i < |orders[1..]| && orders[1..][i].GroupKey() == k;
        assert orders[i + 1] == orders[1..][i];
      }
      if exists i :: 1 <= i < |orders| && orders[i].GroupKey() == k {
        var i :| 1 <= i < |orders| && orders[i].GroupKey() == k;
        assert orders[1..][i - 1] == orders[i];
      }
    }
  }

  /** With useless vouchers allowed every order yields a voucher, and an order
      whose key is its own and that no barcode row names gets an empty list. */
  lemma EveryOrderYieldsVoucher(orders: seq<Order>, barcodes: seq<BarcodeRow>, j: int)
    requires 0 <= j < |orders|
    ensures var vs := Transform(orders, barcodes, true);
      exists i :: 0 <= i < |vs| && vs[i].GroupKey() == orders[j].GroupKey()
    ensures var vs := Transform(orders, barcodes, true);
      (forall i :: 0 <= i < |orders| && orders[i].GroupKey() == orders[j].GroupKey() ==> i == j)
      && (forall m :: 0 <= m < |barcodes| ==> barcodes[m].orderId != Some(orders[j].orderId)) ==>
        forall i :: 0 <= i < |vs| && vs[i].GroupKey() == orders[j].GroupKey() ==> vs[i].barcodes == []
  {
    var k := orders[j].GroupKey();
    OrderKeysIndex(orders, k);
    TransformKeys(orders, barcodes, true, k);
    VoucherKeysIndex(Transform(orders, barcodes, true), k);
    if && (forall i :: 0 <= i < |orders| && orders[i].GroupKey() == k ==> i == j)
       && (forall m :: 0 <= m < |barcodes| ==> barcodes[m].orderId != Some(orders[j].orderId))
    {
      TransformContents(orders, barcodes, true);
      ExpectedBarcodesOfUniqueOrder(orders, barcodes, j);
      FilterNone(ForOrder(orders[j].orderId), barcodes);
    }
  }

  /** With useless vouchers disallowed no voucher has an empty barcode list. */
  lemma NoEmptyVoucherWhenDisallowed(orders: seq<Order>, barcodes: seq<BarcodeRow>)
    ensures var vs := Transform(orders, barcodes, false);
      forall i :: 0 <= i < |vs| ==> vs[i].barcodes != []
  {
    var vs := Transform(orders, barcodes, false);
    TransformContents(orders, barcodes, false);
    forall i | 0 <= i < |vs|
      ensures vs[i].barcodes != []
    {
      var k := vs[i].GroupKey();
      VoucherKeysIndex(vs, k);
      TransformKeys(orders, barcodes, false, k);
    }
  }

  /** Every voucher belongs to an order of the input. */
  lemma VoucherHasOrder(orders: seq<Order>, barcodes: seq<BarcodeRow>, allowUselessVouchers: bool, i: int)
    requires 0 <= i < |Transform(orders, barcodes, allowUselessVouchers)|
    ensures var v := Transform(orders, barcodes, allowUselessVouchers)[i];
      exists j :: 0 <= j < |orders| && orders[j].GroupKey() == v.GroupKey()
  {
    var vs := Transform(orders, barcodes, allowUselessVouchers);
    var k := vs[i].GroupKey();
    VoucherKeysIndex(vs, k);
    TransformKeys(orders, barcodes, allowUselessVouchers, k);
    OrderKeysIndex(orders, k);
  }

  /** Every value of the reference list is the barcode of a row naming an order of that key. */
  lemma {:induction false} ExpectedBarcodesFrom(orders: seq<Order>, barcodes: seq<BarcodeRow>, k: Key, x: int)
    requires x in ExpectedBarcodes(orders, barcodes, k)
    ensures exists b :: 0 <= b < |barcodes| && barcodes[b] == BarcodeRow(Some(x), Some(k.orderId))
  {
    var head := if orders[0].GroupKey() == k then NonNullBarcodes(MatchingBarcodes(barcodes, orders[0].orderId)) else [];
    if x in head {
      var m := MatchingBarcodes(barcodes, orders[0].orderId);
      NonNullBarcodesFrom(m, x);
      var i :| 0 <= i < |m| && m[i].barcode == Some(x);
      assert m[i] in barcodes;
    } else {
      ExpectedBarcodesFrom(orders[1..], barcodes, k, x);
    }
  }

  /** A barcode in a voucher was read with that voucher's order id; in
      particular, a barcode whose order id names no order never appears, and
      no barcode list holds a null (the list is of plain integers). */
  lemma VoucherBarcodeProvenance(orders: seq<Order>, barcodes: seq<BarcodeRow>, allowUselessVouchers: bool, i: int, x: int)
    requires 0 <= i < |Transform(orders, barcodes, allowUselessVouchers)|
    requires x in Transform(orders, barcodes, allowUselessVouchers)[i].barcodes
    ensures var v := Transform(orders, barcodes, allowUselessVouchers)[i];
      (exists b :: 0 <= b < |barcodes| && barcodes[b] == BarcodeRow(Some(x), Some(v.orderId)))
      && (exists j :: 0 <= j < |orders| && orders[j].orderId == v.orderId)
  {
    var v := Transform(orders, barcodes, allowUselessVouchers)[i];
    TransformContents(orders, barcodes, allowUselessVouchers);
    ExpectedBarcodesFrom(orders, barcodes, v.GroupKey(), x);
    VoucherHasOrder(orders, barcodes, allowUselessVouchers, i);
  }

  /** When exactly one order carries the key, the list is that order's non-null
      barcodes in file order. */
  lemma {:induction false} ExpectedBarcodesOfUniqueOrder(orders: seq<Order>, barcodes: seq<BarcodeRow>, j: int)
    requires 0 <= j < |orders|
    requires forall i :: 0 <= i < |orders| && orders[i].GroupKey() == orders[j].GroupKey() ==> i == j
    ensures ExpectedBarcodes(orders, barcodes, orders[j].GroupKey()) == NonNullBarcodes(MatchingBarcodes(barcodes, orders[j].orderId))
  {
    var k := orders[j].GroupKey();
    if j == 0 {
      ExpectedBarcodesAbsent(orders[1..], barcodes, k);
    } else {
      assert orders[0].GroupKey() != k;
      ExpectedBarcodesOfUniqueOrder(orders[1..], barcodes, j - 1);
    }
  }

  /** A key no order carries gets nothing. */
  lemma {:induction false} ExpectedBarcodesAbsent(orders: seq<Order>, barcodes: seq<BarcodeRow>, k: Key)
    requires forall i :: 0 <= i < |orders| ==> orders[i].GroupKey() != k
    ensures ExpectedBarcodes(orders, barcodes, k) == []
  {
    if orders != [] {
      ExpectedBarcodesAbsent(orders[1..], barcodes, k);
    }
  }

  // ---------------------------------------------------------------------------
  // A worked example: two orders of customer 1 (ids 1 and 2), one of customer 2
  // (id 5) with no barcode, and a barcode (7) whose order id 12 names no order.

  const ExampleOrders: seq<Order> := [Order(1, 1), Order(1, 2), Order(2, 5)]
  const ExampleBarcodes: seq<BarcodeRow> :=
    [BarcodeRow(Some(1), Some(1)), BarcodeRow(Some(2), Some(1)), BarcodeRow(Some(3), Some(2)), BarcodeRow(Some(7), Some(12))]
  const ExampleJoined: seq<JoinedRow> :=
    [JoinedRow(1, 1, Some(1)), JoinedRow(1, 1, Some(2)), JoinedRow(1, 2, Some(3)), JoinedRow(2, 5, None)]

  lemma ExampleJoin()
    ensures LeftJoin(ExampleOrders, ExampleBarcodes) == ExampleJoined
  {
    var bs := ExampleBarcodes;
    assert MatchingBarcodes(bs, 1) == bs[..2];
    assert MatchingBarcodes(bs, 2) == [bs[2]];
    assert MatchingBarcodes(bs, 5) == [];
  }

  lemma ExampleGroupAll()
    ensures GroupRuns(ExampleJoined) == [Voucher(1, 1, [1, 2]), Voucher(1, 2, [3]), Voucher(2, 5, [])]
  {
    var rows := ExampleJoined;
    assert BarcodeValues([rows[3]]) == [];
    assert GroupRuns(rows[3..]) == [Voucher(2, 5, [])];
    assert BarcodeValues([rows[2]]) == [3];
    assert GroupRuns(rows[2..]) == [Voucher(1, 2, [3]), Voucher(2, 5, [])];
    assert BarcodeValues([rows[1]]) == [2];
    assert GroupRuns(rows[1..]) == [Voucher(1, 1, [2]), Voucher(1, 2, [3]), Voucher(2, 5, [])];
    assert BarcodeValues([rows[0]]) == [1];
    var rest := GroupRuns(rows[1..]);
    assert [1] + rest[0].barcodes == [1, 2];
    assert rest[1..] == [Voucher(1, 2, [3]), Voucher(2, 5, [])];
  }

  lemma ExampleGroupRedeemed()
    ensures GroupRuns(ExampleJoined[..3]) == [Voucher(1, 1, [1, 2]), Voucher(1, 2, [3])]
  {
    var rows := ExampleJoined[..3];
    assert BarcodeValues([rows[2]]) == [3];
    assert GroupRuns(rows[2..]) == [Voucher(1, 2, [3])];
    assert BarcodeValues([rows[1]]) == [2];
    assert GroupRuns(rows[1..]) == [Voucher(1, 1, [2]), Voucher(1, 2, [3])];
    assert BarcodeValues([rows[0]]) == [1];
    var rest := GroupRuns(rows[1..]);
    assert [1] + rest[0].barcodes == [1, 2];
    assert rest[1..] == [Voucher(1, 2, [3])];
  }

  lemma ExampleSortAll()
    ensures SortByKey(ExampleJoined) == ExampleJoined
  {
    assert SortByKey([JoinedRow(1, 1, Some(1)), JoinedRow(1, 1, Some(2)), JoinedRow(1, 2, Some(3)), JoinedRow(2, 5, None)])
      == [JoinedRow(1, 1, Some(1)), JoinedRow(1, 1, Some(2)), JoinedRow(1, 2, Some(3)), JoinedRow(2, 5, None)];
  }

  lemma ExampleSortRedeemed()
    ensures SortByKey(ExampleJoined[..3]) == ExampleJoined[..3]
  {
    assert ExampleJoined[..3] == [JoinedRow(1, 1, Some(1)), JoinedRow(1, 1, Some(2)), JoinedRow(1, 2, Some(3))];
    assert SortByKey([JoinedRow(1, 1, Some(1)), JoinedRow(1, 1, Some(2)), JoinedRow(1, 2, Some(3))])
      == [JoinedRow(1, 1, Some(1)), JoinedRow(1, 1, Some(2)), JoinedRow(1, 2, Some(3))];
  }

  lemma ExampleDrop()
    ensures DropUnredeemed(ExampleJoined) == ExampleJoined[..3]
  {
    var rows := ExampleJoined;
    assert DropUnredeemed(rows[3..]) == [];
  }

  /** With useless vouchers allowed the barcode-less order gets an empty list;
      without, it disappears. The orphan barcode 7 appears in neither. */
  lemma Example()
    ensures Transform(ExampleOrders, ExampleBarcodes, true) == [Voucher(1, 1, [1, 2]), Voucher(1, 2, [3]), Voucher(2, 5, [])]
    ensures Transform(ExampleOrders, ExampleBarcodes, false) == [Voucher(1, 1, [1, 2]), Voucher(1, 2, [3])]
  {
    ExampleJoin();
    ExampleGroupAll();
    ExampleGroupRedeemed();
    ExampleSortAll();
    ExampleSortRedeemed();
    ExampleDrop();
  }
}

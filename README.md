# etl-vouchers in Dafny

A model of the transform-and-validate core of the `etl_vouchers` package. The
package reads an orders file (`customer_id`, `order_id`) and a barcodes file
(`barcode`, `order_id`) and validates both. It then left-joins the barcodes onto
the orders, sorts by `(customer_id, order_id)` and groups each pair into one
voucher holding the list of its non-null barcodes. It also computes two reports,
the top customers by voucher count and the unused barcodes.

Data frames are sequences of row records with nullable cells as `Option<int>`.
A frame also carries its list of column names, because the validators check
column positions. The modules follow the package:

- `Frames` (`frames.dfy`): the row, order, voucher and error types shared by
  the others.
- `Utils` (`utils.dfy`): `sanitize_path`, plus the decimal rendering of the
  timestamp that goes into the output file name.
- `Validator` (`validator.dfy`): `is_valid`, the great_expectations checks
  the validators use, `OrdersValidator` and `BarcodesValidator`.
  `BarcodesValidator` is a class. Its `df` field is reassigned by each
  clean-up step, while every check reads the frame `dfe` captured at
  construction.
- `VoucherTransform` (`transform.dfy`): `_transform`, made of the left join,
  the optional drop of rows without a barcode, a stable sort on the pair
  and the group-by. It is proved against `ExpectedBarcodes`, an independent
  definition of what each voucher should hold.
- `Etl` (`etl.dfy`): the output path built by `_load`, and
  `pipeline` with its `transform_only`, `silent` and
  `allow_useless_vouchers` flags.
- `Statistic` (`statistic.dfy`): the `df_resp` frames of
  `VoucherStatistic.top_customers` and `unused_barcodes`, and the wording of
  the unused-barcode header.
- `Legacy` (`legacy.dfy`): the earlier `main.py`. This covers its
  `_transform`, whose `ignore_empty_vouchers` flag is the negation of
  `allow_useless_vouchers`, its `_load` path, `top_5_buyers` and its
  join-based `unused_barcodes`. It also proves how each relates to its
  successor.
- `Seqs` (`seqs.dfy`): generic filter and count lemmas used throughout.

Some behaviours of the code are easy to misread; the model follows the code:

- The column checks require `customer_id`/`barcode` at position 0 and
  `order_id` at position 1. This is the `column_index` argument of
  `expect_column_to_exist`, not a lookup by name.
- The uniqueness check ignores null barcodes. `drop_duplicates(keep=False)`
  removes every row of a duplicated value, and it treats two nulls as
  duplicates of each other.
- Rows with a null barcode are dropped whenever the captured frame had one.
  The drop depends only on the captured frame's not-null check.
- A barcodes file without a `barcode` column fails with a `KeyError` from
  the `astype` in `pipeline`, before the barcodes validator runs.
- `merge` pairs a null `order_id` with a null `order_id`. In the earlier
  transform the group-by then drops such rows, because their key is null, so
  only the orders with both ids present count. In the earlier unused-barcodes
  report the pairing decides whether a barcode row without an order id is
  selected.

## Model

| member | source | states |
|---|---|---|
| Utils.SanitizePath | etl_vouchers/utils.py:12-19 | the result ends in "/"; a path already ending in "/" is returned unchanged; otherwise the result is the path plus exactly one character |
| Utils.SanitizePathIdempotent | etl_vouchers/utils.py:16-19 | sanitising twice is the same as sanitising once |
| Utils.SanitizePathExamples | tests/utils_test.py:16-26 | the four parametrised cases, "." becoming "./" among them |
| Utils.NatToStringRoundTrip | etl_vouchers/etl.py:66 | the decimal text of the timestamp reads back as the same number |
| Validator.IsValid | etl_vouchers/validator.py:10-11 | true exactly when every response succeeded, so the empty list is valid |
| Validator.IsValidExamples | tests/validator_test.py:6-40 | the four parametrised cases and the empty list |
| Validator.OrdersFormatExactly | etl_vouchers/validator.py:45-57 | the orders format holds iff `customer_id` is column 0, `order_id` is column 1 and no row has a null in either |
| Validator.OrdersFormatExamples | tests/validator_test.py:43-57 | the five parametrised frames: misnamed columns and a null in either column fail |
| Validator.OrdersOf | etl_vouchers/validator.py:37-43 | a frame that passed the orders check yields one order per row, with the same customer and order ids |
| Validator.OrdersValidator.Call | etl_vouchers/validator.py:37-43 | fails with the orders format message iff the format check fails; otherwise returns the frame unchanged |
| Validator.BarcodesFormatExactly | etl_vouchers/validator.py:99-105 | the barcodes format holds iff `barcode` is column 0 and `order_id` column 1, whatever nulls the rows hold |
| Validator.BarcodesChecksExamples | tests/validator_test.py:60-96 | the parametrised cases of the format, uniqueness and not-null checks |
| Validator.DropDuplicatesKeepNone | etl_vouchers/validator.py:83 | keeps exactly the rows whose barcode value, null included, occurs once, and keeps the columns |
| Validator.DropNullBarcodes | etl_vouchers/validator.py:95 | keeps exactly the rows with a barcode, and keeps the columns |
| Validator.DuplicatedBarcodesExactly | etl_vouchers/validator.py:77-79 | a value is listed as duplicated iff it occurs on two rows or more |
| Validator.OrderIdsWithoutBarcode | etl_vouchers/validator.py:91 | lists exactly the order ids of the rows that have no barcode |
| Validator.BarcodesValidator.Call | etl_vouchers/validator.py:65-97 | fails with the barcodes format message iff the format check on the captured frame fails, leaving `df` and the output alone; otherwise `df` becomes the clean-up of the old `df` decided by the captured frame, the result is `df`, and the diagnostics are appended only when not silent |
| Validator.UniqueBarcodesOccurOnce | etl_vouchers/validator.py:107-110 | after a passed uniqueness check, every non-null barcode occurs exactly once |
| Validator.CleanKeepsExactlyUsableRows | etl_vouchers/validator.py:71-95 | on a first call the clean-up keeps, in order, exactly the rows with a barcode value that occurs once |
| Validator.CleanBarcodesGuarantees | etl_vouchers/validator.py:83-95 | the result is an order-preserving subsequence of the input; every row with a unique non-null barcode is kept; every kept row has a barcode that was unique |
| Validator.DuplicatedValueVanishes | etl_vouchers/validator.py:83 | a value that occurs twice or more leaves no row behind |
| Validator.CleanRowsStayUsable | etl_vouchers/validator.py:71-95 | every row of the cleaned frame is unique and non-null within the cleaned frame itself |
| Validator.UsableRowsPassChecks | etl_vouchers/validator.py:107-117 | a frame whose rows are all unique and non-null passes the uniqueness and the not-null check |
| Validator.CleanBarcodesIdempotent | etl_vouchers/validator.py:65-117 | the cleaned frame passes both checks, so validating it again changes nothing |
| Validator.NullFreeOnlyFromSnapshotCheck | etl_vouchers/validator.py:85-95 | the result has no null barcode iff the captured frame failed the not-null check or no null survived the duplicate step |
| Validator.DiagnosticNamesRemovedValues | etl_vouchers/validator.py:71-83 | a value is reported as duplicated iff it occurs in the frame and no row with it survives the keep-none step |
| VoucherTransform.BarcodeValuesEmpty | etl_vouchers/etl.py:47 | a group's barcode list is empty iff every row of the group has a null barcode |
| VoucherTransform.BarcodeValuesOfRedeemed | etl_vouchers/etl.py:41-47 | dropping null-barcode rows does not change a barcode list |
| VoucherTransform.Attach | etl_vouchers/etl.py:37-38 | one joined row per matching barcode row, carrying the order's customer and order ids and that row's barcode |
| VoucherTransform.JoinOrder | etl_vouchers/etl.py:37-38 | every order contributes at least one joined row, all with its key |
| VoucherTransform.LeftJoinGroupValues | etl_vouchers/etl.py:37-39 | the non-null barcodes of a key's joined rows are exactly `ExpectedBarcodes` for that key |
| VoucherTransform.LeftJoinKeys | etl_vouchers/etl.py:37-39 | the keys of the joined rows are exactly the keys of the orders |
| VoucherTransform.DropUnredeemedKeys | etl_vouchers/etl.py:41-42 | a key survives the drop iff some row of it has a barcode |
| VoucherTransform.SortByKeySorted | etl_vouchers/etl.py:45 | the sort leaves the rows ordered by `(customer_id, order_id)` |
| VoucherTransform.SortByKeyStable | etl_vouchers/etl.py:45 | the sort keeps the relative order of the rows of each key |
| VoucherTransform.SortByKeyKeys | etl_vouchers/etl.py:45 | the sort neither adds nor loses a key |
| VoucherTransform.GroupRunsKeys | etl_vouchers/etl.py:46 | grouping yields a voucher for exactly the keys present in the rows |
| VoucherTransform.GroupRunsStrictlySorted | etl_vouchers/etl.py:46 | on sorted rows the vouchers are strictly ascending by key, so each key occurs once |
| VoucherTransform.GroupRunsContents | etl_vouchers/etl.py:46-47 | on sorted rows each voucher holds exactly the non-null barcodes of its key's rows, in row order |
| VoucherTransform.TransformSorted | etl_vouchers/etl.py:44-50 | the vouchers are strictly ascending by `(customer_id, order_id)`, so each pair appears at most once |
| VoucherTransform.TransformContents | etl_vouchers/etl.py:37-50 | each voucher's list equals `ExpectedBarcodes`: the non-null barcodes whose `order_id` matches an order with that key, in input order |
| VoucherTransform.TransformKeys | etl_vouchers/etl.py:37-50 | a key has a voucher iff some order has it and either empty vouchers are allowed or its expected list is non-empty |
| VoucherTransform.EveryOrderYieldsVoucher | etl_vouchers/etl.py:37-39 | with empty vouchers allowed, every order row has a voucher, and an order with a key of its own that no barcode row names gets an empty list |
| VoucherTransform.NoEmptyVoucherWhenDisallowed | etl_vouchers/etl.py:41-42 | with empty vouchers disallowed, no voucher has an empty list |
| VoucherTransform.VoucherHasOrder | etl_vouchers/etl.py:37-38 | every voucher comes from an order row with its key |
| VoucherTransform.VoucherBarcodeProvenance | etl_vouchers/etl.py:37-38 | every barcode in a voucher comes from a barcode row naming that voucher's order id, and that order exists, so an orphaned barcode never appears |
| VoucherTransform.ExpectedBarcodesOfUniqueOrder | etl_vouchers/etl.py:37-47 | for an order whose key is unique, the expected list is the non-null barcodes matching its order id, in file order |
| VoucherTransform.ExpectedBarcodesAbsent | etl_vouchers/etl.py:37-47 | a key no order has expects no barcode |
| VoucherTransform.Example | etl_vouchers/etl.py:37-50 | on a small input with an orphaned barcode and a barcode-less order: with empty vouchers allowed the order gets `[]`; disallowed, it is absent |
| Etl.OutputDirectory | etl_vouchers/etl.py:61-64 | the directory ends in "/", defaults to "./", starts with the given path and leaves a path already ending in "/" unchanged |
| Etl.LoadPath | etl_vouchers/etl.py:66 | the path is the directory, then "vouchers.", then the timestamp digits, then ".csv" |
| Etl.LoadPathTimestamp | etl_vouchers/etl.py:66 | the characters between "vouchers." and ".csv" are digits that read back as the timestamp |
| Etl.LoadPathAddsSlashExample | etl_vouchers/etl.py:61-66 | "./datasets" with time 7 gives "./datasets/vouchers.7.csv" |
| Etl.LoadPathKeepsSlashExample | etl_vouchers/etl.py:61-66 | "out/" with time 0 gives "out/vouchers.0.csv" |
| Etl.LoadPathDefaultExample | etl_vouchers/etl.py:61-66 | no destination gives "./vouchers.<time>.csv" |
| Etl.Pipeline | etl_vouchers/etl.py:85-127 | each error case and its error (orders format, missing `barcode` column, barcodes format); success iff both formats hold; on success the orders unchanged, the cleaned barcodes, the vouchers of `_transform`, no path iff `transform_only`; diagnostics printed only when not silent, and the result never depends on `silent` |
| Statistic.AddTicket | etl_vouchers/statistic.py:27-28 | adding a voucher grows the tally by at most one entry, and every entry is the customer's or was there before |
| Statistic.AddTicketAscending | etl_vouchers/statistic.py:27-29 | adding a voucher keeps the tally ascending by customer id |
| Statistic.AddTicketLookup | etl_vouchers/statistic.py:27-28 | adding a voucher of customer c raises c's count by one and no other customer's |
| Statistic.TallyCounts | etl_vouchers/statistic.py:27-30 | the tally is ascending by customer id, its count for every customer is that customer's number of voucher rows, and every count is positive |
| Statistic.InsertByAmountRanked | etl_vouchers/statistic.py:31 | the stable descending insertion keeps the list ranked |
| Statistic.SortByAmountRanked | etl_vouchers/statistic.py:31 | sorting a tally ascending by id gives non-increasing amounts, with ties going to the lower customer id |
| Statistic.SliceTo | etl_vouchers/statistic.py:31 | Python's `[:top]`: a prefix of length `min(top, n)`, or `n + top` clamped at 0 for a negative `top` |
| Statistic.RankingCounts | etl_vouchers/statistic.py:26-31 | the unsliced frame is ranked, lists each customer with vouchers, and pairs each with their voucher count |
| Statistic.TopCustomersRanked | etl_vouchers/statistic.py:26-31 | at most `top` rows, ranked by non-increasing amount, each amount equal to the customer's voucher count |
| Statistic.TopCustomersLeftOut | etl_vouchers/statistic.py:31 | a customer with vouchers that is missing from the result ranks below every listed customer |
| Statistic.TopCustomersAllListed | etl_vouchers/statistic.py:31 | when fewer than `top` rows come out, every customer with vouchers is listed |
| Statistic.TopCustomersOfFiles | etl_vouchers/statistic.py:18-32 | fails iff the pipeline does, with the pipeline's error (orders format, missing `barcode` column, barcodes format); otherwise the top customers of the vouchers the pipeline builds with empty vouchers allowed |
| Statistic.TopCustomersExample | tests/statistic_test.py:27-32 | customers [1,2,3,1,2,4,1,3,1] with top 2 give (1,4) then (2,2): the 2-3 tie goes to 2 |
| Statistic.UnusedBarcodes | etl_vouchers/statistic.py:42-54 | fails iff `order_id` or `barcode` is missing, with the `KeyError` naming `order_id` first |
| Statistic.UnusedBarcodesExactly | etl_vouchers/statistic.py:44 | the selection is an order-preserving subsequence holding every row with a null `order_id` and nothing else |
| Statistic.UnusedBarcodesHeaderGrammar | etl_vouchers/statistic.py:46-52 | the sentence reads "There are " iff the count exceeds 1, and ends in "s" iff the count is not 1 |
| Statistic.UnusedBarcodesExample | tests/statistic_test.py:34-37 | the test's file selects the rows with barcodes 1, 3 and 5 |
| Legacy.KeyedOrders | etl_vouchers/main.py:24-31 | every order that reaches the grouping is an order row with both ids present, and every such row reaches it |
| Legacy.KeyedOrdersOfValidRows | etl_vouchers/main.py:24-31 | on rows with no null ids, nothing is dropped |
| Legacy.LegacyTransform | etl_vouchers/main.py:15-31 | fails iff `order_id` is missing from either frame, `barcode` from the barcodes or `customer_id` from the orders, with the `KeyError` of the merge, then the `astype`, then the sort |
| Legacy.LegacyTransformAgrees | etl_vouchers/main.py:15-31 | on an orders frame that passes the orders check and a barcodes frame with both columns, the earlier transform with `ignore_empty_vouchers` succeeds with what `_transform` gives with `allow_useless_vouchers` negated |
| Legacy.LegacyTransformSorted | etl_vouchers/main.py:24-31 | one voucher per pair, strictly ascending by pair, even on unvalidated input |
| Legacy.LegacyTransformKeys | etl_vouchers/main.py:15-31 | a pair has a voucher iff some order row carries it with both ids present and, when empty vouchers are ignored, some barcode is expected for it |
| Legacy.KeyedPairs | etl_vouchers/main.py:24-27 | a pair is the key of a grouped order iff an order row carries it with both ids present |
| Legacy.LegacyOutputDirectory | etl_vouchers/main.py:38-42 | the earlier conditional gives the same directory as `sanitize_path` with the "./" default |
| Legacy.LegacyLoadPath | etl_vouchers/main.py:44 | the earlier file name equals the one `etl._load` builds |
| Legacy.Top5BuyersCorrect | etl_vouchers/main.py:64-72 | at most 5 rows, ranked by non-increasing amount, each equal to the customer's voucher count; a customer with vouchers that is left out ranks below every listed row |
| Legacy.UnusedRowsOf | etl_vouchers/main.py:89-94 | a barcode row expands only to copies of itself |
| Legacy.UnusedRowsOfNonEmpty | etl_vouchers/main.py:89-94 | a barcode row yields a selected row iff no order row pairs with it, or one that does has a null `customer_id` |
| Legacy.UnusedAfterJoin | etl_vouchers/main.py:89-94 | every selected row is a barcode row of the input |
| Legacy.UnusedAfterJoinMembers | etl_vouchers/main.py:89-94 | on any input, a row is selected iff it is a barcode row that pairs with no order row (null pairing with null) or pairs with one whose `customer_id` is null |
| Legacy.LegacyUnusedBarcodes | etl_vouchers/main.py:88-104 | fails iff `order_id` is missing from either frame, `customer_id` from the orders or `barcode` from the barcodes, with the `KeyError` of the merge, then the selection, then the listing; on success a row is selected iff it is a barcode row that pairs with no order row or with one whose `customer_id` is null |
| Legacy.UnusedOnKeyedOrders | etl_vouchers/main.py:89-94 | when every order has a customer, exactly the barcode rows whose `order_id`, null included, matches no order row are selected, in file order |
| Legacy.UnusedCoversStatistic | etl_vouchers/main.py:89-94 | when every order row has an `order_id`, the rows with a null `order_id` it selects are exactly those `statistic.unused_barcodes` selects, in the same order |
| Legacy.NullOrderIdsPair | etl_vouchers/main.py:89-94 | a barcode without an order id that meets an order row without one but with a customer is not selected, though `statistic.unused_barcodes` selects it |
| Legacy.UnusedDefinitionsDiffer | etl_vouchers/main.py:89-94 | a barcode naming a nonexistent order is unused here but not in `statistic.py` |
| Legacy.LegacyUnusedBarcodesHeaderGrammar | etl_vouchers/main.py:96-102 | "are" and the plural "s" both appear iff the count exceeds 1 |
| Legacy.LegacyUnusedBarcodesHeaderZero | etl_vouchers/main.py:96-102 | a count of zero reads "There is 0 unused barcode" |

## Left out

- Reading and writing CSV files (`extract`, `to_csv`, `_extract_orders`, `_extract_barcodes`) is I/O. `pipeline` takes the two frames already read, and the `InvalidSourceFile` raised when a file cannot be read is not modelled.
- The wall clock (`current_time`, `current_time_millis`) is the parameter `now`. Its rounding of a float is not modelled.
- `pretty_print` and `_print` are output. The model records each diagnostic as a value, namely the header and the list of values listed, but not its rendering. The `"customer_id, amount_of_tickets"` lines of the reports are not rendered.
- The internals of great_expectations and pandas are foreign library code. Only their list semantics is modelled.
- The `Int64` coercion of the barcode column is not modelled, and neither is the float type pandas gives an id column that holds a null.
- `merge` suffixes a column that both frames carry apart from `order_id`, such as a `barcode` column in the orders file. Columns other than the ones each frame is expected to carry are not modelled.
- Statistic.SortByAmount: does not model numpy's unstable quicksort on the single amount column for large frames. It is modelled as the stable descending sort that the small inputs exhibit, with ties kept in ascending customer order.
- `VoucherStatistic.top_customers` and `unused_barcodes` in `statistic.py`, and `top_5_buyers` and `unused_barcodes` in `main.py`, print and return `None`. The model returns the `df_resp` frame each computes, which is what the tests of `statistic.py` inspect.
- Legacy.LegacyLoadPath: `main._load` returns the result of `to_csv`, which is `None`. The model gives the file name it writes to.
- `generate_vouchers` in `main.py` only chains the modelled steps with I/O, and is not modelled.
- `tasks.py` and `setup.py` are command-line wiring and packaging, and are not part of this model.

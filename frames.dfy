/** The data model shared by every stage of the voucher ETL: nullable cells,
    the frames read from the two input files, and the records derived from them. */
module Frames {

  /** A nullable cell: pandas' `NaN` / `pd.NA` is `None`. */
  datatype Option<+T> = None | Some(value: T)

  /** The error raised by the pipeline's stages. `InvalidSourceFile` is the
      project's own exception; `KeyError` is what pandas raises when a dtype
      mapping names a column the frame does not have. */
  datatype Error = InvalidSourceFile(message: string) | KeyError(column: string)

  datatype Result<+T> = Success(value: T) | Failure(error: Error)

  /** A data frame: its column names in position order, and its rows. A row
      holds one cell per column the model cares about; when a column is absent
      from `columns` the corresponding cells carry no meaning. */
  datatype Frame<+R> = Frame(columns: seq<string>, rows: seq<R>)

  /** A row of the orders file as read, before validation. */
  datatype OrderRow = OrderRow(customerId: Option<int>, orderId: Option<int>)

  /** A row of the barcodes file: both cells may be null. */
  datatype BarcodeRow = BarcodeRow(barcode: Option<int>, orderId: Option<int>)

  /** An order that passed validation: both cells are present. */
  datatype Order = Order(customerId: int, orderId: int) {
    function GroupKey(): Key { Key(customerId, orderId) }
  }

  /** The grouping key `(customer_id, order_id)`, ordered lexicographically. */
  datatype Key = Key(customerId: int, orderId: int)

  predicate KeyLe(a: Key, b: Key) {
    a.customerId < b.customerId || (a.customerId == b.customerId && a.orderId <= b.orderId)
  }

  predicate KeyLt(a: Key, b: Key) {
    a.customerId < b.customerId || (a.customerId == b.customerId && a.orderId < b.orderId)
  }

  /** One output row: an order together with the barcodes redeemed against it.
      The barcode list holds plain integers, so it can never contain a null. */
  datatype Voucher = Voucher(customerId: int, orderId: int, barcodes: seq<int>) {
    function GroupKey(): Key { Key(customerId, orderId) }
  }

  /** One row of the top-customers report. */
  datatype CustomerCount = CustomerCount(customerId: int, amountOfTickets: nat)

  type OrdersFrame = Frame<OrderRow>
  type BarcodesFrame = Frame<BarcodeRow>

  /** The column names the two input files are expected to carry. */
  const CustomerIdColumn: string := "customer_id"
  const OrderIdColumn: string := "order_id"
  const BarcodeColumn: string := "barcode"
}

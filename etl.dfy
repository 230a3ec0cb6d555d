/** The pipeline of etl_vouchers/etl.py: validate the two frames, transform
    them into vouchers and, unless only the transformation is wanted, name the
    output file. Reading and writing the CSV files is not modelled; the frames
    as read and the clock reading are parameters. */
module Etl {
  import opened Frames
  import opened Utils
  import opened Validator
  import opened VoucherTransform

  /** The directory `_load` writes into: "./" when none is given, otherwise the
      given path with a trailing "/". */
  function OutputDirectory(destPath: Option<string>): (dir: string)
    ensures EndsWithSlash(dir)
    ensures destPath.None? ==> dir == "./"
    ensures destPath.Some? ==> |dir| >= |destPath.value| && dir[..|destPath.value|] == destPath.value
    ensures destPath.Some? && EndsWithSlash(destPath.value) ==> dir == destPath.value
  {
    if destPath.None? then "./" else SanitizePath(destPath.value)
  }

  /** The file `_load` writes, `{dest_path}vouchers.{current_time()}.csv`, with
      the clock reading `now` passed in. */
  function LoadPath(destPath: Option<string>, now: nat): (path: string)
    ensures var dir := OutputDirectory(destPath);
      && |path| == |dir| + |"vouchers."| + |NatToString(now)| + |".csv"|
      && path[..|dir|] == dir
      && path[|dir|..|dir| + 9] == "vouchers."
      && path[|path| - 4..] == ".csv"
  {
    OutputDirectory(destPath) + "vouchers." + NatToString(now) + ".csv"
  }

  /** The clock reading can be recovered from the file name: the digits between
      "vouchers." and ".csv" spell `now`. */
  lemma LoadPathTimestamp(destPath: Option<string>, now: nat)
    ensures var dir, path := OutputDirectory(destPath), LoadPath(destPath, now);
      && (forall i :: |dir| + 9 <= i < |path| - 4 ==> IsDigit(path[i]))
      && ParseNat(path[|dir| + 9..|path| - 4]) == now
  {
    var dir, path := OutputDirectory(destPath), LoadPath(destPath, now);
    assert path[|dir| + 9..|path| - 4] == NatToString(now);
    NatToStringRoundTrip(now);
  }

  /** Without a destination the file goes into the working directory. */
  lemma LoadPathDefaultExample()
    ensures LoadPath(None, 1622544686) == "./vouchers." + NatToString(1622544686) + ".csv"
  {
  }

  /** A destination without its trailing "/" gets one. */
  lemma LoadPathAddsSlashExample()
    ensures LoadPath(Some("./datasets"), 7) == "./datasets/vouchers.7.csv"
  {
  }

  /** A destination with its trailing "/" is used as it is. */
  lemma LoadPathKeepsSlashExample()
    ensures LoadPath(Some("out/"), 0) == "out/vouchers.0.csv"
  {
  }

  /** `PipelineResponse`: the validated frames, the vouchers and the output
      file, which is absent when only the transformation ran. */
  datatype PipelineResponse = PipelineResponse(
    orders: OrdersFrame,
    barcodes: BarcodesFrame,
    vouchers: seq<Voucher>,
    outputFilePath: Option<string>)

  /** `pipeline`. The orders are validated first and an invalid orders frame
      stops everything before the barcodes are looked at; the barcodes frame
      then needs a `barcode` column for the `Int64` cast before its own
      validation. `printed` collects what the barcodes validator reports. */
  method Pipeline(
    ordersFile: OrdersFrame, barcodesFile: BarcodesFrame, destPath: Option<string>,
    transformOnly: bool, silent: bool, allowUselessVouchers: bool, now: nat)
    returns (r: Result<PipelineResponse>, printed: seq<Diagnostic>)
    ensures !OrdersHaveExpectedFormat(ordersFile) ==> r == Failure(InvalidSourceFile(OrdersFormatMessage))
    ensures OrdersHaveExpectedFormat(ordersFile) && BarcodeColumn !in barcodesFile.columns ==>
              r == Failure(KeyError(BarcodeColumn))
    ensures OrdersHaveExpectedFormat(ordersFile) && BarcodeColumn in barcodesFile.columns
              && !BarcodesHaveExpectedFormat(barcodesFile) ==>
              r == Failure(InvalidSourceFile(BarcodesFormatMessage))
    ensures r.Success? <==> OrdersHaveExpectedFormat(ordersFile) && BarcodesHaveExpectedFormat(barcodesFile)
    ensures r.Success? ==>
              var barcodes := CleanBarcodes(barcodesFile, barcodesFile);
              && r.value.orders == ordersFile
              && r.value.barcodes == barcodes
              && r.value.vouchers == Transform(OrdersOf(ordersFile), barcodes.rows, allowUselessVouchers)
              && (transformOnly ==> r.value.outputFilePath == None)
              && (!transformOnly ==> r.value.outputFilePath == Some(LoadPath(destPath, now)))
    ensures printed == if silent || r.Failure? then [] else CleanDiagnostics(barcodesFile, barcodesFile)
  {
    printed := [];
    var ordersValidator := new OrdersValidator(ordersFile, silent);
    var orders := ordersValidator.Call();
    if orders.Failure? {
      return Failure(orders.error), printed;
    }
    if BarcodeColumn !in barcodesFile.columns {
      return Failure(KeyError(BarcodeColumn)), printed;
    }
    var barcodesValidator := new BarcodesValidator(barcodesFile, silent);
    var barcodes := barcodesValidator.Call();
    printed := barcodesValidator.printed;
    if barcodes.Failure? {
      return Failure(barcodes.error), printed;
    }
    var vouchers := Transform(OrdersOf(orders.value), barcodes.value.rows, allowUselessVouchers);
    var filePath: Option<string> := None;
    if !transformOnly {
      filePath := Some(LoadPath(destPath, now));
    }
    r := Success(PipelineResponse(orders.value, barcodes.value, vouchers, filePath));
  }
}

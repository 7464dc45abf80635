/**
 * The seller product library (lib/products.ts): turning spreadsheet rows
 * into product records, the counting and messages of a bulk upload, and the
 * storage name of a product image. Reading the workbook and the Firestore
 * and Storage calls are outside the model: the rows arrive as cells, each
 * upload's outcome arrives as a parameter.
 */
module Products {
  import opened Wrappers
  import opened Strings

  /**
   * A spreadsheet cell as the sheet reader delivers it. A number carries its
   * value and the text `String(value)` gives for it.
   */
  datatype Cell = Undefined | Null | Text(s: string) | Number(value: real, text: string) | Boolean(b: bool)

  /** A row is `None` when the array slot is missing. */
  type Row = Option<seq<Cell>>

  /** JavaScript truthiness of a cell value. */
  predicate Truthy(c: Cell) {
    match c
    case Undefined => false
    case Null => false
    case Text(s) => s != ""
    case Number(v, _) => v != 0.0
    case Boolean(b) => b
  }

  /** `String(c)` */
  function CellString(c: Cell): string {
    match c
    case Undefined => "undefined"
    case Null => "null"
    case Text(s) => s
    case Number(_, text) => text
    case Boolean(b) => if b then "true" else "false"
  }

  /** `String(c ?? fallback)` */
  function StringOr(c: Cell, fallback: string): (r: string)
    ensures c.Undefined? || c.Null? ==> r == fallback
  {
    if c.Undefined? || c.Null? then fallback else CellString(c)
  }

  /** `row[k]`: reading past the end gives `undefined`. */
  function Get(cells: seq<Cell>, k: nat): Cell {
    if k < |cells| then cells[k] else Undefined
  }

  /** The longest prefix of decimal digits. */
  function TakeDigits(s: string): (d: string)
    ensures |d| <= |s| && d == s[..|d|]
    ensures forall i :: 0 <= i < |d| ==> IsDigit(d[i])
    ensures |d| < |s| ==> !IsDigit(s[|d|])
    decreases |s|
  {
    if |s| > 0 && IsDigit(s[0]) then [s[0]] + TakeDigits(s[1..]) else []
  }

  function Pow10(n: nat): (p: nat)
    ensures p >= 1
  {
    if n == 0 then 1 else 10 * Pow10(n - 1)
  }

  /** The value of `whole.fraction` written in decimal digits. */
  function DecimalValue(whole: string, fraction: string): (v: real)
    requires forall i :: 0 <= i < |whole| ==> IsDigit(whole[i])
    requires forall i :: 0 <= i < |fraction| ==> IsDigit(fraction[i])
    ensures v >= 0.0
  {
    DigitsValue(whole) as real + DigitsValue(fraction) as real / Pow10(|fraction|) as real
  }

  /** An unsigned decimal prefix: digits with an optional `.` fraction; `None` when no digit starts it. */
  function ParseUnsigned(u: string): (r: Option<real>)
    ensures r.Some? ==> r.value >= 0.0
    ensures r.None? <==> |u| == 0 || (!IsDigit(u[0]) && (u[0] != '.' || |u| == 1 || !IsDigit(u[1])))
  {
    var whole := TakeDigits(u);
    var after := u[|whole|..];
    var fraction := if |after| > 0 && after[0] == '.' then TakeDigits(after[1..]) else [];
    if |whole| == 0 && |fraction| == 0 then None else Some(DecimalValue(whole, fraction))
  }

  /**
   * `parseFloat(s)` for decimal notation: leading white space, an optional
   * sign, digits with an optional fraction, the rest of the text ignored.
   * `None` is `NaN`.
   */
  function ParseFloat(s: string): (r: Option<real>)
    ensures r.Some? ==> |TrimStart(s)| > 0
    ensures r.Some? && r.value < 0.0 ==> TrimStart(s)[0] == '-'
  {
    var t := TrimStart(s);
    var signed := |t| > 0 && (t[0] == '-' || t[0] == '+');
    match ParseUnsigned(if signed then t[1..] else t)
    case None => None
    case Some(m) => Some(if signed && t[0] == '-' then -m else m)
  }

  /** The digits of a number are read back as that number. */
  lemma ParseFloatOfNatString(n: nat)
    ensures ParseFloat(NatToString(n)) == Some(n as real)
  {
    var s := NatToString(n);
    UnsignedTextParsesUnsigned(s);
    ParseUnsignedDigits(s);
    NatToStringRoundTrip(n);
  }

  /** Text that starts with a digit is read without sign handling. */
  lemma UnsignedTextParsesUnsigned(s: string)
    requires |s| > 0 && IsDigit(s[0])
    ensures ParseFloat(s) == ParseUnsigned(s)
  {
    assert !IsSpace(s[0]);
    assert TrimStart(s) == s;
  }

  /** A run of digits alone is read as its value. */
  lemma ParseUnsignedDigits(s: string)
    requires |s| > 0 && forall i :: 0 <= i < |s| ==> IsDigit(s[i])
    ensures ParseUnsigned(s) == Some(DigitsValue(s) as real)
  {
    AllDigitsTaken(s);
    var whole := TakeDigits(s);
    assert whole == s;
    var after := s[|whole|..];
    assert after == [];
    assert DigitsValue([]) == 0 && Pow10(0) == 1;
    assert DecimalValue(s, []) == DigitsValue(s) as real;
  }

  lemma {:induction false} AllDigitsTaken(s: string)
    requires forall i :: 0 <= i < |s| ==> IsDigit(s[i])
    ensures TakeDigits(s) == s
    decreases |s|
  {
    if |s| > 0 {
      AllDigitsTaken(s[1..]);
    }
  }

  /** A product record read from one row. */
  datatype ProductUpload = ProductUpload(
    modelNumber: string, name: string, description: string,
    price: real, category: string, imagePath: Option<string>)

  /** `typeof c === 'number' ? c : parseFloat(String(c ?? 0)) || 0` */
  function PriceOf(c: Cell): (p: real)
    ensures c.Number? ==> p == c.value
    ensures !c.Number? && ParseFloat(StringOr(c, "0")).None? ==> p == 0.0
    ensures !c.Number? && ParseFloat(StringOr(c, "0")).Some? ==> p == ParseFloat(StringOr(c, "0")).value
  {
    if c.Number? then c.value
    else match ParseFloat(StringOr(c, "0"))
      case None => 0.0
      case Some(v) => v
  }

  /** A row the loop skips before reading it: missing, empty, or a falsy first cell. */
  predicate Skipped(row: Row) {
    row.None? || |row.value| == 0 || !Truthy(row.value[0])
  }

  /**
   * `String(c ?? fallback).trim()`, for a fallback with no white space at
   * either end, so that the fallback is used as it is.
   */
  function TrimmedOr(c: Cell, fallback: string): (r: string)
    requires fallback == [] || (!IsSpace(fallback[0]) && !IsSpace(fallback[|fallback| - 1]))
    ensures r == Trim(StringOr(c, fallback))
    ensures Trim(r) == r
  {
    TrimKeepsTrimmed(fallback);
    TrimIdempotent(CellString(c));
    if c.Undefined? || c.Null? then fallback else Trim(CellString(c))
  }

  /** A text with no white space at either end is its own trim. */
  lemma TrimKeepsTrimmed(s: string)
    requires s == [] || (!IsSpace(s[0]) && !IsSpace(s[|s| - 1]))
    ensures Trim(s) == s
  {
    assert TrimStart(s) == s;
  }

  /** `c ? String(c).trim() : undefined` */
  function OptionalText(c: Cell): (r: Option<string>)
    ensures r.None? <==> !Truthy(c)
    ensures r.Some? ==> r.value == Trim(CellString(c))
  {
    if Truthy(c) then Some(Trim(CellString(c))) else None
  }

  /** The record a row gives, before validation. */
  function ReadRow(cells: seq<Cell>): (p: ProductUpload)
    ensures p.modelNumber == Trim(StringOr(Get(cells, 0), ""))
    ensures p.name == Trim(StringOr(Get(cells, 1), ""))
    ensures p.description == Trim(StringOr(Get(cells, 2), ""))
    ensures p.price == PriceOf(Get(cells, 3))
    ensures p.category == if Get(cells, 4).Undefined? || Get(cells, 4).Null? then "Uncategorized"
                          else Trim(CellString(Get(cells, 4)))
    ensures p.imagePath == OptionalText(Get(cells, 5))
    ensures Trim(p.modelNumber) == p.modelNumber && Trim(p.name) == p.name
    ensures p.imagePath.None? <==> !Truthy(Get(cells, 5))
  {
    assert !IsSpace('U') && !IsSpace('d');
    ProductUpload(
      TrimmedOr(Get(cells, 0), ""),
      TrimmedOr(Get(cells, 1), ""),
      TrimmedOr(Get(cells, 2), ""),
      PriceOf(Get(cells, 3)),
      TrimmedOr(Get(cells, 4), "Uncategorized"),
      OptionalText(Get(cells, 5)))
  }

  /** `product.modelNumber && product.name && product.price > 0` */
  predicate Valid(p: ProductUpload) {
    p.modelNumber != "" && p.name != "" && p.price > 0.0
  }

  /** The product a data row contributes, if any. */
  function RowProduct(row: Row): (r: Option<ProductUpload>)
    ensures r.Some? <==> !Skipped(row) && Valid(ReadRow(row.value))
    ensures r.Some? ==> r.value == ReadRow(row.value)
  {
    if Skipped(row) then None
    else
      var p := ReadRow(row.value);
      if Valid(p) then Some(p) else None
  }

  /** `xs.map(f)` */
  function MapSeq<A, B>(f: A -> B, xs: seq<A>): (ys: seq<B>)
    ensures |ys| == |xs|
    ensures forall k :: 0 <= k < |xs| ==> ys[k] == f(xs[k])
  {
    seq(|xs|, k requires 0 <= k < |xs| => f(xs[k]))
  }

  /** Mapping two runs one after the other is mapping each run. */
  lemma MapSeqAppend<A, B>(f: A -> B, a: seq<A>, b: seq<A>)
    ensures MapSeq(f, a + b) == MapSeq(f, a) + MapSeq(f, b)
  {
    forall k | 0 <= k < |a + b| ensures MapSeq(f, a + b)[k] == (MapSeq(f, a) + MapSeq(f, b))[k] {
      if k < |a| {
        assert (a + b)[k] == a[k];
      } else {
        assert (a + b)[k] == b[k - |a|];
      }
    }
  }

  /** What each data row gives, row by row. */
  function RowResults(rows: seq<Row>): (rs: seq<Option<ProductUpload>>)
    ensures |rs| == |rows|
    ensures forall k :: 0 <= k < |rows| ==> rs[k] == RowProduct(rows[k])
  {
    MapSeq(RowProduct, rows)
  }

  /** The present values, in order. */
  function Collect(rs: seq<Option<ProductUpload>>): (ps: seq<ProductUpload>)
    ensures |ps| <= |rs|
    decreases |rs|
  {
    if |rs| == 0 then []
    else
      var front := Collect(rs[..|rs| - 1]);
      match rs[|rs| - 1]
      case None => front
      case Some(p) => front + [p]
  }

  /** Collecting runs put together is collecting each run. */
  lemma {:induction false} CollectAppend(a: seq<Option<ProductUpload>>, b: seq<Option<ProductUpload>>)
    ensures Collect(a + b) == Collect(a) + Collect(b)
    decreases |b|
  {
    if |b| == 0 {
      assert a + b == a;
    } else {
      var b' := b[..|b| - 1];
      assert (a + b)[..|a + b| - 1] == a + b';
      assert (a + b)[|a + b| - 1] == b[|b| - 1];
      CollectAppend(a, b');
    }
  }

  /** `p` is the value at some position of `rs`. */
  predicate Present(rs: seq<Option<ProductUpload>>, p: ProductUpload) {
    exists k :: 0 <= k < |rs| && rs[k] == Some(p)
  }

  /** Every collected value is present at some position. */
  lemma {:induction false} CollectFrom(rs: seq<Option<ProductUpload>>)
    ensures forall j :: 0 <= j < |Collect(rs)| ==> Present(rs, Collect(rs)[j])
    decreases |rs|
  {
    if |rs| > 0 {
      var n := |rs| - 1;
      CollectFrom(rs[..n]);
      var front := Collect(rs[..n]);
      forall j | 0 <= j < |Collect(rs)|
        ensures Present(rs, Collect(rs)[j])
      {
        if j < |front| {
          assert Collect(rs)[j] == front[j];
          assert Present(rs[..n], front[j]);
          var k :| 0 <= k < n && rs[..n][k] == Some(front[j]);
          assert rs[k] == rs[..n][k];
        } else {
          assert rs[n].Some? && Collect(rs) == front + [rs[n].value];
          assert rs[n] == Some(Collect(rs)[j]);
        }
      }
    }
  }

  /** The products kept from a run of data rows, in row order. */
  function Kept(rows: seq<Row>): (ps: seq<ProductUpload>)
    ensures |ps| <= |rows|
  {
    Collect(RowResults(rows))
  }

  /** `parseExcelToProducts(data)` as a value: the products kept from every row after the header. */
  function ParseExcel(data: seq<Row>): (ps: seq<ProductUpload>)
    ensures |data| > 0 ==> |ps| <= |data| - 1
  {
    if |data| == 0 then [] else Kept(data[1..])
  }

  /** The loop of `parseExcelToProducts`. */
  method ParseExcelToProducts(data: seq<Row>) returns (products: seq<ProductUpload>)
    ensures products == ParseExcel(data)
  {
    products := [];
    if |data| == 0 {
      return;
    }
    var i := 1;
    while i < |data|
      invariant 1 <= i <= |data|
      invariant products == Kept(data[1..i])
    {
      var kept := ReadDataRow(data[i]);
      NextRow(data, i, kept);
      if kept.Some? {
        products := products + [kept.value];
      }
      i := i + 1;
    }
    AllRowsKept(data);
  }

  /** Once every data row is read, the products kept are those of the whole sheet. */
  lemma AllRowsKept(data: seq<Row>)
    requires |data| > 0
    ensures Kept(data[1..|data|]) == ParseExcel(data)
  {
    assert data[1..|data|] == data[1..];
  }

  /** The body of the loop for one data row: skip it, or read it and keep the product when it is valid. */
  method ReadDataRow(row: Row) returns (kept: Option<ProductUpload>)
    ensures kept == RowProduct(row)
  {
    if Skipped(row) {
      return None;
    }
    var product := ReadRow(row.value);
    if Valid(product) {
      kept := Some(product);
    } else {
      kept := None;
    }
  }

  /** One more row adds that row's product, if it has one. */
  lemma NextRow(data: seq<Row>, i: nat, kept: Option<ProductUpload>)
    requires 1 <= i < |data| && kept == RowProduct(data[i])
    ensures kept.None? ==> Kept(data[1..i + 1]) == Kept(data[1..i])
    ensures kept.Some? ==> Kept(data[1..i + 1]) == Kept(data[1..i]) + [kept.value]
  {
    assert data[1..i + 1] == data[1..i] + [data[i]];
    KeptAppend(data[1..i], [data[i]]);
    assert RowResults([data[i]]) == [RowProduct(data[i])];
    CollectSingle(RowProduct(data[i]));
  }

  lemma CollectSingle(o: Option<ProductUpload>)
    ensures Collect([o]) == (match o case None => [] case Some(p) => [p])
  {
    assert [o][..0] == [];
  }

  /** Keeping distributes over consecutive runs of rows, so the output follows row order. */
  lemma KeptAppend(a: seq<Row>, b: seq<Row>)
    ensures Kept(a + b) == Kept(a) + Kept(b)
  {
    RowResultsAppend(a, b);
    CollectAppend(RowResults(a), RowResults(b));
  }

  /** Reading two runs of rows one after the other is reading each run. */
  lemma RowResultsAppend(a: seq<Row>, b: seq<Row>)
    ensures RowResults(a + b) == RowResults(a) + RowResults(b)
  {
    MapSeqAppend(RowProduct, a, b);
  }

  /**
   * Every kept product is the product of one of the rows, so it is valid,
   * with a non-empty trimmed model number and name and a positive price.
   */
  lemma KeptFromRows(rows: seq<Row>)
    ensures forall j :: 0 <= j < |Kept(rows)| ==> Present(RowResults(rows), Kept(rows)[j])
    ensures forall j :: 0 <= j < |Kept(rows)| ==>
      Valid(Kept(rows)[j]) && Trim(Kept(rows)[j].modelNumber) == Kept(rows)[j].modelNumber
      && Trim(Kept(rows)[j].name) == Kept(rows)[j].name
  {
    var rs := RowResults(rows);
    CollectFrom(rs);
    forall j | 0 <= j < |Kept(rows)|
      ensures Valid(Kept(rows)[j]) && Trim(Kept(rows)[j].modelNumber) == Kept(rows)[j].modelNumber
        && Trim(Kept(rows)[j].name) == Kept(rows)[j].name
    {
      assert Present(rs, Kept(rows)[j]);
      var k :| 0 <= k < |rs| && rs[k] == Some(Kept(rows)[j]);
      assert RowProduct(rows[k]) == Some(Kept(rows)[j]);
    }
  }

  /** The header row is never read: any header gives the same products. */
  lemma HeaderIgnored(h1: Row, h2: Row, rows: seq<Row>)
    ensures ParseExcel([h1] + rows) == ParseExcel([h2] + rows)
  {
    assert ([h1] + rows)[1..] == rows;
    assert ([h2] + rows)[1..] == rows;
  }

  /** Missing rows, empty rows and rows with a falsy first cell contribute nothing. */
  lemma SkippedRowsContributeNothing(front: seq<Row>, row: Row)
    requires Skipped(row)
    ensures Kept(front + [row]) == Kept(front)
  {
    KeptAppend(front, [row]);
    assert RowResults([row]) == [None];
  }

  /** What a spreadsheet upload gets back for one product. */
  datatype UploadOutcome = Uploaded | Failed(message: string) | ThrewNonError

  /** `BulkUploadResult` */
  datatype BulkUploadResult = BulkUploadResult(success: bool, message: string, productsAdded: nat, errors: seq<string>)

  /** How many uploads succeeded. */
  function UploadedCount(outcomes: seq<UploadOutcome>): (n: nat)
    ensures n <= |outcomes|
    decreases |outcomes|
  {
    if |outcomes| == 0 then 0
    else UploadedCount(outcomes[..|outcomes| - 1]) + (if outcomes[|outcomes| - 1].Uploaded? then 1 else 0)
  }

  /** The error line for the product at 0-based index `i`: `Row ${i + 1}: ${message}`. */
  function ErrorLine(i: nat, outcome: UploadOutcome): string
    requires !outcome.Uploaded?
  {
    "Row " + NatToString(i + 1) + ": " + (if outcome.Failed? then outcome.message else "Unknown error")
  }

  /** The error lines of the failed uploads, in input order. */
  function ErrorLines(outcomes: seq<UploadOutcome>): (errs: seq<string>)
    ensures UploadedCount(outcomes) + |errs| == |outcomes|
    decreases |outcomes|
  {
    if |outcomes| == 0 then []
    else
      var n := |outcomes| - 1;
      var front := ErrorLines(outcomes[..n]);
      if outcomes[n].Uploaded? then front else front + [ErrorLine(n, outcomes[n])]
  }

  /** The classification after the loop, from the count added and the number of products. */
  function Summary(added: nat, total: nat, errors: seq<string>): (r: BulkUploadResult)
    ensures r.success <==> added == total
    ensures r.productsAdded == added && r.errors == errors
  {
    if added == total then
      BulkUploadResult(true, "Successfully uploaded " + NatToString(added) + " products", added, errors)
    else if added > 0 then
      BulkUploadResult(false, "Uploaded " + NatToString(added) + " of " + NatToString(total)
        + " products with errors", added, errors)
    else BulkUploadResult(false, "Failed to upload products", added, errors)
  }

  const NotConfigured := BulkUploadResult(false, "Firebase not configured", 0, [])

  /**
   * `bulkUploadProducts(products, sellerId)`; `outcomes[i]` is what uploading
   * `products[i]` gave. Without a valid configuration nothing is attempted.
   */
  method BulkUploadProducts(products: seq<ProductUpload>, sellerId: string, configValid: bool,
                            outcomes: seq<UploadOutcome>) returns (result: BulkUploadResult)
    requires |outcomes| == |products|
    ensures !configValid ==> result == NotConfigured
    ensures configValid ==> result == Summary(UploadedCount(outcomes), |products|, ErrorLines(outcomes))
    ensures configValid ==> result.productsAdded + |result.errors| == |products|
  {
    result := BulkUploadResult(true, "", 0, []);
    if !configValid {
      result := result.(success := false, message := "Firebase not configured");
      return;
    }
    var i := 0;
    while i < |products|
      invariant 0 <= i <= |products|
      invariant result.productsAdded == UploadedCount(outcomes[..i])
      invariant result.errors == ErrorLines(outcomes[..i])
      invariant result.success && result.message == ""
    {
      assert outcomes[..i + 1][..i] == outcomes[..i];
      if outcomes[i].Uploaded? {
        result := result.(productsAdded := result.productsAdded + 1);
      } else {
        result := result.(errors := result.errors + [ErrorLine(i, outcomes[i])]);
      }
      i := i + 1;
    }
    assert outcomes[..i] == outcomes;
    assert result.productsAdded + |result.errors| == |products|;
    if result.productsAdded == |products| {
      result := result.(message := "Successfully uploaded " + NatToString(result.productsAdded) + " products");
    } else if result.productsAdded > 0 {
      result := result.(success := false, message := "Uploaded " + NatToString(result.productsAdded) + " of "
        + NatToString(|products|) + " products with errors");
    } else {
      result := result.(success := false, message := "Failed to upload products");
    }
  }

  /** Success means every upload went through, including for an empty list. */
  lemma {:induction false} SuccessIffAllUploaded(outcomes: seq<UploadOutcome>)
    ensures Summary(UploadedCount(outcomes), |outcomes|, ErrorLines(outcomes)).success
        <==> forall k :: 0 <= k < |outcomes| ==> outcomes[k].Uploaded?
    decreases |outcomes|
  {
    if |outcomes| > 0 {
      var n := |outcomes| - 1;
      SuccessIffAllUploaded(outcomes[..n]);
      assert forall k :: 0 <= k < n ==> outcomes[..n][k] == outcomes[k];
    }
  }

  lemma ConcatEnds(a: string, b: string)
    ensures StartsWith(a + b, a) && EndsWith(a + b, b)
  {
    assert (a + b)[..|a|] == a;
    assert (a + b)[|a + b| - |b|..] == b;
  }

  /** `${sellerId}/${modelNumber}_${timestamp}.${name.split('.').pop()}` */
  function ImageFileName(sellerId: string, modelNumber: string, timestamp: nat, fileName: string): (r: string)
    ensures StartsWith(r, sellerId + "/" + modelNumber + "_")
    ensures EndsWith(r, "." + LastPiece(fileName, "."))
    ensures r == sellerId + "/" + modelNumber + "_" + NatToString(timestamp) + "." + LastPiece(fileName, ".")
  {
    var head := sellerId + "/" + modelNumber + "_";
    var tail := "." + LastPiece(fileName, ".");
    var mid := head + NatToString(timestamp);
    ConcatEnds(mid, tail);
    ConcatEnds(head, NatToString(timestamp));
    assert (mid + tail)[..|head|] == mid[..|head|];
    mid + tail
  }

  /** The storage reference of an image: `products/${fileName}`. */
  function ImageStoragePath(sellerId: string, modelNumber: string, timestamp: nat, fileName: string): (r: string)
    ensures StartsWith(r, "products/" + sellerId + "/")
    ensures r == "products/" + ImageFileName(sellerId, modelNumber, timestamp, fileName)
  {
    var name := ImageFileName(sellerId, modelNumber, timestamp, fileName);
    var r := "products/" + name;
    assert r[..|"products/" + sellerId + "/"|] == "products/" + sellerId + "/";
    r
  }

  /**
   * Between the `_` and the extension's dot the name holds the timestamp's
   * decimal digits, which read back as the timestamp.
   */
  lemma ImageNameTimestamp(sellerId: string, modelNumber: string, timestamp: nat, fileName: string)
    ensures var r := ImageFileName(sellerId, modelNumber, timestamp, fileName);
      var start := |sellerId + "/" + modelNumber + "_"|;
      var stop := |r| - |"." + LastPiece(fileName, ".")|;
      start <= stop && ParseFloat(r[start..stop]) == Some(timestamp as real)
  {
    var head := sellerId + "/" + modelNumber + "_";
    var digits := NatToString(timestamp);
    var tail := "." + LastPiece(fileName, ".");
    var r := ImageFileName(sellerId, modelNumber, timestamp, fileName);
    assert r == head + digits + tail;
    assert r[|head|..|r| - |tail|] == digits;
    ParseFloatOfNatString(timestamp);
  }

  /** The extension is the text after the last dot of the file name. */
  lemma ExtensionAfterLastDot(base: string, ext: string)
    requires !Contains(ext, ".")
    ensures LastPiece(base + "." + ext, ".") == ext
  {
    LastPieceSkipsPrefix(base, ext);
    NoSeparatorSinglePiece(ext, ".");
  }

  lemma {:induction false} LastPieceSkipsPrefix(a: string, b: string)
    ensures Split(a + "." + b, ".")[|Split(a + "." + b, ".")| - 1] == Split(b, ".")[|Split(b, ".")| - 1]
    decreases |a|
  {
    var s := a + "." + b;
    assert s[|a|..][..1] == ".";
    IndexOfFirst(s, ".");
    var i := IndexOf(s, ".").value;
    assert i <= |a|;
    var rest := s[i + 1..];
    SplitStep(s, ".");
    var t := Split(rest, ".");
    assert ([s[..i]] + t)[|t|] == t[|t| - 1];
    if i == |a| {
      assert rest == b;
    } else {
      assert s[i..][..1] == [s[i]];
      assert s[i] == a[i];
      var a' := a[i + 1..];
      assert rest == a' + "." + b;
      LastPieceSkipsPrefix(a', b);
    }
  }

  /** A name without a dot is used whole as the extension. */
  lemma NoDotFileName(fileName: string)
    requires !Contains(fileName, ".")
    ensures LastPiece(fileName, ".") == fileName
  {
    NoSeparatorSinglePiece(fileName, ".");
  }
}

/**
 * The seller's spreadsheet upload form (components/BulkUploadComponent.tsx):
 * a file is accepted when its MIME type or its name says Excel; uploading
 * reads the first sheet into rows, keeps the valid products and hands them
 * to the bulk upload, and the outcome is shown as one notice.
 *
 * Reading the workbook is an input: the rows of its first sheet, or `None`
 * when reading throws. What each product's upload gives is an input too.
 */
module BulkUpload {
  import opened Wrappers
  import opened Strings
  import opened Domain
  import Products

  const XlsxMime := "application/vnd.openxmlformats-officedocument.spreadsheetml.sheet"
  const XlsMime := "application/vnd.ms-excel"

  /** The type test of `handleFileChange`: either Excel MIME type, or a name ending in `.xlsx` or `.xls` (case-sensitive). */
  predicate IsExcelFile(mimeType: string, name: string) {
    mimeType == XlsxMime || mimeType == XlsMime || EndsWith(name, ".xlsx") || EndsWith(name, ".xls")
  }

  /** Whatever the name, a file sent with an Excel MIME type is accepted. */
  lemma ExcelMimeAccepted(mimeType: string, name: string)
    requires mimeType in {XlsxMime, XlsMime}
    ensures IsExcelFile(mimeType, name)
  {
  }

  /** Whatever the MIME type, a name ending in `.xlsx` or `.xls` is accepted. */
  lemma ExcelNameAccepted(mimeType: string, stem: string, ext: string)
    requires ext == ".xlsx" || ext == ".xls"
    ensures IsExcelFile(mimeType, stem + ext)
  {
    Products.ConcatEnds(stem, ext);
  }

  /** The name test is case-sensitive: `REPORT.XLSX` sent as plain text is refused. */
  lemma UpperCaseExtensionRefused()
    ensures !IsExcelFile("text/plain", "REPORT.XLSX")
  {
    assert "REPORT.XLSX"[6..] == ".XLSX";
    assert "REPORT.XLSX"[7..] == "XLSX";
  }

  /** A chosen file: its name, its MIME type and, when it can be read, the rows of its first sheet. */
  datatype SelectedFile = SelectedFile(name: string, mimeType: string, rows: Option<seq<Products.Row>>)

  /** The notice the form shows (the translated texts are not modelled). */
  datatype Notice =
    | InvalidFile
    | NoValidProducts
    | UploadSucceeded(productsAdded: nat)
    | UploadFailed(text: string)
    | ReadFailed

  /** The error text of a failed bulk upload: `${message}. Errors: ${errors.join(', ')}`. */
  function FailureText(result: Products.BulkUploadResult): (text: string)
    ensures StartsWith(text, result.message + ". Errors: ")
    ensures EndsWith(text, Join(result.errors, ", "))
  {
    Products.ConcatEnds(result.message + ". Errors: ", Join(result.errors, ", "));
    result.message + ". Errors: " + Join(result.errors, ", ")
  }

  /**
   * What `bulkUploadProducts` answers for the products and the per-product
   * outcomes: the function form of `Products.BulkUploadProducts`' postcondition.
   */
  function UploadResult(products: seq<Products.ProductUpload>, configValid: bool,
                        outcomes: seq<Products.UploadOutcome>): (r: Products.BulkUploadResult)
    requires |outcomes| == |products|
    ensures !configValid ==> r == Products.NotConfigured
    ensures r.success <==> configValid && Products.UploadedCount(outcomes) == |products|
    ensures configValid ==> r.productsAdded == Products.UploadedCount(outcomes)
    ensures configValid ==> r.productsAdded + |r.errors| == |products|
  {
    if !configValid then Products.NotConfigured
    else Products.Summary(Products.UploadedCount(outcomes), |products|, Products.ErrorLines(outcomes))
  }

  /** The outcome notice of `handleUpload` once a file and a user are present. */
  function UploadNotice(rows: Option<seq<Products.Row>>, configValid: bool,
                        outcomes: seq<Products.UploadOutcome>): (n: Notice)
    requires rows.Some? ==> |outcomes| == |Products.ParseExcel(rows.value)|
    ensures n.ReadFailed? <==> rows.None?
    ensures n.NoValidProducts? <==> rows.Some? && |Products.ParseExcel(rows.value)| == 0
    ensures n.UploadSucceeded? ==> n.productsAdded == |Products.ParseExcel(rows.value)| > 0
    ensures n != InvalidFile
  {
    if rows.None? then ReadFailed
    else
      var products := Products.ParseExcel(rows.value);
      if |products| == 0 then NoValidProducts
      else
        var result := UploadResult(products, configValid, outcomes);
        if result.success then UploadSucceeded(result.productsAdded) else UploadFailed(FailureText(result))
  }

  /**
   * The upload succeeds exactly when the configuration is valid and every
   * product's upload went through; a partial upload is reported as a failure.
   */
  lemma SucceededIffAllUploaded(rows: seq<Products.Row>, configValid: bool, outcomes: seq<Products.UploadOutcome>)
    requires |outcomes| == |Products.ParseExcel(rows)| > 0
    ensures UploadNotice(Some(rows), configValid, outcomes).UploadSucceeded?
        <==> configValid && forall k :: 0 <= k < |outcomes| ==> outcomes[k].Uploaded?
  {
    Products.SuccessIffAllUploaded(outcomes);
  }

  /** A sheet with nothing below its header never reaches the upload. */
  lemma HeaderOnlySheet(header: Products.Row, configValid: bool)
    ensures UploadNotice(Some([header]), configValid, []) == NoValidProducts
  {
    assert [header][1..] == [];
  }

  /** Without a configuration, a sheet with products fails with the configuration result's text. */
  lemma UnconfiguredUploadFails(rows: seq<Products.Row>, outcomes: seq<Products.UploadOutcome>)
    requires |outcomes| == |Products.ParseExcel(rows)| > 0
    ensures UploadNotice(Some(rows), false, outcomes) == UploadFailed(FailureText(Products.NotConfigured))
  {
    assert UploadResult(Products.ParseExcel(rows), false, outcomes) == Products.NotConfigured;
  }

  /** That text is the configuration message followed by an empty error list. */
  lemma NotConfiguredText()
    ensures FailureText(Products.NotConfigured) == "Firebase not configured. Errors: "
  {
    assert Join([], ", ") == "";
  }

  /** The form's state. */
  class BulkUploadForm {
    var file: Option<SelectedFile>
    var uploading: bool
    var message: Option<Notice>
    var progress: string

    /** The form starts with no file, no notice and nothing in progress. */
    constructor ()
      ensures file.None? && !uploading && message.None? && progress == ""
    {
      file := None;
      uploading := false;
      message := None;
      progress := "";
    }

    /**
     * `handleFileChange` with the first chosen file, if any: an Excel file
     * replaces the current one and clears the notice; any other file clears
     * the current one and shows the invalid-file notice.
     */
    method HandleFileChange(selected: Option<SelectedFile>)
      modifies this`file, this`message
      ensures selected.None? ==> file == old(file) && message == old(message)
      ensures selected.Some? && IsExcelFile(selected.value.mimeType, selected.value.name) ==>
        file == selected && message.None?
      ensures selected.Some? && !IsExcelFile(selected.value.mimeType, selected.value.name) ==>
        file.None? && message == Some(InvalidFile)
    {
      if selected.None? {
        return;
      }
      var f := selected.value;
      if f.mimeType == XlsxMime || f.mimeType == XlsMime || EndsWith(f.name, ".xlsx") || EndsWith(f.name, ".xls") {
        file := selected;
        message := None;
      } else {
        message := Some(InvalidFile);
        file := None;
      }
    }

    /**
     * `handleUpload` for the signed-in `user`: nothing without a file or a
     * user; otherwise the sheet is parsed, an empty product list stops before
     * the upload, a success clears the chosen file, and in every case the
     * form ends neither uploading nor showing progress.
     */
    method HandleUpload(user: Option<User>, configValid: bool, outcomes: seq<Products.UploadOutcome>)
      requires file.Some? && file.value.rows.Some? ==> |outcomes| == |Products.ParseExcel(file.value.rows.value)|
      modifies this`file, this`uploading, this`message, this`progress
      ensures old(file).None? || user.None? ==>
        file == old(file) && uploading == old(uploading) && message == old(message) && progress == old(progress)
      ensures old(file).Some? && user.Some? ==>
        var notice := UploadNotice(old(file).value.rows, configValid, outcomes);
        message == Some(notice)
        && !uploading && progress == ""
        && file == (if notice.UploadSucceeded? then None else old(file))
    {
      if file.None? || user.None? {
        return;
      }
      uploading := true;
      message := None;
      var rows := file.value.rows;
      if rows.None? {
        message := Some(ReadFailed);
        uploading := false;
        progress := "";
        return;
      }
      var products := Products.ParseExcelToProducts(rows.value);
      if |products| == 0 {
        message := Some(NoValidProducts);
        uploading := false;
        progress := "";
        return;
      }
      var result := Products.BulkUploadProducts(products, user.value.id, configValid, outcomes);
      if result.success {
        message := Some(UploadSucceeded(result.productsAdded));
        file := None;
      } else {
        message := Some(UploadFailed(FailureText(result)));
      }
      uploading := false;
      progress := "";
    }
  }
}

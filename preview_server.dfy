/** The third server variant: the listing classifies every file, shows a
    category icon and, for images, PDFs and text, a Preview button; a
    `/view` route serves a file inline for those previews. */
module PreviewServer {
  import opened FileStore
  import opened MimeClassifier

  /** One entry of `file_data`: a stored name and its category. */
  datatype FileInfo = FileInfo(name: string, kind: FileCategory)

  /** One rendered row: the icon before the name, whether a Preview button
      is shown, and the name the Download link points to. */
  datatype Row = Row(name: string, icon: Icon, previewButton: bool, downloadLink: string)

  /** The "Your Files" card: the count and one row per entry, or the empty
      state when there are no entries. */
  datatype Page = EmptyState | FileList(count: nat, rows: seq<Row>)

  /** The loop of `index`: one entry per listed name, in listing order,
      each paired with the name's category. */
  method BuildFileData(files: seq<string>, guess: Guesser) returns (fileData: seq<FileInfo>)
    ensures |fileData| == |files|
    ensures forall i :: 0 <= i < |files| ==>
      fileData[i].name == files[i] && fileData[i].kind == Classify(guess, files[i])
  {
    fileData := [];
    for i := 0 to |files|
      invariant |fileData| == i
      invariant forall k :: 0 <= k < i ==>
        fileData[k].name == files[k] && fileData[k].kind == Classify(guess, files[k])
    {
      fileData := fileData + [FileInfo(files[i], Classify(guess, files[i]))];
    }
  }

  /** One row of the template: the category's icon, a Preview button just
      for the inline-renderable categories, and a Download link that is
      always there and points at the row's own name. */
  function RenderRow(info: FileInfo): (row: Row)
    ensures row.name == info.name && row.downloadLink == info.name
    ensures row.previewButton <==> Previewable(info.kind)
    ensures row.icon == GenericIcon <==> info.kind == PowerPoint || info.kind == Other
    ensures row.icon == IconFor(info.kind)
  {
    Row(info.name, IconFor(info.kind), Previewable(info.kind), info.name)
  }

  /** The listing card: empty state for no entries, otherwise the count and
      one row per entry in the same order. */
  function RenderPage(fileData: seq<FileInfo>): (page: Page)
    ensures page.EmptyState? <==> fileData == []
    ensures page.FileList? ==>
      page.count == |page.rows| == |fileData|
      && forall i :: 0 <= i < |fileData| ==> page.rows[i] == RenderRow(fileData[i])
  {
    if fileData == [] then EmptyState
    else FileList(|fileData|, seq(|fileData|, i requires 0 <= i < |fileData| => RenderRow(fileData[i])))
  }

  /** Route `/`: list the folder, classify each name and render the card.
      Every stored file gets exactly one row, showing the icon and the
      Preview button of its own category. */
  method Index(folder: UploadFolder, guess: Guesser) returns (page: Page)
    ensures page.EmptyState? <==> folder.files.Keys == {}
    ensures page.FileList? ==> page.count == |page.rows| == |folder.files|
    ensures page.FileList? ==> IsEnumeration(RowNames(page.rows), folder.files.Keys)
    ensures page.FileList? ==> forall i :: 0 <= i < |page.rows| ==>
      page.rows[i] == RenderRow(FileInfo(page.rows[i].name, Classify(guess, page.rows[i].name)))
  {
    var files := folder.ListDir();
    EnumerationSize(files, folder.files.Keys);
    var fileData := BuildFileData(files, guess);
    page := RenderPage(fileData);
    if page.FileList? {
      assert files[0] in folder.files;
      assert RowNames(page.rows) == files;
    }
  }

  /** The names of a list of rows, in order. */
  function RowNames(rows: seq<Row>): (names: seq<string>)
    ensures |names| == |rows| && forall i :: 0 <= i < |rows| ==> names[i] == rows[i].name
  {
    seq(|rows|, i requires 0 <= i < |rows| => rows[i].name)
  }

  /** Route `/upload`: store the `file` part unless it is missing or its
      filename is blank, then redirect to the listing. */
  method UploadFile(folder: UploadFolder, form: UploadForm)
    modifies folder
    ensures folder.files == AfterUpload(old(folder.files), form)
  {
    folder.Upload(form);
  }

  /** Route `/files/<filename>`: the stored bytes as an attachment. */
  function DownloadFile(folder: UploadFolder, filename: string): (r: Response)
    reads folder
    ensures r.Served? <==> filename in folder.files
    ensures r.Served? ==> r.body == folder.files[filename] && r.asAttachment
  {
    Serve(folder.files, filename, true)
  }

  /** Route `/view/<filename>`: the stored bytes, for inline display. */
  function ViewFile(folder: UploadFolder, filename: string): (r: Response)
    reads folder
    ensures r.Served? <==> filename in folder.files
    ensures r.Served? ==> r.body == folder.files[filename] && !r.asAttachment
  {
    Serve(folder.files, filename, false)
  }
}

/** The second server variant ("File Transfer Hub"): the same routes as
    the first, with a file count beside the listing's title. */
module StyledServer {
  import opened FileStore

  /** The "Your Files" card: the count and the names in listing order, or
      the empty state when the folder is empty. */
  datatype Page = EmptyState | FileList(count: nat, names: seq<string>)

  /** Route `/`: list the folder and render the card; the count shown is
      the number of files stored. */
  method Index(folder: UploadFolder) returns (page: Page)
    ensures page.EmptyState? <==> folder.files.Keys == {}
    ensures page.FileList? ==> IsEnumeration(page.names, folder.files.Keys)
    ensures page.FileList? ==> page.count == |page.names| == |folder.files|
  {
    var files := folder.ListDir();
    EnumerationSize(files, folder.files.Keys);
    if files == [] {
      page := EmptyState;
    } else {
      assert files[0] in folder.files;
      page := FileList(|files|, files);
    }
  }

  /** Route `/upload`: store the `file` part unless it is missing or its
      filename is blank, then redirect to the listing. */
  method UploadFile(folder: UploadFolder, form: UploadForm)
    modifies folder
    ensures folder.files == AfterUpload(old(folder.files), form)
  {
    folder.Upload(form);
  }

  /** Route `/files/<filename>`: the stored bytes as an attachment. This
      variant has no inline view route. */
  function DownloadFile(folder: UploadFolder, filename: string): (r: Response)
    reads folder
    ensures r.Served? <==> filename in folder.files
    ensures r.Served? ==> r.body == folder.files[filename] && r.asAttachment
  {
    Serve(folder.files, filename, true)
  }
}

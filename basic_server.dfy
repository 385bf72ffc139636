/** The first server variant ("Local File Server"): a plain list of the
    stored names, an upload form and an attachment download per name. */
module BasicServer {
  import opened FileStore

  /** The "Uploaded Files" card: the names in listing order, or the
      "No files uploaded yet." line when the folder is empty. */
  datatype Page = NoFilesMessage | FileList(names: seq<string>)

  /** Route `/`: list the folder and render the card. */
  method Index(folder: UploadFolder) returns (page: Page)
    ensures page.NoFilesMessage? <==> folder.files.Keys == {}
    ensures page.FileList? ==> IsEnumeration(page.names, folder.files.Keys)
  {
    var files := folder.ListDir();
    if files == [] {
      page := NoFilesMessage;
    } else {
      assert files[0] in folder.files;
      page := FileList(files);
    }
  }

  /** Route `/upload`: store the `file` part unless it is missing or its
      filename is blank, then redirect to the listing. */
  method UploadFile(folder: UploadFolder, form: UploadForm)
    modifies folder
    ensures folder.files == AfterUpload(old(folder.files), form)
  {
    folder.Upload(form);
  }

  /** Route `/files/<filename>`: the stored bytes as an attachment. */
  function DownloadFile(folder: UploadFolder, filename: string): (r: Response)
    reads folder
    ensures r.Served? <==> filename in folder.files
    ensures r.Served? ==> r.body == folder.files[filename] && r.asAttachment
  {
    Serve(folder.files, filename, true)
  }
}

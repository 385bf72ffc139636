/** The uploads directory that all three server variants share: a flat
    folder of named files, written by the upload route, enumerated by the
    index route and read back by the retrieval routes. */
module FileStore {
  import opened Wrappers
  import PyText

  newtype byte = x: int | 0 <= x < 256
  type Bytes = seq<byte>

  /** One file part of a multipart form: the client's filename and the bytes. */
  datatype FilePart = FilePart(filename: string, content: Bytes)

  /** An upload request as the handler sees it: the part under the form
      field `file`, if the request has one. */
  datatype UploadForm = UploadForm(file: Option<FilePart>)

  /** The answer of a retrieval route: the stored bytes, sent as an
      attachment (a download) or inline (a view), or a not-found answer. */
  datatype Response = Served(body: Bytes, asAttachment: bool) | NotFound

  /** The guard of `upload_file`: a `file` part is present and its filename
      is not empty after `strip()`. (A file part is truthy exactly when its
      filename is non-empty, which the strip test already implies.) */
  predicate Accepts(form: UploadForm)
  {
    form.file.Some? && PyText.Strip(form.file.value.filename) != ""
  }

  /** The folder after `upload_file` handled `form`: an accepted part is
      written under its filename, replacing any file of that name; a
      missing part or a blank filename leaves the folder as it was. */
  function AfterUpload(files: map<string, Bytes>, form: UploadForm): (r: map<string, Bytes>)
    ensures form.file.None? ==> r == files
    ensures form.file.Some? && PyText.IsBlank(form.file.value.filename) ==> r == files
    ensures Accepts(form) ==>
      && form.file.value.filename in r
      && r[form.file.value.filename] == form.file.value.content
      && r.Keys == files.Keys + {form.file.value.filename}
      && forall n :: n in files && n != form.file.value.filename ==> r[n] == files[n]
  {
    match form.file
    case None => files
    case Some(part) =>
      if PyText.Strip(part.filename) != "" then files[part.filename := part.content] else files
  }

  /** `send_from_directory(UPLOAD_FOLDER, name, as_attachment=...)`: the
      bytes stored under `name`, or not-found when there is no such file. */
  function Serve(files: map<string, Bytes>, name: string, asAttachment: bool): (r: Response)
    ensures r.Served? <==> name in files
    ensures r.Served? ==> r.body == files[name] && r.asAttachment == asAttachment
  {
    if name in files then Served(files[name], asAttachment) else NotFound
  }

  predicate Distinct(names: seq<string>)
  {
    forall i, j :: 0 <= i < j < |names| ==> names[i] != names[j]
  }

  /** `names` lists every name of `keys` once, in some order. */
  ghost predicate IsEnumeration(names: seq<string>, keys: set<string>)
  {
    Distinct(names) && forall n :: n in names <==> n in keys
  }

  /** An enumeration is exactly as long as the set it enumerates. */
  lemma {:induction false} EnumerationSize(names: seq<string>, keys: set<string>)
    requires IsEnumeration(names, keys)
    ensures |names| == |keys|
  {
    if names == [] {
      assert forall n :: n !in keys;
    } else {
      var last := names[|names| - 1];
      var init := names[..|names| - 1];
      assert names == init + [last];
      assert IsEnumeration(init, keys - {last}) by {
        forall n ensures n in init <==> n in keys - {last} {
          if n in init {
            var i :| 0 <= i < |init| && init[i] == n;
            assert names[i] != names[|names| - 1];
          }
          if n in keys - {last} {
            assert n in names;
            var i :| 0 <= i < |names| && names[i] == n;
            assert i != |names| - 1;
            assert init[i] == n;
          }
        }
      }
      EnumerationSize(init, keys - {last});
    }
  }

  /** The uploads directory, as the map from file name to file contents. */
  class UploadFolder {
    var files: map<string, Bytes>

    /** The folder as the server finds it at start-up. */
    constructor (initial: map<string, Bytes>)
      ensures files == initial
    {
      files := initial;
    }

    /** The write of `upload_file`: `file.save(os.path.join(UPLOAD_FOLDER,
        file.filename))` behind the handler's guard. */
    method Upload(form: UploadForm)
      modifies this
      ensures files == AfterUpload(old(files), form)
    {
      if form.file.None? {
        return;
      }
      var part := form.file.value;
      if PyText.Strip(part.filename) != "" {
        files := files[part.filename := part.content];
      }
    }

    /** `os.listdir(UPLOAD_FOLDER)`: every stored name once, in an order the
        model leaves open, as the file system does. */
    method ListDir() returns (names: seq<string>)
      ensures IsEnumeration(names, files.Keys)
    {
      names := [];
      var rest := files.Keys;
      while rest != {}
        invariant rest <= files.Keys
        invariant Distinct(names)
        invariant forall n :: n in names ==> n in files && n !in rest
        invariant forall n :: n in files ==> n in names || n in rest
        decreases rest
      {
        var n :| n in rest;
        names := names + [n];
        rest := rest - {n};
      }
    }
  }

  /** After an accepted upload, both retrieval routes give back exactly the
      uploaded bytes under the uploaded name, and the other names still
      give what they gave before. */
  lemma UploadThenRetrieve(files: map<string, Bytes>, form: UploadForm, name: string, asAttachment: bool)
    requires Accepts(form)
    ensures name == form.file.value.filename ==>
      Serve(AfterUpload(files, form), name, asAttachment) == Served(form.file.value.content, asAttachment)
    ensures name != form.file.value.filename ==>
      Serve(AfterUpload(files, form), name, asAttachment) == Serve(files, name, asAttachment)
  {
  }

  /** Uploading twice under one name keeps only the second upload's bytes:
      the folder is as if the first upload had never happened. */
  lemma LastUploadWins(files: map<string, Bytes>, first: UploadForm, second: UploadForm)
    requires Accepts(first) && Accepts(second)
    requires first.file.value.filename == second.file.value.filename
    ensures AfterUpload(AfterUpload(files, first), second) == AfterUpload(files, second)
  {
  }

  /** Download and view of one name agree: both find the file or neither
      does, and they send the same bytes, differing only in the
      attachment flag. */
  lemma DownloadAndViewAgree(files: map<string, Bytes>, name: string)
    ensures Serve(files, name, true).Served? <==> Serve(files, name, false).Served?
    ensures Serve(files, name, true).Served? ==>
      Serve(files, name, true).body == Serve(files, name, false).body
      && Serve(files, name, true).asAttachment && !Serve(files, name, false).asAttachment
  {
  }

  /** The next listing after an accepted upload shows the uploaded name,
      and has one entry more than before exactly when the name is new. */
  lemma UploadThenListed(files: map<string, Bytes>, form: UploadForm, before: seq<string>, after: seq<string>)
    requires Accepts(form)
    requires IsEnumeration(before, files.Keys)
    requires IsEnumeration(after, AfterUpload(files, form).Keys)
    ensures form.file.value.filename in after
    ensures |after| == |before| + (if form.file.value.filename in files then 0 else 1)
  {
    EnumerationSize(before, files.Keys);
    EnumerationSize(after, AfterUpload(files, form).Keys);
    var name := form.file.value.filename;
    if name in files {
      assert AfterUpload(files, form).Keys == files.Keys;
    } else {
      assert AfterUpload(files, form).Keys == files.Keys + {name};
      assert |files.Keys + {name}| == |files.Keys| + 1;
    }
  }

  /** A rejected upload leaves every listing as it was: the old listing is
      still an enumeration of the folder. */
  lemma RejectedUploadKeepsListing(files: map<string, Bytes>, form: UploadForm, names: seq<string>)
    requires !Accepts(form)
    requires IsEnumeration(names, files.Keys)
    ensures IsEnumeration(names, AfterUpload(files, form).Keys)
  {
  }
}

# File drop server: a Dafny model

The repository holds three variants of one small Flask server for moving
files over a local network. Clients upload a file through a browser form,
list what is stored, and download it again. The newest variant also sorts
every file into a coarse category. It shows a category icon and, for
images, PDFs and text files, an inline preview that a page script toggles
open and shut.

This project models the logic under the HTML of all three variants:

- `MimeClassifier` (`mime_classifier.dfy`) covers `get_file_type`, the
  if/elif chain from a guessed MIME type to one of nine categories. It also
  covers the listing template's choice of icon and of the Preview button.
- `FileStore` (`file_store.dfy`) covers the uploads directory that all
  three variants share. The directory is the class `UploadFolder`, whose
  field `files` maps each file name to its bytes. The upload guard and its
  write, `send_from_directory` as `Serve`, and `os.listdir` as `ListDir`
  live here. `ListDir` gives every stored name once, in an order the model
  does not fix.
- `TextTrim` (`text_trim.dfy`) cuts leading and trailing whitespace for a
  given whitespace test. Python's `strip()` and JavaScript's `trim()` are
  both this cut, over different character sets.
- `PyText` (`py_text.dfy`) covers Python's `str.strip()` and the
  per-character whitespace test of `str.isspace()`. The upload guard uses
  them to reject blank filenames.
- `BasicServer` (`basic_server.dfy`), `StyledServer` (`styled_server.dfy`)
  and `PreviewServer` (`preview_server.dfy`) are the routes of
  `Upload_Download_file.py`, `Upload_Download_file_latest.py` and
  `Upload_Download_file_latest2.py`. Each one works on the shared folder.
- `PreviewToggle` (`preview_toggle.dfy`) covers the newest variant's
  `togglePreview` script. The class `PreviewPanel` holds the per-row
  `active` flags, the container contents and the `activePreview` pointer.
  The lookup loop that picks the target row is the method `FindTarget`.

The MIME guesser (`mimetypes.guess_type`) is a table outside the server.
It appears as a parameter `guess: string -> Option<string>`, so a claim
such as ".png is an image" is not a property of this model.

## Model

| member | source | states |
|---|---|---|
| `MimeClassifier.CategoryOfMime` | Upload_Download_file_latest2.py:11-28 | each category is characterised on its own. Image, video, audio and text are exactly the `image/`, `video/`, `audio/`, `text/` prefixes. Pdf is exactly `application/pdf`. Word, Excel and PowerPoint are exactly their two listed MIME strings. Other is exactly "no guess, or no rule claims it". So the order of the chain never decides the result. |
| `MimeClassifier.PrefixesExclusive` | Upload_Download_file_latest2.py:12-27 | no MIME string is claimed by two of the eight rules |
| `MimeClassifier.Classify` | Upload_Download_file_latest2.py:9-28 | the category is `CategoryOfMime` of the name's guessed MIME type, so every prefix and exact-string rule of `get_file_type` applies to the name; no guess gives Other |
| `MimeClassifier.IconFor` | Upload_Download_file_latest2.py:404-420 | the icon is generic exactly for PowerPoint and Other, since PowerPoint has no icon branch |
| `MimeClassifier.IconDistinguishesCategories` | Upload_Download_file_latest2.py:404-420 | two categories with the same non-generic icon are the same category |
| `TextTrim.Trim` | Upload_Download_file_latest2.py:460 | the result is the slice left after cutting a whitespace-only prefix and a whitespace-only suffix; it is empty exactly when every character is whitespace, and otherwise it starts and ends on a non-whitespace character |
| `TextTrim.TrimShortens` | Upload_Download_file_latest2.py:460 | a trim that changes its input makes it strictly shorter |
| `PyText.Strip` | Upload_Download_file_latest2.py:524 | the result is the slice of the name left after cutting a whitespace-only prefix and a whitespace-only suffix; it is empty exactly when every character is whitespace, and otherwise it starts and ends on a non-whitespace character |
| `FileStore.AfterUpload` | Upload_Download_file_latest2.py:519-527 | a missing `file` part, or a filename made only of whitespace (the guard `Accepts` fails), leaves the folder unchanged. An accepted upload maps the name to the uploaded bytes; the name set gains only that name, and every other entry keeps its bytes. |
| `FileStore.Serve` | Upload_Download_file_latest2.py:529-535 | the file is served exactly when the name is stored, with the stored bytes and the requested attachment flag; otherwise not found |
| `FileStore.UploadFolder.Upload` | Upload_Download_file_latest2.py:521-526 | the folder afterwards is `AfterUpload` of the folder before |
| `FileStore.UploadFolder.ListDir` | Upload_Download_file_latest2.py:510 | the result lists every stored name exactly once |
| `FileStore.EnumerationSize` | Upload_Download_file_latest.py:298-299 | a listing has as many entries as there are stored files, so the shown count is the number of files |
| `FileStore.UploadThenRetrieve` | Upload_Download_file.py:68-75 | after an accepted upload, download and view of that name return exactly the uploaded bytes; every other name answers as before |
| `FileStore.LastUploadWins` | Upload_Download_file.py:68-70 | two accepted uploads under one name leave the folder as the second upload alone would |
| `FileStore.DownloadAndViewAgree` | Upload_Download_file_latest2.py:529-535 | download and view both find a name or both miss it; they send the same bytes and differ only in the attachment flag |
| `FileStore.UploadThenListed` | Upload_Download_file_latest.py:329-341 | after an accepted upload the next listing contains the name; it is one entry longer exactly when the name is new |
| `FileStore.RejectedUploadKeepsListing` | Upload_Download_file_latest.py:336-339 | after a rejected upload, the listing from before still lists the folder |
| `BasicServer.Index` | Upload_Download_file.py:58-61 | the "No files uploaded yet." message shows exactly when the folder is empty; otherwise the page lists every stored name once |
| `BasicServer.UploadFile` | Upload_Download_file.py:63-71 | the folder afterwards is `AfterUpload` of the folder before |
| `BasicServer.DownloadFile` | Upload_Download_file.py:73-75 | the stored bytes are sent as an attachment exactly when the name is stored |
| `StyledServer.Index` | Upload_Download_file_latest.py:329-332 | the empty state shows exactly when the folder is empty; otherwise every stored name is listed once, and the count equals the list length and the number of files |
| `StyledServer.UploadFile` | Upload_Download_file_latest.py:334-342 | the folder afterwards is `AfterUpload` of the folder before |
| `StyledServer.DownloadFile` | Upload_Download_file_latest.py:344-346 | the stored bytes are sent as an attachment exactly when the name is stored |
| `PreviewServer.BuildFileData` | Upload_Download_file_latest2.py:511-516 | the entries are as many as the listed names and in the same order; entry i has name i and that name's category |
| `PreviewServer.RenderRow` | Upload_Download_file_latest2.py:404-433 | the Preview button shows exactly for image, pdf and text (`Previewable`, the template's `file.type in [...]` test); the Download link is always there and points at the row's own name; the icon is `IconFor` of the category, so it is generic exactly for PowerPoint and Other and distinct categories with non-generic icons show different icons |
| `PreviewServer.RenderPage` | Upload_Download_file_latest2.py:394-447 | the empty state shows exactly when there are no entries; otherwise the count equals the number of rows and of entries, and row i is `RenderRow` of entry i, with that entry's name, icon and Preview button |
| `PreviewServer.Index` | Upload_Download_file_latest2.py:508-517 | the empty state shows exactly when the folder is empty. Otherwise there is one row per stored file, the count equals the number of files, and every row shows the icon and Preview button of its name's category. |
| `PreviewServer.UploadFile` | Upload_Download_file_latest2.py:519-527 | the folder afterwards is `AfterUpload` of the folder before |
| `PreviewServer.DownloadFile` | Upload_Download_file_latest2.py:529-531 | the stored bytes are sent as an attachment exactly when the name is stored |
| `PreviewServer.ViewFile` | Upload_Download_file_latest2.py:533-535 | the stored bytes are sent inline exactly when the name is stored |
| `PreviewToggle.LastMatch` | Upload_Download_file_latest2.py:455-465 | the selected row's name contains the filename (`Contains`, JavaScript's `includes`), and no later row's does; -1 means that no row's name contains it |
| `PreviewToggle.FindTarget` | Upload_Download_file_latest2.py:456-463 | the `forEach` loop ends with `LastMatch` of the displayed names |
| `PreviewToggle.ExactMatch` | Upload_Download_file_latest2.py:458-463 | corrected lookup: -1 exactly when no row has the name; otherwise the selected row's name is the filename |
| `PreviewToggle.JsTrim` | Upload_Download_file_latest2.py:460 | `trim()` of a row's name text: the cut of `TextTrim` over JavaScript's whitespace (`IsJsSpace`), which leaves FS..US and NEL alone and cuts U+FEFF |
| `PreviewToggle.TrimsDifferOnNel` | Upload_Download_file_latest2.py:460 | Python's `strip()` cuts a trailing NEL from "a.txt" + NEL, while JavaScript's `trim()` keeps it |
| `PreviewToggle.TrimsDifferOnByteOrderMark` | Upload_Download_file_latest2.py:460 | JavaScript's `trim()` cuts a leading U+FEFF from U+FEFF + "a.txt", while Python's `strip()` keeps it |
| `PreviewToggle.RowTexts` | Upload_Download_file_latest2.py:425-460 | row k's text is `JsTrim` of stored name k, one text per stored name |
| `PreviewToggle.ExactMatchFindsOwnRow` | Upload_Download_file_latest2.py:425-436 | when the row texts are distinct, the corrected lookup of row i's text selects row i |
| `PreviewToggle.UnpaddedNameFindsOwnRow` | Upload_Download_file_latest2.py:425-465 | for distinct stored names none of which starts or ends with JavaScript whitespace, the corrected lookup of a stored name over the row texts selects that file's own row |
| `PreviewToggle.SubstringLookupOpensWrongRow` | Upload_Download_file_latest2.py:458-463 | with rows "a.txt" then "ba.txt", the lookup as written selects row 1 for "a.txt"; the corrected lookup selects row 0 |
| `PreviewToggle.PaddedNameMissesOwnRow` | Upload_Download_file_latest2.py:425-465 | for a stored name with leading or trailing JavaScript whitespace, whose row text is its `JsTrim`, the lookup as written never selects that row |
| `PreviewToggle.PaddedNameFindsNoRow` | Upload_Download_file_latest2.py:425-465 | with " notes.txt" listed alone (row text "notes.txt"), its Preview button finds no row and changes nothing |
| `PreviewToggle.PaddedNameOpensOtherRow` | Upload_Download_file_latest2.py:425-465 | with "my notes.txt" and " notes.txt" listed, the Preview button of " notes.txt" selects the row of "my notes.txt", whose text contains it |
| `PreviewToggle.PreviewMarkup` | Upload_Download_file_latest2.py:484-497 | a container gets content exactly for the categories that have a Preview button (`Previewable`); an image gets an `<img>`, a pdf an `<iframe>` and text a `fetch`, each pointing at the clicked file |
| `PreviewToggle.PreviewPanel.Valid` | Upload_Download_file_latest2.py:452-500 | a container is active exactly when `activePreview` points at it, and an inactive one is empty; hence at most one preview is open (the late resolution of a text fetch, which can fill a closed, hidden container, is left out) |
| `PreviewToggle.PreviewPanel.constructor` | Upload_Download_file_latest2.py:436-452 | on page load every container is closed and empty, and `activePreview` is null |
| `PreviewToggle.PreviewPanel.TogglePreview` | Upload_Download_file_latest2.py:454-502 | the invariant is kept. With no matching row nothing changes. Clicking the open row closes and empties it and clears the pointer. Otherwise the target row becomes the one open preview, holding the markup for its category. |
| `PreviewToggle.PreviewPanel.ToggleTwice` | Upload_Download_file_latest2.py:469-500 | two clicks on one row leave that row open if it was open before; otherwise every preview is closed |

## Findings

| source | as written | input that shows it | evidently intended | confidence | as-written member | corrected member |
|---|---|---|---|---|---|---|
| Upload_Download_file_latest2.py:458-463 | the Preview button selects the last row whose trimmed name text contains the clicked filename as a substring | files "a.txt" and "ba.txt" listed in that order; Preview on "a.txt" opens the container of "ba.txt" (row 1) | open the container of the clicked file's own row, whose name equals the filename | high; not executed | `PreviewToggle.SubstringLookupOpensWrongRow` | `PreviewToggle.ExactMatch` |

`PreviewPanel.TogglePreview` keeps the lookup as written (`FindTarget`,
specified by `LastMatch`), because that is what the page runs.
`ExactMatch` is the lookup a corrected script would feed into the same
state machine. `UnpaddedNameFindsOwnRow` proves that it picks the clicked
row, for stored names without leading or trailing JavaScript whitespace.
On the page the claim further needs names without `'`, `\` or a line
break (see "## Left out" for why those names differ).

## Left out

- `mimetypes.guess_type` is a library extension table that differs between
  platforms. It is the parameter `guess`, so no extension-level claim is made.
- Flask routing, `redirect`/`url_for`, multipart parsing and
  `render_template_string` are left out, and so is the HTML/CSS. A page is
  reduced to its listing content: the names, count, icon, Preview button and
  Download link. Jinja's HTML escaping is not modelled.
- `send_from_directory` internals are left out: `safe_join` containment,
  headers, conditional responses and content types. A name is found exactly
  when it is a key of the folder.
- Path containment on upload is not modelled. `upload_file` joins the client
  filename without sanitising it, so a name with `..`, a separator or an
  absolute path writes outside the folder, into a sub-directory, or under
  another entry of the folder itself (`./a.txt` is stored as `a.txt`). The model
  stores every accepted name as a flat key. It states no containment
  property, and it does not model the server error when the target
  directory does not exist.
- AfterUpload: assumes every accepted write succeeds. `file.save`
  (Upload_Download_file_latest2.py:525-526, Upload_Download_file_latest.py:340-341,
  Upload_Download_file.py:69-70) raises,
  and the request ends in a server error with nothing stored, for names the
  guard accepts: `.` and `..` (the target is a directory), a name
  containing NUL, a name over the file system's length limit, the name of
  an existing sub-directory, and a name under a missing directory. A denied
  permission on opening the target fails the same way. A full disk fails
  differently: `save` opens the target for writing first, which creates or
  empties it, and the copy then fails. An empty or partly written file
  stays listed under the name, and an earlier file of that name has
  already lost its bytes. For these names the model
  stores the bytes, so `UploadThenRetrieve` and `UploadThenListed` do not
  hold of the real server. The model also assumes a case-sensitive file
  system whose entry name is the filename string itself. A name with a
  separator, a `.` or `..` segment, or an absolute path is stored under
  another entry (`./a.txt` is listed as `a.txt`) or outside the folder
  (`/tmp/a.txt`, `../a.txt`, which are never listed and which the download
  route refuses). On a case-insensitive file system `A.txt` and `a.txt`
  write one file. For all these names, `UploadThenListed` and
  `UploadThenRetrieve` do not hold of the real server either.
- UploadFolder.Upload: the same assumption as `AfterUpload`. The write
  never fails, so the failing names listed above are stored in the model.
- Sub-directories that `os.listdir` would also report are not modelled. The
  folder holds only its initial files and what uploads wrote.
- When a request carries several `file` parts, the form model holds only the
  one the handler reads.
- Concurrency is left out: racing uploads on the threaded development server
  and partially written files.
- Startup configuration is left out: `os.makedirs`, and the host, port and
  debug flag of `app.run`. The folder's starting contents are the
  constructor's argument.
- Browser-side details of the page script are left out. The text preview's
  `fetch` is recorded as a `TextFetch` of the file. When and how it resolves,
  and the "Error loading preview" text, are not modelled. Neither are
  `innerHTML` rendering, `encodeURIComponent` or DOM querying. The rows'
  name texts are given as `PreviewPanel.names`, already trimmed by `JsTrim`. The
  container's initial HTML comment counts as empty content.
- The Preview button passes the name inside a JavaScript string literal in
  its `onclick` attribute (Upload_Download_file_latest2.py:425). The
  template's HTML escaping is undone by the browser before the handler is
  compiled. So a name with `'` (such as `John's.pdf`) or a line break makes
  the handler a syntax error, and the click does nothing. A `\` is read as
  a JavaScript escape, so the script receives a different name. The model
  calls `TogglePreview` with the stored name itself. For these names it
  opens a preview where the page does nothing or looks up another name.
- The row text is the stored name after JavaScript's `trim()` (`JsTrim`),
  while the upload guard uses Python's `strip()`. The two disagree on
  FS..US and NEL (cut only by Python) and on U+FEFF (cut only by
  JavaScript): see `TrimsDifferOnNel` and `TrimsDifferOnByteOrderMark`.
  So `a.txt` + NEL keeps its NEL in the row text and its button does find
  its own row, while U+FEFF + `a.txt` shows the row text `a.txt`.
- Stored names with leading or trailing JavaScript whitespace are accepted
  by the upload guard, but their row text is `JsTrim` of the name. The Preview button
  of such a file never selects its own row (`PaddedNameMissesOwnRow`). It
  opens the last row whose text contains the padded name
  (`PaddedNameOpensOtherRow`), or does nothing when none does
  (`PaddedNameFindsNoRow`). Two stored names that differ only in such
  whitespace (`a.txt` and U+FEFF + `a.txt`, say) give equal row texts. The
  model's `PreviewPanel.names` are the row texts, so it captures these
  effects. The corrected lookup is promised to find the clicked row only
  for names without such whitespace (`UnpaddedNameFindsOwnRow`).

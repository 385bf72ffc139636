/** The coarse file category of the newest server variant (`get_file_type`)
    and the listing template's mapping from category to icon and to the
    Preview button. */
module MimeClassifier {
  import opened Wrappers

  datatype FileCategory =
    Image | Pdf | Word | Excel | PowerPoint | Video | Audio | Text | Other

  /** The MIME type guesser (`mimetypes.guess_type`, first component): an
      extension table outside the server, supplied by the caller. */
  type Guesser = string -> Option<string>

  const Application := "application/"
  const PdfMime := Application + "pdf"
  const WordMimes: seq<string> := [
    Application + "msword",
    Application + "vnd.openxmlformats-officedocument.wordprocessingml.document"
  ]
  const ExcelMimes: seq<string> := [
    Application + "vnd.ms-excel",
    Application + "vnd.openxmlformats-officedocument.spreadsheetml.sheet"
  ]
  const PowerPointMimes: seq<string> := [
    Application + "vnd.ms-powerpoint",
    Application + "vnd.openxmlformats-officedocument.presentationml.presentation"
  ]

  /** Python's `s.startswith(prefix)`. */
  predicate StartsWith(s: string, prefix: string)
  {
    |prefix| <= |s| && s[..|prefix|] == prefix
  }

  /** A MIME string that one of the eight named rules claims. */
  predicate Recognised(m: string)
  {
    || StartsWith(m, "image/")
    || m == PdfMime
    || m in WordMimes
    || m in ExcelMimes
    || m in PowerPointMimes
    || StartsWith(m, "video/")
    || StartsWith(m, "audio/")
    || StartsWith(m, "text/")
  }

  /** The if/elif chain of `get_file_type` on a guessed MIME type, tried in
      source order, first match wins. The contract characterises each
      category on its own: the eight rules claim disjoint sets of MIME
      strings, so the order of the chain never decides a result, and
      everything no rule claims (or no guess at all) is Other. */
  function CategoryOfMime(mime: Option<string>): (c: FileCategory)
    ensures c == Image <==> mime.Some? && StartsWith(mime.value, "image/")
    ensures c == Pdf <==> mime == Some(PdfMime)
    ensures c == Word <==> mime.Some? && mime.value in WordMimes
    ensures c == Excel <==> mime.Some? && mime.value in ExcelMimes
    ensures c == PowerPoint <==> mime.Some? && mime.value in PowerPointMimes
    ensures c == Video <==> mime.Some? && StartsWith(mime.value, "video/")
    ensures c == Audio <==> mime.Some? && StartsWith(mime.value, "audio/")
    ensures c == Text <==> mime.Some? && StartsWith(mime.value, "text/")
    ensures c == Other <==> mime.None? || !Recognised(mime.value)
  {
    if mime.Some? && mime.value != "" then
      var m := mime.value;
      PrefixesExclusive(m);
      if StartsWith(m, "image/") then Image
      else if m == PdfMime then Pdf
      else if m in WordMimes then Word
      else if m in ExcelMimes then Excel
      else if m in PowerPointMimes then PowerPoint
      else if StartsWith(m, "video/") then Video
      else if StartsWith(m, "audio/") then Audio
      else if StartsWith(m, "text/") then Text
      else Other
    else
      Other
  }

  /** No MIME string is claimed by two of the eight rules. */
  lemma PrefixesExclusive(m: string)
    ensures StartsWith(m, "image/") ==> !StartsWith(m, "video/") && !StartsWith(m, "audio/") && !StartsWith(m, "text/")
    ensures StartsWith(m, "video/") ==> !StartsWith(m, "audio/") && !StartsWith(m, "text/")
    ensures StartsWith(m, "audio/") ==> !StartsWith(m, "text/")
    ensures m == PdfMime || m in WordMimes || m in ExcelMimes || m in PowerPointMimes ==>
      !StartsWith(m, "image/") && !StartsWith(m, "video/") && !StartsWith(m, "audio/") && !StartsWith(m, "text/")
  {
    if StartsWith(m, "image/") { assert m[0] == 'i'; }
    if StartsWith(m, "video/") { assert m[0] == 'v'; }
    if StartsWith(m, "audio/") { assert m[0] == 'a' && m[1] == 'u'; }
    if StartsWith(m, "text/") { assert m[0] == 't'; }
    if m == PdfMime || m in WordMimes || m in ExcelMimes || m in PowerPointMimes {
      ExactTypesAreApplication(m);
    }
  }

  /** Every MIME string matched exactly is an `application/` type. */
  lemma ExactTypesAreApplication(m: string)
    requires m == PdfMime || m in WordMimes || m in ExcelMimes || m in PowerPointMimes
    ensures |m| > 1 && m[0] == 'a' && m[1] == 'p'
  {
    assert m == PdfMime || m == WordMimes[0] || m == WordMimes[1] || m == ExcelMimes[0]
      || m == ExcelMimes[1] || m == PowerPointMimes[0] || m == PowerPointMimes[1];
  }

  /** `get_file_type(filename)`: the category of whatever `guess` makes of
      the name; a name the table does not know is Other. */
  function Classify(guess: Guesser, filename: string): (c: FileCategory)
    ensures c == CategoryOfMime(guess(filename))
    ensures guess(filename).None? ==> c == Other
    ensures c != Other ==> guess(filename).Some? && Recognised(guess(filename).value)
  {
    CategoryOfMime(guess(filename))
  }

  /** The Font Awesome icon the listing shows before a file's name. */
  datatype Icon =
    ImageIcon | PdfIcon | WordIcon | ExcelIcon | VideoIcon | AudioIcon | TextIcon | GenericIcon

  /** The template's icon choice: one icon per category, except that
      PowerPoint has no branch of its own and falls through to the generic
      icon, as Other does. */
  function IconFor(c: FileCategory): (i: Icon)
    ensures i == GenericIcon <==> c == PowerPoint || c == Other
  {
    match c
    case Image => ImageIcon
    case Pdf => PdfIcon
    case Word => WordIcon
    case Excel => ExcelIcon
    case Video => VideoIcon
    case Audio => AudioIcon
    case Text => TextIcon
    case _ => GenericIcon
  }

  /** Away from the generic icon, the icon tells the category apart. */
  lemma IconDistinguishesCategories(c: FileCategory, d: FileCategory)
    requires IconFor(c) == IconFor(d) && IconFor(c) != GenericIcon
    ensures c == d
  {
  }

  /** Whether the row offers a Preview button: only for the categories the
      browser can render inline. */
  predicate Previewable(c: FileCategory)
  {
    c in {Image, Pdf, Text}
  }
}

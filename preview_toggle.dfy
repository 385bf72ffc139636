/** The page script of the third variant: `togglePreview` opens the inline
    preview of one listed file and keeps at most one preview open. */
module PreviewToggle {
  import opened Wrappers
  import opened MimeClassifier
  import FileStore
  import PyText
  import TextTrim

  /** JavaScript's `haystack.includes(needle)`: `needle` occurs in
      `haystack` at some position (the empty needle occurs everywhere). */
  predicate Contains(haystack: string, needle: string)
  {
    exists k :: 0 <= k <= |haystack| - |needle| && OccursAt(haystack, needle, k)
  }

  predicate OccursAt(haystack: string, needle: string, k: int)
    requires 0 <= k <= |haystack| - |needle|
  {
    haystack[k..k + |needle|] == needle
  }

  /** JavaScript's WhiteSpace and LineTerminator characters, which
      `String.prototype.trim()` cuts: TAB, LF, VT, FF, CR, SPACE,
      NO-BREAK SPACE, the other Unicode space separators, LINE and
      PARAGRAPH SEPARATOR, and ZERO WIDTH NO-BREAK SPACE. Unlike Python's
      `isspace()` it leaves FS..US and NEL alone and takes U+FEFF. */
  predicate IsJsSpace(c: char)
  {
    || ('\U{9}' <= c <= '\U{D}')
    || c == ' '
    || c == '\U{A0}'
    || c == '\U{1680}'
    || ('\U{2000}' <= c <= '\U{200A}')
    || c == '\U{2028}'
    || c == '\U{2029}'
    || c == '\U{202F}'
    || c == '\U{205F}'
    || c == '\U{3000}'
    || c == '\U{FEFF}'
  }

  /** `s.trim()`, which the script applies to each row's name text. */
  function JsTrim(s: string): (r: string)
    ensures r == "" <==> forall i :: 0 <= i < |s| ==> IsJsSpace(s[i])
    ensures r != "" ==> !IsJsSpace(r[0]) && !IsJsSpace(r[|r| - 1])
    ensures exists a :: TextTrim.IsTrimCut(IsJsSpace, s, r, a)
  {
    TextTrim.Trim(IsJsSpace, s)
  }

  /** The two trims disagree on a trailing NEL: Python's `strip()` cuts
      it, JavaScript's `trim()` keeps it. */
  lemma TrimsDifferOnNel()
    ensures PyText.Strip("a.txt\U{85}") == "a.txt"
    ensures JsTrim("a.txt\U{85}") == "a.txt\U{85}"
  {
    var s := "a.txt\U{85}";
    assert s[0] == 'a' && s[4] == 't' && s[5] == '\U{85}';
    assert TextTrim.BlankRunEnd(PyText.IsSpace, s, 0) == 0;
    assert TextTrim.BlankRunStart(PyText.IsSpace, s, 0, 5) == 5;
    assert TextTrim.BlankRunStart(PyText.IsSpace, s, 0, 6) == 5;
    assert s[0..5] == "a.txt";
    assert TextTrim.BlankRunEnd(IsJsSpace, s, 0) == 0;
    assert TextTrim.BlankRunStart(IsJsSpace, s, 0, 6) == 6;
    assert s[0..6] == s;
  }

  /** The two trims disagree on a leading U+FEFF: JavaScript's `trim()`
      cuts it, Python's `strip()` keeps it. */
  lemma TrimsDifferOnByteOrderMark()
    ensures PyText.Strip("\U{FEFF}a.txt") == "\U{FEFF}a.txt"
    ensures JsTrim("\U{FEFF}a.txt") == "a.txt"
  {
    var s := "\U{FEFF}a.txt";
    assert s[0] == '\U{FEFF}' && s[1] == 'a' && s[5] == 't';
    assert TextTrim.BlankRunEnd(PyText.IsSpace, s, 0) == 0;
    assert TextTrim.BlankRunStart(PyText.IsSpace, s, 0, 6) == 6;
    assert s[0..6] == s;
    assert TextTrim.BlankRunEnd(IsJsSpace, s, 1) == 1;
    assert TextTrim.BlankRunEnd(IsJsSpace, s, 0) == 1;
    assert TextTrim.BlankRunStart(IsJsSpace, s, 1, 6) == 6;
    assert s[1..6] == "a.txt";
  }

  /** The row the lookup selects, as written: the LAST row whose displayed
      name contains `filename`, or -1 when no row does. */
  function LastMatch(names: seq<string>, filename: string): (t: int)
    ensures -1 <= t < |names|
    ensures t >= 0 ==> Contains(names[t], filename)
    ensures forall j :: t < j < |names| ==> !Contains(names[j], filename)
  {
    if names == [] then -1
    else if Contains(names[|names| - 1], filename) then |names| - 1
    else LastMatch(names[..|names| - 1], filename)
  }

  /** The `forEach` over the file items: every item whose trimmed name text
      contains `filename` overwrites `targetIndex`, so the last one wins. */
  method FindTarget(names: seq<string>, filename: string) returns (targetIndex: int)
    ensures targetIndex == LastMatch(names, filename)
  {
    targetIndex := -1;
    for index := 0 to |names|
      invariant targetIndex == LastMatch(names[..index], filename)
    {
      assert names[..index + 1][..index] == names[..index];
      if Contains(names[index], filename) {
        targetIndex := index;
      }
    }
    assert names[..|names|] == names;
  }

  /** The lookup the script evidently means: the row whose name IS
      `filename`. */
  function ExactMatch(names: seq<string>, filename: string): (t: int)
    ensures -1 <= t < |names|
    ensures t == -1 <==> filename !in names
    ensures t >= 0 ==> names[t] == filename
  {
    if names == [] then -1
    else if names[|names| - 1] == filename then |names| - 1
    else ExactMatch(names[..|names| - 1], filename)
  }

  /** When the row texts are distinct, the exact lookup finds the row of
      the clicked file itself. */
  lemma ExactMatchFindsOwnRow(names: seq<string>, i: int)
    requires FileStore.Distinct(names)
    requires 0 <= i < |names|
    ensures ExactMatch(names, names[i]) == i
  {
  }

  /** With the files "a.txt" and "ba.txt" listed in that order, the Preview
      button of "a.txt" selects the row of "ba.txt", because "ba.txt"
      contains "a.txt" and comes later; the exact lookup selects row 0. */
  lemma SubstringLookupOpensWrongRow()
    ensures LastMatch(["a.txt", "ba.txt"], "a.txt") == 1
    ensures ["a.txt", "ba.txt"][1] != "a.txt"
    ensures ExactMatch(["a.txt", "ba.txt"], "a.txt") == 0
  {
    assert OccursAt("ba.txt", "a.txt", 1);
  }

  /** The row texts of a listing: each stored name after `trim()`. */
  function RowTexts(stored: seq<string>): (texts: seq<string>)
    ensures |texts| == |stored|
    ensures forall k :: 0 <= k < |stored| ==> texts[k] == JsTrim(stored[k])
  {
    seq(|stored|, k requires 0 <= k < |stored| => JsTrim(stored[k]))
  }

  /** When no stored name starts or ends with JavaScript whitespace, the
      row texts are the stored names, so the exact lookup of a clicked
      name finds that file's own row. */
  lemma UnpaddedNameFindsOwnRow(stored: seq<string>, i: int)
    requires FileStore.Distinct(stored)
    requires forall k :: 0 <= k < |stored| ==> JsTrim(stored[k]) == stored[k]
    requires 0 <= i < |stored|
    ensures ExactMatch(RowTexts(stored), stored[i]) == i
  {
    assert RowTexts(stored) == stored;
    ExactMatchFindsOwnRow(stored, i);
  }

  /** A stored name with leading or trailing JavaScript whitespace never
      selects its own row: that row's text is the trimmed name, which is
      shorter than the name the button passes and so cannot contain it. */
  lemma PaddedNameMissesOwnRow(names: seq<string>, i: int, filename: string)
    requires 0 <= i < |names| && names[i] == JsTrim(filename)
    requires JsTrim(filename) != filename
    ensures LastMatch(names, filename) != i
  {
    TextTrim.TrimShortens(IsJsSpace, filename);
    assert !Contains(JsTrim(filename), filename);
  }

  /** Alone in the listing, " notes.txt" finds no row and the click changes
      nothing. */
  lemma PaddedNameFindsNoRow()
    ensures LastMatch(["notes.txt"], " notes.txt") == -1
  {
    assert !Contains("notes.txt", " notes.txt");
  }

  /** Listed after "my notes.txt", the Preview button of " notes.txt"
      opens the container of "my notes.txt", whose text contains it. */
  lemma PaddedNameOpensOtherRow()
    ensures LastMatch(["my notes.txt", "notes.txt"], " notes.txt") == 0
  {
    assert OccursAt("my notes.txt", " notes.txt", 2);
    assert !Contains("notes.txt", " notes.txt");
  }

  /** What a preview container holds: nothing, or the markup the script
      wrote for one file (the `src` is the file's `/view` target). For text
      the script starts a `fetch` of that target; the container records
      the request. */
  datatype Content = Blank | ImageEmbed(src: string) | PdfFrame(src: string) | TextFetch(src: string)

  /** The branch on `type` that fills an opened container. Exactly the
      categories that get a Preview button in the listing are filled; for
      any other category the container is opened with no content. */
  function PreviewMarkup(kind: FileCategory, filename: string): (c: Option<Content>)
    ensures c.Some? <==> Previewable(kind)
    ensures c.Some? ==> c.value != Blank && c.value.src == filename
    ensures c.Some? ==>
      (c.value.ImageEmbed? <==> kind == Image)
      && (c.value.PdfFrame? <==> kind == Pdf)
      && (c.value.TextFetch? <==> kind == Text)
  {
    match kind
    case Image => Some(ImageEmbed(filename))
    case Pdf => Some(PdfFrame(filename))
    case Text => Some(TextFetch(filename))
    case _ => None
  }

  /** The preview containers of a rendered listing (one per file row, in
      row order) and the script's `activePreview` pointer. */
  class PreviewPanel {
    /** The name text of each file row after `trim()` (`JsTrim`). */
    const names: seq<string>
    /** Whether container i carries the `active` class. */
    var active: seq<bool>
    /** The `innerHTML` of container i. */
    var content: seq<Content>
    /** `activePreview`: the open container's index, or null. */
    var activePreview: Option<nat>

    /** A container is active exactly when `activePreview` points at it,
        and an inactive container is empty. */
    ghost predicate Valid()
      reads this
      ensures Valid() ==> AtMostOneOpen()
    {
      && |active| == |names|
      && |content| == |names|
      && (activePreview.Some? ==> activePreview.value < |names|)
      && (forall i :: 0 <= i < |names| ==> (active[i] <==> activePreview == Some(i)))
      && (forall i :: 0 <= i < |names| && !active[i] ==> content[i] == Blank)
    }

    ghost predicate AtMostOneOpen()
      reads this
    {
      forall i, j :: 0 <= i < j < |active| ==> !(active[i] && active[j])
    }

    /** The page as loaded: every container closed and empty. */
    constructor (names: seq<string>)
      ensures Valid() && this.names == names && activePreview == None
    {
      this.names := names;
      active := seq(|names|, _ => false);
      content := seq(|names|, _ => Blank);
      activePreview := None;
    }

    /** `togglePreview(filename, type)`. When no row matches, nothing
        changes. Clicking the open preview closes and empties it. Clicking
        another row closes and empties the open one, if any, and opens the
        selected row's container with the markup for `kind`. */
    method TogglePreview(filename: string, kind: FileCategory)
      requires Valid()
      modifies this
      ensures Valid()
      ensures LastMatch(names, filename) == -1 ==>
        active == old(active) && content == old(content) && activePreview == old(activePreview)
      ensures var t := LastMatch(names, filename);
        t >= 0 && old(activePreview) == Some(t) ==>
          activePreview == None && active == old(active)[t := false] && content == old(content)[t := Blank]
      ensures var t := LastMatch(names, filename);
        t >= 0 && old(activePreview) != Some(t) ==>
          && activePreview == Some(t)
          && content[t] == (if Previewable(kind) then PreviewMarkup(kind, filename).value else Blank)
    {
      var targetIndex := FindTarget(names, filename);
      if targetIndex == -1 {
        return;
      }
      var target: nat := targetIndex;

      if activePreview == Some(target) && active[target] {
        active := active[target := false];
        content := content[target := Blank];
        activePreview := None;
        return;
      }

      if activePreview.Some? && activePreview != Some(target) {
        var previous := activePreview.value;
        active := active[previous := false];
        content := content[previous := Blank];
      }

      if !active[target] {
        var markup := PreviewMarkup(kind, filename);
        if markup.Some? {
          content := content[target := markup.value];
        }
        active := active[target := true];
        activePreview := Some(target);
      }
    }

    /** Clicking the same Preview button twice: a preview that was open
        on that row is open again, and otherwise every preview is closed. */
    method ToggleTwice(filename: string, kind: FileCategory)
      requires Valid()
      requires LastMatch(names, filename) >= 0
      modifies this
      ensures Valid()
      ensures activePreview == (if old(activePreview) == Some(LastMatch(names, filename)) then old(activePreview) else None)
    {
      TogglePreview(filename, kind);
      TogglePreview(filename, kind);
    }
  }
}

/** Python's `str.strip()` with no argument, as the upload handler uses it
    to decide whether a submitted filename is blank. */
module PyText {
  import TextTrim

  /** `str.isspace()` for one character: the ASCII controls TAB..CR and
      FS..US, SPACE, NEL, NO-BREAK SPACE and the Unicode space separators
      and line/paragraph separators. */
  predicate IsSpace(c: char)
  {
    || ('\U{9}' <= c <= '\U{D}')
    || ('\U{1C}' <= c <= '\U{1F}')
    || c == ' '
    || c == '\U{85}'
    || c == '\U{A0}'
    || c == '\U{1680}'
    || ('\U{2000}' <= c <= '\U{200A}')
    || c == '\U{2028}'
    || c == '\U{2029}'
    || c == '\U{202F}'
    || c == '\U{205F}'
    || c == '\U{3000}'
  }

  /** Every character of `s` is whitespace (vacuously so for ""). */
  predicate IsBlank(s: string)
  {
    forall i :: 0 <= i < |s| ==> IsSpace(s[i])
  }

  /** `s.strip()`: `s` with its leading and trailing Python whitespace
      cut off. It is empty exactly when `s` is blank; otherwise it starts
      and ends on a non-whitespace character. */
  function Strip(s: string): (r: string)
    ensures r == "" <==> IsBlank(s)
    ensures r != "" ==> !IsSpace(r[0]) && !IsSpace(r[|r| - 1])
    ensures exists a :: TextTrim.IsTrimCut(IsSpace, s, r, a)
  {
    TextTrim.Trim(IsSpace, s)
  }
}

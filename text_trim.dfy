/** Cutting the leading and trailing whitespace off a string, for a given
    notion of whitespace. Python's `str.strip()` and JavaScript's
    `String.prototype.trim()` are both this cut, over different character
    sets. */
module TextTrim {

  /** The end of the whitespace run of `s` that starts at `i`: the first
      index from `i` on that holds no whitespace, or `|s|`. */
  function BlankRunEnd(ws: char -> bool, s: string, i: nat): (a: nat)
    requires i <= |s|
    ensures i <= a <= |s|
    ensures forall k :: i <= k < a ==> ws(s[k])
    ensures a < |s| ==> !ws(s[a])
    decreases |s| - i
  {
    if i < |s| && ws(s[i]) then BlankRunEnd(ws, s, i + 1) else i
  }

  /** The start of the whitespace run of `s` that ends at `j`, not going
      below `lo`. */
  function BlankRunStart(ws: char -> bool, s: string, lo: nat, j: nat): (b: nat)
    requires lo <= j <= |s|
    ensures lo <= b <= j
    ensures forall k :: b <= k < j ==> ws(s[k])
    ensures b > lo ==> !ws(s[b - 1])
    decreases j
  {
    if j > lo && ws(s[j - 1]) then BlankRunStart(ws, s, lo, j - 1) else j
  }

  /** `s` with its leading and trailing whitespace cut off. It is empty
      exactly when every character of `s` is whitespace; otherwise it
      starts and ends on a non-whitespace character. */
  function Trim(ws: char -> bool, s: string): (r: string)
    ensures r == "" <==> forall i :: 0 <= i < |s| ==> ws(s[i])
    ensures r != "" ==> !ws(r[0]) && !ws(r[|r| - 1])
    ensures exists a :: IsTrimCut(ws, s, r, a)
  {
    var a := BlankRunEnd(ws, s, 0);
    var b := BlankRunStart(ws, s, a, |s|);
    assert a < b ==> s[a..b][0] == s[a];
    assert IsTrimCut(ws, s, s[a..b], a);
    s[a..b]
  }

  /** `r` is what is left of `s` when its first `a` characters and the
      characters after `r`, all of them whitespace, are cut off. */
  predicate IsTrimCut(ws: char -> bool, s: string, r: string, a: int)
  {
    && 0 <= a <= |s| - |r|
    && r == s[a..a + |r|]
    && (forall k :: 0 <= k < a ==> ws(s[k]))
    && (forall k :: a + |r| <= k < |s| ==> ws(s[k]))
  }

  /** A trim that changes its input makes it strictly shorter. */
  lemma TrimShortens(ws: char -> bool, s: string)
    requires Trim(ws, s) != s
    ensures |Trim(ws, s)| < |s|
  {
    var r := Trim(ws, s);
    var a :| IsTrimCut(ws, s, r, a);
  }
}

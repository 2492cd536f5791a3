/** Python's `str.strip()` with no argument. */
module Text {

  /** The characters `str.isspace()` accepts, which are the ones
      `str.strip()` removes: the C0 controls TAB to CR and FS to US, the
      space, NEL, no-break space, and the Unicode space separators and line
      and paragraph separators. */
  predicate IsSpace(c: char) {
    || ('\U{0009}' <= c <= '\U{000D}') || ('\U{001C}' <= c <= '\U{0020}')
    || c == '\U{0085}' || c == '\U{00A0}' || c == '\U{1680}'
    || ('\U{2000}' <= c <= '\U{200A}') || c == '\U{2028}' || c == '\U{2029}'
    || c == '\U{202F}' || c == '\U{205F}' || c == '\U{3000}'
  }

  /** Where the whitespace run starting at `i` ends. */
  function SkipSpaces(s: string, i: nat): (r: nat)
    requires i <= |s|
    ensures i <= r <= |s|
    ensures forall k :: i <= k < r ==> IsSpace(s[k])
    ensures r < |s| ==> !IsSpace(s[r])
    decreases |s| - i
  {
    if i < |s| && IsSpace(s[i]) then SkipSpaces(s, i + 1) else i
  }

  /** Where the whitespace run ending just before `j` starts, not going
      below `lo`. */
  function SkipSpacesBack(s: string, lo: nat, j: nat): (r: nat)
    requires lo <= j <= |s|
    ensures lo <= r <= j
    ensures forall k :: r <= k < j ==> IsSpace(s[k])
    ensures r > lo ==> !IsSpace(s[r - 1])
    decreases j
  {
    if j > lo && IsSpace(s[j - 1]) then SkipSpacesBack(s, lo, j - 1) else j
  }

  /** `s.strip()`: `s` with its leading and its trailing whitespace cut
      off.  What is left has no whitespace at either end, is a contiguous
      part of `s`, and everything removed is whitespace. */
  function Strip(s: string): (r: string)
    ensures |r| > 0 ==> !IsSpace(r[0]) && !IsSpace(r[|r| - 1])
    ensures var i := SkipSpaces(s, 0);
            && i + |r| <= |s| && r == s[i..i + |r|]
            && (forall k :: 0 <= k < i ==> IsSpace(s[k]))
            && (forall k :: i + |r| <= k < |s| ==> IsSpace(s[k]))
  {
    var i := SkipSpaces(s, 0);
    var j := SkipSpacesBack(s, i, |s|);
    s[i..j]
  }

  /** Stripping twice is stripping once. */
  lemma StripIdempotent(s: string)
    ensures Strip(Strip(s)) == Strip(s)
  {
    var t := Strip(s);
    StripNoEdgeSpace(t);
  }

  /** A string with no whitespace at either end is its own strip. */
  lemma StripNoEdgeSpace(t: string)
    requires |t| > 0 ==> !IsSpace(t[0]) && !IsSpace(t[|t| - 1])
    ensures Strip(t) == t
  {
    assert SkipSpaces(t, 0) == 0;
    assert SkipSpacesBack(t, 0, |t|) == |t|;
    assert t[0..|t|] == t;
  }

  /** The information separators FS to US are whitespace to `str.strip()`:
      `"\x1c12A".strip() == "12A"`. */
  lemma StripFileSeparator()
    ensures Strip("\U{001C}12A") == "12A"
  {
    var s := "\U{001C}12A";
    assert SkipSpaces(s, 0) == 1 by {
      assert IsSpace(s[0]) && !IsSpace(s[1]);
    }
    assert SkipSpacesBack(s, 1, 4) == 4 by {
      assert !IsSpace(s[3]);
    }
    assert s[1..4] == "12A";
  }
}

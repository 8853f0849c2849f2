/** Substrings and slices, the string primitives the grid scan relies on. */
module Strings {

  /** `w` is a prefix of `s`. */
  predicate IsPrefix(w: string, s: string) {
    |w| <= |s| && s[..|w|] == w
  }

  /** `w` stands at some position of `s`: the meaning of Python's `w in s`. */
  ghost predicate IsSubstring(w: string, s: string) {
    exists i :: 0 <= i <= |s| && IsPrefix(w, s[i..])
  }

  function Min(a: int, b: int): int {
    if a <= b then a else b
  }

  /** Python's slice `s[lo:hi]` for non-negative bounds: both ends are
      clamped to the length and an empty range gives the empty string. */
  function Slice(s: string, lo: nat, hi: nat): (r: string)
    ensures lo <= hi <= |s| ==> r == s[lo..hi]
    ensures |r| == if lo < Min(hi, |s|) then Min(hi, |s|) - lo else 0
  {
    if lo < Min(hi, |s|) then s[lo..Min(hi, |s|)] else []
  }

  /** Shifting the start of the search one character to the right loses only
      the occurrence at position 0. */
  lemma SubstringOfTail(w: string, s: string)
    requires |s| > 0 && !IsPrefix(w, s)
    ensures IsSubstring(w, s) <==> IsSubstring(w, s[1..])
  {
    if IsSubstring(w, s) {
      var i :| 0 <= i <= |s| && IsPrefix(w, s[i..]);
      assert i != 0;
      assert s[1..][i - 1..] == s[i..];
    }
    if IsSubstring(w, s[1..]) {
      var i :| 0 <= i <= |s[1..]| && IsPrefix(w, s[1..][i..]);
      assert s[1..][i..] == s[i + 1..];
    }
  }

  /** Executable substring test, computed by trying each start position in turn. */
  function OccursIn(w: string, s: string): (r: bool)
    ensures r <==> IsSubstring(w, s)
    decreases |s|
  {
    if IsPrefix(w, s) then
      assert s[0..] == s;
      true
    else if |s| == 0 then
      false
    else
      SubstringOfTail(w, s);
      OccursIn(w, s[1..])
  }
}

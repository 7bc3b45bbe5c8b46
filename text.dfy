/** The two string operations of Python that the dispatcher relies on:
    `str.endswith` with one suffix and `str.strip` with no argument. */
module Text {

  /** `s.endswith(suffix)`: an exact, case-sensitive comparison of the tail. */
  predicate EndsWith(s: string, suffix: string) {
    |suffix| <= |s| && s[|s| - |suffix|..] == suffix
  }

  /** `s` ends with `suffix` exactly when it is some prefix followed by `suffix`. */
  lemma EndsWithIffConcat(s: string, suffix: string)
    ensures EndsWith(s, suffix) <==> exists p: string :: s == p + suffix
  {
    if EndsWith(s, suffix) {
      var p := s[..|s| - |suffix|];
      assert s == p + suffix;
    }
    forall p: string | s == p + suffix
      ensures EndsWith(s, suffix)
    {
      assert s[|s| - |suffix|..] == suffix;
    }
  }

  /** The characters for which Python's `str.isspace()` holds, which are the
      characters `str.strip()` removes: the control characters TAB..CR and
      FS..US, SPACE, NEL, NO-BREAK SPACE and the Unicode space separators,
      line and paragraph separators. */
  predicate IsWhitespace(c: char) {
    var n := c as int;
    (0x09 <= n <= 0x0D) || (0x1C <= n <= 0x20) || n == 0x85 || n == 0xA0
    || n == 0x1680 || (0x2000 <= n <= 0x200A) || n == 0x2028 || n == 0x2029
    || n == 0x202F || n == 0x205F || n == 0x3000
  }

  // Stripping is written over any character class `ws`, so that its proofs
  // do not depend on which characters are whitespace; `Strip` instantiates
  // it with Python's class.

  /** The index of the first character at or after `i` outside the class
      `ws` (or `|s|`): the start of what stripping keeps. */
  function FirstKept(s: string, ws: char -> bool, i: nat): (n: nat)
    requires i <= |s|
    ensures i <= n <= |s|
    ensures forall k :: i <= k < n ==> ws(s[k])
    ensures n < |s| ==> !ws(s[n])
    decreases |s| - i
  {
    if i < |s| && ws(s[i]) then FirstKept(s, ws, i + 1) else i
  }

  /** The index just after the last character before `j` and not before `lo`
      that is outside the class `ws` (or `lo`): the end of what stripping keeps. */
  function LastKept(s: string, ws: char -> bool, lo: nat, j: nat): (n: nat)
    requires lo <= j <= |s|
    ensures lo <= n <= j
    ensures forall k :: n <= k < j ==> ws(s[k])
    ensures lo < n ==> !ws(s[n - 1])
  {
    if lo < j && ws(s[j - 1]) then LastKept(s, ws, lo, j - 1) else j
  }

  /** Drops the characters of class `ws` on both sides. */
  function StripBy(s: string, ws: char -> bool): (r: string)
    ensures IsStripOf(s, r, ws)
  {
    var i := FirstKept(s, ws, 0);
    var j := LastKept(s, ws, i, |s|);
    assert StrippedAt(s, s[i..j], ws, i, j);
    s[i..j]
  }

  /** Python's `s.strip()`. */
  function Strip(s: string): (r: string)
    ensures IsStripOf(s, r, IsWhitespace)
  {
    StripBy(s, IsWhitespace)
  }

  /** Independent description of what stripping returns: a slice `s[i..j]`
      such that everything outside it is of class `ws` and the slice neither
      starts nor ends with such a character. */
  ghost predicate IsStripOf(s: string, r: string, ws: char -> bool) {
    exists i: nat, j: nat :: StrippedAt(s, r, ws, i, j)
  }

  /** `r` is `s[i..j]` with only characters of class `ws` cut off on either side. */
  ghost predicate StrippedAt(s: string, r: string, ws: char -> bool, i: nat, j: nat) {
    i <= j <= |s|
    && r == s[i..j]
    && (forall k :: 0 <= k < i ==> ws(s[k]))
    && (forall k :: j <= k < |s| ==> ws(s[k]))
    && (i < j ==> !ws(s[i]) && !ws(s[j - 1]))
  }

  /** Only stripping meets the description: it pins the result down exactly. */
  lemma StripByUnique(s: string, r: string, ws: char -> bool)
    requires IsStripOf(s, r, ws)
    ensures r == StripBy(s, ws)
  {
    var i: nat, j: nat :| StrippedAt(s, r, ws, i, j);
    var i' := FirstKept(s, ws, 0);
    if i < j {
      assert !ws(s[i]) && !ws(s[j - 1]);
      assert i' == i;
      assert LastKept(s, ws, i, |s|) == j;
    } else {
      assert i' == |s|;
    }
  }

  /** Stripping twice is the same as stripping once. */
  lemma StripByIdempotent(s: string, ws: char -> bool)
    ensures StripBy(StripBy(s, ws), ws) == StripBy(s, ws)
  {
    var r := StripBy(s, ws);
    var i: nat, j: nat :| StrippedAt(s, r, ws, i, j);
    assert r == r[0..|r|];
    assert StrippedAt(r, r, ws, 0, |r|) by {
      if 0 < |r| {
        assert r[0] == s[i] && r[|r| - 1] == s[j - 1];
      }
    }
    StripByUnique(r, r, ws);
  }
}

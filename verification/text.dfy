/** Python's `str.strip()` with no argument, applied to what the operator
    types in the manual path. */
module Text {

  /** The characters for which Python's `str.isspace()` is true. */
  predicate IsSpace(c: char) {
    var n := c as int;
    || 0x09 <= n <= 0x0D
    || 0x1C <= n <= 0x20
    || n == 0x85 || n == 0xA0 || n == 0x1680
    || 0x2000 <= n <= 0x200A
    || n == 0x2028 || n == 0x2029 || n == 0x202F || n == 0x205F || n == 0x3000
  }

  /** Drops the leading white space: the result is the suffix of `s` that
      starts at the first non-space character. */
  function TrimStart(s: string): (r: string)
    ensures |r| <= |s| && r == s[|s| - |r|..]
    ensures forall i | 0 <= i < |s| - |r| :: IsSpace(s[i])
    ensures r == "" || !IsSpace(r[0])
  {
    if s == [] || !IsSpace(s[0]) then s else TrimStart(s[1..])
  }

  /** Drops the trailing white space: the result is the prefix of `s` that
      ends at the last non-space character. */
  function TrimEnd(s: string): (r: string)
    ensures |r| <= |s| && r == s[..|r|]
    ensures forall i | |r| <= i < |s| :: IsSpace(s[i])
    ensures r == "" || !IsSpace(r[|r| - 1])
  {
    if s == [] || !IsSpace(s[|s| - 1]) then s else TrimEnd(s[..|s| - 1])
  }

  /** `r` occurs in `s` at offset `i`, and everything of `s` around that
      occurrence is white space. */
  ghost predicate SurroundedBySpace(r: string, s: string, i: int) {
    && 0 <= i <= |s| - |r|
    && r == s[i..i + |r|]
    && (forall k | 0 <= k < i :: IsSpace(s[k]))
    && (forall k | i + |r| <= k < |s| :: IsSpace(s[k]))
  }

  /** `s.strip()`: the part of `s` between its leading and trailing white
      space. It is empty exactly when `s` is all white space. */
  function Strip(s: string): (r: string)
    ensures exists i :: SurroundedBySpace(r, s, i)
    ensures r == "" || (!IsSpace(r[0]) && !IsSpace(r[|r| - 1]))
    ensures r == "" <==> forall i | 0 <= i < |s| :: IsSpace(s[i])
  {
    var t := TrimStart(s);
    var r := TrimEnd(t);
    assert SurroundedBySpace(r, s, |s| - |t|) by {
      assert forall k | |s| - |t| + |r| <= k < |s| :: s[k] == t[k - (|s| - |t|)];
    }
    r
  }
}

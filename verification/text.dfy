/** Java's `String.trim` and the `@NotBlank` check built on it: a string is
    blank when trimming leaves nothing. `trim` strips every character at or
    below U+0020 (space and the control characters) from both ends. */
module Text {

  predicate IsTrimmed(c: char) {
    c <= ' '
  }

  /** Drops the leading characters `trim` strips. */
  function TrimStart(s: string): (r: string)
    ensures |r| <= |s| && r == s[|s| - |r|..]
    ensures forall i :: 0 <= i < |s| - |r| ==> IsTrimmed(s[i])
    ensures |r| > 0 ==> !IsTrimmed(r[0])
    decreases |s|
  {
    if |s| > 0 && IsTrimmed(s[0]) then TrimStart(s[1..]) else s
  }

  /** Drops the trailing characters `trim` strips. */
  function TrimEnd(s: string): (r: string)
    ensures |r| <= |s| && r == s[..|r|]
    ensures forall i :: |r| <= i < |s| ==> IsTrimmed(s[i])
    ensures |r| > 0 ==> !IsTrimmed(r[|r| - 1])
    decreases |s|
  {
    if |s| > 0 && IsTrimmed(s[|s| - 1]) then TrimEnd(s[..|s| - 1]) else s
  }

  function Trim(s: string): string {
    TrimEnd(TrimStart(s))
  }

  /** The `@NotBlank` constraint on a non-null string. */
  predicate NotBlank(s: string) {
    |Trim(s)| > 0
  }

  /** A string is not blank exactly when some character of it survives trimming,
      so the empty string and all-whitespace strings are blank. */
  lemma NotBlankIffVisible(s: string)
    ensures NotBlank(s) <==> exists i :: 0 <= i < |s| && !IsTrimmed(s[i])
  {
    var t := TrimStart(s);
    if exists i :: 0 <= i < |s| && !IsTrimmed(s[i]) {
      var i :| 0 <= i < |s| && !IsTrimmed(s[i]);
      assert |t| > 0;
      assert |TrimEnd(t)| > 0;
    }
    if NotBlank(s) {
      var u := Trim(s);
      assert u[0] == t[0] == s[|s| - |t|];
    }
  }
}

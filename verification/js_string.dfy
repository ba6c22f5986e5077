/**
 * The two pieces of JavaScript string semantics the application relies on:
 * `String.prototype.trim`, used by every "is this input empty?" guard, and
 * `String.prototype.length`, which counts UTF-16 code units rather than
 * characters and bounds the text of a task.
 */
module JsString {

  /**
   * The characters `trim` removes: ECMAScript's WhiteSpace (tab, vertical tab,
   * form feed, space, no-break space, the byte order mark and every other
   * Unicode "Zs" space separator) and its LineTerminator characters.
   */
  predicate IsJsWhiteSpace(c: char) {
    || c == '\t' || c == '\n' || c == '\U{000B}' || c == '\U{000C}' || c == '\r'
    || c == ' ' || c == '\U{00A0}' || c == '\U{1680}'
    || ('\U{2000}' <= c <= '\U{200A}')
    || c == '\U{2028}' || c == '\U{2029}' || c == '\U{202F}' || c == '\U{205F}'
    || c == '\U{3000}' || c == '\U{FEFF}'
  }

  /** A string `trim` turns into the empty string: every character is white space. */
  predicate Blank(s: string) {
    forall i :: 0 <= i < |s| ==> IsJsWhiteSpace(s[i])
  }

  /** `s` with its leading white space removed: the longest suffix that does not start with white space. */
  function TrimStart(s: string): (r: string)
    ensures |r| <= |s| && r == s[|s| - |r|..]
    ensures forall i :: 0 <= i < |s| - |r| ==> IsJsWhiteSpace(s[i])
    ensures r == [] || !IsJsWhiteSpace(r[0])
  {
    if |s| > 0 && IsJsWhiteSpace(s[0]) then TrimStart(s[1..]) else s
  }

  /** `s` with its trailing white space removed: the longest prefix that does not end with white space. */
  function TrimEnd(s: string): (r: string)
    ensures |r| <= |s| && r == s[..|r|]
    ensures forall i :: |r| <= i < |s| ==> IsJsWhiteSpace(s[i])
    ensures r == [] || !IsJsWhiteSpace(r[|r| - 1])
  {
    if |s| > 0 && IsJsWhiteSpace(s[|s| - 1]) then TrimEnd(s[..|s| - 1]) else s
  }

  /**
   * `String.prototype.trim`: a contiguous slice of `s` that neither starts
   * nor ends with white space, and empty exactly when `s` is blank.
   */
  function Trim(s: string): (r: string)
    ensures |r| <= |s|
    ensures r == [] || (!IsJsWhiteSpace(r[0]) && !IsJsWhiteSpace(r[|r| - 1]))
    ensures r == [] <==> Blank(s)
  {
    TrimBlank(s);
    TrimEnd(TrimStart(s))
  }

  /** `r` is the slice `s[i..j]`, and everything of `s` outside it is white space. */
  predicate SliceBetweenSpace(s: string, i: int, j: int, r: string) {
    && 0 <= i <= j <= |s| && r == s[i..j]
    && (forall k :: 0 <= k < i ==> IsJsWhiteSpace(s[k]))
    && (forall k :: j <= k < |s| ==> IsJsWhiteSpace(s[k]))
  }

  /** `trim` cuts white space off both ends and keeps the slice of `s` between them. */
  lemma TrimSlice(s: string)
    ensures exists i, j :: SliceBetweenSpace(s, i, j, Trim(s))
  {
    var i, j := TrimCut(s);
  }

  /** Where `trim` cuts `s`: after its leading and before its trailing white space. */
  lemma TrimCut(s: string) returns (i: int, j: int)
    ensures SliceBetweenSpace(s, i, j, Trim(s))
  {
    var t := TrimStart(s);
    var r := TrimEnd(t);
    i, j := |s| - |t|, |s| - |t| + |r|;
    assert r == s[i..j] by {
      assert t == s[i..];
      assert r == t[..|r|];
    }
    TrailingSpace(s, i, t, r);
  }

  /** The white space `TrimEnd` drops from the suffix `t` of `s` is white space of `s`. */
  lemma TrailingSpace(s: string, i: int, t: string, r: string)
    requires 0 <= i <= |s| && t == s[i..] && r == TrimEnd(t)
    ensures forall k :: i + |r| <= k < |s| ==> IsJsWhiteSpace(s[k])
  {
    forall k | i + |r| <= k < |s|
      ensures IsJsWhiteSpace(s[k])
    {
      assert s[k] == t[k - i];
    }
  }

  /** Trimming leaves nothing exactly when every character is white space. */
  lemma TrimBlank(s: string)
    ensures TrimEnd(TrimStart(s)) == [] <==> Blank(s)
  {
    var t := TrimStart(s);
    var r := TrimEnd(t);
    if r == [] {
      // a non-empty t starts with a non-blank character, which TrimEnd would keep
      assert t == [];
    } else {
      assert r[0] == t[0];
      assert s[|s| - |t|] == t[0];
    }
  }

  /** The number of UTF-16 code units that encode `c`: two for a character outside the Basic Multilingual Plane. */
  function Utf16Units(c: char): nat {
    if c as int >= 0x1_0000 then 2 else 1
  }

  /**
   * `String.prototype.length`: the UTF-16 length of `s`. It is at least the
   * number of characters, at most twice that, and equal to it exactly when
   * every character lies in the Basic Multilingual Plane.
   */
  function Utf16Length(s: string): (n: nat)
    ensures |s| <= n <= 2 * |s|
    ensures n == |s| <==> forall i :: 0 <= i < |s| ==> s[i] as int < 0x1_0000
  {
    if s == [] then 0
    else
      var rest := Utf16Length(s[1..]);
      assert forall i :: 1 <= i < |s| ==> s[i] == s[1..][i - 1];
      Utf16Units(s[0]) + rest
  }
}

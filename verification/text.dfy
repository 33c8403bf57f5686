/**
 * The string primitives the game uses on names and category keys:
 * `trim` (name entry) and `toLowerCase` (category lookup), restricted to ASCII.
 */
module Text {

  /** ASCII white space as removed by `String.prototype.trim`. */
  predicate IsSpace(c: char) {
    c == ' ' || c == '\t' || c == '\n' || c == '\r' || c == '\U{0B}' || c == '\U{0C}'
  }

  /** Every character of `s` is white space (so `s.trim() === ''`). */
  predicate IsBlank(s: string) {
    forall i | 0 <= i < |s| :: IsSpace(s[i])
  }

  /** Neither end of `s` is white space. */
  predicate IsTrimmed(s: string) {
    s == "" || (!IsSpace(s[0]) && !IsSpace(s[|s| - 1]))
  }

  /** Drops the longest white-space prefix. */
  function TrimStart(s: string): (r: string)
    ensures |r| <= |s| && r == s[|s| - |r|..]
    ensures forall i | 0 <= i < |s| - |r| :: IsSpace(s[i])
    ensures r == "" || !IsSpace(r[0])
  {
    if |s| > 0 && IsSpace(s[0]) then
      var r := TrimStart(s[1..]);
      assert forall i | 1 <= i < |s| - |r| :: s[i] == s[1..][i - 1];
      r
    else s
  }

  /** Drops the longest white-space suffix. */
  function TrimEnd(s: string): (r: string)
    ensures |r| <= |s| && r == s[..|r|]
    ensures forall i | |r| <= i < |s| :: IsSpace(s[i])
    ensures r == "" || !IsSpace(r[|r| - 1])
  {
    if |s| > 0 && IsSpace(s[|s| - 1]) then TrimEnd(s[..|s| - 1]) else s
  }

  /** `s.trim()`: `s` without its leading and trailing white space. */
  function Trim(s: string): (r: string)
    ensures IsTrimmed(r)
    ensures |r| <= |s|
    ensures r == "" <==> IsBlank(s)
    ensures exists i, j | 0 <= i <= j <= |s| :: r == s[i..j] && IsBlank(s[..i]) && IsBlank(s[j..])
  {
    var t := TrimStart(s);
    var r := TrimEnd(t);
    assert r == "" ==> IsBlank(s) by {
      if r == "" {
        assert t == "";
      }
    }
    StripIsSlice(s, t, r);
    r
  }

  /** Cutting a white-space prefix off `s` and then a white-space suffix leaves a slice of `s` between white-space ends. */
  lemma StripIsSlice(s: string, t: string, r: string)
    requires |t| <= |s| && t == s[|s| - |t|..] && forall i | 0 <= i < |s| - |t| :: IsSpace(s[i])
    requires |r| <= |t| && r == t[..|r|] && forall i | |r| <= i < |t| :: IsSpace(t[i])
    ensures var i := |s| - |t|;
      && i + |r| <= |s|
      && r == s[i..i + |r|] && IsBlank(s[..i]) && IsBlank(s[i + |r|..])
  {
    var i := |s| - |t|;
    var j := i + |r|;
    assert s[i..][..|r|] == s[i..j];
    forall k | 0 <= k < i
      ensures IsSpace(s[..i][k])
    {
      assert s[..i][k] == s[k];
    }
    forall k | 0 <= k < |s| - j
      ensures IsSpace(s[j..][k])
    {
      assert s[j..][k] == t[|r| + k];
    }
  }

  /** Trimming a trimmed string changes nothing, so trimming twice is trimming once. */
  lemma TrimIdempotent(s: string)
    ensures Trim(Trim(s)) == Trim(s)
  {
    TrimmedIsFixed(Trim(s));
  }

  lemma TrimmedIsFixed(s: string)
    requires IsTrimmed(s)
    ensures Trim(s) == s
  {
  }

  /** The ASCII part of `toLowerCase` on one character. */
  function LowerChar(c: char): (d: char)
    ensures !('A' <= d <= 'Z')
    ensures !('A' <= c <= 'Z') ==> d == c
    ensures 'A' <= c <= 'Z' ==> 'a' <= d <= 'z' && d as int - 'a' as int == c as int - 'A' as int
  {
    if 'A' <= c <= 'Z' then (c as int + 32) as char else c
  }

  /** `s.toLowerCase()` for ASCII letters, character by character. */
  function ToLower(s: string): (r: string)
    ensures |r| == |s|
    ensures forall i | 0 <= i < |s| :: r[i] == LowerChar(s[i])
  {
    seq(|s|, i requires 0 <= i < |s| => LowerChar(s[i]))
  }

  /** No ASCII upper-case letter occurs in `s`. */
  predicate IsLower(s: string) {
    forall i | 0 <= i < |s| :: !('A' <= s[i] <= 'Z')
  }

  /** Lower-casing yields a lower-case string, leaves a lower-case string alone, and is idempotent. */
  lemma ToLowerFacts(s: string)
    ensures IsLower(ToLower(s))
    ensures IsLower(s) ==> ToLower(s) == s
    ensures ToLower(ToLower(s)) == ToLower(s)
  {
  }
}

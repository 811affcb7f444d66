/** The parts of `java.lang.String` the record layer uses: `trim`,
    `isEmpty`, `toLowerCase` (restricted to ASCII letters) and `contains`. */
module Strings {

  /** Java's `trim` strips every character whose code is at most U+0020. */
  predicate IsTrimmed(c: char) { c <= ' ' }

  function TrimStart(s: string): (r: string)
    ensures |r| <= |s| && r == s[|s| - |r|..]
    ensures |r| > 0 ==> !IsTrimmed(r[0])
    ensures forall i :: 0 <= i < |s| - |r| ==> IsTrimmed(s[i])
  {
    if |s| > 0 && IsTrimmed(s[0]) then TrimStart(s[1..]) else s
  }

  function TrimEnd(s: string): (r: string)
    ensures |r| <= |s| && r == s[..|r|]
    ensures |r| > 0 ==> !IsTrimmed(r[|r| - 1])
    ensures forall i :: |r| <= i < |s| ==> IsTrimmed(s[i])
  {
    if |s| > 0 && IsTrimmed(s[|s| - 1]) then TrimEnd(s[..|s| - 1]) else s
  }

  /** `s.trim()`: the longest infix of `s` that neither starts nor ends with a
      character at or below U+0020. */
  function Trim(s: string): (r: string)
    ensures |r| > 0 ==> !IsTrimmed(r[0]) && !IsTrimmed(r[|r| - 1])
  {
    TrimEnd(TrimStart(s))
  }

  /** `s.trim().isEmpty()` */
  predicate IsBlank(s: string) { Trim(s) == "" }

  /** A string is blank exactly when every character of it is trimmed away. */
  lemma BlankIffAllTrimmed(s: string)
    ensures IsBlank(s) <==> forall i :: 0 <= i < |s| ==> IsTrimmed(s[i])
  {
    var t := TrimStart(s);
    if |t| > 0 {
      assert t[0] == s[|s| - |t|];
      assert t[..1] + t[1..] == t;
    }
  }

  function LowerChar(c: char): (r: char)
    ensures 'A' <= c <= 'Z' ==> 'a' <= r <= 'z'
    ensures !('A' <= c <= 'Z') ==> r == c
  {
    if 'A' <= c <= 'Z' then (c as int - 'A' as int + 'a' as int) as char else c
  }

  /** `s.toLowerCase()` for ASCII letters; every other character is kept. */
  function ToLower(s: string): (r: string)
    ensures |r| == |s|
    ensures forall i :: 0 <= i < |s| ==> !('A' <= r[i] <= 'Z')
  {
    seq(|s|, i requires 0 <= i < |s| => LowerChar(s[i]))
  }

  /** Lower-casing moves no character across U+0020, so it neither makes a
      string blank nor stops it being blank. */
  lemma LowerKeepsBlank(s: string)
    ensures IsBlank(ToLower(s)) <==> IsBlank(s)
  {
    var t := ToLower(s);
    BlankIffAllTrimmed(s);
    BlankIffAllTrimmed(t);
    forall i | 0 <= i < |s| ensures IsTrimmed(t[i]) <==> IsTrimmed(s[i]) {
      assert t[i] == LowerChar(s[i]);
    }
  }

  /** `s.contains(k)`: `k` occurs in `s` as a contiguous infix. */
  predicate Contains(s: string, k: string)
    decreases |s|
  {
    k <= s || (|s| > 0 && Contains(s[1..], k))
  }

  lemma {:induction false} ContainsIffOccurs(s: string, k: string)
    ensures Contains(s, k) <==> exists i :: 0 <= i <= |s| && k <= s[i..]
    decreases |s|
  {
    if Contains(s, k) {
      if k <= s {
        assert s[0..] == s;
      } else {
        ContainsIffOccurs(s[1..], k);
        var i :| 0 <= i <= |s| - 1 && k <= s[1..][i..];
        assert s[1..][i..] == s[i + 1..];
        assert k <= s[i + 1..];
      }
    }
    if exists i :: 0 <= i <= |s| && k <= s[i..] {
      var i :| 0 <= i <= |s| && k <= s[i..];
      if i == 0 {
        assert s[0..] == s;
      } else {
        ContainsIffOccurs(s[1..], k);
        assert s[1..][i - 1..] == s[i..];
        assert Contains(s[1..], k);
      }
    }
  }

  /** Every string contains the empty string: an empty keyword matches all. */
  lemma ContainsEmpty(s: string)
    ensures Contains(s, "")
  {
  }
}

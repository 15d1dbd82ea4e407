/**
  The part of JavaScript's string semantics the generate handler relies on:
  `String.prototype.trim` and the falsiness of the empty string, which together
  decide whether a prompt is blank (App.jsx:23).

  Characters are Unicode scalar values. Every character `trim` strips lies in
  the Basic Multilingual Plane, so the UTF-16 view JavaScript uses and the
  scalar-value view used here strip the same characters.
 */
module JsString {

  /** WhiteSpace (section 12.2 of ECMA-262) or LineTerminator (section 12.3 of
      ECMA-262), the characters `trim` removes from both ends. The space
      separators are the general category Zs of Unicode 15. */
  predicate IsWs(c: char) {
    var n := c as int;
    // WhiteSpace: TAB, VT, FF, ZWNBSP
    || n == 0x09 || n == 0x0B || n == 0x0C || n == 0xFEFF
    // WhiteSpace: the space separators (category Zs)
    || n == 0x20 || n == 0xA0 || n == 0x1680 || 0x2000 <= n <= 0x200A
    || n == 0x202F || n == 0x205F || n == 0x3000
    // LineTerminator: LF, CR, LS, PS
    || n == 0x0A || n == 0x0D || n == 0x2028 || n == 0x2029
  }

  /** True when every character of `s` is white space (vacuously for ""). */
  predicate AllWs(s: string) {
    forall k :: 0 <= k < |s| ==> IsWs(s[k])
  }

  /** `s` with its leading white space removed: a suffix of `s` that starts
      with a non-white-space character (or is empty), where everything cut off
      is white space. */
  function TrimStart(s: string): (r: string)
    ensures |r| <= |s| && r == s[|s| - |r|..]
    ensures r == [] || !IsWs(r[0])
    ensures AllWs(s[..|s| - |r|])
  {
    if s != [] && IsWs(s[0]) then TrimStart(s[1..]) else s
  }

  /** `s` with its trailing white space removed: a prefix of `s` that ends
      with a non-white-space character (or is empty), where everything cut off
      is white space. */
  function TrimEnd(s: string): (r: string)
    ensures r <= s
    ensures r == [] || !IsWs(r[|r| - 1])
    ensures AllWs(s[|r|..])
  {
    if s != [] && IsWs(s[|s| - 1]) then TrimEnd(s[..|s| - 1]) else s
  }

  /** `r` is `s` with the characters before index `i` and after index
      `i + |r|` cut off, all of which are white space. */
  predicate StrippedAt(s: string, r: string, i: nat) {
    && i + |r| <= |s|
    && (forall k :: 0 <= k < |r| ==> r[k] == s[i + k])
    && (forall k :: 0 <= k < i ==> IsWs(s[k]))
    && (forall k :: i + |r| <= k < |s| ==> IsWs(s[k]))
  }

  /** Cutting a white-space prefix and then a white-space suffix leaves the
      part of `s` between them. */
  lemma StrippedFromParts(s: string, t: string, r: string)
    requires |t| <= |s| && t == s[|s| - |t|..] && AllWs(s[..|s| - |t|])
    requires r <= t && AllWs(t[|r|..])
    ensures StrippedAt(s, r, |s| - |t|)
  {
    var i := |s| - |t|;
    forall k | 0 <= k < i ensures IsWs(s[k]) {
      assert s[..i][k] == s[k];
    }
    forall k | i + |r| <= k < |s| ensures IsWs(s[k]) {
      assert t[|r|..][k - i - |r|] == s[k];
    }
  }

  /** `String.prototype.trim`: both ends stripped. The result is empty
      exactly when the whole input is white space, and otherwise starts and
      ends with a non-white-space character. */
  function Trim(s: string): (r: string)
    ensures |r| <= |s|
    ensures r == [] <==> AllWs(s)
    ensures r != [] ==> !IsWs(r[0]) && !IsWs(r[|r| - 1])
  {
    var t := TrimStart(s);
    var r := TrimEnd(t);
    assert r == [] ==> AllWs(s) by {
      if r == [] {
        assert t[|r|..] == t;
        assert s == s[..|s| - |t|] + t;
      }
    }
    r
  }

  /** What `trim` keeps is the part of the input between the white space it
      cuts from the front and the white space it cuts from the back. */
  lemma TrimKeepsMiddle(s: string)
    ensures StrippedAt(s, Trim(s), |s| - |TrimStart(s)|)
  {
    StrippedFromParts(s, TrimStart(s), Trim(s));
  }

  /** `!s.trim()` in JavaScript: the trimmed string is "" and so falsy. */
  predicate IsBlank(s: string)
    ensures IsBlank(s) <==> AllWs(s)
  {
    Trim(s) == []
  }

  /** One character that is not white space makes a string non-blank. */
  lemma NotBlankAt(s: string, k: nat)
    requires k < |s| && !IsWs(s[k])
    ensures !IsBlank(s)
  {
  }

  /** Trimming twice is trimming once. */
  lemma {:induction false} TrimIdempotent(s: string)
    ensures Trim(Trim(s)) == Trim(s)
  {
    var r := Trim(s);
    if r != [] {
      assert TrimStart(r) == r;
      assert TrimEnd(r) == r;
    }
  }
}

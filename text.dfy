/**
 * The string operations the task store applies to form input and search text:
 * `String.prototype.trim`, `toLowerCase` and `includes`.
 */
module Text {

  /**
   * The characters `trim` removes: the ECMAScript WhiteSpace code points
   * (tab, vertical tab, form feed, no-break space, byte order mark and the
   * space separators U+0020, U+00A0, U+1680, U+2000 to U+200A, U+202F, U+205F,
   * U+3000) and the LineTerminator code points (U+000A, U+000D, U+2028, U+2029).
   */
  predicate IsSpace(c: char) {
    var n := c as int;
    n == 0x09 || n == 0x0A || n == 0x0B || n == 0x0C || n == 0x0D || n == 0x20 ||
    n == 0xA0 || n == 0x1680 || (0x2000 <= n <= 0x200A) || n == 0x2028 || n == 0x2029 ||
    n == 0x202F || n == 0x205F || n == 0x3000 || n == 0xFEFF
  }

  predicate AllSpace(s: string) {
    forall k :: 0 <= k < |s| ==> IsSpace(s[k])
  }

  /** `s` with its leading white space removed: a suffix of `s` that starts with a non-space. */
  function TrimStart(s: string): (r: string)
    ensures |r| <= |s| && r == s[|s| - |r|..]
    ensures r != [] ==> !IsSpace(r[0])
    ensures AllSpace(s[..|s| - |r|])
  {
    if s != [] && IsSpace(s[0]) then
      var r := TrimStart(s[1..]);
      assert s[..|s| - |r|] == [s[0]] + s[1..][..|s| - 1 - |r|];
      r
    else
      s
  }

  /** `s` with its trailing white space removed: a prefix of `s` that ends with a non-space. */
  function TrimEnd(s: string): (r: string)
    ensures |r| <= |s| && r == s[..|r|]
    ensures r != [] ==> !IsSpace(r[|r| - 1])
    ensures AllSpace(s[|r|..])
  {
    if s != [] && IsSpace(s[|s| - 1]) then
      var r := TrimEnd(s[..|s| - 1]);
      assert s[|r|..] == s[..|s| - 1][|r|..] + [s[|s| - 1]];
      r
    else
      s
  }

  /** `r` occurs in `s` at `i`, and everything before and after that block is white space. */
  predicate PaddedAt(s: string, r: string, i: int) {
    OccursAt(s, r, i) && AllSpace(s[..i]) && AllSpace(s[i + |r|..])
  }

  /**
   * `s.trim()`: `s` without its leading and trailing white space. The result
   * is empty exactly when `s` is all white space, and otherwise neither
   * starts nor ends with white space.
   */
  function Trim(s: string): (r: string)
    ensures r == [] <==> AllSpace(s)
    ensures r != [] ==> !IsSpace(r[0]) && !IsSpace(r[|r| - 1])
    ensures exists i :: PaddedAt(s, r, i)
  {
    var t := TrimStart(s);
    var r := TrimEnd(t);
    PeeledPadded(s, t, r);
    PeeledEmpty(s, t, r);
    r
  }

  /**
   * The facts `TrimStart` and `TrimEnd` promise, put together: `t` is a
   * suffix of `s` after white space, and `r` a prefix of `t` before white space.
   */
  predicate Peeled(s: string, t: string, r: string) {
    |t| <= |s| && t == s[|s| - |t|..] && AllSpace(s[..|s| - |t|]) &&
    (t != [] ==> !IsSpace(t[0])) &&
    |r| <= |t| && r == t[..|r|] && AllSpace(t[|r|..])
  }

  /** The block left after peeling is padded by white space on both sides. */
  lemma PeeledPadded(s: string, t: string, r: string)
    requires Peeled(s, t, r)
    ensures PaddedAt(s, r, |s| - |t|)
  {
    var i := |s| - |t|;
    assert s[i..][..|r|] == s[i..i + |r|];
    assert s[i + |r|..] == t[|r|..];
  }

  /** The block left after peeling is empty exactly when `s` is all white space. */
  lemma PeeledEmpty(s: string, t: string, r: string)
    requires Peeled(s, t, r)
    ensures r == [] <==> AllSpace(s)
    ensures r != [] ==> !IsSpace(r[0])
  {
    var i := |s| - |t|;
    if r == [] {
      assert t == t[|r|..];
      assert t == [];
      assert s[..i] == s;
    } else {
      assert r[0] == t[0] == s[i];
    }
  }

  /** Trimming a trimmed string changes nothing. */
  lemma TrimIdempotent(s: string)
    ensures Trim(Trim(s)) == Trim(s)
  {
  }

  /** Lower-casing of one character; only the ASCII letters A to Z are mapped. */
  function LowerChar(c: char): (d: char)
    ensures !('A' <= d <= 'Z')
    ensures !('A' <= c <= 'Z') ==> d == c
  {
    if 'A' <= c <= 'Z' then (c as int + 32) as char else c
  }

  /** `s.toLowerCase()`, character by character. */
  function ToLower(s: string): (r: string)
    ensures |r| == |s|
    ensures forall i :: 0 <= i < |s| ==> r[i] == LowerChar(s[i])
  {
    if s == [] then [] else [LowerChar(s[0])] + ToLower(s[1..])
  }

  /** Lower-casing twice is lower-casing once, so a lower-cased query is its own lower case. */
  lemma ToLowerIdempotent(s: string)
    ensures ToLower(ToLower(s)) == ToLower(s)
  {
    var r := ToLower(s);
    assert forall i :: 0 <= i < |r| ==> ToLower(r)[i] == r[i];
  }

  /** `q` occurs in `s` starting at position `i`. */
  predicate OccursAt(s: string, q: string, i: int) {
    0 <= i <= |s| - |q| && s[i..i + |q|] == q
  }

  /** `s.includes(q)`: `q` occurs in `s` as a contiguous block. */
  function Includes(s: string, q: string): (r: bool)
    ensures r <==> exists i :: OccursAt(s, q, i)
    decreases |s|
  {
    if |q| > |s| then false
    else if s[..|q|] == q then (assert OccursAt(s, q, 0); true)
    else
      var rest := Includes(s[1..], q);
      if rest then
        var i :| OccursAt(s[1..], q, i);
        OccursShift(s, q);
        true
      else
        OccursShift(s, q);
        assert !OccursAt(s, q, 0);
        false
  }

  /** An occurrence in `s` after position 0 is an occurrence in `s[1..]`, one position earlier. */
  lemma OccursShift(s: string, q: string)
    requires s != []
    ensures forall i :: OccursAt(s[1..], q, i) ==> OccursAt(s, q, i + 1)
    ensures forall i :: OccursAt(s, q, i) && i > 0 ==> OccursAt(s[1..], q, i - 1)
  {
    forall i | OccursAt(s[1..], q, i) ensures OccursAt(s, q, i + 1) {
      assert s[1..][i..i + |q|] == s[i + 1..i + 1 + |q|];
    }
    forall i | OccursAt(s, q, i) && i > 0 ensures OccursAt(s[1..], q, i - 1) {
      assert s[1..][i - 1..i - 1 + |q|] == s[i..i + |q|];
    }
  }
}

/** The few JavaScript string operations the sketches rely on:
    `toLowerCase`, `includes`, `trim` and the ASCII digit class `\d`. */
module JsText {

  /** `toLowerCase` on one character, for the ASCII letters A-Z. */
  function LowerChar(c: char): char {
    if 'A' <= c <= 'Z' then (c as int + 32) as char else c
  }

  function ToLower(s: string): (r: string)
    ensures |r| == |s|
    ensures forall i :: 0 <= i < |s| ==> r[i] == LowerChar(s[i])
  {
    seq(|s|, i requires 0 <= i < |s| => LowerChar(s[i]))
  }

  /** `s.includes(w)`: w occurs as a contiguous substring of s. */
  function Contains(s: string, w: string): bool
    decreases |s|
  {
    if |w| > |s| then false
    else s[..|w|] == w || Contains(s[1..], w)
  }

  ghost predicate OccursAt(s: string, w: string, i: int) {
    0 <= i && i + |w| <= |s| && s[i..i + |w|] == w
  }

  /** `Contains` finds exactly the occurrences at some index. */
  lemma {:induction false} ContainsIff(s: string, w: string)
    ensures Contains(s, w) <==> exists i :: OccursAt(s, w, i)
    decreases |s|
  {
    if |w| > |s| {
    } else if s[..|w|] == w {
      assert OccursAt(s, w, 0);
    } else {
      ContainsIff(s[1..], w);
      if Contains(s[1..], w) {
        var i :| OccursAt(s[1..], w, i);
        assert s[1..][i..i + |w|] == s[i + 1..i + 1 + |w|];
        assert OccursAt(s, w, i + 1);
      } else {
        forall i | OccursAt(s, w, i) ensures false {
          if i != 0 {
            assert s[1..][i - 1..i - 1 + |w|] == s[i..i + |w|];
            assert OccursAt(s[1..], w, i - 1);
          }
        }
      }
    }
  }

  /** An occurrence at a known index is enough for `Contains`. */
  lemma ContainsAt(s: string, w: string, i: int)
    requires OccursAt(s, w, i)
    ensures Contains(s, w)
  {
    ContainsIff(s, w);
  }

  /** Every occurrence starts with the first character of w, so a string
      without that character contains no occurrence. */
  lemma ContainsFirstChar(s: string, w: string)
    requires |w| > 0
    ensures Contains(s, w) ==> w[0] in s
  {
    ContainsIff(s, w);
    if Contains(s, w) {
      var i :| OccursAt(s, w, i);
      assert s[i..i + |w|][0] == s[i];
    }
  }

  /** Characters removed by `String.prototype.trim`: the ECMAScript
      WhiteSpace and LineTerminator code points. */
  predicate IsJsSpace(c: char) {
    c == '\U{0009}' || c == '\U{000A}' || c == '\U{000B}' || c == '\U{000C}' ||
    c == '\U{000D}' || c == '\U{0020}' || c == '\U{00A0}' || c == '\U{1680}' ||
    ('\U{2000}' <= c <= '\U{200A}') || c == '\U{2028}' || c == '\U{2029}' ||
    c == '\U{202F}' || c == '\U{205F}' || c == '\U{3000}' || c == '\U{FEFF}'
  }

  /** Number of leading white-space characters. */
  function LeadingSpace(s: string): (n: nat)
    ensures n <= |s|
    ensures forall i :: 0 <= i < n ==> IsJsSpace(s[i])
    ensures n < |s| ==> !IsJsSpace(s[n])
  {
    if s == [] || !IsJsSpace(s[0]) then 0 else 1 + LeadingSpace(s[1..])
  }

  /** Number of trailing white-space characters. */
  function TrailingSpace(s: string): (n: nat)
    ensures n <= |s|
    ensures forall i :: |s| - n <= i < |s| ==> IsJsSpace(s[i])
    ensures n < |s| ==> !IsJsSpace(s[|s| - n - 1])
  {
    if s == [] || !IsJsSpace(s[|s| - 1]) then 0 else 1 + TrailingSpace(s[..|s| - 1])
  }

  /** s[i..j] is what trimming leaves: everything cut away is white space
      and the slice neither starts nor ends with white space. */
  ghost predicate IsTrimSlice(s: string, i: int, j: int) {
    && 0 <= i <= j <= |s|
    && (forall k :: 0 <= k < i ==> IsJsSpace(s[k]))
    && (forall k :: j <= k < |s| ==> IsJsSpace(s[k]))
    && (i < j ==> !IsJsSpace(s[i]) && !IsJsSpace(s[j - 1]))
  }

  /** `s.trim()`. */
  function Trim(s: string): (r: string)
    ensures exists i, j :: IsTrimSlice(s, i, j) && r == s[i..j]
  {
    var a := LeadingSpace(s);
    if a == |s| then
      assert IsTrimSlice(s, a, a);
      s[a..a]
    else
      var b := TrailingSpace(s);
      assert !IsJsSpace(s[a]);
      assert IsTrimSlice(s, a, |s| - b);
      s[a..|s| - b]
  }

  /** The regular-expression class `\d` without the `u` flag: ASCII digits. */
  predicate IsDigit(c: char) { '0' <= c <= '9' }

  predicate AllDigits(s: string) { forall i :: 0 <= i < |s| ==> IsDigit(s[i]) }

  /** Value of a run of decimal digits, as `parseInt(s, 10)` reads it. */
  function DecimalValue(s: string): (v: nat)
    requires AllDigits(s)
    ensures v < Pow10(|s|)
  {
    if s == [] then 0
    else DecimalValue(s[..|s| - 1]) * 10 + (s[|s| - 1] as int - '0' as int)
  }

  function Pow10(n: nat): (p: nat)
    ensures p >= 1
  {
    if n == 0 then 1 else 10 * Pow10(n - 1)
  }
}

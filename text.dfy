/** String helpers of ward/terminal.py: `truncate` and the right-hand padding
    that `write_over_line` adds so that a shorter write hides an older,
    longer one. */
module Text {

  function Min(a: int, b: int): int { if a <= b then a else b }
  function Max(a: int, b: int): int { if a >= b then a else b }

  /** The marker `truncate` appends. */
  const Ellipsis: string := "..."

  /** Python's `s[:n]`: a non-negative `n` keeps the first `n` characters
      (all of `s` when it is shorter); a negative `n` drops the last `-n`. */
  function PyPrefix(s: string, n: int): (r: string)
    ensures r <= s
    ensures n >= 0 ==> |r| == Min(n, |s|)
    ensures n < 0 ==> |r| == Max(0, |s| + n)
  {
    if n >= 0 then
      if n <= |s| then s[..n] else s
    else
      if |s| + n >= 0 then s[..|s| + n] else []
  }

  /** `truncate(s, num_chars)`: the marker is added when `s` is longer than
      `num_chars - 3`, and what precedes it is `s[:num_chars]`. */
  function Truncate(s: string, numChars: int): (r: string)
    ensures |s| <= numChars - 3 ==> r == s
    ensures |s| > numChars - 3 ==>
              |r| >= 3 && r[|r| - 3..] == Ellipsis && r[..|r| - 3] <= s
    ensures |s| > numChars - 3 && numChars >= 0 ==> |r| == Min(numChars, |s|) + 3
  {
    var suffix := if |s| > numChars - 3 then Ellipsis else "";
    PyPrefix(s, numChars) + suffix
  }

  /** A string longer than the width is cut at exactly `numChars`
      characters, so the result is `numChars + 3` long. */
  lemma {:induction false} TruncateCutsAtWidth(s: string, numChars: int)
    requires 0 <= numChars < |s|
    ensures Truncate(s, numChars) == s[..numChars] + Ellipsis
    ensures |Truncate(s, numChars)| == numChars + 3
  {
  }

  /** A string of length in `(numChars - 3, numChars]` is kept whole and
      still gets the marker, although nothing was cut. */
  lemma {:induction false} TruncateKeepsWholeWithMarker(s: string, numChars: int)
    requires numChars - 3 < |s| <= numChars
    ensures Truncate(s, numChars) == s + Ellipsis
  {
  }

  /** For a non-negative width the result is never more than three
      characters longer than the width, nor than the original. */
  lemma {:induction false} TruncateLengthBound(s: string, numChars: int)
    requires numChars >= 0
    ensures |Truncate(s, numChars)| <= numChars + 3
    ensures |Truncate(s, numChars)| <= |s| + 3
  {
  }

  /** Characters of `write_over_line`'s text that are escape codes rather
      than printed characters, by the source's own estimate. */
  const EscCodeRhsMargin: int := 37

  function Spaces(n: nat): (r: string)
    ensures |r| == n && forall i :: 0 <= i < n ==> r[i] == ' '
  {
    seq(n, _ => ' ')
  }

  /** The text `write_over_line` writes on a row of a terminal `width`
      columns wide: the text followed by `max(0, width - len + 37)` spaces. */
  function PaddedRow(text: string, width: int): (r: string)
    ensures |r| == Max(|text|, width + EscCodeRhsMargin)
    ensures r[..|text|] == text
    ensures forall i :: |text| <= i < |r| ==> r[i] == ' '
  {
    var rightMargin := Max(0, width - |text| + EscCodeRhsMargin);
    text + Spaces(rightMargin)
  }
}

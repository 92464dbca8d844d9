/** Ruby String primitives used by the parsers: `strip`, `chop`,
    `downcase` and `Array#join`. */
module Text {

  /** The characters Ruby's awk-style `split(' ')` treats as whitespace. */
  predicate IsSpace(c: char) {
    c == ' ' || c == '\t' || c == '\n' || c == '\U{000B}' || c == '\U{000C}' || c == '\r'
  }

  /** The characters `strip` removes: whitespace and NUL. */
  predicate IsStripChar(c: char) {
    IsSpace(c) || c == '\0'
  }

  /** Number of strip characters at the front of `s`. */
  function LeadingStrip(s: string): (n: nat)
    ensures n <= |s|
    ensures forall k :: 0 <= k < n ==> IsStripChar(s[k])
    ensures n < |s| ==> !IsStripChar(s[n])
  {
    if |s| == 0 || !IsStripChar(s[0]) then 0 else 1 + LeadingStrip(s[1..])
  }

  /** Number of strip characters at the back of `s`. */
  function TrailingStrip(s: string): (n: nat)
    ensures n <= |s|
    ensures forall k :: |s| - n <= k < |s| ==> IsStripChar(s[k])
    ensures n < |s| ==> !IsStripChar(s[|s| - 1 - n])
  {
    if |s| == 0 || !IsStripChar(s[|s| - 1]) then 0 else 1 + TrailingStrip(s[..|s| - 1])
  }

  /** `String#strip`: the slice of `s` left after removing strip characters
      from both ends. */
  function Strip(s: string): (r: string)
    ensures LeadingStrip(s) + |r| <= |s|
    ensures r == s[LeadingStrip(s)..LeadingStrip(s) + |r|]
    ensures forall k :: LeadingStrip(s) + |r| <= k < |s| ==> IsStripChar(s[k])
    ensures |r| > 0 ==> !IsStripChar(r[0]) && !IsStripChar(r[|r| - 1])
  {
    var i := LeadingStrip(s);
    if i == |s| then "" else s[i..|s| - TrailingStrip(s)]
  }

  /** `String#chop` on a stripped string: drop the last character. */
  function Chop(s: string): string {
    if |s| == 0 then "" else s[..|s| - 1]
  }

  /** ASCII `downcase` of one character. */
  function Lower(c: char): char {
    if 'A' <= c <= 'Z' then (c as int + 32) as char else c
  }

  function Downcase(s: string): string {
    seq(|s|, i requires 0 <= i < |s| => Lower(s[i]))
  }

  /** `Array#join(sep)`. */
  function Join(xs: seq<string>, sep: string): string {
    if |xs| == 0 then "" else if |xs| == 1 then xs[0] else xs[0] + sep + Join(xs[1..], sep)
  }

  /** `Array#join` with no separator. */
  function Concat(xs: seq<string>): string {
    Join(xs, "")
  }

  /** Stripping is idempotent. */
  lemma StripIdempotent(s: string)
    ensures Strip(Strip(s)) == Strip(s)
  {
    var r := Strip(s);
    if |r| > 0 {
      assert LeadingStrip(r) == 0;
      assert TrailingStrip(r) == 0;
    }
  }

  /** A string with no strip character at either end is its own strip. */
  lemma StripUnchanged(s: string)
    requires |s| > 0 ==> !IsStripChar(s[0]) && !IsStripChar(s[|s| - 1])
    ensures Strip(s) == s
  {
    if |s| > 0 {
      assert LeadingStrip(s) == 0;
      assert TrailingStrip(s) == 0;
    }
  }

  /** Strip characters around a trimmed string are exactly what `strip`
      removes. */
  lemma StripPadded(p: string, s: string, q: string)
    requires forall k :: 0 <= k < |p| ==> IsStripChar(p[k])
    requires forall k :: 0 <= k < |q| ==> IsStripChar(q[k])
    requires |s| > 0 && !IsStripChar(s[0]) && !IsStripChar(s[|s| - 1])
    ensures Strip(p + s + q) == s
  {
    var x := p + s + q;
    assert forall k :: 0 <= k < |p| ==> x[k] == p[k];
    assert x[|p|] == s[0];
    assert LeadingStrip(x) == |p|;
    assert forall k :: 0 <= k < |q| ==> x[|p| + |s| + k] == q[k];
    assert x[|p| + |s| - 1] == s[|s| - 1];
    assert TrailingStrip(x) == |q|;
    assert x[|p|..|x| - |q|] == s;
  }
}

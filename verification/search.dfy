/** Substring search and the Ruby `String#split` / line semantics the
    parsers rely on. */
module Search {
  import opened Wrappers
  import opened Text

  /** `pat` occurs in `s` starting at index `k`. */
  predicate OccursAt(s: string, pat: string, k: int) {
    0 <= k && k + |pat| <= |s| && s[k..k + |pat|] == pat
  }

  /** The first occurrence of `pat` in `s` at or after `from`. */
  function FindFrom(s: string, pat: string, from: nat): (r: Option<nat>)
    ensures r.Some? ==> from <= r.value && OccursAt(s, pat, r.value)
    ensures r.Some? ==> forall j :: from <= j < r.value ==> !OccursAt(s, pat, j)
    ensures r.None? ==> forall j :: from <= j ==> !OccursAt(s, pat, j)
    decreases |s| - from
  {
    if from + |pat| > |s| then None
    else if s[from..from + |pat|] == pat then Some(from)
    else FindFrom(s, pat, from + 1)
  }

  /** `String#index`: the first occurrence of `pat` in `s`. */
  function IndexOf(s: string, pat: string): Option<nat> {
    FindFrom(s, pat, 0)
  }

  /** `String#include?`. */
  predicate Contains(s: string, pat: string) {
    IndexOf(s, pat).Some?
  }

  lemma OccurrenceIsContained(s: string, pat: string, k: int)
    requires OccursAt(s, pat, k)
    ensures Contains(s, pat)
  {
  }

  /** A string holding `a + b` holds `b`. */
  lemma ContainsTail(s: string, a: string, b: string)
    requires Contains(s, a + b)
    ensures Contains(s, b)
  {
    var k := IndexOf(s, a + b).value;
    assert s[k + |a|..k + |a| + |b|] == (a + b)[|a|..];
    OccurrenceIsContained(s, b, k + |a|);
  }

  /** An occurrence inside a prefix is an occurrence in the whole. */
  lemma PrefixOccurrence(s: string, n: nat, pat: string, k: int)
    requires n <= |s| && OccursAt(s[..n], pat, k)
    ensures OccursAt(s, pat, k)
  {
    assert s[..n][k..k + |pat|] == s[k..k + |pat|];
  }

  /** The first index at or after `from` whose character satisfies `p`. */
  function FindWhere(s: string, from: nat, p: char -> bool): (r: Option<nat>)
    ensures r.Some? ==> from <= r.value < |s| && p(s[r.value])
    ensures r.Some? ==> forall j :: from <= j < r.value ==> !p(s[j])
    ensures r.None? ==> forall j :: from <= j < |s| ==> !p(s[j])
    decreases |s| - from
  {
    if from >= |s| then None
    else if p(s[from]) then Some(from)
    else FindWhere(s, from + 1, p)
  }

  /** Every field of `s` cut at each non-overlapping occurrence of `sep`,
      scanning left to right; trailing empty fields are kept. */
  function SplitAll(s: string, sep: string): (r: seq<string>)
    requires |sep| > 0
    ensures |r| >= 1
    ensures Join(r, sep) == s
    ensures forall i :: 0 <= i < |r| ==> !Contains(r[i], sep)
    decreases |s|
  {
    match IndexOf(s, sep)
    case None => [s]
    case Some(i) =>
      var head := s[..i];
      assert !Contains(head, sep) by {
        if Contains(head, sep) {
          PrefixOccurrence(s, i, sep, IndexOf(head, sep).value);
        }
      }
      var tail := SplitAll(s[i + |sep|..], sep);
      assert s == head + sep + s[i + |sep|..];
      [head] + tail
  }

  /** When the separator's first character does not recur in it, the
      first separator of `x + sep + rest` is the one after `x`, provided
      `x` holds none. */
  lemma FirstSeparator(x: string, sep: string, rest: string)
    requires |sep| > 0 && sep[0] !in sep[1..]
    requires !Contains(x, sep)
    ensures IndexOf(x + sep + rest, sep) == Some(|x|)
  {
    var s := x + sep + rest;
    assert s[|x|..|x| + |sep|] == sep;
    forall j | 0 <= j < |x|
      ensures !OccursAt(s, sep, j)
    {
      if j + |sep| <= |x| {
        assert s[j..j + |sep|] == x[j..j + |sep|];
        assert !OccursAt(x, sep, j);
      } else {
        var d := |x| - j;
        assert s[|x|] == sep[0];
        assert sep[1..][d - 1] == sep[d] && sep[d] in sep[1..];
        assert s[j..j + |sep|][d] == s[|x|];
        assert s[j..j + |sep|] != sep;
      }
    }
    assert OccursAt(s, sep, |x|);
    assert FindFrom(s, sep, 0).Some?;
  }

  /** Splitting a joined list at the separator gives the list back, when
      no element holds the separator and its first character does not
      recur in it. */
  lemma {:induction false} SplitJoin(xs: seq<string>, sep: string)
    requires |sep| > 0 && sep[0] !in sep[1..]
    requires |xs| > 0
    requires forall i :: 0 <= i < |xs| ==> !Contains(xs[i], sep)
    ensures SplitAll(Join(xs, sep), sep) == xs
    decreases |xs|
  {
    if |xs| > 1 {
      var x, rest := xs[0], Join(xs[1..], sep);
      var s := x + sep + rest;
      assert Join(xs, sep) == s;
      FirstSeparator(x, sep, rest);
      SplitAtIndex(s, sep, |x|);
      assert s[..|x|] == x;
      assert s[|x| + |sep|..] == rest;
      assert forall i :: 0 <= i < |xs| - 1 ==> xs[1..][i] == xs[i + 1];
      SplitJoin(xs[1..], sep);
      assert xs == [x] + xs[1..];
    } else {
      assert !Contains(xs[0], sep);
    }
  }

  /** The fields of `s` cut at an occurrence found first. */
  lemma SplitAtIndex(s: string, sep: string, i: nat)
    requires |sep| > 0 && IndexOf(s, sep) == Some(i)
    ensures SplitAll(s, sep) == [s[..i]] + SplitAll(s[i + |sep|..], sep)
  {
  }

  /** The fields with trailing empty ones removed. */
  function DropTrailingEmpty(xs: seq<string>): (r: seq<string>)
    ensures |r| <= |xs| && r == xs[..|r|]
    ensures forall k :: |r| <= k < |xs| ==> xs[k] == ""
    ensures |r| > 0 ==> r[|r| - 1] != ""
  {
    if |xs| > 0 && xs[|xs| - 1] == "" then DropTrailingEmpty(xs[..|xs| - 1]) else xs
  }

  /** `String#split(sep)` with a multi-character String separator. */
  function RubySplit(s: string, sep: string): seq<string>
    requires |sep| > 0
  {
    DropTrailingEmpty(SplitAll(s, sep))
  }

  /** `String#sub(pat, '')`: the first occurrence of `pat` removed. */
  function RemoveFirst(s: string, pat: string): (r: string)
    ensures IndexOf(s, pat).None? ==> r == s
    ensures IndexOf(s, pat).Some? ==> |r| + |pat| == |s|
    ensures IndexOf(s, pat).Some? ==>
      var i := IndexOf(s, pat).value;
      i <= |r| && s == r[..i] + pat + r[i..]
  {
    match IndexOf(s, pat)
    case None => s
    case Some(i) =>
      var r := s[..i] + s[i + |pat|..];
      assert r[..i] == s[..i] && r[i..] == s[i + |pat|..];
      assert s[i..i + |pat|] == pat;
      assert s == s[..i] + s[i..i + |pat|] + s[i + |pat|..];
      r
  }

  predicate NoNewline(s: string) {
    forall k :: 0 <= k < |s| ==> s[k] != '\n'
  }

  /** The lines a Ruby `^`/`$` anchored pattern can match: the text between
      newlines, where a final newline does not open one more line. */
  function Lines(s: string): (r: seq<string>)
    ensures |r| >= 1
    ensures forall i :: 0 <= i < |r| ==> NoNewline(r[i])
    ensures Join(r, "\n") == s || Join(r, "\n") + "\n" == s
  {
    var body := if |s| > 0 && s[|s| - 1] == '\n' then s[..|s| - 1] else s;
    assert body == s || body + "\n" == s;
    var r := SplitAll(body, "\n");
    forall i | 0 <= i < |r|
      ensures NoNewline(r[i])
    {
      forall k | 0 <= k < |r[i]|
        ensures r[i][k] != '\n'
      {
        if r[i][k] == '\n' {
          assert OccursAt(r[i], "\n", k);
          OccurrenceIsContained(r[i], "\n", k);
        }
      }
    }
    r
  }

  /** A string on one line is its only line. */
  lemma SingleLine(s: string)
    requires NoNewline(s)
    ensures Lines(s) == [s]
  {
    NewlineFree(s);
    assert |s| == 0 || s[|s| - 1] != '\n';
    assert IndexOf(s, "\n").None?;
  }

  /** A string on one line holds no newline to search for. */
  lemma NewlineFree(s: string)
    requires NoNewline(s)
    ensures !Contains(s, "\n")
  {
    forall k | 0 <= k < |s|
      ensures !OccursAt(s, "\n", k)
    {
      assert s[k..k + 1][0] == s[k];
    }
  }
}

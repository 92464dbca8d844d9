/** Ruby's awk-style `split(' ')`: the maximal runs of non-whitespace
    characters, in order. */
module Tokens {
  import opened Text

  /** A token `split(' ')` can produce: non-empty, no whitespace. */
  predicate IsWord(w: string) {
    |w| > 0 && forall i :: 0 <= i < |w| ==> !IsSpace(w[i])
  }

  predicate AllWords(ws: seq<string>) {
    forall i :: 0 <= i < |ws| ==> IsWord(ws[i])
  }

  /** Length of the run of non-whitespace characters that starts `s`. */
  function WordLen(s: string): (n: nat)
    ensures n <= |s|
    ensures forall i :: 0 <= i < n ==> !IsSpace(s[i])
    ensures n < |s| ==> IsSpace(s[n])
  {
    if |s| == 0 || IsSpace(s[0]) then 0 else 1 + WordLen(s[1..])
  }

  function Words(s: string): (r: seq<string>)
    ensures AllWords(r)
    decreases |s|
  {
    if |s| == 0 then []
    else if IsSpace(s[0]) then Words(s[1..])
    else
      var n := WordLen(s);
      [s[..n]] + Words(s[n..])
  }

  /** A word splits into itself. */
  lemma WordsOfWord(w: string)
    requires IsWord(w)
    ensures Words(w) == [w]
  {
    assert WordLen(w) == |w|;
    assert w[..|w|] == w;
    assert w[|w|..] == "";
    assert Words(w) == [w[..|w|]] + Words(w[|w|..]);
  }

  /** A space between two strings separates their words. */
  lemma {:induction false} WordsAppend(x: string, y: string)
    ensures Words(x + " " + y) == Words(x) + Words(y)
    decreases |x|
  {
    var s := x + " " + y;
    if |x| == 0 {
      assert s == " " + y;
      assert s[1..] == y;
    } else if IsSpace(x[0]) {
      assert s[1..] == x[1..] + " " + y;
      WordsAppend(x[1..], y);
    } else {
      var m := WordLen(x);
      assert IsSpace(s[m]) by {
        if m < |x| { assert s[m] == x[m]; }
      }
      forall i | 0 <= i < m ensures !IsSpace(s[i]) {
        assert s[i] == x[i];
      }
      assert WordLen(s) == m;
      assert s[..m] == x[..m];
      assert s[m..] == x[m..] + " " + y;
      WordsAppend(x[m..], y);
    }
  }

  /** Splitting a space-joined list of words gives the list back: the
      partner of `Join(_, " ")`. */
  lemma {:induction false} WordsOfJoin(ws: seq<string>)
    requires AllWords(ws)
    ensures Words(Join(ws, " ")) == ws
    decreases |ws|
  {
    if |ws| == 0 {
    } else if |ws| == 1 {
      WordsOfWord(ws[0]);
    } else {
      WordsAppend(ws[0], Join(ws[1..], " "));
      WordsOfWord(ws[0]);
      WordsOfJoin(ws[1..]);
      assert ws == [ws[0]] + ws[1..];
    }
  }

  /** Every character of a word of `s` is a character of `s`. */
  lemma {:induction false} WordsChars(s: string)
    ensures forall w, c :: w in Words(s) && c in w ==> c in s
    decreases |s|
  {
    if |s| > 0 {
      if IsSpace(s[0]) {
        WordsChars(s[1..]);
        assert forall c :: c in s[1..] ==> c in s;
      } else {
        var n := WordLen(s);
        WordsChars(s[n..]);
        assert forall c :: c in s[..n] ==> c in s;
        assert forall c :: c in s[n..] ==> c in s;
      }
    }
  }
}

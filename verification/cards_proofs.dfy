/** Properties of the list-page crawler: labels and dispatch, the search
    fragment read back, each field parser against the text it is meant
    for, and the row loop's grouping of rows into cards. */
module CardsFieldProofs {
  import opened Wrappers
  import opened Errors
  import opened Text
  import opened Search
  import opened Tokens
  import opened Seqs
  import opened Numerals
  import opened Card
  import Single
  import SingleValueProofs
  import opened Cards

  // ---------------------------------------------------------------------
  // Labels

  /** Every row kind is reached by its own label. */
  lemma LabelsDispatch(a: Attribute)
    ensures AttributeOf(LabelOf(a)) == Some(a)
  {
  }

  /** The label of a row whose first cell reads `t` and a colon, padded
      with whitespace, is `t` lower-cased. */
  lemma RowLabelOf(r: Row, pre: string, t: string, post: string)
    requires |r.labelCell| > 0 && r.labelCell[0] == Markup(pre + t + ":" + post)
    requires forall k :: 0 <= k < |pre| ==> IsStripChar(pre[k])
    requires forall k :: 0 <= k < |post| ==> IsStripChar(post[k])
    requires |t| > 0 ==> !IsStripChar(t[0])
    ensures RowLabel(r) == Downcase(t)
  {
    var u := t + ":";
    assert u[0] == (if |t| > 0 then t[0] else ':');
    assert pre + t + ":" + post == pre + u + post;
    StripPadded(pre, u, post);
    assert u[..|u| - 1] == t;
  }

  lemma SetRarityText()
    ensures "" + "Set/Rarity" + ":" + "" == "Set/Rarity:"
    ensures Downcase("Set/Rarity") == "set/rarity"
  {
  }

  /** `Set/Rarity:` names the set/rarity row. */
  lemma SetRarityLabel(r: Row)
    requires |r.labelCell| > 0 && r.labelCell[0] == Markup("Set/Rarity:")
    ensures AttributeOf(RowLabel(r)) == Some(SetRarityRow)
  {
    SetRarityText();
    RowLabelOf(r, "", "Set/Rarity", "");
    assert RowLabel(r) == "set/rarity";
    SetRarityAttribute();
  }

  lemma SetRarityAttribute()
    ensures AttributeOf("set/rarity") == Some(SetRarityRow)
  {
  }

  lemma FoobarText()
    ensures "" + "foobar" + ":" + "" == "foobar:"
    ensures Downcase("foobar") == "foobar"
  {
  }

  /** A row labelled `foobar:` raises naming "foobar", whatever the card. */
  lemma UnknownLabel(c: Card, r: Row, setTypes: TypeSetter)
    requires |r.labelCell| > 0 && r.labelCell[0] == Markup("foobar:")
    ensures ParseRow(c, r, setTypes) == Failure(UnknownCardAttribute("foobar"))
  {
    FoobarText();
    RowLabelOf(r, "", "foobar", "");
  }

  // ---------------------------------------------------------------------
  // The search fragment

  /** Reads `head`, a value up to the first quote, and the closing `"]`
      off the front of `s`; gives the value and what follows. */
  function ReadFrag(s: string, head: string): Option<(string, string)> {
    if !(head <= s) then None
    else match FindWhere(s, |head|, c => c == '"')
      case None => None
      case Some(j) =>
        if FragTail <= s[j..] then Some((s[|head|..j], s[j + |FragTail|..])) else None
  }

  /** The options a search fragment was built from. */
  function ReadSearchFragment(f: string): Option<(Option<string>, Option<string>)> {
    var (block, rest) := match ReadFrag(f, BlockFragHead)
      case None => (None, f)
      case Some((v, r)) => (Some(v), r);
    if rest == "" then Some((block, None))
    else match ReadFrag(rest, SetFragHead)
      case Some((v, r)) => if r == "" then Some((block, Some(v))) else None
      case None => None
  }

  lemma ReadFragOf(head: string, v: string, rest: string)
    requires '"' !in v
    ensures ReadFrag(head + v + FragTail + rest, head) == Some((v, rest))
  {
    var s := head + v + FragTail + rest;
    assert s[..|head|] == head;
    var j := |head| + |v|;
    assert forall i :: |head| <= i < j ==> s[i] == v[i - |head|];
    assert s[j] == '"';
    assert FindWhere(s, |head|, c => c == '"') == Some(j);
    assert s[j..][..|FragTail|] == FragTail;
    assert s[|head|..j] == v;
    assert s[j + |FragTail|..] == rest;
  }

  lemma FragHeadsDiffer(rest: string)
    ensures !(BlockFragHead <= SetFragHead + rest)
  {
    assert BlockFragHead[1] != (SetFragHead + rest)[1];
  }

  /** The fragment reads back to the options it was built from, when
      neither holds a quote. */
  lemma SearchFragmentRoundTrip(block: Option<string>, setName: Option<string>)
    requires block.Some? ==> '"' !in block.value
    requires setName.Some? ==> '"' !in setName.value
    ensures ReadSearchFragment(SearchFragment(block, setName)) == Some((block, setName))
  {
    match (block, setName)
    case (None, None) =>
      assert SearchFragment(block, setName) == "";
    case (Some(b), None) =>
      assert SearchFragment(block, setName) == BlockFragHead + b + FragTail + "";
      ReadFragOf(BlockFragHead, b, "");
    case (None, Some(n)) =>
      SetFragmentAlone(n);
    case (Some(b), Some(n)) =>
      var tail := SetFragHead + n + FragTail;
      assert SearchFragment(block, setName) == BlockFragHead + b + FragTail + tail;
      ReadFragOf(BlockFragHead, b, tail);
      assert tail == SetFragHead + n + FragTail + "";
      ReadFragOf(SetFragHead, n, "");
  }

  /** A fragment holding only a set reads back as that set and no block. */
  lemma SetFragmentAlone(n: string)
    requires '"' !in n
    ensures ReadSearchFragment(SearchFragment(None, Some(n))) == Some((None, Some(n)))
  {
    var f := SearchFragment(None, Some(n));
    assert f == SetFragHead + (n + FragTail);
    FragHeadsDiffer(n + FragTail);
    assert ReadFrag(f, BlockFragHead).None?;
    assert f == SetFragHead + n + FragTail + "";
    ReadFragOf(SetFragHead, n, "");
  }

  // ---------------------------------------------------------------------
  // Name and image id

  lemma {:induction false} DigitIdSkip(s: string, from: nat, k: nat)
    requires from <= k && k + |MultiverseKey| < |s|
    requires forall j :: from <= j < k ==> !OccursAt(s, MultiverseKey, j)
    ensures DigitIdFrom(s, from) == DigitIdFrom(s, k)
    decreases k - from
  {
    if from < k {
      DigitIdSkip(s, from + 1, k);
    }
  }

  /** The digits after the key are read in full, up to the first
      non-digit. */
  lemma DigitIdAtKey(p: string, d: string, rest: string)
    requires |d| > 0 && AllDigits(d)
    requires |rest| > 0 ==> !IsDigit(rest[0])
    ensures DigitIdFrom(p + MultiverseKey + d + rest, |p|) == Some(d)
  {
    var s := p + MultiverseKey + d + rest;
    var b := |p| + |MultiverseKey|;
    assert s[|p|..b] == MultiverseKey;
    assert forall i :: 0 <= i < |d| ==> s[b + i] == d[i];
    assert b + |d| < |s| ==> s[b + |d|] == rest[0];
    assert forall i :: b <= i < b + |d| ==> IsDigit(s[i]);
    assert b + |d| < |s| ==> !IsDigit(s[b + |d|]);
    assert DigitRun(s, b) == |d|;
    assert s[b..b + |d|] == d;
  }

  /** A link to the detail page of id `n` gives `n`'s digits. */
  lemma DigitIdRoundTrip(p: string, n: nat, rest: string)
    requires '=' !in p
    requires |rest| > 0 ==> !IsDigit(rest[0])
    ensures DigitIdFrom(p + MultiverseKey + Decimal(n) + rest, 0) == Some(Decimal(n))
  {
    var d := Decimal(n);
    var s := p + MultiverseKey + d + rest;
    assert s == p + Single.IdKey + (d + rest);
    SingleValueProofs.NoKeyBefore(p, d + rest);
    DigitIdSkip(s, 0, |p|);
    DigitIdAtKey(p, d, rest);
  }

  /** A name row whose link points at id `n` names the card and gives it
      the image URI of `n`; nothing else changes. */
  lemma NameRowRoundTrip(c: Card, r: Row, setTypes: TypeSetter, p: string, n: nat, name: string)
    requires RowLabel(r) == "name"
    requires |r.anchors| == 1 && r.anchors[0] == Anchor(Some(p + MultiverseKey + Decimal(n)), [name])
    requires '=' !in p
    ensures ParseRow(c, r, setTypes) == Success(c.(name := Some(name), imageUri := Some(ImageUri(n))))
  {
    DigitIdRoundTrip(p, n, "");
    assert p + MultiverseKey + Decimal(n) + "" == p + MultiverseKey + Decimal(n);
    FormatArgOfDecimal(n);
    assert LinkChildren(r.anchors) == [name] + LinkChildren([]);
  }

  // ---------------------------------------------------------------------
  // Cost and type

  /** A cost cell whose last child is the symbol string, padded with
      whitespace, gives that string. */
  lemma CostCellRoundTrip(r: Row, pre: string, cost: string, post: string)
    requires |r.cell| > 0 && r.cell[|r.cell| - 1] == Markup(pre + cost + post)
    requires forall k :: 0 <= k < |pre| ==> IsStripChar(pre[k])
    requires forall k :: 0 <= k < |post| ==> IsStripChar(post[k])
    requires |cost| > 0 && !IsStripChar(cost[0]) && !IsStripChar(cost[|cost| - 1])
    ensures Cards.ParseCost(r) == cost
  {
    StripPadded(pre, cost, post);
  }

  /** Without NUL characters a space-joined word list is already trimmed. */
  lemma JoinTrimmed(ws: seq<string>)
    requires AllWords(ws) && |ws| > 0
    requires forall w :: w in ws ==> '\0' !in w
    ensures Strip(Join(ws, " ")) == Join(ws, " ")
    decreases |ws|
  {
    var s := Join(ws, " ");
    assert ws[0] in ws;
    assert s[0] == ws[0][0] by {
      if |ws| > 1 {
        assert s == ws[0] + " " + Join(ws[1..], " ");
      }
    }
    assert !IsStripChar(s[0]) by {
      assert ws[0][0] in ws[0];
    }
    LastOfJoin(ws);
    var w := ws[|ws| - 1];
    assert w in ws && w[|w| - 1] in w;
    StripUnchanged(s);
  }

  lemma {:induction false} LastOfJoin(ws: seq<string>)
    requires AllWords(ws) && |ws| > 0
    ensures |Join(ws, " ")| > 0
    ensures var s, w := Join(ws, " "), ws[|ws| - 1]; s[|s| - 1] == w[|w| - 1]
    decreases |ws|
  {
    if |ws| > 1 {
      LastOfJoin(ws[1..]);
    }
  }

  /** The dash is a word, so a type line's tokens are all words. */
  lemma DashedWords(ws: seq<string>, subs: seq<string>)
    requires AllWords(ws) && AllWords(subs)
    requires forall w :: w in ws + subs ==> '\0' !in w
    ensures AllWords(ws + ["&mdash;"] + subs)
    ensures forall w :: w in ws + ["&mdash;"] + subs ==> '\0' !in w
  {
    var all := ws + ["&mdash;"] + subs;
    assert forall i :: 0 <= i < |all| ==> all[i] in ws + subs || all[i] == "&mdash;";
    assert forall w :: w in all ==> w in ws + subs || w == "&mdash;";
  }

  /** The words of a type line with the dash between head and subtypes. */
  lemma TypeLineWords(ws: seq<string>, subs: seq<string>)
    requires AllWords(ws) && AllWords(subs)
    requires forall w :: w in ws + subs ==> '\0' !in w
    ensures Words(Strip(Join(ws + ["&mdash;"] + subs, " "))) == ws + ["&mdash;"] + subs
  {
    var all := ws + ["&mdash;"] + subs;
    DashedWords(ws, subs);
    JoinTrimmed(all);
    WordsOfJoin(all);
  }

  /** The type cell "W &mdash; S" gives the head words W followed by the
      subtype words S. */
  lemma TypeCellTokens(r: Row, ws: seq<string>, subs: seq<string>)
    requires AllWords(ws) && AllWords(subs)
    requires forall w :: w in ws + subs ==> '\0' !in w && w != "&mdash;"
    requires |r.cell| > 0 && r.cell[0] == Markup(Join(ws + ["&mdash;"] + subs, " "))
    ensures ParseType(r) == ws + subs
  {
    TypeLineWords(ws, subs);
    assert "&mdash;" !in ws && "&mdash;" !in subs by {
      assert forall w :: w in ws ==> w in ws + subs;
      assert forall w :: w in subs ==> w in ws + subs;
    }
    WithoutMiddle(ws, "&mdash;", subs);
  }

  // ---------------------------------------------------------------------
  // Power and toughness

  /** A slash and a closing parenthesis after an opening one, all on one
      line, are enough for the pattern to match there. */
  lemma ParenSlashFound(s: string, i: nat, j: int, k: int)
    requires i < |s| && s[i] == '(' && SlashThenClose(s, i, j, k)
    ensures ParenSlashAt(s, i).Some?
  {
    var j0 := FindEither(s, i + 1, '/', '\n');
    assert j0.Some? && j0.value <= j by {
      assert s[j] == '/';
    }
    assert s[j0.value] == '/' by {
      assert i < j0.value < k;
    }
    var k0 := FindEither(s, j0.value + 1, ')', '\n');
    assert k0.Some? && k0.value <= k by {
      assert s[k] == ')';
    }
    assert s[k0.value] == ')' by {
      if k0.value < k {
        assert i < k0.value < k;
      }
    }
  }

  /** The pattern matches at `i` exactly when `i` opens a parenthesis that
      a slash and then a closing parenthesis follow on the same line. */
  lemma ParenSlashAtIff(s: string, i: nat)
    requires i < |s|
    ensures ParenSlashAt(s, i).Some? <==> s[i] == '(' && exists j, k :: SlashThenClose(s, i, j, k)
  {
    if ParenSlashAt(s, i).Some? {
      var (p, t) := ParenSlashAt(s, i).value;
      var j, k := i + 1 + |p|, i + 2 + |p| + |t|;
      var m := "(" + p + "/" + t + ")";
      assert s[i..k + 1] == m;
      assert s[j] == m[j - i] == '/';
      assert s[k] == m[k - i] == ')';
      forall x | i < x < k ensures s[x] != '\n' {
        assert s[x] == m[x - i];
        if x < j { assert m[x - i] == p[x - i - 1]; }
        else if x > j { assert m[x - i] == t[x - j - 1]; }
      }
      assert SlashThenClose(s, i, j, k);
    }
    if s[i] == '(' && exists j, k :: SlashThenClose(s, i, j, k) {
      var j, k :| SlashThenClose(s, i, j, k);
      ParenSlashFound(s, i, j, k);
    }
  }

  /** `(P/T)` gives P and T when P has no slash and T no closing
      parenthesis, neither spanning lines. */
  lemma ParenSlashRoundTrip(p: string, t: string)
    requires '/' !in p && '\n' !in p && ')' !in t && '\n' !in t
    ensures ParenSlashFrom("(" + p + "/" + t + ")", 0) == Some((p, t))
  {
    var s := "(" + p + "/" + t + ")";
    var j, k := 1 + |p|, 2 + |p| + |t|;
    assert forall i :: 1 <= i < j ==> s[i] == p[i - 1];
    assert s[j] == '/';
    assert forall i :: j + 1 <= i < k ==> s[i] == t[i - j - 1];
    assert s[k] == ')';
    assert FindEither(s, 1, '/', '\n') == Some(j);
    assert FindEither(s, j + 1, ')', '\n') == Some(k);
    assert s[1..j] == p && s[j + 1..k] == t;
    assert ParenSlashAt(s, 0) == Some((p, t));
  }

  /** A pow/tgh cell `(P/T)` sets power P and toughness T. */
  lemma PowTghCellRoundTrip(r: Row, p: string, t: string)
    requires '/' !in p && '\n' !in p && ')' !in t && '\n' !in t
    requires |r.cell| > 0 && r.cell[0] == Markup("(" + p + "/" + t + ")")
    ensures ParsePowTgh(r) == Some((Some(p), Some(t)))
  {
    var s := "(" + p + "/" + t + ")";
    assert s[0] == '(' && s[|s| - 1] == ')';
    StripUnchanged(s);
    ParenSlashRoundTrip(p, t);
  }

  /** A cell without any parenthesis has neither power nor toughness,
      but is not absent when it holds text. */
  lemma PowTghWithoutParens(r: Row)
    requires '(' !in Strip(FirstChildText(r.cell)) && Strip(FirstChildText(r.cell)) != ""
    ensures ParsePowTgh(r) == Some((None, None))
  {
    var s := Strip(FirstChildText(r.cell));
    assert forall i :: 0 <= i < |s| ==> ParenSlashAt(s, i).None? by {
      assert forall i :: 0 <= i < |s| ==> s[i] != '(';
    }
  }

  lemma PowTghExample(r: Row)
    requires |r.cell| > 0 && r.cell[0] == Markup("(6/6)")
    ensures ParsePowTgh(r) == Some((Some("6"), Some("6")))
  {
    assert "(" + "6" + "/" + "6" + ")" == "(6/6)";
    PowTghCellRoundTrip(r, "6", "6");
  }

  // ---------------------------------------------------------------------
  // Rules text

  lemma {:induction false} RulesTextAppend(a: seq<Child>, b: seq<Child>)
    ensures RulesText(a + b) == RulesText(a) + RulesText(b)
    decreases |a|
  {
    if |a| == 0 {
      assert a + b == b;
    } else {
      assert (a + b)[0] == a[0];
      assert (a + b)[1..] == a[1..] + b;
      RulesTextAppend(a[1..], b);
    }
  }

  /** The lines `ts` as cell children: each line's markup, with a `br`
      between neighbours. */
  function BrJoined(ts: seq<string>): (cs: seq<Child>)
    ensures |ts| > 0 ==> |cs| > 0
  {
    if |ts| == 0 then []
    else if |ts| == 1 then [Markup(ts[0])]
    else [Markup(ts[0]), Br] + BrJoined(ts[1..])
  }

  /** Trimmed lines joined by `br` read as the lines joined by newlines. */
  lemma {:induction false} RulesTextJoined(ts: seq<string>)
    requires |ts| > 0
    requires forall i :: 0 <= i < |ts| ==> Strip(ts[i]) == ts[i]
    ensures RulesText(BrJoined(ts)) == Join(ts, "\n")
    decreases |ts|
  {
    if |ts| == 1 {
      assert BrJoined(ts) == [Markup(ts[0])];
      assert RulesText([Markup(ts[0])]) == ts[0] + RulesText([]);
    } else {
      assert forall i :: 0 <= i < |ts| - 1 ==> ts[1..][i] == ts[i + 1];
      RulesTextJoined(ts[1..]);
      assert BrJoined(ts) == [Markup(ts[0]), Br] + BrJoined(ts[1..]);
      RulesTextAppend([Markup(ts[0]), Br], BrJoined(ts[1..]));
      LineThenBreak(ts[0]);
    }
  }

  /** A trimmed line and a `br`: the line and a newline. */
  lemma LineThenBreak(t: string)
    requires Strip(t) == t
    ensures RulesText([Markup(t), Br]) == t + "\n"
  {
    assert [Markup(t), Br][1..] == [Br] && [Br][1..] == [];
  }

  /** Trimmed one-line pieces joined by `br` give rules text whose lines
      are those pieces. */
  lemma RulesTextLines(ts: seq<string>)
    requires |ts| > 0
    requires forall i :: 0 <= i < |ts| ==> Strip(ts[i]) == ts[i] && '\n' !in ts[i]
    ensures RulesText(BrJoined(ts)) == Join(ts, "\n")
    ensures SplitAll(RulesText(BrJoined(ts)), "\n") == ts
  {
    RulesTextJoined(ts);
    forall i | 0 <= i < |ts|
      ensures !Contains(ts[i], "\n")
    {
      assert NoNewline(ts[i]) by {
        assert forall k :: 0 <= k < |ts[i]| ==> ts[i][k] in ts[i];
      }
      NewlineFree(ts[i]);
    }
    SplitJoin(ts, "\n");
  }

  // ---------------------------------------------------------------------
  // Set and rarity

  /** "S R" with S space-joined words and R one word, none of it naming
      Mythic Rare, gives set S and rarity R. */
  lemma EntryRoundTrip(ws: seq<string>, rarity: string)
    requires AllWords(ws) && IsWord(rarity)
    requires !Contains(Join(ws, " ") + " " + rarity, MythicRare)
    ensures ParseEntry(Join(ws, " ") + " " + rarity) == Pair(Some(Join(ws, " ")), Some(rarity))
  {
    WordsAppend(Join(ws, " "), rarity);
    WordsOfJoin(ws);
    WordsOfWord(rarity);
    var all := ws + [rarity];
    assert all[..|all| - 1] == ws;
  }

  /** The characters of " Mythic Rare" the crossing cases look at. */
  lemma MythicPattern()
    ensures |" " + MythicRare| == 12 && (" " + MythicRare)[1..7] == "Mythic"
    ensures forall d :: 1 <= d <= 6 ==> (" " + MythicRare)[d] != ' '
  {
  }

  /** " Mythic Rare" does not start inside a set name that never says
      "Mythic". */
  lemma MythicNotInside(s: string, j: nat)
    requires !Contains(s, "Mythic") && j < |s|
    ensures !OccursAt(s + " " + MythicRare, " " + MythicRare, j)
  {
    var pat := " " + MythicRare;
    var e := s + " " + MythicRare;
    assert e == s + pat;
    MythicPattern();
    if j + 7 <= |s| {
      assert !OccursAt(s, "Mythic", j + 1);
      assert s[j + 1..j + 7] != "Mythic";
      assert pat[1..7] == "Mythic";
      SliceOfPrefix(s, pat, j + 1, j + 7);
      SliceOfSlice(e, j, j + 12, 1, 7);
      assert e[j..j + 12][1..7] != pat[1..7];
      assert e[j..j + 12] != pat;
    } else {
      var d := |s| - j;
      assert e[j..j + 12][d] == e[|s|] == ' ';
      assert e[j..j + 12][d] != pat[d];
      assert e[j..j + 12] != pat;
    }
  }

  lemma SliceOfPrefix(s: string, t: string, a: nat, b: nat)
    requires a <= b <= |s|
    ensures (s + t)[a..b] == s[a..b]
  {
  }

  lemma SliceOfSlice(s: string, a: nat, b: nat, c: nat, d: nat)
    requires a <= b <= |s| && c <= d <= b - a
    ensures s[a..b][c..d] == s[a + c..a + d]
  {
    forall i | 0 <= i < d - c
      ensures s[a..b][c..d][i] == s[a + c..a + d][i]
    {
      assert s[a..b][c + i] == s[a + c + i];
    }
  }

  /** The first " Mythic Rare" of `s` followed by it is the appended one. */
  lemma MythicIndex(s: string)
    requires !Contains(s, "Mythic")
    ensures IndexOf(s + " " + MythicRare, " " + MythicRare) == Some(|s|)
  {
    var pat := " " + MythicRare;
    var e := s + " " + MythicRare;
    assert e == s + pat;
    MythicPattern();
    forall j | 0 <= j < |s|
      ensures !OccursAt(e, pat, j)
    {
      MythicNotInside(s, j);
    }
    assert e[|s|..|s| + |pat|] == pat;
    assert OccursAt(e, pat, |s|);
    var v := FindFrom(e, pat, 0).value;
    assert v <= |s| && !(v < |s|);
  }

  lemma MythicContained(s: string)
    ensures Contains(s + " " + MythicRare, MythicRare)
  {
    var e := s + " " + MythicRare;
    assert e[|s| + 1..|e|] == MythicRare;
    OccurrenceIsContained(e, MythicRare, |s| + 1);
  }

  /** An entry ending in " Mythic Rare" whose set does not mention
      "Mythic" gives that set and rarity Mythic Rare. */
  lemma MythicEntry(s: string)
    requires !Contains(s, "Mythic")
    ensures ParseEntry(s + " " + MythicRare) == Pair(Some(s), Some(MythicRare))
  {
    var pat := " " + MythicRare;
    var e := s + " " + MythicRare;
    assert e == s + pat;
    MythicPattern();
    MythicContained(s);
    MythicIndex(s);
    assert RemoveFirst(e, pat) == e[..|s|] + e[|s| + 12..];
    assert e[..|s|] == s && |e| == |s| + 12;
    assert RemoveFirst(e, pat) == s;
    assert ParseEntry(e) == Pair(Some(RemoveFirst(e, pat)), Some(MythicRare));
  }

  lemma CommaSeparator()
    ensures |", "| > 0 && ", "[0] !in ", "[1..]
  {
    assert ", "[1..] == " ";
  }

  /** A list whose last field is not empty has no trailing field to drop. */
  lemma NoTrailingEmpty(xs: seq<string>)
    requires |xs| > 0 && xs[|xs| - 1] != ""
    ensures DropTrailingEmpty(xs) == xs
  {
  }

  /** The set/rarity cell: entries joined by ", " are parsed one by one,
      in order. */
  lemma SetRarityList(r: Row, es: seq<string>)
    requires |es| > 0 && es[|es| - 1] != ""
    requires forall i :: 0 <= i < |es| ==> !Contains(es[i], ", ")
    requires |r.cell| > 0 && r.cell[0] == Markup(Join(es, ", "))
    requires Strip(Join(es, ", ")) == Join(es, ", ")
    ensures ParseSetRarity(r) == ParseEntries(es)
  {
    CommaSeparator();
    SplitJoin(es, ", ");
    NoTrailingEmpty(es);
    assert RubySplit(Join(es, ", "), ", ") == es;
  }
}

/** The row loop: how rows group into cards. */
module CardsFoldProofs {
  import opened Wrappers
  import opened Errors
  import opened Card
  import opened Cards

  /** The fields of one card: the rows applied in order to `c`. */
  function Build(c: Card, rows: seq<Row>, setTypes: TypeSetter): Outcome<Card>
    decreases |rows|
  {
    if |rows| == 0 then Success(c)
    else
      var c' :- ParseRow(c, rows[0], setTypes);
      Build(c', rows[1..], setTypes)
  }

  predicate NoBoundary(rows: seq<Row>) {
    forall i :: 0 <= i < |rows| ==> !IsBoundary(rows[i])
  }

  function Boundaries(rows: seq<Row>): nat {
    if |rows| == 0 then 0 else (if IsBoundary(rows[0]) then 1 else 0) + Boundaries(rows[1..])
  }

  /** Folding splits at any point of the row list. */
  lemma {:induction false} FoldAppend(a: seq<Row>, b: seq<Row>, s: Spoiler, setTypes: TypeSetter)
    ensures Fold(a + b, s, setTypes) == match Fold(a, s, setTypes)
      case Failure(e) => Failure(e)
      case Success(s') => Fold(b, s', setTypes)
    decreases |a|
  {
    if |a| == 0 {
      assert a + b == b;
    } else {
      assert (a + b)[0] == a[0];
      assert (a + b)[1..] == a[1..] + b;
      match Step(s, a[0], setTypes)
      case Failure(e) =>
      case Success(s') => FoldAppend(a[1..], b, s', setTypes);
    }
  }

  /** Rows between boundaries all go to one card: the card in progress,
      or a fresh one when there is none. */
  lemma {:induction false} FoldCardRows(rows: seq<Row>, cards: seq<Option<Card>>, current: Option<Card>, setTypes: TypeSetter)
    requires NoBoundary(rows) && |rows| > 0
    ensures var start := if current.Some? then current.value else Fresh();
      Fold(rows, Spoiler(cards, current), setTypes) == match Build(start, rows, setTypes)
        case Failure(e) => Failure(e)
        case Success(c) => Success(Spoiler(cards, Some(c)))
    decreases |rows|
  {
    var start := if current.Some? then current.value else Fresh();
    assert !IsBoundary(rows[0]);
    match ParseRow(start, rows[0], setTypes)
    case Failure(e) =>
    case Success(c1) =>
      if |rows| > 1 {
        FoldCardRows(rows[1..], cards, Some(c1), setTypes);
      }
  }

  /** A boundary closes the card in progress: it joins the set. */
  lemma Close(cards: seq<Option<Card>>, c: Card, boundary: Row, setTypes: TypeSetter)
    requires IsBoundary(boundary)
    ensures Fold([boundary], Spoiler(cards, Some(c)), setTypes) == Success(Spoiler(cards + [Some(c)], None))
  {
    assert [boundary][1..] == [];
  }

  /** A block of field rows closed by a boundary adds the card those rows
      build from a fresh card. */
  lemma CardBlock(body: seq<Row>, boundary: Row, cards: seq<Option<Card>>, setTypes: TypeSetter)
    requires NoBoundary(body) && |body| > 0 && IsBoundary(boundary)
    requires Build(Fresh(), body, setTypes).Success?
    ensures Fold(body + [boundary], Spoiler(cards, None), setTypes)
         == Success(Spoiler(cards + [Some(Build(Fresh(), body, setTypes).value)], None))
  {
    var c := Build(Fresh(), body, setTypes).value;
    FoldCardRows(body, cards, None, setTypes);
    assert Fold(body, Spoiler(cards, None), setTypes) == Success(Spoiler(cards, Some(c)));
    Close(cards, c, boundary, setTypes);
    FoldAppend(body, [boundary], Spoiler(cards, None), setTypes);
  }

  /** A block closed by a boundary, then more rows: the rows after it
      start from the set with the block's card added. */
  lemma BlockThen(body: seq<Row>, boundary: Row, rest: seq<Row>, cards: seq<Option<Card>>, setTypes: TypeSetter)
    requires NoBoundary(body) && |body| > 0 && IsBoundary(boundary)
    requires Build(Fresh(), body, setTypes).Success?
    ensures Fold(body + [boundary] + rest, Spoiler(cards, None), setTypes)
         == Fold(rest, Spoiler(cards + [Some(Build(Fresh(), body, setTypes).value)], None), setTypes)
  {
    CardBlock(body, boundary, cards, setTypes);
    FoldAppend(body + [boundary], rest, Spoiler(cards, None), setTypes);
  }

  /** Two blocks, each closed by a boundary, give exactly two cards, each
      built from a fresh card by its own rows. */
  lemma TwoCards(a: seq<Row>, b: seq<Row>, boundary: Row, setTypes: TypeSetter)
    requires NoBoundary(a) && |a| > 0 && NoBoundary(b) && |b| > 0 && IsBoundary(boundary)
    requires Build(Fresh(), a, setTypes).Success? && Build(Fresh(), b, setTypes).Success?
    ensures Fold(a + [boundary] + b + [boundary], Spoiler([], None), setTypes)
         == Success(Spoiler([Some(Build(Fresh(), a, setTypes).value), Some(Build(Fresh(), b, setTypes).value)], None))
  {
    var c1, c2 := Build(Fresh(), a, setTypes).value, Build(Fresh(), b, setTypes).value;
    var second := b + [boundary];
    assert a + [boundary] + b + [boundary] == a + [boundary] + second;
    BlockThen(a, boundary, second, [], setTypes);
    assert [] + [Some(c1)] == [Some(c1)];
    CardBlock(b, boundary, [Some(c1)], setTypes);
    assert [Some(c1)] + [Some(c2)] == [Some(c1), Some(c2)];
  }

  /** Rows after the last boundary change no returned card: the card they
      build is dropped. */
  lemma TrailingCardDropped(rows: seq<Row>, tail: seq<Row>, s: Spoiler, setTypes: TypeSetter)
    requires NoBoundary(tail)
    requires Fold(rows + tail, s, setTypes).Success?
    ensures Fold(rows, s, setTypes).Success?
    ensures Fold(rows + tail, s, setTypes).value.cards == Fold(rows, s, setTypes).value.cards
  {
    FoldAppend(rows, tail, s, setTypes);
    if |tail| > 0 {
      var s' := Fold(rows, s, setTypes).value;
      FoldCardRows(tail, s'.cards, s'.current, setTypes);
    } else {
      assert Fold(tail, Fold(rows, s, setTypes).value, setTypes) == Success(Fold(rows, s, setTypes).value);
    }
  }

  /** Each boundary adds at most one entry and earlier entries stay. */
  lemma {:induction false} FoldCount(rows: seq<Row>, s: Spoiler, setTypes: TypeSetter)
    requires Fold(rows, s, setTypes).Success?
    ensures var r := Fold(rows, s, setTypes).value;
      s.cards <= r.cards && |r.cards| <= |s.cards| + Boundaries(rows)
    decreases |rows|
  {
    if |rows| > 0 {
      var s' := Step(s, rows[0], setTypes).value;
      FoldCount(rows[1..], s', setTypes);
    }
  }

  /** Every boundary closes a card: the first row is one only when a card
      is in progress, and no two boundaries are adjacent. */
  predicate Closes(rows: seq<Row>, current: Option<Card>) {
    && (|rows| > 0 && IsBoundary(rows[0]) ==> current.Some?)
    && forall i :: 0 < i < |rows| && IsBoundary(rows[i]) ==> !IsBoundary(rows[i - 1])
  }

  /** After one row the rest of the rows still close a card at each
      boundary. */
  lemma ClosesAfterStep(rows: seq<Row>, s: Spoiler, setTypes: TypeSetter)
    requires |rows| > 0 && Closes(rows, s.current)
    requires Step(s, rows[0], setTypes).Success?
    ensures Closes(rows[1..], Step(s, rows[0], setTypes).value.current)
  {
    assert forall i :: 0 < i < |rows| - 1 ==> rows[1..][i] == rows[i + 1] && rows[1..][i - 1] == rows[i];
    if |rows| > 1 && IsBoundary(rows[1]) {
      assert !IsBoundary(rows[0]);
    }
  }

  /** When every boundary closes a card, each one adds exactly one card. */
  lemma {:induction false} FoldCountExact(rows: seq<Row>, s: Spoiler, setTypes: TypeSetter)
    requires Closes(rows, s.current)
    requires Fold(rows, s, setTypes).Success?
    ensures var r := Fold(rows, s, setTypes).value;
      && s.cards <= r.cards
      && |r.cards| == |s.cards| + Boundaries(rows)
      && forall k :: |s.cards| <= k < |r.cards| ==> r.cards[k].Some?
    decreases |rows|
  {
    if |rows| > 0 {
      var s' := Step(s, rows[0], setTypes).value;
      ClosesAfterStep(rows, s, setTypes);
      FoldCountExact(rows[1..], s', setTypes);
    }
  }
}

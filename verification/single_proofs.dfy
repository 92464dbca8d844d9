/** Properties of the detail-page crawler: the name query reads back, cost
    concatenation, the printing-title and power/toughness regexes against
    the texts they are meant for, and the multiverse id read back from the
    image URI the card record builds. */
module SingleProofs {
  import opened Wrappers
  import opened Errors
  import opened Text
  import opened Search
  import opened Tokens
  import opened Seqs
  import opened Numerals
  import opened Card
  import opened Markup
  import opened Single

  // ---------------------------------------------------------------------
  // The query URI

  lemma FragmentHead(w: string, rest: string)
    requires ']' !in w
    ensures ReadFragments(NameFragment(w) + rest) == match ReadFragments(rest)
      case None => None
      case Some(ws) => Some([w] + ws)
  {
    var s := NameFragment(w) + rest;
    assert s[..2] == "+[";
    assert forall i :: 0 <= i < |w| ==> s[2 + i] == w[i];
    assert s[2 + |w|] == ']';
    assert FindWhere(s, 2, c => c == ']') == Some(2 + |w|);
    assert s[2..2 + |w|] == w;
    assert s[2 + |w| + 1..] == rest;
  }

  /** The name fragments of words free of `]` read back to the words. */
  lemma {:induction false} NameFragmentsRoundTrip(ws: seq<string>)
    requires forall w :: w in ws ==> ']' !in w
    ensures ReadFragments(NameFragments(ws)) == Some(ws)
    decreases |ws|
  {
    if |ws| > 0 {
      NameFragmentsRoundTrip(ws[1..]);
      FragmentHead(ws[0], NameFragments(ws[1..]));
      assert [ws[0]] + ws[1..] == ws;
    }
  }

  /** Searching by name: the URI is the search page followed by fragments
      that read back to the words of the name. */
  lemma QueryByName(name: string)
    requires ']' !in name
    ensures QueryUri(Options(Some(name), None)).Success?
    ensures var uri := QueryUri(Options(Some(name), None)).value;
      && NameSearchUri <= uri
      && ReadFragments(uri[|NameSearchUri|..]) == Some(Words(name))
  {
    var ws := Words(name);
    WordsChars(name);
    NameFragmentsRoundTrip(ws);
    var uri := NameSearchUri + NameFragments(ws);
    assert uri[|NameSearchUri|..] == NameFragments(ws);
  }

  // ---------------------------------------------------------------------
  // Cost

  lemma CostCons(xs: seq<Option<string>>, decode: Decoder)
    requires |xs| > 0
    ensures decode(xs[0]).Failure? ==> ParseCost(xs, decode) == Failure(decode(xs[0]).error)
    ensures decode(xs[0]).Success? && ParseCost(xs[1..], decode).Failure? ==>
      ParseCost(xs, decode) == ParseCost(xs[1..], decode)
    ensures decode(xs[0]).Success? && ParseCost(xs[1..], decode).Success? ==>
      ParseCost(xs, decode) == Success(decode(xs[0]).value + ParseCost(xs[1..], decode).value)
  {
  }

  /** The cost of `xs + ys` is the cost of `xs` followed by that of `ys`;
      when `xs` fails, its failure is the result. */
  lemma {:induction false} CostAppend(xs: seq<Option<string>>, ys: seq<Option<string>>, decode: Decoder)
    ensures ParseCost(xs, decode).Failure? ==> ParseCost(xs + ys, decode) == ParseCost(xs, decode)
    ensures ParseCost(xs, decode).Success? && ParseCost(ys, decode).Success? ==>
      ParseCost(xs + ys, decode) == Success(ParseCost(xs, decode).value + ParseCost(ys, decode).value)
    decreases |xs|
  {
    if |xs| == 0 {
      assert xs + ys == ys;
      assert ParseCost(xs, decode) == Success("");
      assert forall t: string :: "" + t == t;
    } else {
      assert (xs + ys)[0] == xs[0];
      assert (xs + ys)[1..] == xs[1..] + ys;
      CostAppend(xs[1..], ys, decode);
      CostCons(xs, decode);
      CostCons(xs + ys, decode);
      if ParseCost(xs, decode).Success? && ParseCost(ys, decode).Success? {
        var sym := decode(xs[0]).value;
        var a := ParseCost(xs[1..], decode).value;
        var b := ParseCost(ys, decode).value;
        assert ParseCost(xs[1..] + ys, decode) == Success(a + b);
        assert sym + (a + b) == (sym + a) + b;
      }
    }
  }

  /** The cost of the test card, five generic and three white mana. */
  lemma CostExample(decode: Decoder)
    requires decode(Some("5")) == Success("5") && decode(Some("White")) == Success("W")
    ensures ParseCost([Some("5"), Some("White"), Some("White"), Some("White")], decode) == Success("5WWW")
  {
    var w := Some("White");
    CostCons([w], decode);
    assert [w][1..] == [];
    assert ParseCost([], decode) == Success("");
    assert "W" + "" == "W";
    assert ParseCost([w], decode) == Success("W");
    CostAppend([w], [w], decode);
    assert [w] + [w] == [w, w];
    CostAppend([w], [w, w], decode);
    assert [w] + [w, w] == [w, w, w];
    CostCons([Some("5")], decode);
    assert [Some("5")][1..] == [];
    assert "5" + "" == "5";
    assert ParseCost([Some("5")], decode) == Success("5");
    CostAppend([Some("5")], [w, w, w], decode);
    assert [Some("5")] + [w, w, w] == [Some("5"), w, w, w];
    assert "W" + "W" == "WW" && "W" + "WW" == "WWW" && "5" + "WWW" == "5WWW";
  }

  // ---------------------------------------------------------------------
  // Printings

  /** A title written as "S (R)" on one line, where S holds no " (",
      matches with S and R as its captures. */
  lemma TitleRoundTrip(name: string, rarity: string)
    requires !Contains(name, " (") && NoNewline(name + " (" + rarity + ")")
    ensures TitleLine(name + " (" + rarity + ")") == Some((name, rarity))
    ensures forall last :: TitleMatch(Some(name + " (" + rarity + ")"), last) == Some((name, rarity))
  {
    var line := name + " (" + rarity + ")";
    assert line[|name|..|name| + 2] == " (";
    assert OccursAt(line, " (", |name|);
    forall j | 0 <= j < |name|
      ensures !OccursAt(line, " (", j)
    {
      assert !OccursAt(name, " (", j);
      assert forall i :: 0 <= i < |name| ==> line[i] == name[i];
      assert line[|name|] == ' ';
      assert j + 2 <= |name| ==> line[j..j + 2] == name[j..j + 2];
    }
    assert IndexOf(line, " (") == Some(|name|);
    assert line[..|name|] == name;
    assert line[|name| + 2..|line| - 1] == rarity;
    SingleLine(line);
  }

  /** A set name without an opening parenthesis never holds " (". */
  lemma NoParenNoOpening(name: string)
    requires '(' !in name
    ensures !Contains(name, " (")
  {
    assert forall k :: OccursAt(name, " (", k) ==> name[k + 1] == name[k..k + 2][1];
  }

  /** A one-line title "S (R)" whose set name has no parenthesis matches
      with S and R, whatever match data came before. */
  lemma TitleOf(name: string, rarity: string, title: string)
    requires title == name + " (" + rarity + ")"
    requires '(' !in name && '\n' !in name && '\n' !in rarity
    ensures forall last :: TitleMatch(Some(title), last) == Some((name, rarity))
  {
    NoParenNoOpening(name);
    assert forall i :: 0 <= i < |title| ==> title[i] in name || title[i] in rarity || title[i] in " ()";
    TitleRoundTrip(name, rarity);
  }

  lemma DuelDecksText()
    ensures var a := "Duel Decks: Divine vs. Demonic";
      '(' !in a && '\n' !in a && '\n' !in "Mythic Rare"
      && "Duel Decks: Divine vs. Demonic (Mythic Rare)" == a + " (" + "Mythic Rare" + ")"
  {
    DuelDecksChars();
  }

  lemma DuelDecksChars()
    ensures '(' !in "Duel Decks: Divine vs. Demonic" && '\n' !in "Duel Decks: Divine vs. Demonic"
  {
  }

  lemma LegionsText()
    ensures '(' !in "Legions" && '\n' !in "Legions" && '\n' !in "Rare"
      && "Legions (Rare)" == "Legions" + " (" + "Rare" + ")"
  {
  }

  lemma TimeSpiralText()
    ensures var c := "Time Spiral \"Timeshifted\"";
      '(' !in c && '\n' !in c && '\n' !in "Special"
      && "Time Spiral \"Timeshifted\" (Special)" == c + " (" + "Special" + ")"
  {
  }

  /** Every title is a String that matches, giving the pair in `ms` at the
      same place whatever match data came before. */
  ghost predicate AllMatch(ts: seq<Option<string>>, ms: seq<(string, string)>) {
    && |ts| == |ms|
    && forall i :: 0 <= i < |ts| ==> forall last :: TitleMatch(ts[i], last) == Some(ms[i])
  }

  /** The (set, rarity) pairs of `ms`, in order. */
  function Pairs(ms: seq<(string, string)>): (ps: seq<Printing>)
    ensures |ps| == |ms|
  {
    if |ms| == 0 then [] else [PrintingOf(Some(ms[0]))] + Pairs(ms[1..])
  }

  /** When every title matches, the printings pushed are the matches, in
      page order. */
  lemma {:induction false} MatchedPrintings(ts: seq<Option<string>>, ms: seq<(string, string)>, last: Option<(string, string)>)
    requires AllMatch(ts, ms)
    ensures Printings(ts, last) == Pairs(ms)
    decreases |ts|
  {
    if |ts| > 0 {
      assert TitleMatch(ts[0], last) == Some(ms[0]);
      assert AllMatch(ts[1..], ms[1..]) by {
        forall i | 0 <= i < |ts| - 1
          ensures forall l :: TitleMatch(ts[1..][i], l) == Some(ms[1..][i])
        {
          assert ts[1..][i] == ts[i + 1] && ms[1..][i] == ms[i + 1];
        }
      }
      MatchedPrintings(ts[1..], ms[1..], Some(ms[0]));
    }
  }

  /** Printings whose titles all match differently: the current one
      first, then the others in page order, none dropped. */
  lemma MatchedParseSets(current: string, others: seq<Option<string>>, ms: seq<(string, string)>)
    requires AllMatch([Some(current)] + others, ms)
    requires Distinct(Pairs(ms))
    ensures ParseSets(Some(Some(current)), others) == Success(Pairs(ms))
  {
    MatchedPrintings([Some(current)] + others, ms, None);
    DedupDistinct(Pairs(ms));
    ParseSetsValue(current, others);
  }

  lemma ParseSetsValue(current: string, others: seq<Option<string>>)
    ensures ParseSets(Some(Some(current)), others) == Success(Dedup(Printings([Some(current)] + others, None)))
  {
  }

  /** Three matches, pairwise different, as printings. */
  lemma ThreePairs(m0: (string, string), m1: (string, string), m2: (string, string))
    requires m0 != m1 && m0 != m2 && m1 != m2
    ensures Pairs([m0, m1, m2]) == [PrintingOf(Some(m0)), PrintingOf(Some(m1)), PrintingOf(Some(m2))]
    ensures Distinct(Pairs([m0, m1, m2]))
  {
    var p0, p1, p2 := PrintingOf(Some(m0)), PrintingOf(Some(m1)), PrintingOf(Some(m2));
    assert [m2][1..] == [];
    assert Pairs([m2]) == [p2];
    assert [m1, m2][1..] == [m2];
    assert Pairs([m1, m2]) == [p1, p2];
    assert [m0, m1, m2][1..] == [m1, m2];
    assert Pairs([m0, m1, m2]) == [p0, p1, p2];
  }

  /** Three titles, each matching on its own. */
  lemma ThreeMatch(a: string, b: string, c: string, m0: (string, string), m1: (string, string), m2: (string, string))
    requires forall last :: TitleMatch(Some(a), last) == Some(m0)
    requires forall last :: TitleMatch(Some(b), last) == Some(m1)
    requires forall last :: TitleMatch(Some(c), last) == Some(m2)
    ensures AllMatch([Some(a)] + [Some(b), Some(c)], [m0, m1, m2])
  {
    var ts, ms := [Some(a)] + [Some(b), Some(c)], [m0, m1, m2];
    forall i | 0 <= i < 3
      ensures forall last :: TitleMatch(ts[i], last) == Some(ms[i])
    {
      if i == 0 {
        assert ts[i] == Some(a);
      } else if i == 1 {
        assert ts[i] == Some(b);
      } else {
        assert ts[i] == Some(c);
      }
    }
  }

  /** The printings of the test card: the current printing first, the
      others in page order. */
  lemma PrintingsExample()
    ensures ParseSets(Some(Some("Duel Decks: Divine vs. Demonic (Mythic Rare)")),
                      [Some("Legions (Rare)"), Some("Time Spiral \"Timeshifted\" (Special)")])
         == Success([Pair(Some("Duel Decks: Divine vs. Demonic"), Some("Mythic Rare")),
                     Pair(Some("Legions"), Some("Rare")),
                     Pair(Some("Time Spiral \"Timeshifted\""), Some("Special"))])
  {
    DuelDecksText();
    TitleOf("Duel Decks: Divine vs. Demonic", "Mythic Rare", "Duel Decks: Divine vs. Demonic (Mythic Rare)");
    LegionsText();
    TitleOf("Legions", "Rare", "Legions (Rare)");
    TimeSpiralText();
    TitleOf("Time Spiral \"Timeshifted\"", "Special", "Time Spiral \"Timeshifted\" (Special)");
    var m0, m1, m2 := ("Duel Decks: Divine vs. Demonic", "Mythic Rare"), ("Legions", "Rare"),
      ("Time Spiral \"Timeshifted\"", "Special");
    ThreeMatch("Duel Decks: Divine vs. Demonic (Mythic Rare)", "Legions (Rare)",
      "Time Spiral \"Timeshifted\" (Special)", m0, m1, m2);
    ThreePairs(m0, m1, m2);
    MatchedParseSets("Duel Decks: Divine vs. Demonic (Mythic Rare)",
      [Some("Legions (Rare)"), Some("Time Spiral \"Timeshifted\" (Special)")], [m0, m1, m2]);
  }

  // ---------------------------------------------------------------------
  // Untitled images

  /** The match data left after the titles `ts`. */
  function MatchAfter(ts: seq<Option<string>>, m: Option<(string, string)>): Option<(string, string)>
    decreases |ts|
  {
    if |ts| == 0 then m else MatchAfter(ts[1..], TitleMatch(ts[0], m))
  }

  lemma {:induction false} PrintingsSnoc(ts: seq<Option<string>>, t: Option<string>, m: Option<(string, string)>)
    ensures Printings(ts + [t], m) == Printings(ts, m) + [PrintingOf(TitleMatch(t, MatchAfter(ts, m)))]
    decreases |ts|
  {
    if |ts| == 0 {
      assert ts + [t] == [t];
    } else {
      assert (ts + [t])[0] == ts[0];
      assert (ts + [t])[1..] == ts[1..] + [t];
      PrintingsSnoc(ts[1..], t, TitleMatch(ts[0], m));
    }
  }

  lemma {:induction false} LastPrinting(ts: seq<Option<string>>, m: Option<(string, string)>)
    requires |ts| > 0
    ensures PrintingOf(MatchAfter(ts, m)) in Printings(ts, m)
    decreases |ts|
  {
    if |ts| > 1 {
      LastPrinting(ts[1..], TitleMatch(ts[0], m));
    }
  }

  /** An image without a title repeats the previous printing, which
      de-duplication then drops. */
  lemma UntitledImageAddsNothing(current: string, others: seq<Option<string>>)
    ensures ParseSets(Some(Some(current)), others + [None]) == ParseSets(Some(Some(current)), others)
  {
    var ts := [Some(current)] + others;
    assert [Some(current)] + (others + [None]) == ts + [None];
    PrintingsSnoc(ts, None, None);
    LastPrinting(ts, None);
    DedupRepeat(Printings(ts, None), PrintingOf(MatchAfter(ts, None)));
  }
}

module SingleValueProofs {
  import opened Wrappers
  import opened Errors
  import opened Text
  import opened Search
  import opened Numerals
  import opened Card
  import opened Single

  // ---------------------------------------------------------------------
  // Power, toughness and loyalty

  /** The first " / " of `p + " / " + t` is the one after `p` when `p`
      holds no slash. */
  lemma SlashAfter(p: string, t: string)
    requires '/' !in p
    ensures IndexOf(p + " / " + t, " / ") == Some(|p|)
  {
    var s := p + " / " + t;
    assert s[|p|..|p| + 3] == " / ";
    assert OccursAt(s, " / ", |p|);
    assert forall i :: 0 <= i < |p| ==> s[i] == p[i];
    assert s[|p|] == ' ';
    assert forall j :: 0 <= j < |p| && OccursAt(s, " / ", j) ==> s[j + 1] == s[j..j + 3][1];
  }

  /** The one-line pattern splits "P / T" at the slash after P. */
  lemma PowTghLineOf(p: string, t: string)
    requires '/' !in p
    ensures PowTghLine(p + " / " + t) == Some((p, t))
  {
    var s := p + " / " + t;
    SlashAfter(p, t);
    assert s[..|p|] == p && s[|p| + 3..] == t;
  }

  /** "P / T" is a trimmed single line when P and T are. */
  lemma PowTghCell(p: string, t: string)
    requires NoNewline(p) && NoNewline(t)
    requires |p| > 0 && !IsStripChar(p[0]) && |t| > 0 && !IsStripChar(t[|t| - 1])
    ensures FirstText(Some(p + " / " + t)) == p + " / " + t
    ensures Lines(p + " / " + t) == [p + " / " + t]
    ensures !AllDigits(p + " / " + t)
  {
    var s := p + " / " + t;
    assert s[0] == p[0] && s[|s| - 1] == t[|t| - 1];
    StripUnchanged(s);
    assert forall k :: 0 <= k < |p| ==> s[k] == p[k];
    assert forall k :: 0 <= k < |t| ==> s[|p| + 3 + k] == t[k];
    assert s[|p|..|p| + 3] == " / ";
    SingleLine(s);
    assert !IsDigit(s[|p|]);
  }

  /** A trimmed one-line cell "P / T" whose power holds no slash reads
      back as power P and toughness T, and has no loyalty. */
  lemma PowTghRoundTrip(p: string, t: string)
    requires '/' !in p && NoNewline(p) && NoNewline(t)
    requires |p| > 0 && !IsStripChar(p[0]) && |t| > 0 && !IsStripChar(t[|t| - 1])
    ensures ParsePowTgh(Some(Some(p + " / " + t))) == Some((Some(p), Some(t)))
    ensures ParseLoyalty(Some(Some(p + " / " + t))) == None
  {
    var s := p + " / " + t;
    PowTghCell(p, t);
    PowTghLineOf(p, t);
    assert DigitsLine(s).None?;
  }

  /** A loyalty cell: a run of digits is the loyalty, and the cell has
      neither power nor toughness. */
  lemma LoyaltyRoundTrip(v: string)
    requires AllDigits(v) && |v| > 0
    ensures ParseLoyalty(Some(Some(v))) == Some(v)
    ensures ParsePowTgh(Some(Some(v))) == Some((None, None))
  {
    StripUnchanged(v);
    SingleLine(v);
    assert !Contains(v, " / ") by {
      assert forall k :: OccursAt(v, " / ", k) ==> v[k] == v[k..k + 3][0];
    }
  }

  /** The test card's "6 / 6". */
  lemma PowTghExample()
    ensures ParsePowTgh(Some(Some("6 / 6"))) == Some((Some("6"), Some("6")))
    ensures ParseLoyalty(Some(Some("6 / 6"))) == None
  {
    assert "6" + " / " + "6" == "6 / 6";
    PowTghRoundTrip("6", "6");
  }

  // ---------------------------------------------------------------------
  // The multiverse id

  /** Positions where the key does not start are skipped. */
  lemma {:induction false} IdFromSkip(s: string, from: nat, k: nat)
    requires from <= k && k + |IdKey| <= |s|
    requires forall j :: from <= j < k ==> !OccursAt(s, IdKey, j)
    ensures IdFrom(s, from) == IdFrom(s, k)
    decreases k - from
  {
    if from < k {
      IdFromSkip(s, from + 1, k);
    }
  }

  /** Before the key nothing matches it, when that text holds no `=`. */
  lemma NoKeyBefore(p: string, rest: string)
    requires '=' !in p
    ensures forall j :: 0 <= j < |p| ==> !OccursAt(p + IdKey + rest, IdKey, j)
  {
    var s := p + IdKey + rest;
    assert '=' !in IdKey[..12];
    forall j | 0 <= j < |p|
      ensures !OccursAt(s, IdKey, j)
    {
      assert s[j + 12] in p || s[j + 12] in IdKey[..12];
    }
  }

  /** At the key, the id is the text up to the `&`. */
  lemma IdAtKey(p: string, id: string, rest: string)
    requires '&' !in id && NoNewline(id)
    ensures IdFrom(p + IdKey + id + "&" + rest, |p|) == Some(id)
  {
    var s := p + IdKey + id + "&" + rest;
    var b := |p| + |IdKey|;
    assert s[|p|..b] == IdKey;
    assert forall i :: 0 <= i < |id| ==> s[b + i] == id[i];
    assert s[b + |id|] == '&';
    assert FindWhere(s, b, EndsId) == Some(b + |id|);
    assert s[b..b + |id|] == id;
  }

  /** The id between the first key and the `&` after it reads back, when
      nothing before the key holds an `=`. */
  lemma IdRoundTrip(p: string, id: string, rest: string)
    requires '=' !in p && '&' !in id && NoNewline(id)
    ensures IdFrom(p + IdKey + id + "&" + rest, 0) == Some(id)
  {
    var s := p + IdKey + id + "&" + rest;
    assert s == p + IdKey + (id + "&" + rest);
    NoKeyBefore(p, id + "&" + rest);
    IdFromSkip(s, 0, |p|);
    IdAtKey(p, id, rest);
  }

  lemma ImageHandlerText()
    ensures '=' !in ImageHandler
    ensures ImageUriSuffix == "&" + "type=card"
  {
    assert '=' !in GathererHost;
    assert '=' !in "/Handlers/Image.ashx?";
  }

  /** The image URI a card builds from an id gives that id back, and
      building the URI again from it reproduces the URI. */
  lemma ImageSrcRoundTrip(n: nat)
    ensures ParseMultiverseId(Some(Some(ImageUri(n)))) == Success(Some(Decimal(n)))
    ensures forall c :: SetImageIdFrom(c, Some(Decimal(n))) == Success(c.(imageUri := Some(ImageUri(n))))
  {
    var d := Decimal(n);
    ImageHandlerText();
    var p := ImageHandler;
    assert ImageUri(n) == p + IdKey + d + "&" + "type=card";
    assert forall k :: 0 <= k < |d| ==> IsDigit(d[k]);
    IdRoundTrip(p, d, "type=card");
    FormatArgOfDecimal(n);
  }
}

/** The crawl as a whole: what `set` and `rarity` report afterwards, and a
    page whose cells hold what a card's own fields render to is read back
    as that card. */
module CrawlProofs {
  import opened Wrappers
  import opened Text
  import opened Search
  import opened Numerals
  import opened Card
  import opened Markup
  import opened Single
  import opened CardProofs
  import opened SingleProofs
  import opened SingleValueProofs

  /** After a successful crawl, `set` and `rarity` are the two captures of
      the current printing's title (both nil when it does not match). */
  lemma ScrapedPrinting(page: DetailPage, decode: Decoder)
    requires ScrapePage(page, decode).Success?
    ensures var c, m := ScrapePage(page, decode).value, TitleMatch(page.currentTitle.value, None);
      && CurrentSet(c) == Success(if m.Some? then Some(m.value.0) else None)
      && CurrentRarity(c) == Success(if m.Some? then Some(m.value.1) else None)
  {
    var sets := ParseSets(page.currentTitle, page.otherTitles);
    assert sets.Success? && |sets.value| > 0;
  }

  /** The name, cost and type cells of a page read back as a fresh card
      with that rendered type line. */
  lemma HeadRoundTrip(page: DetailPage, decode: Decoder, t: TypeLine)
    requires ParseCost(page.manaAlts, decode).Success?
    requires WellFormedTypeLine(t) && Trimmed(Render(t)) && page.typeCell == Some(Render(t))
    ensures ScrapeHead(page, decode) == Success(Fresh().(
      name := Some(FirstText(page.nameCell)), cost := Some(ParseCost(page.manaAlts, decode).value),
      supertypes := t.supertypes, baseTypes := t.baseTypes, subtypes := t.subtypes))
  {
    StripUnchanged(Render(t));
    TypesRoundTrip(t);
  }

  /** One plain rules text, no flavour, one printing title and one
      power/toughness line read back as those values. */
  lemma BodyRoundTrip(c: Card, page: DetailPage, decode: Decoder, text: string,
                      edition: string, rarity: string, p: string, tg: string)
    requires Trimmed(text) && page.textBlocks == [TextBox([Text(text)])]
    requires page.flavourBlocks == []
    requires '(' !in edition && '\n' !in edition && '\n' !in rarity
    requires page.currentTitle == Some(Some(edition + " (" + rarity + ")")) && page.otherTitles == []
    requires '/' !in p && NoNewline(p) && NoNewline(tg)
    requires |p| > 0 && !IsStripChar(p[0]) && |tg| > 0 && !IsStripChar(tg[|tg| - 1])
    requires page.ptRow == Some(Some(p + " / " + tg))
    ensures ScrapeBody(c, page, decode) == Success(c.(
      text := Some(text), flavourText := Some(""), sets := [Pair(Some(edition), Some(rarity))],
      pow := Some(p), tgh := Some(tg), loyalty := None, artist := Some(FirstText(page.artistCell))))
  {
    PlainRulesText(text, decode);
    assert ParseText([], decode) == Success("");
    TitleOf(edition, rarity, edition + " (" + rarity + ")");
    MatchedParseSets(edition + " (" + rarity + ")", [], [(edition, rarity)]);
    assert Pairs([(edition, rarity)]) == [Pair(Some(edition), Some(rarity))];
    PowTghRoundTrip(p, tg);
  }

  /** The image URI of an id reads back as that id and the same URI. */
  lemma TailRoundTrip(c: Card, page: DetailPage, n: nat)
    requires page.imageSrc == Some(Some(ImageUri(n)))
    ensures ScrapeTail(c, page) == Success(c.(
      multiverseId := Some(Decimal(n)), imageUri := Some(ImageUri(n)), number := Some(FirstText(page.numberCell))))
  {
    ImageSrcRoundTrip(n);
    FormatArgOfDecimal(n);
  }

  /** A page whose cells hold a rendered type line, one plain rules text,
      one printing title, one power/toughness line and the image URI of an
      id is crawled into exactly the card those values describe. */
  lemma ScrapeRoundTrip(page: DetailPage, decode: Decoder, t: TypeLine, text: string,
                        edition: string, rarity: string, p: string, tg: string, n: nat)
    requires ParseCost(page.manaAlts, decode).Success?
    requires WellFormedTypeLine(t) && Trimmed(Render(t)) && page.typeCell == Some(Render(t))
    requires Trimmed(text) && page.textBlocks == [TextBox([Text(text)])]
    requires page.flavourBlocks == []
    requires '(' !in edition && '\n' !in edition && '\n' !in rarity
    requires page.currentTitle == Some(Some(edition + " (" + rarity + ")")) && page.otherTitles == []
    requires '/' !in p && NoNewline(p) && NoNewline(tg)
    requires |p| > 0 && !IsStripChar(p[0]) && |tg| > 0 && !IsStripChar(tg[|tg| - 1])
    requires page.ptRow == Some(Some(p + " / " + tg))
    requires page.imageSrc == Some(Some(ImageUri(n)))
    ensures ScrapePage(page, decode) == Success(Card(
      Some(FirstText(page.nameCell)), Some(ParseCost(page.manaAlts, decode).value),
      t.supertypes, t.baseTypes, t.subtypes, Some(p), Some(tg), Some(text),
      [Pair(Some(edition), Some(rarity))], Some(ImageUri(n)), Some(""), None,
      Some(FirstText(page.artistCell)), Some(Decimal(n)), Some(FirstText(page.numberCell))))
    ensures CurrentSet(ScrapePage(page, decode).value) == Success(Some(edition))
    ensures CurrentRarity(ScrapePage(page, decode).value) == Success(Some(rarity))
  {
    HeadRoundTrip(page, decode, t);
    var c2 := ScrapeHead(page, decode).value;
    BodyRoundTrip(c2, page, decode, text, edition, rarity, p, tg);
    var c5 := ScrapeBody(c2, page, decode).value;
    TailRoundTrip(c5, page, n);
  }
}

/** Properties of the card record: the type line round trip, the
    equality and ordering rules, and the derived accessors. */
module CardProofs {
  import opened Wrappers
  import opened Errors
  import opened Text
  import opened Search
  import opened Tokens
  import opened Seqs
  import opened Numerals
  import opened Card

  predicate NoChar(s: string, c: char) {
    forall i :: 0 <= i < |s| ==> s[i] != c
  }

  lemma {:induction false} NoCharJoin(ws: seq<string>, c: char)
    requires c != ' '
    requires forall i :: 0 <= i < |ws| ==> NoChar(ws[i], c)
    ensures NoChar(Join(ws, " "), c)
    decreases |ws|
  {
    if |ws| > 1 {
      NoCharJoin(ws[1..], c);
    }
  }

  /** A pattern with a character `s` lacks cannot occur in `s`. */
  lemma AbsentCharBlocksPattern(s: string, pat: string, j: nat)
    requires j < |pat| && NoChar(s, pat[j])
    ensures !Contains(s, pat)
  {
  }

  predicate IsLetter(c: char) {
    'A' <= c <= 'Z' || 'a' <= c <= 'z'
  }

  /** A non-empty word made of ASCII letters only. */
  predicate LetterWord(w: string) {
    |w| > 0 && forall c :: c in w ==> IsLetter(c)
  }

  lemma LetterWordFacts(w: string)
    requires LetterWord(w)
    ensures IsWord(w) && NoChar(w, '-') && NoChar(w, '&') && NoChar(w, '–')
  {
    assert forall i :: 0 <= i < |w| ==> w[i] in w;
  }

  /** Every supertype is a word of letters. */
  lemma SupertypesShape()
    ensures forall w :: w in Supertypes ==> LetterWord(w)
  {
  }

  /** Every base type is a word of letters, and none is a supertype. */
  lemma BaseTypesShape()
    ensures forall w :: w in BaseTypes ==> LetterWord(w)
    ensures forall w :: w in BaseTypes ==> w !in Supertypes
  {
  }

  /** A space-joined list of words, with a space added at each end. */
  function Padded(ws: seq<string>): string {
    " " + Join(ws, " ") + " "
  }

  lemma OccursShift(a: string, b: string, pat: string, k: int)
    requires OccursAt(a + b, pat, k) && k >= |a|
    ensures OccursAt(b, pat, k - |a|)
  {
    assert (a + b)[k..k + |pat|] == b[k - |a|..k - |a| + |pat|];
  }

  /** A word followed by a space, read at the start of `t + r` where `t`
      is a word and `r` starts with a space, is `t`. */
  lemma WordAtStart(t: string, r: string, w: string)
    requires IsWord(t) && IsWord(w) && |r| > 0 && r[0] == ' '
    requires |w| < |t + r| && (t + r)[..|w|] == w && (t + r)[|w|] == ' '
    ensures w == t
  {
    var x := t + r;
    assert forall i :: 0 <= i < |t| ==> x[i] == t[i];
    assert forall i :: 0 <= i < |w| ==> x[i] == x[..|w|][i];
    assert x[|t|] == ' ';
    assert |w| == |t|;
    assert x[..|t|] == t;
  }

  /** In words joined by single spaces, a word standing between two spaces
      is one of the joined words. */
  lemma {:induction false} PaddedWordOccurrence(ws: seq<string>, w: string, k: int)
    requires AllWords(ws) && IsWord(w)
    requires OccursAt(Padded(ws), " " + w + " ", k)
    ensures w in ws
    decreases |ws|
  {
    if |ws| > 0 {
      var t := ws[0];
      var r := if |ws| == 1 then " " else Padded(ws[1..]);
      assert Padded(ws) == " " + (t + r);
      assert r[0] == ' ';
      if k == 0 {
        PaddedFirst(t, r, w);
      } else {
        PaddedLater(t, r, " " + w + " ", k);
        if |ws| > 1 {
          PaddedWordOccurrence(ws[1..], w, k - |t| - 1);
        }
      }
    }
  }

  /** A padded word found at the very start is the first word. */
  lemma PaddedFirst(t: string, r: string, w: string)
    requires IsWord(t) && IsWord(w) && |r| > 0 && r[0] == ' '
    requires OccursAt(" " + (t + r), " " + w + " ", 0)
    ensures w == t
  {
    var pat := " " + w + " ";
    var x := t + r;
    assert (" " + x)[..|pat|] == pat;
    assert x[..|w| + 1] == pat[1..] == w + " ";
    assert x[..|w|] == x[..|w| + 1][..|w|];
    WordAtStart(t, r, w);
  }

  /** A space-led pattern found past the start lies in what follows the
      first word. */
  lemma PaddedLater(t: string, r: string, pat: string, k: int)
    requires IsWord(t) && |pat| > 0 && pat[0] == ' '
    requires OccursAt(" " + (t + r), pat, k) && k > 0
    ensures OccursAt(r, pat, k - |t| - 1)
  {
    var s := " " + (t + r);
    assert s[k] == s[k..k + |pat|][0] == ' ';
    assert forall i :: 1 <= i <= |t| ==> s[i] == t[i - 1];
    assert k > |t|;
    assert s == (" " + t) + r;
    OccursShift(" " + t, r, pat, k);
  }

  /** A type line `types=` can read back exactly: vocabulary words without
      repeats, and subtypes that are words other than the three separator
      tokens. */
  predicate WellFormedTypeLine(t: TypeLine) {
    && Distinct(t.supertypes) && (forall w :: w in t.supertypes ==> w in Supertypes)
    && Distinct(t.baseTypes) && (forall w :: w in t.baseTypes ==> w in BaseTypes)
    && AllWords(t.subtypes)
    && (forall w :: w in t.subtypes ==> w != "-" && w != "–" && w != "&mdash;")
  }

  /** The text before the separator that `Render` writes. */
  function HeadText(t: TypeLine): string {
    (if |t.supertypes| == 0 then "" else Join(t.supertypes, " ") + " ") + Join(t.baseTypes, " ")
  }

  /** Words drawn from the vocabulary are words free of dashes and
      ampersands. */
  lemma LetterWordsFacts(ws: seq<string>)
    requires forall w :: w in ws ==> LetterWord(w)
    ensures AllWords(ws)
    ensures forall i :: 0 <= i < |ws| ==> NoChar(ws[i], '-') && NoChar(ws[i], '&') && NoChar(ws[i], '–')
  {
    forall i | 0 <= i < |ws|
      ensures IsWord(ws[i]) && NoChar(ws[i], '-') && NoChar(ws[i], '&') && NoChar(ws[i], '–')
    {
      LetterWordFacts(ws[i]);
    }
  }

  lemma HeadWords(t: TypeLine)
    requires WellFormedTypeLine(t)
    ensures Words(HeadText(t)) == t.supertypes + t.baseTypes
  {
    SupertypesShape();
    BaseTypesShape();
    var sp, bt := t.supertypes, t.baseTypes;
    LetterWordsFacts(sp);
    LetterWordsFacts(bt);
    WordsOfJoin(sp);
    WordsOfJoin(bt);
    if |sp| > 0 {
      WordsAppend(Join(sp, " "), Join(bt, " "));
      assert HeadText(t) == Join(sp, " ") + " " + Join(bt, " ");
    } else {
      assert HeadText(t) == Join(bt, " ");
      assert sp + bt == bt;
    }
  }

  lemma HeadNoChar(t: TypeLine, c: char)
    requires WellFormedTypeLine(t) && c in "-&–"
    ensures NoChar(HeadText(t), c)
  {
    SupertypesShape();
    BaseTypesShape();
    var sp, bt := t.supertypes, t.baseTypes;
    LetterWordsFacts(sp);
    LetterWordsFacts(bt);
    NoCharJoin(sp, c);
    NoCharJoin(bt, c);
  }

  /** The head's words split back into the supertypes and the base types. */
  lemma HeadIntersect(t: TypeLine)
    requires WellFormedTypeLine(t)
    ensures Intersect(t.supertypes + t.baseTypes, Supertypes) == t.supertypes
    ensures Intersect(t.supertypes + t.baseTypes, BaseTypes) == t.baseTypes
  {
    BaseTypesShape();
    var sp, bt := t.supertypes, t.baseTypes;
    FilterAppend(sp, bt, Supertypes);
    FilterAllIn(sp, Supertypes);
    FilterNoneIn(bt, Supertypes);
    assert sp + [] == sp;
    DedupDistinct(sp);
    FilterAppend(sp, bt, BaseTypes);
    FilterNoneIn(sp, BaseTypes);
    FilterAllIn(bt, BaseTypes);
    assert [] + bt == bt;
    DedupDistinct(bt);
  }

  lemma HeadTextFacts(t: TypeLine)
    requires WellFormedTypeLine(t)
    ensures Words(HeadText(t)) == t.supertypes + t.baseTypes
    ensures NoChar(HeadText(t), '-') && NoChar(HeadText(t), '&') && NoChar(HeadText(t), '–')
    ensures Intersect(t.supertypes + t.baseTypes, Supertypes) == t.supertypes
    ensures Intersect(t.supertypes + t.baseTypes, BaseTypes) == t.baseTypes
  {
    HeadWords(t);
    HeadNoChar(t, '-');
    HeadNoChar(t, '&');
    HeadNoChar(t, '–');
    HeadIntersect(t);
  }

  /** In `H + " - " + T`, a separator whose first non-blank character
      `H` lacks can only occur inside `T`, and then it is one of the words
      `T` joins. */
  lemma SeparatorAbsent(H: string, ws: seq<string>, w: string)
    requires AllWords(ws) && IsWord(w) && w !in ws
    requires w[0] != ' ' && w[0] != '-' && NoChar(H, w[0])
    ensures !Contains(H + HyphenSep + Join(ws, " "), " " + w + " ")
  {
    var T := Join(ws, " ");
    var s := H + HyphenSep + T;
    var pat := " " + w + " ";
    if Contains(s, pat) {
      var k := IndexOf(s, pat).value;
      assert s[k + 1] == s[k..k + |pat|][1] == w[0];
      assert forall i :: 0 <= i < |H| ==> s[i] == H[i];
      assert s[|H|..|H| + 3] == HyphenSep;
      assert k >= |H| + 2;
      assert s == (H + " -") + (" " + T);
      OccursShift(H + " -", " " + T, pat, k);
      var k' := k - |H| - 2;
      assert Padded(ws)[k'..k' + |pat|] == (" " + T)[k'..k' + |pat|];
      PaddedWordOccurrence(ws, w, k');
    }
  }

  /** The first hyphen separator in `H + " - " + T` is the one after `H`
      when `H` has no hyphen. */
  lemma HyphenAfterHead(H: string, T: string)
    requires NoChar(H, '-')
    ensures IndexOf(H + HyphenSep + T, HyphenSep) == Some(|H|)
  {
    var s := H + HyphenSep + T;
    assert s[|H|..|H| + 3] == HyphenSep;
    assert OccursAt(s, HyphenSep, |H|);
    forall k | 0 <= k < |H|
      ensures !OccursAt(s, HyphenSep, k)
    {
      assert forall i :: 0 <= i < |H| ==> s[i] == H[i];
      assert s[|H|] == ' ';
      assert s[k..k + 3][1] == s[k + 1];
    }
  }

  /** No dash or ampersand separator is found in a line made of the head
      text, the hyphen separator and well-formed subtypes, except the
      hyphen separator right after the head. */
  lemma SeparatorsOfHyphenLine(t: TypeLine)
    requires WellFormedTypeLine(t) && |t.subtypes| > 0
    ensures var H := HeadText(t); var s := Render(t);
      && !Contains(s, MdashSep) && !Contains(s, EnDashSep)
      && IndexOf(s, HyphenSep) == Some(|H|)
      && s[|H| + |HyphenSep|..] == Join(t.subtypes, " ")
  {
    HeadNoChar(t, '-');
    HeadNoChar(t, '&');
    HeadNoChar(t, '–');
    var H := HeadText(t);
    var T := Join(t.subtypes, " ");
    assert Render(t) == H + HyphenSep + T;
    assert MdashSep == " " + "&mdash;" + " ";
    assert EnDashSep == " " + "–" + " ";
    SeparatorAbsent(H, t.subtypes, "&mdash;");
    SeparatorAbsent(H, t.subtypes, "–");
    HyphenAfterHead(H, T);
    assert (H + HyphenSep + T)[|H| + 3..] == T;
  }

  /** Subtypes that never include a lone hyphen hold no hyphen separator. */
  lemma HyphenNotInJoin(ws: seq<string>)
    requires AllWords(ws) && "-" !in ws
    ensures !Contains(Join(ws, " "), HyphenSep)
  {
    var T := Join(ws, " ");
    if Contains(T, HyphenSep) {
      var k := IndexOf(T, HyphenSep).value;
      assert Padded(ws) == " " + T + " ";
      assert Padded(ws)[k + 1..k + 4] == T[k..k + 3];
      PaddedWordOccurrence(ws, "-", k + 1);
    }
  }

  lemma RoundTripNoSubtypes(t: TypeLine)
    requires WellFormedTypeLine(t) && |t.subtypes| == 0
    ensures SplitTypes(Render(t)) == Success((t.supertypes + t.baseTypes, []))
  {
    HeadWords(t);
    HeadNoChar(t, '-');
    HeadNoChar(t, '&');
    HeadNoChar(t, '–');
    var s := Render(t);
    assert s == HeadText(t);
    AbsentCharBlocksPattern(s, MdashSep, 1);
    AbsentCharBlocksPattern(s, EnDashSep, 1);
    AbsentCharBlocksPattern(s, HyphenSep, 1);
  }

  lemma RoundTripWithSubtypes(t: TypeLine)
    requires WellFormedTypeLine(t) && |t.subtypes| > 0
    ensures SplitTypes(Render(t)) == Success((t.supertypes + t.baseTypes, t.subtypes))
  {
    HeadWords(t);
    SeparatorsOfHyphenLine(t);
    var H := HeadText(t);
    var s := Render(t);
    var T := Join(t.subtypes, " ");
    assert Separator(s) == Some(HyphenSep);
    assert s[..|H|] == H;
    HyphenNotInJoin(t.subtypes);
    assert SplitAll(T, HyphenSep) == [T];
    assert T != "" by {
      assert |T| >= |t.subtypes[0]|;
    }
    assert SplitAll(T, HyphenSep)[0] == T;
    assert FirstField(T, HyphenSep) == T;
    WordsOfJoin(t.subtypes);
  }

  /** Rendering a well-formed type line and parsing it with `types=` gives
      the type line back, so `types` after `types=` returns the input. */
  lemma TypesRoundTrip(t: TypeLine)
    requires WellFormedTypeLine(t)
    ensures ParseTypes(Render(t)) == Success(t)
  {
    HeadIntersect(t);
    if |t.subtypes| == 0 {
      RoundTripNoSubtypes(t);
    } else {
      RoundTripWithSubtypes(t);
    }
  }

  /** The type line of the card-record test. */
  lemma TypeLineExample()
    ensures ParseTypes("Legendary Artifact Creature - Human Wizard")
         == Success(TypeLine(["Legendary"], ["Artifact", "Creature"], ["Human", "Wizard"]))
  {
    var t := TypeLine(["Legendary"], ["Artifact", "Creature"], ["Human", "Wizard"]);
    WizardRender();
    WizardWellFormed();
    TypesRoundTrip(t);
  }

  lemma WizardRender()
    ensures Render(TypeLine(["Legendary"], ["Artifact", "Creature"], ["Human", "Wizard"]))
         == "Legendary Artifact Creature - Human Wizard"
  {
    WizardJoins();
    WizardLiteral();
  }

  lemma WizardJoins()
    ensures Render(TypeLine(["Legendary"], ["Artifact", "Creature"], ["Human", "Wizard"]))
         == "Legendary" + " " + ("Artifact" + " " + "Creature") + HyphenSep + ("Human" + " " + "Wizard")
  {
    assert Join(["Legendary"], " ") == "Legendary";
    assert ["Artifact", "Creature"][1..] == ["Creature"] && ["Human", "Wizard"][1..] == ["Wizard"];
  }

  lemma WizardLiteral()
    ensures "Legendary" + " " + ("Artifact" + " " + "Creature") + HyphenSep + ("Human" + " " + "Wizard")
         == "Legendary Artifact Creature - Human Wizard"
  {
  }

  lemma WizardWellFormed()
    ensures WellFormedTypeLine(TypeLine(["Legendary"], ["Artifact", "Creature"], ["Human", "Wizard"]))
  {
    var t := TypeLine(["Legendary"], ["Artifact", "Creature"], ["Human", "Wizard"]);
    assert Distinct(t.supertypes) && Distinct(t.baseTypes);
    assert t.supertypes[0] == Supertypes[1];
    assert t.baseTypes[0] == BaseTypes[0] && t.baseTypes[1] == BaseTypes[1];
  }

  /** The hash-constructed card of the card-record test: type line
      "Sorcery" reads back as a single base type and renders unchanged. */
  lemma SorceryTypeLine()
    ensures ParseTypes("Sorcery") == Success(TypeLine([], ["Sorcery"], []))
    ensures Render(TypeLine([], ["Sorcery"], [])) == "Sorcery"
  {
    var t := TypeLine([], ["Sorcery"], []);
    assert Render(t) == "Sorcery";
    assert Distinct(t.baseTypes) && "Sorcery" in BaseTypes;
    assert WellFormedTypeLine(t);
    TypesRoundTrip(t);
  }

  lemma ImageHandlerLiteral()
    ensures ImageHandler == "http://gatherer.wizards.com/Handlers/Image.ashx?"
  {
  }

  lemma ImageUriPrefixLiteral()
    ensures ImageUriPrefix == "http://gatherer.wizards.com/Handlers/Image.ashx?multiverseid="
  {
    ImageHandlerLiteral();
  }

  /** The image URI of the card-record test. */
  lemma ImageUriExample()
    ensures ImageUri(191323)
         == "http://gatherer.wizards.com/Handlers/Image.ashx?multiverseid=191323&type=card"
  {
    DecimalExample();
    ImageUriPrefixLiteral();
    assert ImageUri(191323) == ImageUriPrefix + "191323" + ImageUriSuffix;
  }

  lemma DecimalExample()
    ensures Decimal(191323) == "191323"
  {
  }

  /** `set` and `rarity` read the first printing, whatever follows it;
      with no printing at all both raise. */
  lemma CurrentPrinting(c: Card, name: Option<string>, rarity: Option<string>, rest: seq<Printing>)
    requires c.sets == [Pair(name, rarity)] + rest
    ensures CurrentSet(c) == Success(name) && CurrentRarity(c) == Success(rarity)
    ensures CurrentSet(c.(sets := [])) == Failure(NoMethodOnNil("[]"))
    ensures CurrentRarity(c.(sets := [])) == Failure(NoMethodOnNil("[]"))
  {
  }

  // ---------------------------------------------------------------------
  // Equality and ordering

  /** `==` is an equivalence relation. */
  lemma SameCardEquivalence(a: Card, b: Card, c: Card)
    ensures SameCard(a, a)
    ensures SameCard(a, b) ==> SameCard(b, a)
    ensures SameCard(a, b) && SameCard(b, c) ==> SameCard(a, c)
  {
  }

  /** `==` looks only at name, cost, sets, image URI, text and the rendered
      type line: changing any other field keeps a card equal to itself. */
  lemma SameCardIgnoresOtherFields(c: Card, pow: Option<string>, tgh: Option<string>,
                                   flavour: Option<string>, loyalty: Option<string>,
                                   artist: Option<string>, id: Option<string>, number: Option<string>)
    ensures SameCard(c, c.(pow := pow, tgh := tgh, flavourText := flavour, loyalty := loyalty,
                           artist := artist, multiverseId := id, number := number))
  {
  }

  /** `==` compares the rendered type line, not the three arrays: a card
      whose "Legendary" is a supertype equals one where it is stored as a
      base type. */
  lemma SameCardByRenderedTypes(c: Card)
    ensures SameCard(c.(supertypes := ["Legendary"], baseTypes := ["Creature"], subtypes := []),
                     c.(supertypes := [], baseTypes := ["Legendary", "Creature"], subtypes := []))
  {
    var a := c.(supertypes := ["Legendary"], baseTypes := ["Creature"], subtypes := []);
    var b := c.(supertypes := [], baseTypes := ["Legendary", "Creature"], subtypes := []);
    assert CardTypes(a) == "Legendary Creature";
    assert CardTypes(b) == "Legendary Creature";
  }

  /** Equal cards sort together. */
  lemma SameCardSortsEqual(a: Card, b: Card)
    requires SameCard(a, b)
    ensures CompareCards(a, b) == Some(0)
  {
  }

  lemma {:induction false} LexCompareAntisymmetric(x: string, y: string)
    ensures LexCompare(y, x) == -LexCompare(x, y)
  {
    if |x| > 0 && |y| > 0 && x[0] == y[0] {
      LexCompareAntisymmetric(x[1..], y[1..]);
    }
  }

  lemma {:induction false} LexCompareTransitive(x: string, y: string, z: string)
    requires LexCompare(x, y) < 0 && LexCompare(y, z) < 0
    ensures LexCompare(x, z) < 0
  {
    if |x| > 0 && |y| > 0 && |z| > 0 && x[0] == y[0] == z[0] {
      LexCompareTransitive(x[1..], y[1..], z[1..]);
    }
  }

  /** `<=>` on cards is antisymmetric and transitive where it is defined,
      and it is undefined exactly between a named and an unnamed card. */
  lemma CompareCardsOrder(a: Card, b: Card, c: Card)
    ensures CompareCards(a, b).None? <==> (a.name.None? != b.name.None?)
    ensures CompareCards(a, b).Some? ==> CompareCards(b, a) == Some(-CompareCards(a, b).value)
    ensures CompareCards(a, b) == Some(-1) && CompareCards(b, c) == Some(-1) ==> CompareCards(a, c) == Some(-1)
  {
    if a.name.Some? && b.name.Some? {
      LexCompareAntisymmetric(a.name.value, b.name.value);
      if c.name.Some? && CompareCards(a, b) == Some(-1) && CompareCards(b, c) == Some(-1) {
        LexCompareTransitive(a.name.value, b.name.value, c.name.value);
      }
    }
  }
}

/** The card record of lib/scapeshift/card.rb: its fields, the type-line
    parser `types=` and renderer `types`, the derived `set` and `rarity`,
    `pow_tgh=`, the image URI and the card's equality and ordering. */
module Card {
  import opened Wrappers
  import opened Errors
  import opened Text
  import opened Search
  import opened Tokens
  import opened Seqs
  import opened Numerals

  const GathererHost := "http://gatherer.wizards.com"
  /** The query key every Gatherer URI of a single card carries. */
  const MultiverseKey := "multiverseid="
  const ImageHandler := GathererHost + "/Handlers/Image.ashx?"
  const ImageUriPrefix := ImageHandler + MultiverseKey
  const ImageUriSuffix := "&type=card"

  const Supertypes: seq<string> := ["Basic", "Legendary", "Snow", "World"]
  const BaseTypes: seq<string> :=
    ["Artifact", "Creature", "Enchantment", "Land", "Planeswalker", "Instant",
     "Sorcery", "Tribal", "Plane", "Vanguard"]

  /** The three separators `types=` recognises, in the order it tries them. */
  const MdashSep := " &mdash; "
  const EnDashSep := " – "
  const HyphenSep := " - "

  /** One entry of `sets`: the empty array a fresh card starts with, or a
      `[set, rarity]` pair whose parts may be nil. */
  datatype Printing = Blank | Pair(setName: Option<string>, rarity: Option<string>)

  /** A power/toughness pair as the crawlers hand it to `pow_tgh=`. */
  type PowTgh = (Option<string>, Option<string>)

  datatype Card = Card(
    name: Option<string>,
    cost: Option<string>,
    supertypes: seq<string>,
    baseTypes: seq<string>,
    subtypes: seq<string>,
    pow: Option<string>,
    tgh: Option<string>,
    text: Option<string>,
    sets: seq<Printing>,
    imageUri: Option<string>,
    flavourText: Option<string>,
    loyalty: Option<string>,
    artist: Option<string>,
    multiverseId: Option<string>,
    number: Option<string>)

  /** `Card.new` with no parameters. */
  function Fresh(): (c: Card)
    ensures c.supertypes == [] && c.baseTypes == [] && c.subtypes == []
    ensures CurrentSet(c) == Success(None) && CurrentRarity(c) == Success(None)
    ensures CardTypes(c) == ""
  {
    Card(None, None, [], [], [], None, None, None, [Blank], None, None, None, None, None, None)
  }

  /** `set`: element 0 of the first entry of `sets`. */
  function CurrentSet(c: Card): Outcome<Option<string>> {
    if |c.sets| == 0 then Failure(NoMethodOnNil("[]"))
    else match c.sets[0]
      case Blank => Success(None)
      case Pair(s, _) => Success(s)
  }

  /** `rarity`: element 1 of the first entry of `sets`. */
  function CurrentRarity(c: Card): Outcome<Option<string>> {
    if |c.sets| == 0 then Failure(NoMethodOnNil("[]"))
    else match c.sets[0]
      case Blank => Success(None)
      case Pair(_, r) => Success(r)
  }

  /** `Image_URI % id` for an Integer id. */
  function ImageUri(id: nat): string {
    ImageUriPrefix + Decimal(id) + ImageUriSuffix
  }

  /** `image_uri_from_id=` (alias `image_id=`) called with an Integer. */
  function SetImageId(c: Card, id: nat): (r: Card)
    ensures r.imageUri == Some(ImageUri(id))
    ensures r.(imageUri := c.imageUri) == c
  {
    c.(imageUri := Some(ImageUri(id)))
  }

  /** `image_uri_from_id=` called with what the crawlers pass: a String
      or nil, converted to an Integer by the format directive. */
  function SetImageIdFrom(c: Card, arg: Option<string>): (r: Outcome<Card>)
    ensures r.Failure? <==> FormatArg(arg).Failure?
    ensures r.Failure? ==> r.error == FormatArg(arg).error
    ensures r.Success? ==> r.value.imageUri == Some(ImageUri(FormatArg(arg).value))
    ensures r.Success? ==> r.value.(imageUri := c.imageUri) == c
  {
    var id :- FormatArg(arg);
    Success(SetImageId(c, id))
  }

  /** `pow_tgh=`: nil leaves the card alone; a pair sets `pow` and `tgh`. */
  function AssignPowTgh(c: Card, pt: Option<PowTgh>): (r: Card)
    ensures pt.None? ==> r == c
    ensures pt.Some? ==> r.pow == pt.value.0 && r.tgh == pt.value.1
    ensures r.(pow := c.pow, tgh := c.tgh) == c
  {
    match pt
    case None => c
    case Some((p, t)) => c.(pow := p, tgh := t)
  }

  // ---------------------------------------------------------------------
  // The type line

  datatype TypeLine = TypeLine(supertypes: seq<string>, baseTypes: seq<string>, subtypes: seq<string>)

  /** The separator `types=` splits on: the first of the three, in order,
      that occurs in `s`. */
  function Separator(s: string): Option<string> {
    if Contains(s, MdashSep) then Some(MdashSep)
    else if Contains(s, EnDashSep) then Some(EnDashSep)
    else if Contains(s, HyphenSep) then Some(HyphenSep)
    else None
  }

  /** The text of `t` before the first `sep`, or all of it. */
  function FirstField(t: string, sep: string): string {
    match IndexOf(t, sep)
    case None => t
    case Some(j) => t[..j]
  }

  /** `t` is made of separators only, so splitting it yields empty fields only. */
  predicate OnlySeparators(t: string, sep: string)
    requires |sep| > 0
  {
    forall f :: f in SplitAll(t, sep) ==> f == ""
  }

  /** The array `ary` that `types=` builds (with `_split_base_and_subtypes`):
      the head tokens and the subtype tokens. When the text after the
      separator holds nothing but separators, Ruby's `split` returns fewer
      than two fields and `nil.split` raises. */
  function SplitTypes(s: string): (r: Outcome<(seq<string>, seq<string>)>)
    ensures Separator(s).None? ==> r == Success((Words(s), []))
    ensures Separator(s).Some? ==>
      var sep := Separator(s).value;
      var i := IndexOf(s, sep).value;
      var rest := s[i + |sep|..];
      && (r.Failure? <==> OnlySeparators(rest, sep))
      && (r.Success? ==> r.value == (Words(s[..i]), Words(FirstField(rest, sep))))
    ensures r.Failure? ==> r.error == NoMethodOnNil("split")
  {
    match Separator(s)
    case None => Success((Words(s), []))
    case Some(sep) =>
      var i := IndexOf(s, sep).value;
      var ary := RubySplit(s, sep);
      SplitAtFirst(s, sep, i);
      if |ary| < 2 then Failure(NoMethodOnNil("split"))
      else Success((Words(ary[0]), Words(ary[1])))
  }

  /** Splitting at the first separator: Ruby keeps a second field exactly
      when what follows the separator is not separators only, and the
      two fields are the text before it and the text up to the next one. */
  lemma SplitAtFirst(s: string, sep: string, i: nat)
    requires |sep| > 0 && IndexOf(s, sep) == Some(i)
    ensures var rest, ary := s[i + |sep|..], RubySplit(s, sep);
      && (|ary| >= 2 <==> !OnlySeparators(rest, sep))
      && (|ary| >= 2 ==> ary[0] == s[..i] && ary[1] == FirstField(rest, sep))
  {
    var rest := s[i + |sep|..];
    var all := SplitAll(s, sep);
    var tail := SplitAll(rest, sep);
    assert all == [s[..i]] + tail;
    var ary := RubySplit(s, sep);
    if !OnlySeparators(rest, sep) {
      var k :| 0 <= k < |tail| && tail[k] != "";
      assert all[k + 1] == tail[k];
    }
    if |ary| >= 2 {
      assert all[|ary| - 1] == ary[|ary| - 1];
      assert tail[|ary| - 2] in tail;
      assert ary[1] == tail[0];
    }
  }

  /** `types=` as a parse: supertypes and base types are the head tokens
      that lie in the two vocabularies, each once and in head order; every
      other head token is dropped; subtypes are kept as split. */
  function ParseTypes(s: string): (r: Outcome<TypeLine>)
    ensures r.Failure? <==> SplitTypes(s).Failure?
    ensures r.Success? ==>
      var (head, sub) := SplitTypes(s).value;
      && r.value.subtypes == sub
      && (forall t :: t in r.value.supertypes <==> t in head && t in Supertypes)
      && (forall t :: t in r.value.baseTypes <==> t in head && t in BaseTypes)
      && Distinct(r.value.supertypes) && Distinct(r.value.baseTypes)
      && InOrderOf(r.value.supertypes, head) && InOrderOf(r.value.baseTypes, head)
  {
    var (head, sub) :- SplitTypes(s);
    Success(TypeLine(Intersect(head, Supertypes), Intersect(head, BaseTypes), sub))
  }

  /** `types=` on a card: only the three type fields change. */
  function AssignTypes(c: Card, s: string): (r: Outcome<Card>)
    ensures r.Failure? <==> ParseTypes(s).Failure?
    ensures r.Success? ==> TypeLineOf(r.value) == ParseTypes(s).value
    ensures r.Success? ==> r.value.(supertypes := c.supertypes, baseTypes := c.baseTypes, subtypes := c.subtypes) == c
  {
    var t :- ParseTypes(s);
    Success(c.(supertypes := t.supertypes, baseTypes := t.baseTypes, subtypes := t.subtypes))
  }

  function TypeLineOf(c: Card): TypeLine {
    TypeLine(c.supertypes, c.baseTypes, c.subtypes)
  }

  /** `types`: the type line rendered back to a String. */
  function Render(t: TypeLine): string {
    (if |t.supertypes| == 0 then "" else Join(t.supertypes, " ") + " ")
    + Join(t.baseTypes, " ")
    + (if |t.subtypes| == 0 then "" else HyphenSep + Join(t.subtypes, " "))
  }

  function CardTypes(c: Card): string {
    Render(TypeLineOf(c))
  }

  // ---------------------------------------------------------------------
  // Equality and ordering

  /** `==`: name, cost, sets, image URI, text and the rendered type line
      agree. Power, toughness and every other field are not compared. */
  predicate SameCard(a: Card, b: Card) {
    && a.name == b.name
    && a.cost == b.cost
    && a.sets == b.sets
    && a.imageUri == b.imageUri
    && a.text == b.text
    && CardTypes(a) == CardTypes(b)
  }

  /** `String#<=>`: lexicographic comparison, a proper prefix first. */
  function LexCompare(x: string, y: string): (r: int)
    ensures -1 <= r <= 1
    ensures r == 0 <==> x == y
  {
    if |x| == 0 && |y| == 0 then 0
    else if |x| == 0 then -1
    else if |y| == 0 then 1
    else if x[0] < y[0] then -1
    else if x[0] > y[0] then 1
    else
      assert x == [x[0]] + x[1..] && y == [y[0]] + y[1..];
      LexCompare(x[1..], y[1..])
  }

  /** `<=>`: the names compared; nil compares equal only to nil and is
      not ordered against a String. */
  function CompareCards(a: Card, b: Card): Option<int> {
    match (a.name, b.name)
    case (Some(x), Some(y)) => Some(LexCompare(x, y))
    case (None, None) => Some(0)
    case _ => None
  }
}

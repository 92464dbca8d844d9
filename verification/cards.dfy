/** The list-page crawler of lib/scapeshift/crawlers/cards.rb: the rows of
    Gatherer's text spoiler folded into card records, one row per field and
    a two-child row between cards. */
module Cards {
  import opened Wrappers
  import opened Errors
  import opened Text
  import opened Search
  import opened Tokens
  import opened Numerals
  import opened Seqs
  import opened Card

  const TextSpoilerUri := GathererHost + "/Pages/Search/Default.aspx?output=spoiler&method=text"
  const BlockFragHead := "&format=[\""
  const SetFragHead := "&set=[\""
  const FragTail := "\"]"

  // ---------------------------------------------------------------------
  // The search fragment

  /** The block fragment, then the set fragment, each only when its option
      is given. */
  function SearchFragment(block: Option<string>, setName: Option<string>): (r: string)
    ensures block.None? && setName.None? ==> r == ""
    ensures block.Some? ==> BlockFragHead + block.value + FragTail <= r
    ensures setName.Some? ==>
      var f := SetFragHead + setName.value + FragTail;
      |f| <= |r| && r[|r| - |f|..] == f
  {
    (if block.Some? then BlockFragHead + block.value + FragTail else "")
    + (if setName.Some? then SetFragHead + setName.value + FragTail else "")
  }

  /** The spoiler URI `crawl` opens. */
  function SpoilerUri(block: Option<string>, setName: Option<string>): (r: string)
    ensures TextSpoilerUri <= r
    ensures r[|TextSpoilerUri|..] == SearchFragment(block, setName)
  {
    TextSpoilerUri + SearchFragment(block, setName)
  }

  // ---------------------------------------------------------------------
  // Rows

  /** A child node of a table cell, as `to_s` renders it: a `br` element
      or any other markup. */
  datatype Child = Br | Markup(html: string)

  function ChildText(c: Child): string {
    match c
    case Br => "<br>"
    case Markup(h) => h
  }

  /** A link of the second cell: its `href` (nil when absent) and the
      rendered children. */
  datatype Anchor = Anchor(href: Option<string>, children: seq<string>)

  /** One `tr` of the spoiler table: how many child nodes it has, the
      children of its first and second cells, and the links of its second
      cell. */
  datatype Row = Row(childCount: nat, labelCell: seq<Child>, cell: seq<Child>, anchors: seq<Anchor>)

  /** A row with exactly two children separates two cards. */
  predicate IsBoundary(r: Row) {
    r.childCount == 2
  }

  /** `children.first.to_s`: nil renders as the empty string. */
  function FirstChildText(cs: seq<Child>): string {
    if |cs| == 0 then "" else ChildText(cs[0])
  }

  /** `children.last.to_s`. */
  function LastChildText(cs: seq<Child>): string {
    if |cs| == 0 then "" else ChildText(cs[|cs| - 1])
  }

  /** `_row_type`: the first cell's text stripped, its last character
      dropped (the colon) and lower-cased. */
  function RowLabel(r: Row): string {
    Downcase(Chop(Strip(FirstChildText(r.labelCell))))
  }

  /** The six row kinds `_parse_row` understands. */
  datatype Attribute = NameRow | CostRow | TypeRow | PowTghRow | RulesTextRow | SetRarityRow

  /** The label each row kind carries. */
  function LabelOf(a: Attribute): string {
    match a
    case NameRow => "name"
    case CostRow => "cost"
    case TypeRow => "type"
    case PowTghRow => "pow/tgh"
    case RulesTextRow => "rules text"
    case SetRarityRow => "set/rarity"
  }

  /** The dispatch of `_parse_row`: the row kind a label names, if any. */
  function AttributeOf(tag: string): (r: Option<Attribute>)
    ensures r.Some? ==> LabelOf(r.value) == tag
    ensures r.None? ==> forall a :: LabelOf(a) != tag
  {
    if tag == "name" then Some(NameRow)
    else if tag == "cost" then Some(CostRow)
    else if tag == "type" then Some(TypeRow)
    else if tag == "pow/tgh" then Some(PowTghRow)
    else if tag == "rules text" then Some(RulesTextRow)
    else if tag == "set/rarity" then Some(SetRarityRow)
    else None
  }

  // ---------------------------------------------------------------------
  // Field parsers

  /** `_parse_name`: the last child of the second cell's links. */
  function ParseName(r: Row): string {
    var cs := LinkChildren(r.anchors);
    if |cs| == 0 then "" else cs[|cs| - 1]
  }

  /** The children of every link, in document order. */
  function LinkChildren(anchors: seq<Anchor>): seq<string> {
    if |anchors| == 0 then [] else anchors[0].children + LinkChildren(anchors[1..])
  }

  /** Length of the run of digits starting at `from`. */
  function DigitRun(s: string, from: nat): (n: nat)
    requires from <= |s|
    ensures from + n <= |s|
    ensures forall i :: from <= i < from + n ==> IsDigit(s[i])
    ensures from + n < |s| ==> !IsDigit(s[from + n])
    decreases |s| - from
  {
    if from == |s| || !IsDigit(s[from]) then 0 else 1 + DigitRun(s, from + 1)
  }

  /** `/multiverseid=(\d+)/` from index `from` on: at the first key that a
      digit follows, the whole run of digits after it. */
  function DigitIdFrom(s: string, from: nat): (r: Option<string>)
    ensures r.Some? ==> |r.value| > 0 && AllDigits(r.value)
    decreases |s| - from
  {
    if from + |MultiverseKey| >= |s| then None
    else
      var b := from + |MultiverseKey|;
      if OccursAt(s, MultiverseKey, from) && IsDigit(s[b]) then
        var v := s[b..b + DigitRun(s, b)];
        assert forall i :: 0 <= i < |v| ==> v[i] == s[b + i];
        Some(v)
      else DigitIdFrom(s, from + 1)
  }

  /** `_parse_image_uri`: a row without a link raises; a link without
      `href` gives nil. */
  function ParseImageId(r: Row): (o: Outcome<Option<string>>)
    ensures o.Failure? <==> |r.anchors| == 0
    ensures o.Failure? ==> o.error == NoMethodOnNil("[]")
    ensures o.Success? ==> o.value == (match r.anchors[0].href
      case None => None
      case Some(h) => DigitIdFrom(h, 0))
  {
    if |r.anchors| == 0 then Failure(NoMethodOnNil("[]"))
    else match r.anchors[0].href
      case None => Success(None)
      case Some(h) => Success(DigitIdFrom(h, 0))
  }

  /** `_parse_cost`: the last child of the second cell, stripped. */
  function ParseCost(r: Row): string {
    Strip(LastChildText(r.cell))
  }

  /** `_parse_type`: the whitespace tokens of the first child with every
      `&mdash;` deleted. */
  function ParseType(r: Row): (ts: seq<string>)
    ensures forall t :: t in ts <==> t in Words(Strip(FirstChildText(r.cell))) && t != "&mdash;"
    ensures AllWords(ts)
    ensures ts == Without(Words(Strip(FirstChildText(r.cell))), "&mdash;")
  {
    var ws := Words(Strip(FirstChildText(r.cell)));
    var ts := Without(ws, "&mdash;");
    assert forall t :: t in ts <==> multiset(ts)[t] > 0;
    assert forall t :: t in ws <==> multiset(ws)[t] > 0;
    assert forall i :: 0 <= i < |ts| ==> ts[i] in ts;
    ts
  }

  /** The first index `k >= from` holding `a` or `b`. */
  function FindEither(s: string, from: nat, a: char, b: char): (r: Option<nat>)
    ensures r.Some? ==> from <= r.value < |s| && (s[r.value] == a || s[r.value] == b)
    ensures r.Some? ==> forall j :: from <= j < r.value ==> s[j] != a && s[j] != b
    ensures r.None? ==> forall j :: from <= j < |s| ==> s[j] != a && s[j] != b
    decreases |s| - from
  {
    if from >= |s| then None
    else if s[from] == a || s[from] == b then Some(from)
    else FindEither(s, from + 1, a, b)
  }

  /** `\((.*?)\/(.*?)\)` tried at an opening parenthesis at `i`: the text
      to the first `/` and from there to the first `)`, neither crossing a
      line break. */
  function ParenSlashAt(s: string, i: nat): (r: Option<(string, string)>)
    requires i < |s|
    ensures r.Some? ==> s[i] == '(' && OccursAt(s, "(" + r.value.0 + "/" + r.value.1 + ")", i)
    ensures r.Some? ==> '/' !in r.value.0 && '\n' !in r.value.0
    ensures r.Some? ==> ')' !in r.value.1 && '\n' !in r.value.1
  {
    if s[i] != '(' then None
    else match FindEither(s, i + 1, '/', '\n')
      case None => None
      case Some(j) =>
        if s[j] != '/' then None
        else match FindEither(s, j + 1, ')', '\n')
          case None => None
          case Some(k) =>
            if s[k] != ')' then None
            else
              var p, t := s[i + 1..j], s[j + 1..k];
              assert forall x :: 0 <= x < |p| ==> p[x] == s[i + 1 + x];
              assert forall x :: 0 <= x < |t| ==> t[x] == s[j + 1 + x];
              assert s[i..k + 1] == "(" + p + "/" + t + ")";
              Some((p, t))
  }

  /** A `/` at `j` and a `)` after it at `k`, with no line break between
      the opening parenthesis at `i` and `k`: what the pattern needs to
      match at `i`. */
  predicate SlashThenClose(s: string, i: nat, j: int, k: int) {
    && i < j < k < |s| && s[j] == '/' && s[k] == ')'
    && forall x :: i < x < k ==> s[x] != '\n'
  }

  /** The leftmost match of `\((.*?)\/(.*?)\)` at or after `from`. */
  function ParenSlashFrom(s: string, from: nat): (r: Option<(string, string)>)
    ensures r.None? ==> forall i :: from <= i < |s| ==> ParenSlashAt(s, i).None?
    ensures r.Some? ==> exists i :: (from <= i < |s| && ParenSlashAt(s, i) == r
      && forall j :: from <= j < i ==> ParenSlashAt(s, j).None?)
    decreases |s| - from
  {
    if from >= |s| then None
    else if ParenSlashAt(s, from).Some? then ParenSlashAt(s, from)
    else ParenSlashFrom(s, from + 1)
  }

  /** `_parse_pow_tgh` of the list page: nil for an empty cell, else the
      two captures (both nil when the pattern does not match). */
  function ParsePowTgh(r: Row): (pt: Option<PowTgh>)
    ensures pt.None? <==> Strip(FirstChildText(r.cell)) == ""
    ensures pt.Some? && pt.value.0.Some? ==> pt.value.1.Some?
    ensures pt.Some? ==>
      var s := Strip(FirstChildText(r.cell));
      pt.value.0.None? <==> forall i :: 0 <= i < |s| ==> ParenSlashAt(s, i).None?
    ensures pt.Some? && pt.value.0.Some? ==>
      var s := Strip(FirstChildText(r.cell));
      exists i :: (0 <= i < |s| && ParenSlashAt(s, i) == Some((pt.value.0.value, pt.value.1.value))
        && forall j :: 0 <= j < i ==> ParenSlashAt(s, j).None?)
  {
    var s := Strip(FirstChildText(r.cell));
    if s == "" then None
    else match ParenSlashFrom(s, 0)
      case None => Some((None, None))
      case Some((p, t)) => Some((Some(p), Some(t)))
  }

  /** One child's share of the rules text: a line break for `br`, the
      stripped markup otherwise. */
  function RulesPiece(c: Child): string {
    match c
    case Br => "\n"
    case Markup(h) => Strip(h)
  }

  /** `_parse_rules_text`: the pieces of the cell's children, in order. */
  function RulesText(cs: seq<Child>): string {
    if |cs| == 0 then "" else RulesPiece(cs[0]) + RulesText(cs[1..])
  }

  const MythicRare := "Mythic Rare"

  /** One entry of the set/rarity list: an entry naming Mythic Rare loses
      its first " Mythic Rare"; any other entry's last word is the rarity
      and the words before it, space-joined, the set. */
  function ParseEntry(e: string): (p: Printing)
    ensures p.Pair? && p.setName.Some?
    ensures Contains(e, MythicRare) ==> p.rarity == Some(MythicRare)
    ensures Contains(e, MythicRare) && !Contains(e, " " + MythicRare) ==> p.setName.value == e
    ensures Contains(e, " " + MythicRare) ==>
      var i, s := IndexOf(e, " " + MythicRare).value, p.setName.value;
      i <= |s| && e == s[..i] + (" " + MythicRare) + s[i..]
    ensures !Contains(e, MythicRare) ==> (p.rarity.Some? <==> |Words(e)| > 0)
    ensures !Contains(e, MythicRare) && p.rarity.Some? ==>
      && Words(e) == Words(p.setName.value) + [p.rarity.value]
      && Join(Words(p.setName.value), " ") == p.setName.value
    ensures p.rarity.None? ==> p.setName.value == ""
  {
    if Contains(e, MythicRare) then
      var s := RemoveFirst(e, " " + MythicRare);
      Pair(Some(s), Some(MythicRare))
    else
      assert !Contains(e, " " + MythicRare) by {
        if Contains(e, " " + MythicRare) { ContainsTail(e, " ", MythicRare); }
      }
      var ws := Words(e);
      if |ws| == 0 then Pair(Some(""), None)
      else
        LastWordApart(ws);
        Pair(Some(Join(ws[..|ws| - 1], " ")), Some(ws[|ws| - 1]))
  }

  /** The words before the last, space-joined, split back into themselves. */
  lemma LastWordApart(ws: seq<string>)
    requires AllWords(ws) && |ws| > 0
    ensures var front := Join(ws[..|ws| - 1], " ");
      && Words(front) + [ws[|ws| - 1]] == ws
      && Join(Words(front), " ") == front
  {
    var front := ws[..|ws| - 1];
    assert AllWords(front) by {
      forall i | 0 <= i < |front| ensures IsWord(front[i]) { assert front[i] == ws[i]; }
    }
    WordsOfJoin(front);
    assert ws == front + [ws[|ws| - 1]];
  }

  function ParseEntries(es: seq<string>): (ps: seq<Printing>)
    ensures |ps| == |es|
    ensures forall i :: 0 <= i < |es| ==> ps[i] == ParseEntry(es[i])
  {
    if |es| == 0 then [] else [ParseEntry(es[0])] + ParseEntries(es[1..])
  }

  /** `_parse_set_rarity`: the first child, stripped and split on ", ". */
  function ParseSetRarity(r: Row): seq<Printing> {
    ParseEntries(RubySplit(Strip(FirstChildText(r.cell)), ", "))
  }

  // ---------------------------------------------------------------------
  // Dispatch and the fold

  /** `types=` as `_parse_row` calls it, with the token array. */
  type TypeSetter = (Card, seq<string>) -> Outcome<Card>

  /** `_parse_row`: the field the row's label names is assigned on the
      card in progress; an unknown label raises naming it. */
  function ParseRow(c: Card, r: Row, setTypes: TypeSetter): (o: Outcome<Card>)
    ensures AttributeOf(RowLabel(r)).None? ==> o == Failure(UnknownCardAttribute(RowLabel(r)))
    ensures AttributeOf(RowLabel(r)) == Some(NameRow) ==>
      && (o.Success? <==> ParseImageId(r).Success? && FormatArg(ParseImageId(r).value).Success?)
      && (o.Success? ==> o.value == c.(name := Some(ParseName(r)),
                                       imageUri := Some(ImageUri(FormatArg(ParseImageId(r).value).value))))
    ensures AttributeOf(RowLabel(r)) == Some(CostRow) ==> o == Success(c.(cost := Some(ParseCost(r))))
    ensures AttributeOf(RowLabel(r)) == Some(TypeRow) ==> o == setTypes(c, ParseType(r))
    ensures AttributeOf(RowLabel(r)) == Some(PowTghRow) ==> o == Success(AssignPowTgh(c, ParsePowTgh(r)))
    ensures AttributeOf(RowLabel(r)) == Some(RulesTextRow) ==> o == Success(c.(text := Some(RulesText(r.cell))))
    ensures AttributeOf(RowLabel(r)) == Some(SetRarityRow) ==> o == Success(c.(sets := ParseSetRarity(r)))
  {
    match AttributeOf(RowLabel(r))
    case None => Failure(UnknownCardAttribute(RowLabel(r)))
    case Some(NameRow) =>
      var named := c.(name := Some(ParseName(r)));
      var id :- ParseImageId(r);
      SetImageIdFrom(named, id)
    case Some(CostRow) => Success(c.(cost := Some(ParseCost(r))))
    case Some(TypeRow) => setTypes(c, ParseType(r))
    case Some(PowTghRow) => Success(AssignPowTgh(c, ParsePowTgh(r)))
    case Some(RulesTextRow) => Success(c.(text := Some(RulesText(r.cell))))
    case Some(SetRarityRow) => Success(c.(sets := ParseSetRarity(r)))
  }

  /** The state of the row loop: the set collected so far (nil stands for
      a boundary met with no card in progress) and the card in progress. */
  datatype Spoiler = Spoiler(cards: seq<Option<Card>>, current: Option<Card>)

  /** `Set#<<`: cards are distinct objects and are always added; nil is
      added only once. */
  function AddToSet(cards: seq<Option<Card>>, x: Option<Card>): (r: seq<Option<Card>>)
    ensures x.Some? ==> r == cards + [x]
    ensures x.None? ==> r == if None in cards then cards else cards + [None]
  {
    if x.None? && None in cards then cards else cards + [x]
  }

  /** One iteration of the row loop. */
  function Step(s: Spoiler, r: Row, setTypes: TypeSetter): (o: Outcome<Spoiler>)
    ensures IsBoundary(r) ==> o == Success(Spoiler(AddToSet(s.cards, s.current), None))
    ensures !IsBoundary(r) ==>
      var c := if s.current.Some? then s.current.value else Fresh();
      && (o.Failure? <==> ParseRow(c, r, setTypes).Failure?)
      && (o.Failure? ==> o.error == ParseRow(c, r, setTypes).error)
      && (o.Success? ==> o.value == Spoiler(s.cards, Some(ParseRow(c, r, setTypes).value)))
  {
    if IsBoundary(r) then Success(Spoiler(AddToSet(s.cards, s.current), None))
    else
      var c := if s.current.Some? then s.current.value else Fresh();
      var c' :- ParseRow(c, r, setTypes);
      Success(Spoiler(s.cards, Some(c')))
  }

  /** The row loop from state `s`; the first row that raises ends it. */
  function Fold(rows: seq<Row>, s: Spoiler, setTypes: TypeSetter): Outcome<Spoiler>
    decreases |rows|
  {
    if |rows| == 0 then Success(s)
    else
      var s' :- Step(s, rows[0], setTypes);
      Fold(rows[1..], s', setTypes)
  }

  /** `Cards.crawl`: the rows `fetch` returns for the spoiler URI, folded
      from an empty set with no card in progress. The card still in
      progress after the last boundary is not returned. */
  function Crawl(block: Option<string>, setName: Option<string>, fetch: string -> seq<Row>, setTypes: TypeSetter)
    : (o: Outcome<seq<Option<Card>>>)
    ensures o.Success? <==> Fold(fetch(SpoilerUri(block, setName)), Spoiler([], None), setTypes).Success?
    ensures o.Success? ==> o.value == Fold(fetch(SpoilerUri(block, setName)), Spoiler([], None), setTypes).value.cards
  {
    var s :- Fold(fetch(SpoilerUri(block, setName)), Spoiler([], None), setTypes);
    Success(s.cards)
  }
}

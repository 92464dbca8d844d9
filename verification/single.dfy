/** The detail-page crawler of lib/scapeshift/crawlers/single.rb: the
    query URI, the ambiguity check and the field parsers, over a record
    that stands for the regions of the fetched page. */
module Single {
  import opened Wrappers
  import opened Errors
  import opened Text
  import opened Search
  import opened Tokens
  import opened Seqs
  import opened Numerals
  import opened Card
  import opened Markup

  const DetailsUri := GathererHost + "/Pages/Card/Details.aspx?" + MultiverseKey
  const NameSearchUri := GathererHost + "/Pages/Search/Default.aspx?name="

  /** The key the multiverse id follows in the card image's `src`. */
  const IdKey := MultiverseKey

  /** The crawler options that matter here: `:name` and `:multiverse_id`
      (the latter as its `to_s`). */
  datatype Options = Options(name: Option<string>, multiverseId: Option<string>)

  /** `Single.new`: one of the two options must be given. */
  function CheckOptions(o: Options): (r: Outcome<Options>)
    ensures r.Failure? <==> o.name.None? && o.multiverseId.None?
    ensures r.Failure? ==> r.error == InsufficientOptions
    ensures r.Success? ==> r.value == o
  {
    if o.name.None? && o.multiverseId.None? then Failure(InsufficientOptions)
    else Success(o)
  }

  /** `Card_Name_Frag % word`. */
  function NameFragment(w: string): string {
    "+[" + w + "]"
  }

  /** The fragments of the words, in order, joined without separator. */
  function NameFragments(ws: seq<string>): string
    decreases |ws|
  {
    if |ws| == 0 then "" else NameFragment(ws[0]) + NameFragments(ws[1..])
  }

  /** The URI `crawl` opens: the details page when a multiverse id is
      given, otherwise the name search with one fragment per word. */
  function QueryUri(o: Options): (r: Outcome<string>)
    ensures r.Failure? <==> o.name.None? && o.multiverseId.None?
    ensures r.Failure? ==> r.error == InsufficientOptions
    ensures o.multiverseId.Some? ==> r == Success(DetailsUri + o.multiverseId.value)
    ensures o.multiverseId.None? && o.name.Some? ==>
      r.Success? && NameSearchUri <= r.value
  {
    var o :- CheckOptions(o);
    if o.multiverseId.Some? then Success(DetailsUri + o.multiverseId.value)
    else Success(NameSearchUri + NameFragments(Words(o.name.value)))
  }

  /** Reads name fragments back: `+[w]` repeated, each `w` free of `]`. */
  function ReadFragments(s: string): Option<seq<string>>
    decreases |s|
  {
    if |s| == 0 then Some([])
    else if |s| < 2 || s[..2] != "+[" then None
    else match FindWhere(s, 2, c => c == ']')
      case None => None
      case Some(j) =>
        match ReadFragments(s[j + 1..])
        case None => None
        case Some(rest) => Some([s[2..j]] + rest)
  }

  // ---------------------------------------------------------------------
  // The fetched page

  /** The regions of the detail page the crawler reads. A cell is the text
      of its first child, or None when it has none; an image is None when
      the page lacks it, and its attribute is None when the attribute is
      missing. */
  datatype DetailPage = DetailPage(
    filterList: bool,
    nameCell: Option<string>,
    manaAlts: seq<Option<string>>,
    typeCell: Option<string>,
    textBlocks: seq<Node>,
    flavourBlocks: seq<Node>,
    currentTitle: Option<Option<string>>,
    otherTitles: seq<Option<string>>,
    ptRow: Option<Option<string>>,
    artistCell: Option<string>,
    imageSrc: Option<Option<string>>,
    numberCell: Option<string>)

  /** `children.first.to_s.strip`: nil's `to_s` is the empty String. */
  function FirstText(cell: Option<string>): string {
    Strip(if cell.Some? then cell.value else "")
  }

  /** `_parse_cost`: the decoded symbols of the mana images, in order. */
  function ParseCost(alts: seq<Option<string>>, decode: Decoder): (r: Outcome<string>)
    ensures r.Success? <==> forall a :: a in alts ==> decode(a).Success?
    decreases |alts|
  {
    if |alts| == 0 then Success("")
    else
      var sym :- decode(alts[0]);
      var rest :- ParseCost(alts[1..], decode);
      Success(sym + rest)
  }

  // ---------------------------------------------------------------------
  // Regular expressions anchored to lines

  /** The first line of `lines` on which `f` matches, with its captures. */
  function FirstLineMatch<T>(lines: seq<string>, f: string -> Option<T>): (r: Option<T>)
    ensures r.None? <==> forall i :: 0 <= i < |lines| ==> f(lines[i]).None?
    ensures r.Some? ==>
      exists i :: (0 <= i < |lines| && f(lines[i]) == r && forall j :: 0 <= j < i ==> f(lines[j]).None?)
    decreases |lines|
  {
    if |lines| == 0 then None
    else if f(lines[0]).Some? then f(lines[0])
    else
      var r := FirstLineMatch(lines[1..], f);
      assert forall i :: 1 <= i < |lines| ==> lines[i] == lines[1..][i - 1];
      r
  }

  /** `^(.*?) \((.*?)\)$` on one line: the text before the first " (" and
      the text from there to the closing parenthesis that ends the line. */
  function TitleLine(line: string): (r: Option<(string, string)>)
    ensures r.Some? ==> line == r.value.0 + " (" + r.value.1 + ")"
    ensures r.Some? ==> !Contains(r.value.0, " (")
    ensures r.None? <==> |line| == 0 || line[|line| - 1] != ')' || !Contains(line, " (")
  {
    if |line| == 0 || line[|line| - 1] != ')' then None
    else match IndexOf(line, " (")
      case None => None
      case Some(k) =>
        assert line[k..k + 2] == " (";
        assert line[k + 1] == '(';
        var name := line[..k];
        assert !Contains(name, " (") by {
          if Contains(name, " (") {
            var j := IndexOf(name, " (").value;
            assert line[j..j + 2] == name[j..j + 2];
            assert OccursAt(line, " (", j);
          }
        }
        assert line == name + " (" + line[k + 2..|line| - 1] + ")";
        Some((name, line[k + 2..|line| - 1]))
  }

  /** `^(.*?) \/ (.*?)$` on one line: the text before the first " / " and
      the rest of the line. */
  function PowTghLine(line: string): (r: Option<(string, string)>)
    ensures r.Some? ==> line == r.value.0 + " / " + r.value.1
    ensures r.Some? ==> !Contains(r.value.0, " / ")
    ensures r.None? <==> !Contains(line, " / ")
  {
    match IndexOf(line, " / ")
    case None => None
    case Some(k) =>
      assert !Contains(line[..k], " / ") by {
        if Contains(line[..k], " / ") {
          PrefixOccurrence(line, k, " / ", IndexOf(line[..k], " / ").value);
        }
      }
      assert line[k..k + 3] == " / ";
      assert line == line[..k] + " / " + line[k + 3..];
      Some((line[..k], line[k + 3..]))
  }

  /** `^([0-9]*)$` on one line: the line when it is all digits. */
  function DigitsLine(line: string): (r: Option<string>)
    ensures r.Some? <==> AllDigits(line)
    ensures r.Some? ==> r.value == line
  {
    if AllDigits(line) then Some(line) else None
  }

  // ---------------------------------------------------------------------
  // Printings

  /** One `[$1, $2]` pair. */
  function PrintingOf(m: Option<(string, string)>): Printing {
    match m
    case None => Pair(None, None)
    case Some((s, r)) => Pair(Some(s), Some(r))
  }

  /** The match data after `title =~ regex`: a String title replaces it
      with the match (nil when the match fails); a nil title leaves the
      previous match data in place. */
  function TitleMatch(title: Option<string>, last: Option<(string, string)>): Option<(string, string)> {
    match title
    case None => last
    case Some(t) => FirstLineMatch<(string, string)>(Lines(t), TitleLine)
  }

  /** The pairs pushed for `titles`, in order, before `uniq!`. */
  function Printings(titles: seq<Option<string>>, last: Option<(string, string)>): (r: seq<Printing>)
    ensures |r| == |titles|
    decreases |titles|
  {
    if |titles| == 0 then []
    else
      var m := TitleMatch(titles[0], last);
      [PrintingOf(m)] + Printings(titles[1..], m)
  }

  /** `_parse_sets`: the current printing first, then the others, with
      repeats removed. A set row without an image raises. */
  function ParseSets(current: Option<Option<string>>, others: seq<Option<string>>): (r: Outcome<seq<Printing>>)
    ensures r.Failure? <==> current.None?
    ensures r.Failure? ==> r.error == NoMethodOnNil("[]")
    ensures r.Success? ==> Distinct(r.value)
    ensures r.Success? ==> forall p :: p in r.value <==> p in Printings([current.value] + others, None)
    ensures r.Success? ==> |r.value| > 0 && r.value[0] == PrintingOf(TitleMatch(current.value, None))
    ensures r.Success? ==> InOrderOf(r.value, Printings([current.value] + others, None))
  {
    match current
    case None => Failure(NoMethodOnNil("[]"))
    case Some(t) =>
      var all := Printings([t] + others, None);
      var r := Dedup(all);
      DedupHead(all);
      Success(r)
  }

  /** The first element survives de-duplication, in front. */
  lemma DedupHead<T(!new)>(xs: seq<T>)
    requires |xs| > 0
    ensures |Dedup(xs)| > 0 && Dedup(xs)[0] == xs[0]
  {
    var r := Dedup(xs);
    assert xs[0] in r;
    var j :| 0 <= j < |r| && r[j] == xs[0];
    assert FirstIndex(xs, xs[0]) == 0;
    assert forall i :: 0 < i < |r| ==> FirstIndex(xs, r[0]) < FirstIndex(xs, r[i]);
    assert j == 0;
  }

  // ---------------------------------------------------------------------
  // Power, toughness, loyalty and the multiverse id

  /** `_parse_pow_tgh`: nil when the row is absent, else the two captures
      of the first line holding " / " (both nil when none does). */
  function ParsePowTgh(row: Option<Option<string>>): (r: Option<PowTgh>)
    ensures r.None? <==> row.None?
    ensures r.Some? && r.value.0.Some? ==> r.value.1.Some?
    ensures r.Some? ==>
      var ls := Lines(FirstText(row.value));
      r.value.0.None? <==> forall i :: 0 <= i < |ls| ==> !Contains(ls[i], " / ")
    ensures r.Some? && r.value.0.Some? ==>
      var ls := Lines(FirstText(row.value));
      && !Contains(r.value.0.value, " / ")
      && exists i :: (0 <= i < |ls| && ls[i] == r.value.0.value + " / " + r.value.1.value
           && forall j :: 0 <= j < i ==> !Contains(ls[j], " / "))
  {
    match row
    case None => None
    case Some(cell) =>
      var ls := Lines(FirstText(cell));
      PowTghFirstLine(ls);
      match FirstLineMatch<(string, string)>(ls, PowTghLine)
      case None => Some((None, None))
      case Some((p, t)) => Some((Some(p), Some(t)))
  }

  /** What the first line matching `PowTghLine` is, told without the regex. */
  lemma PowTghFirstLine(ls: seq<string>)
    ensures var r := FirstLineMatch<(string, string)>(ls, PowTghLine);
      && (r.None? <==> forall i :: 0 <= i < |ls| ==> !Contains(ls[i], " / "))
      && (r.Some? ==>
            && !Contains(r.value.0, " / ")
            && exists i :: (0 <= i < |ls| && ls[i] == r.value.0 + " / " + r.value.1
                 && forall j :: 0 <= j < i ==> !Contains(ls[j], " / ")))
  {
    var r := FirstLineMatch<(string, string)>(ls, PowTghLine);
    if r.Some? {
      var i :| 0 <= i < |ls| && PowTghLine(ls[i]) == r
        && forall j :: 0 <= j < i ==> PowTghLine(ls[j]).None?;
      assert ls[i] == r.value.0 + " / " + r.value.1;
    }
  }

  /** `_parse_loyalty`: nil when the row is absent, else the first line of
      the same cell that is all digits (nil when none is). */
  function ParseLoyalty(row: Option<Option<string>>): (r: Option<string>)
    ensures row.None? ==> r.None?
    ensures r.Some? ==> AllDigits(r.value)
    ensures row.Some? ==>
      var ls := Lines(FirstText(row.value));
      && (r.None? <==> forall i :: 0 <= i < |ls| ==> !AllDigits(ls[i]))
      && (r.Some? ==> exists i :: 0 <= i < |ls| && ls[i] == r.value && forall j :: 0 <= j < i ==> !AllDigits(ls[j]))
  {
    match row
    case None => None
    case Some(cell) =>
      var ls := Lines(FirstText(cell));
      DigitsFirstLine(ls);
      FirstLineMatch<string>(ls, DigitsLine)
  }

  /** What the first line matching `DigitsLine` is, told without the regex. */
  lemma DigitsFirstLine(ls: seq<string>)
    ensures var r := FirstLineMatch<string>(ls, DigitsLine);
      && (r.None? <==> forall i :: 0 <= i < |ls| ==> !AllDigits(ls[i]))
      && (r.Some? ==> exists i :: 0 <= i < |ls| && ls[i] == r.value && forall j :: 0 <= j < i ==> !AllDigits(ls[j]))
  {
    var r := FirstLineMatch<string>(ls, DigitsLine);
    if r.Some? {
      var i :| 0 <= i < |ls| && DigitsLine(ls[i]) == r && forall j :: 0 <= j < i ==> DigitsLine(ls[j]).None?;
    }
  }

  predicate EndsId(c: char) {
    c == '&' || c == '\n'
  }

  /** `/multiverseid=(.*?)&/` from index `from` on: at the first key that
      an `&` follows on the same line, the text between them. */
  function IdFrom(s: string, from: nat): (r: Option<string>)
    ensures r.Some? ==> '&' !in r.value && NoNewline(r.value)
    decreases |s| - from
  {
    if from + |IdKey| > |s| then None
    else if OccursAt(s, IdKey, from) then
      match FindWhere(s, from + |IdKey|, EndsId)
      case Some(j) =>
        if s[j] == '&' then
          var v := s[from + |IdKey|..j];
          assert forall i :: 0 <= i < |v| ==> v[i] == s[from + |IdKey| + i];
          Some(v)
        else IdFrom(s, from + 1)
      case None => IdFrom(s, from + 1)
    else IdFrom(s, from + 1)
  }

  /** `_parse_multiverse_id`: a page without the card image raises; an
      image without `src` gives nil. */
  function ParseMultiverseId(src: Option<Option<string>>): (r: Outcome<Option<string>>)
    ensures r.Failure? <==> src.None?
    ensures r.Failure? ==> r.error == NoMethodOnNil("[]")
    ensures src == Some(None) ==> r == Success(None)
  {
    match src
    case None => Failure(NoMethodOnNil("[]"))
    case Some(None) => Success(None)
    case Some(Some(s)) => Success(IdFrom(s, 0))
  }

  // ---------------------------------------------------------------------
  // The crawl

  /** The first three fields `crawl` assigns: name, cost and type line,
      on a fresh card. */
  function ScrapeHead(page: DetailPage, decode: Decoder): (r: Outcome<Card>)
    ensures r.Success? <==>
      ParseCost(page.manaAlts, decode).Success? && ParseTypes(FirstText(page.typeCell)).Success?
    ensures ParseCost(page.manaAlts, decode).Failure? ==>
      r == Failure(ParseCost(page.manaAlts, decode).error)
    ensures r.Success? ==>
      && r.value.name == Some(FirstText(page.nameCell))
      && r.value.cost == Some(ParseCost(page.manaAlts, decode).value)
      && TypeLineOf(r.value) == ParseTypes(FirstText(page.typeCell)).value
      && r.value.sets == [Blank]
    ensures r.Success? ==>
      r.value.(name := None, cost := None, supertypes := [], baseTypes := [], subtypes := []) == Fresh()
  {
    var c0 := Fresh().(name := Some(FirstText(page.nameCell)));
    var cost :- ParseCost(page.manaAlts, decode);
    var c1 := c0.(cost := Some(cost));
    AssignTypes(c1, FirstText(page.typeCell))
  }

  /** The middle fields: rules text, flavour text, printings, power and
      toughness, loyalty and artist. Name, cost and type line are kept. */
  function ScrapeBody(c: Card, page: DetailPage, decode: Decoder): (r: Outcome<Card>)
    ensures r.Success? <==>
      && ParseText(page.textBlocks, decode).Success?
      && ParseText(page.flavourBlocks, decode).Success?
      && page.currentTitle.Some?
    ensures r.Success? ==>
      && r.value.text == Some(ParseText(page.textBlocks, decode).value)
      && r.value.flavourText == Some(ParseText(page.flavourBlocks, decode).value)
      && r.value.sets == ParseSets(page.currentTitle, page.otherTitles).value
      && r.value.loyalty == ParseLoyalty(page.ptRow)
      && r.value.artist == Some(FirstText(page.artistCell))
      && r.value.name == c.name && r.value.cost == c.cost && TypeLineOf(r.value) == TypeLineOf(c)
    ensures r.Success? && ParsePowTgh(page.ptRow).Some? ==>
      (r.value.pow, r.value.tgh) == ParsePowTgh(page.ptRow).value
    ensures r.Success? && ParsePowTgh(page.ptRow).None? ==>
      r.value.pow == c.pow && r.value.tgh == c.tgh
    ensures r.Success? ==>
      r.value.(text := c.text, flavourText := c.flavourText, sets := c.sets, pow := c.pow,
               tgh := c.tgh, loyalty := c.loyalty, artist := c.artist) == c
  {
    var text :- ParseText(page.textBlocks, decode);
    var flavour :- ParseText(page.flavourBlocks, decode);
    var sets :- ParseSets(page.currentTitle, page.otherTitles);
    var c3 := c.(text := Some(text), flavourText := Some(flavour), sets := sets);
    var c4 := AssignPowTgh(c3, ParsePowTgh(page.ptRow));
    Success(c4.(loyalty := ParseLoyalty(page.ptRow), artist := Some(FirstText(page.artistCell))))
  }

  /** The last fields: the multiverse id, the image URI built from it, and
      the collector number. Every other field is kept. */
  function ScrapeTail(c: Card, page: DetailPage): (r: Outcome<Card>)
    ensures r.Success? <==>
      page.imageSrc.Some? && FormatArg(ParseMultiverseId(page.imageSrc).value).Success?
    ensures r.Success? ==>
      && r.value.multiverseId == ParseMultiverseId(page.imageSrc).value
      && r.value.imageUri == Some(ImageUri(FormatArg(r.value.multiverseId).value))
      && r.value.number == Some(FirstText(page.numberCell))
      && r.value.(multiverseId := c.multiverseId, imageUri := c.imageUri, number := c.number) == c
  {
    var id :- ParseMultiverseId(page.imageSrc);
    var c6 := c.(multiverseId := id);
    var c7 :- SetImageIdFrom(c6, id);
    Success(c7.(number := Some(FirstText(page.numberCell))))
  }

  /** The fields of `crawl` after the ambiguity check, assigned in the
      order the source assigns them; the first step that raises decides
      the error. */
  function ScrapePage(page: DetailPage, decode: Decoder): (r: Outcome<Card>)
    ensures ParseCost(page.manaAlts, decode).Failure? ==>
      r == Failure(ParseCost(page.manaAlts, decode).error)
    ensures r.Success? <==>
      && ParseCost(page.manaAlts, decode).Success?
      && ParseTypes(FirstText(page.typeCell)).Success?
      && ParseText(page.textBlocks, decode).Success?
      && ParseText(page.flavourBlocks, decode).Success?
      && page.currentTitle.Some?
      && page.imageSrc.Some?
      && FormatArg(ParseMultiverseId(page.imageSrc).value).Success?
    ensures r.Success? ==>
      && r.value.name == Some(FirstText(page.nameCell))
      && r.value.cost == Some(ParseCost(page.manaAlts, decode).value)
      && TypeLineOf(r.value) == ParseTypes(FirstText(page.typeCell)).value
      && r.value.text == Some(ParseText(page.textBlocks, decode).value)
      && r.value.sets == ParseSets(page.currentTitle, page.otherTitles).value
      && r.value.multiverseId == ParseMultiverseId(page.imageSrc).value
      && r.value.imageUri == Some(ImageUri(FormatArg(r.value.multiverseId).value))
      && r.value.flavourText == Some(ParseText(page.flavourBlocks, decode).value)
      && r.value.loyalty == ParseLoyalty(page.ptRow)
      && r.value.artist == Some(FirstText(page.artistCell))
      && r.value.number == Some(FirstText(page.numberCell))
    ensures r.Success? && ParsePowTgh(page.ptRow).Some? ==>
      (r.value.pow, r.value.tgh) == ParsePowTgh(page.ptRow).value
    ensures r.Success? && ParsePowTgh(page.ptRow).None? ==>
      r.value.pow.None? && r.value.tgh.None?
  {
    var c2 :- ScrapeHead(page, decode);
    var c5 :- ScrapeBody(c2, page, decode);
    ScrapeTail(c5, page)
  }

  /** `Single.new(opts).crawl`, with the page `fetch` returns for a URI.
      Missing options fail before anything is fetched, and a search-result
      page fails before any field is read. */
  function Crawl(o: Options, fetch: string -> DetailPage, decode: Decoder): (r: Outcome<Card>)
    ensures o.name.None? && o.multiverseId.None? ==> r == Failure(InsufficientOptions)
    ensures QueryUri(o).Success? && fetch(QueryUri(o).value).filterList ==>
      r == Failure(CardNameAmbiguousOrNotFound(o.name))
    ensures QueryUri(o).Success? && !fetch(QueryUri(o).value).filterList ==>
      r == ScrapePage(fetch(QueryUri(o).value), decode)
  {
    var uri :- QueryUri(o);
    var page := fetch(uri);
    if page.filterList then Failure(CardNameAmbiguousOrNotFound(o.name))
    else ScrapePage(page, decode)
  }
}

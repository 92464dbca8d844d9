# scapeshift card parsing, in Dafny

scapeshift is a Ruby library that scrapes Magic: The Gathering card data from
the Gatherer web site. This project models the layer between the HTML
documents and the `Scapeshift::Card` record:

- the `Card` record itself, with its type-line parser (`types=`), the
  inverse renderer (`types`), `set`/`rarity`, `pow_tgh=`, `image_uri_from_id=`,
  equality and name ordering;
- the list-page ("text spoiler") crawler of `crawlers/cards.rb`: the search
  fragment, the fold over table rows, the label dispatch and the field
  parsers;
- the detail-page crawler of `crawlers/single.rb`: the query URI and its
  option check, the ambiguity check, the recursive mixed-content text
  walker, the printings parser with de-duplication, power/toughness,
  loyalty, cost and multiverse id.

The DOM is replaced by small datatypes: `Cards.Row` (child count, label
cell, value cell, links), `Markup.Node` (`TextBox | Img | Italic | Text |
Other`) and `Single.DetailPage` (the text of each region the crawler reads).
Ruby nil is `Option.None`; a raised exception is `Outcome.Failure` with an
`Errors.Error` naming it. The network is a `fetch` function parameter, and
`Card.cost_symbol_from_str` is a `Markup.Decoder` parameter. Ruby's string
semantics are written out: `split(' ')` (`Tokens.Words`), `strip`,
`chop`, `downcase`, `String#split(str)` with its dropping of trailing empty
fields (`Search.RubySplit`), `Array#&` and `uniq`, `^`/`$` line anchors
(`Search.Lines`) and lazy `.*?` groups as shortest matches. `Kernel#Integer`,
used when `%d` formats a String id, is modelled for decimal and
leading-zero octal digits (`Numerals.FormatArg`).

Modules follow the program: `Card` and `CardProofs` (card.rb), `Cards`,
`CardsFieldProofs` and `CardsFoldProofs` (crawlers/cards.rb), `Markup`,
`Single`, `SingleProofs`, `SingleValueProofs` and `CrawlProofs`
(crawlers/single.rb). The
support modules are `Wrappers`, `Errors`, `Text`, `Search`, `Tokens`,
`Numerals` and `Seqs`.

## Model

| member | source | states |
|---|---|---|
| Card.Fresh | lib/scapeshift/card.rb:82-86 | a new card has no supertypes, base types or subtypes, renders an empty type line, and its `set` and `rarity` are both nil because `sets` starts as one empty entry |
| Card.CurrentSet | lib/scapeshift/card.rb:196-198 | no contract of its own; CardProofs.CurrentPrinting and CrawlProofs.ScrapedPrinting state it: the set part of the first printing, raising when there is none |
| Card.CurrentRarity | lib/scapeshift/card.rb:183-185 | no contract of its own; CardProofs.CurrentPrinting and CrawlProofs.ScrapedPrinting state it: the rarity part of the first printing, raising when there is none |
| CardProofs.CurrentPrinting | lib/scapeshift/card.rb:183-198 | whatever printings follow, `set` and `rarity` are the two parts of the first one, and with no printing both raise NoMethodError on nil |
| Card.SetImageId | lib/scapeshift/card.rb:105-110 | setting the image id stores the Gatherer image URI built from that id and changes no other field |
| Card.SetImageIdFrom | lib/scapeshift/card.rb:16 | a String or nil id is converted as `%d` converts it; a conversion error is raised, otherwise the image URI holds the converted id and nothing else changes |
| CardProofs.ImageUriExample | lib/scapeshift/card.rb:16 | id 191323 gives `http://gatherer.wizards.com/Handlers/Image.ashx?multiverseid=191323&type=card` |
| Card.AssignPowTgh | lib/scapeshift/card.rb:209-213 | nil changes nothing; otherwise pow is element 0 and tgh element 1, and no other field changes |
| Card.SplitTypes | lib/scapeshift/card.rb:122-140 | with no separator the whole line's words are the head and there are no subtypes; otherwise the head is the words before the first occurrence of the first separator found in precedence order, the subtypes are the words up to the next separator, and a line with nothing after the separator raises NoMethodError on nil |
| Card.SplitAtFirst | lib/scapeshift/card.rb:272-277 | `split(sep)` has a second field exactly when something other than separators follows the first one, and its first two fields are the text before it and the text up to the next one |
| Card.ParseTypes | lib/scapeshift/card.rb:142-143 | supertypes and base types are exactly the head words that belong to the two vocabularies, without duplicates and in the order of their first occurrence in the head; the subtypes are kept as split; it fails exactly when the split fails |
| Card.AssignTypes | lib/scapeshift/card.rb:122-145 | `types=` stores the parsed type line, fails exactly when parsing fails, and changes no other field |
| Card.Render | lib/scapeshift/card.rb:157-172 | no contract of its own; CardProofs.TypesRoundTrip states it as the inverse of `types=` on well-formed type lines |
| CardProofs.TypesRoundTrip | lib/scapeshift/card.rb:157-172 | for a type line whose supertypes and base types are distinct vocabulary words and whose subtypes are words other than the separators, parsing the rendered line gives it back |
| CardProofs.RoundTripNoSubtypes | lib/scapeshift/card.rb:157-172 | a rendered line without subtypes holds no separator, so it splits into its head words and no subtypes |
| CardProofs.RoundTripWithSubtypes | lib/scapeshift/card.rb:157-172 | a rendered line with subtypes splits at the `' - '` the renderer wrote, into the head words and the subtypes |
| CardProofs.SeparatorsOfHyphenLine | lib/scapeshift/card.rb:126-140 | the rendered line holds neither of the higher-precedence separators, and its first `' - '` is the one after the head |
| CardProofs.HeadIntersect | lib/scapeshift/card.rb:142-143 | intersecting the rendered head with either vocabulary recovers exactly the supertypes or base types |
| CardProofs.PaddedWordOccurrence | lib/scapeshift/card.rb:126-140 | a separator-shaped pattern `' w '` occurs in a space-padded join of words only if `w` is one of the words |
| CardProofs.TypeLineExample | lib/scapeshift/card.rb:122-145 | "Legendary Artifact Creature - Human Wizard" parses into [Legendary], [Artifact, Creature], [Human, Wizard] |
| CardProofs.WizardRender | lib/scapeshift/card.rb:157-172 | that type line renders back to the same string |
| CardProofs.SorceryTypeLine | lib/scapeshift/card.rb:157-172 | "Sorcery" parses to a single base type and renders back to itself |
| CardProofs.SupertypesShape | lib/scapeshift/card.rb:20 | every supertype is a non-empty word of letters |
| CardProofs.BaseTypesShape | lib/scapeshift/card.rb:24 | every base type is a word of letters and none is also a supertype |
| Card.SameCard | lib/scapeshift/card.rb:242-254 | no contract of its own; the three SameCard lemmas below state what it compares and that it is an equivalence |
| CardProofs.SameCardEquivalence | lib/scapeshift/card.rb:242-254 | card equality is reflexive, symmetric and transitive |
| CardProofs.SameCardIgnoresOtherFields | lib/scapeshift/card.rb:242-254 | pow, tgh, flavour text, loyalty, artist, multiverse id and number play no part in equality |
| CardProofs.SameCardByRenderedTypes | lib/scapeshift/card.rb:242-254 | types are compared as rendered strings, so cards whose type lists differ but render alike are equal |
| CardProofs.SameCardSortsEqual | lib/scapeshift/card.rb:227-254 | equal cards compare as 0 under `<=>` |
| Card.LexCompare | lib/scapeshift/card.rb:227-229 | String `<=>` answers -1, 0 or 1, and 0 exactly for equal strings |
| CardProofs.LexCompareAntisymmetric | lib/scapeshift/card.rb:227-229 | swapping the operands negates the comparison |
| CardProofs.LexCompareTransitive | lib/scapeshift/card.rb:227-229 | the string order is transitive |
| Card.CompareCards | lib/scapeshift/card.rb:227-229 | no contract of its own; CardProofs.CompareCardsOrder and CardProofs.SameCardSortsEqual state it |
| CardProofs.CompareCardsOrder | lib/scapeshift/card.rb:227-229 | `<=>` on cards is defined unless exactly one name is nil, is antisymmetric and transitive |
| Cards.SearchFragment | lib/scapeshift/crawlers/cards.rb:16-22 | no options give an empty fragment; a block gives a leading `&format=["…"]`, a set a trailing `&set=["…"]` |
| CardsFieldProofs.SearchFragmentRoundTrip | lib/scapeshift/crawlers/cards.rb:9-22 | the block and set can be read back from the fragment when neither holds a double quote |
| Cards.SpoilerUri | lib/scapeshift/crawlers/cards.rb:9-22 | the list-page URI is the text-spoiler search URI followed by exactly the search fragment of the block and set |
| Cards.AttributeOf | lib/scapeshift/crawlers/cards.rb:44-60 | a label selects an attribute exactly when it is that attribute's label |
| CardsFieldProofs.LabelsDispatch | lib/scapeshift/crawlers/cards.rb:44-57 | each of the six labels dispatches to its own attribute |
| Cards.RowLabel | lib/scapeshift/crawlers/cards.rb:63-65 | no contract of its own; CardsFieldProofs.RowLabelOf states it |
| CardsFieldProofs.RowLabelOf | lib/scapeshift/crawlers/cards.rb:63-65 | the label is the first cell's text stripped, its last character (the colon) removed, and lower-cased |
| CardsFieldProofs.SetRarityLabel | lib/scapeshift/crawlers/cards.rb:63-65 | a "Set/Rarity:" cell dispatches to the set/rarity parser |
| CardsFieldProofs.UnknownLabel | lib/scapeshift/crawlers/cards.rb:58-59 | any other label, such as "foobar:", raises UnknownCardAttribute naming it |
| Cards.ParseRow | lib/scapeshift/crawlers/cards.rb:43-61 | each of the six labels assigns its field from its parser and leaves the rest of the card alone; the name row fails when there is no link or its id cannot be formatted; any other label raises UnknownCardAttribute |
| Cards.ParseName | lib/scapeshift/crawlers/cards.rb:67-69 | no contract of its own; CardsFieldProofs.NameRowRoundTrip states that a link's text becomes the name |
| Cards.ParseImageId | lib/scapeshift/crawlers/cards.rb:71-74 | no link raises NoMethodError on nil; a link without href gives nil; otherwise the whole run of digits after the first `multiverseid=` that a digit follows, nil when there is none |
| Cards.DigitIdFrom | lib/scapeshift/crawlers/cards.rb:72 | a matched id is a non-empty run of digits |
| CardsFieldProofs.DigitIdRoundTrip | lib/scapeshift/crawlers/cards.rb:71-74 | an href holding `multiverseid=` followed by a number's digits yields those digits |
| CardsFieldProofs.NameRowRoundTrip | lib/scapeshift/crawlers/cards.rb:45-47 | a name row sets the name to the link text and the image URI to the one built from the link's id |
| Cards.ParseType | lib/scapeshift/crawlers/cards.rb:80-84 | the tokens are the cell's whitespace-separated words, in order, with every `&mdash;` removed |
| Cards.ParseCost | lib/scapeshift/crawlers/cards.rb:76-78 | no contract of its own; CardsFieldProofs.CostCellRoundTrip states it |
| CardsFieldProofs.CostCellRoundTrip | lib/scapeshift/crawlers/cards.rb:76-78 | a cost cell whose last child is a symbol string padded with whitespace gives that string |
| CardsFieldProofs.TypeCellTokens | lib/scapeshift/crawlers/cards.rb:80-84 | a cell of words, `&mdash;` and more words yields the words in order without the dash |
| Cards.ParenSlashAt | lib/scapeshift/crawlers/cards.rb:89 | a match at `(` is `(p/t)` with no slash in `p` and no `)` in `t`, neither crossing a line |
| CardsFieldProofs.ParenSlashAtIff | lib/scapeshift/crawlers/cards.rb:89 | the regex matches at a position exactly when it holds `(` and a `/` and then a `)` follow on the same line |
| Cards.ParenSlashFrom | lib/scapeshift/crawlers/cards.rb:89 | the match returned starts at the leftmost position where one exists |
| Cards.ParsePowTgh | lib/scapeshift/crawlers/cards.rb:86-91 | an empty cell gives nil; otherwise both parts are nil exactly when the regex matches nowhere in the stripped cell, and else they are the captures at the leftmost position where it matches |
| CardsFieldProofs.PowTghCellRoundTrip | lib/scapeshift/crawlers/cards.rb:86-91 | a cell `(p/t)` yields `p` and `t` |
| CardsFieldProofs.PowTghWithoutParens | lib/scapeshift/crawlers/cards.rb:89-90 | a non-empty cell without `(` yields a pair of nils |
| CardsFieldProofs.PowTghExample | lib/scapeshift/crawlers/cards.rb:86-91 | "(6/6)" yields 6 and 6 |
| Cards.RulesText | lib/scapeshift/crawlers/cards.rb:93-105 | no contract of its own; the three lemmas below state it |
| CardsFieldProofs.RulesTextAppend | lib/scapeshift/crawlers/cards.rb:93-105 | the rules text of concatenated children is the concatenation of their rules texts |
| CardsFieldProofs.RulesTextLines | lib/scapeshift/crawlers/cards.rb:93-105 | stripped text children separated by `br` children give the lines joined by newlines, and splitting that at newlines gives the lines back |
| CardsFieldProofs.LineThenBreak | lib/scapeshift/crawlers/cards.rb:96-101 | a `br` contributes a newline after the stripped text before it |
| Cards.ParseEntry | lib/scapeshift/crawlers/cards.rb:110-119 | an entry holding Mythic Rare has that rarity, and inserting " Mythic Rare" back at its first position in the entry turns the set into the entry (the set is the entry itself when only a bare "Mythic Rare" occurs); any other entry has a rarity exactly when it has a word, its words are the set's words followed by the rarity, and the set is already space-joined |
| Cards.ParseEntries | lib/scapeshift/crawlers/cards.rb:107-122 | one pair per entry, in order |
| CardsFieldProofs.EntryRoundTrip | lib/scapeshift/crawlers/cards.rb:117-118 | an entry of set words and a rarity word gives back the set and the rarity |
| CardsFieldProofs.MythicEntry | lib/scapeshift/crawlers/cards.rb:111-113 | "S Mythic Rare" gives set S and rarity Mythic Rare |
| Cards.ParseSetRarity | lib/scapeshift/crawlers/cards.rb:107-122 | no contract of its own; CardsFieldProofs.SetRarityList states it |
| CardsFieldProofs.SetRarityList | lib/scapeshift/crawlers/cards.rb:109 | a cell of comma-separated entries is parsed entry by entry |
| Cards.AddToSet | lib/scapeshift/crawlers/cards.rb:31 | a card is always added to the result; nil is added only when not already there |
| Cards.Step | lib/scapeshift/crawlers/cards.rb:29-38 | a boundary row adds the card in progress and clears it; any other row is parsed into the card in progress, a fresh card when there is none |
| Cards.Crawl | lib/scapeshift/crawlers/cards.rb:13-41 | the crawl succeeds exactly when the fold over the fetched rows does, and returns the cards it collected |
| Cards.Fold | lib/scapeshift/crawlers/cards.rb:29-38 | no contract of its own; the CardsFoldProofs lemmas below state it |
| CardsFoldProofs.FoldAppend | lib/scapeshift/crawlers/cards.rb:29-38 | folding two row lists is folding the first, then the second from where the first ended |
| CardsFoldProofs.FoldCardRows | lib/scapeshift/crawlers/cards.rb:36-37 | rows without a boundary build up one card, starting from a fresh one when none is in progress |
| CardsFoldProofs.CardBlock | lib/scapeshift/crawlers/cards.rb:29-38 | a card's rows followed by a boundary add that one built card to the result |
| CardsFoldProofs.TwoCards | lib/scapeshift/crawlers/cards.rb:13-41 | two card blocks each closed by a boundary give the two built cards, in order |
| CardsFoldProofs.TrailingCardDropped | lib/scapeshift/crawlers/cards.rb:29-40 | rows after the last boundary do not change the result |
| CardsFoldProofs.FoldCount | lib/scapeshift/crawlers/cards.rb:29-40 | the result only grows, by at most one entry per boundary row |
| CardsFoldProofs.FoldCountExact | lib/scapeshift/crawlers/cards.rb:29-40 | when a card is in progress at every boundary, each boundary adds exactly one card and no nil |
| Single.CheckOptions | lib/scapeshift/crawlers/single.rb:57-65 | construction raises InsufficientOptions exactly when both the name and the multiverse id are nil |
| Single.QueryUri | lib/scapeshift/crawlers/single.rb:82-86 | the multiverse id takes precedence and is appended to the details URI; a name gives a name-search URI; neither raises InsufficientOptions |
| SingleProofs.QueryByName | lib/scapeshift/crawlers/single.rb:85 | the name-search URI carries one `+[word]` fragment per word of the name, readable back in order |
| SingleProofs.NameFragmentsRoundTrip | lib/scapeshift/crawlers/single.rb:35 | words without `]` can be read back from their fragments |
| Single.Crawl | lib/scapeshift/crawlers/single.rb:81-136 | no options raise InsufficientOptions; a page with a filter list raises CardNameAmbiguousOrNotFound before any field is read; any other page is scraped |
| Single.ScrapeHead | lib/scapeshift/crawlers/single.rb:97-104 | the name, cost and types come from their regions, a cost symbol that fails to decode fails the scrape, and so does a type line `types=` rejects |
| Single.ScrapeBody | lib/scapeshift/crawlers/single.rb:106-122 | rules and flavour text, printings, loyalty and artist come from their regions; power and toughness come from the pt row when it exists and are kept otherwise; a missing current-set image raises; no other field changes |
| Single.ScrapeTail | lib/scapeshift/crawlers/single.rb:124-131 | the multiverse id comes from the image, the image URI is built from it, the number from its region, and nothing else changes |
| Single.ScrapePage | lib/scapeshift/crawlers/single.rb:97-135 | the scrape succeeds exactly when every field parser does; every one of the fifteen fields holds what its parser returned, and power and toughness are nil when the page has no pt row |
| CrawlProofs.ScrapedPrinting | lib/scapeshift/crawlers/single.rb:112 | after a successful crawl, `set` and `rarity` are the two captures of the current printing's title |
| CrawlProofs.HeadRoundTrip | lib/scapeshift/crawlers/single.rb:97-104 | a page with a rendered type line reads back as a fresh card with that name, cost and type line |
| CrawlProofs.BodyRoundTrip | lib/scapeshift/crawlers/single.rb:106-122 | one plain rules text, no flavour, one printing title and a "p / t" line read back as exactly those values, with no loyalty |
| CrawlProofs.TailRoundTrip | lib/scapeshift/crawlers/single.rb:124-131 | the image URI of an id reads back as that id, the same URI and the number |
| CrawlProofs.ScrapeRoundTrip | lib/scapeshift/crawlers/single.rb:97-135 | a page built from a card's field values is crawled into exactly that card, whose `set` and `rarity` are the printing's |
| Single.ParseCost | lib/scapeshift/crawlers/single.rb:170-175 | the cost is produced exactly when every mana image's alt text decodes |
| SingleProofs.CostAppend | lib/scapeshift/crawlers/single.rb:170-175 | the cost of two image lists is the two costs concatenated, and the first failure wins |
| SingleProofs.CostExample | lib/scapeshift/crawlers/single.rb:170-175 | images 5, White, White, White give "5WWW" |
| Markup.Walk | lib/scapeshift/crawlers/single.rb:374-401 | no contract of its own; the Markup lemmas below state it |
| Markup.Visit | lib/scapeshift/crawlers/single.rb:374-401 | after a node the sibling cursor is `:img` after an image, `:text` after a text node, and unchanged after a text box or italic |
| Markup.WalkAppend | lib/scapeshift/crawlers/single.rb:374-401 | walking two node lists appends the second's output, walked from the cursor the first left, to the first's |
| Markup.WalkSucceedsIff | lib/scapeshift/crawlers/single.rb:384-387 | the walk succeeds exactly when every image alt text in the tree decodes |
| Markup.WalkWithoutImages | lib/scapeshift/crawlers/single.rb:379-399 | without images the walk outputs a newline per text box and each text node stripped, with no spaces added |
| Markup.TextNodeAfterImage | lib/scapeshift/crawlers/single.rb:395-398 | a text node after an image is preceded by one space |
| Markup.ImageThenText | lib/scapeshift/crawlers/single.rb:384-398 | an image gets a leading space, and a text node after it another |
| Markup.ImageInRulesText | lib/scapeshift/crawlers/single.rb:228-233 | a text box holding a symbol and text gives the symbol, a space and the text once stripped |
| Markup.ParseText | lib/scapeshift/crawlers/single.rb:228-233 | no contract of its own; Markup.PlainRulesText and Markup.ImageInRulesText state it |
| Markup.PlainRulesText | lib/scapeshift/crawlers/single.rb:228-233 | a text box holding one trimmed text gives that text |
| Markup.ItalicAfterImage | lib/scapeshift/crawlers/single.rb:390-392 | an italic holding a trimmed text after an image gets a space before that text, and its cursor stays `:img` for the next sibling |
| Markup.ImageGluedAfterItalic | lib/scapeshift/crawlers/single.rb:381-401 | the cursor an italic's children end with is not handed to the next sibling, so an image after an italic gets no space |
| Single.TitleLine | lib/scapeshift/crawlers/single.rb:247 | a line matches exactly when it ends in `)` and holds `' ('`; the set is the text before the first `' ('` and the rarity the rest up to the final `)` |
| Single.TitleMatch | lib/scapeshift/crawlers/single.rb:251-257 | no contract of its own; SingleProofs.TitleRoundTrip and SingleProofs.UntitledImageAddsNothing state it |
| SingleProofs.TitleRoundTrip | lib/scapeshift/crawlers/single.rb:247-252 | "S (R)" with no `' ('` in S and on one line yields S and R |
| Single.Printings | lib/scapeshift/crawlers/single.rb:248-258 | one pair is pushed per title; SingleProofs.MatchedPrintings, SingleProofs.PrintingsSnoc and SingleProofs.LastPrinting state which |
| SingleProofs.MatchedPrintings | lib/scapeshift/crawlers/single.rb:248-258 | when every title matches, the printings pushed are the matches, in order |
| Single.ParseSets | lib/scapeshift/crawlers/single.rb:246-263 | no current-set image raises NoMethodError on nil; otherwise the printings are those of the titles without duplicates, the current set first, in the order of their first occurrence |
| SingleProofs.MatchedParseSets | lib/scapeshift/crawlers/single.rb:246-263 | titles that each match give their pairs, in order, when distinct |
| SingleProofs.PrintingsExample | lib/scapeshift/crawlers/single.rb:246-263 | the Akroma titles give Duel Decks: Divine vs. Demonic / Mythic Rare, Legions / Rare and Time Spiral "Timeshifted" / Special |
| SingleProofs.UntitledImageAddsNothing | lib/scapeshift/crawlers/single.rb:255-260 | an image without a title repeats the previous match, which `uniq!` drops |
| Single.PowTghLine | lib/scapeshift/crawlers/single.rb:282 | a line matches exactly when it holds " / "; the captures rebuild the line around its first " / " |
| Single.ParsePowTgh | lib/scapeshift/crawlers/single.rb:277-284 | an absent row gives nil; otherwise both parts are nil exactly when no line of the cell holds " / ", and else they are the text before and after the first " / " of the first line that holds one |
| SingleValueProofs.PowTghRoundTrip | lib/scapeshift/crawlers/single.rb:277-305 | a cell "p / t" yields p and t, and no loyalty |
| SingleValueProofs.PowTghExample | lib/scapeshift/crawlers/single.rb:277-305 | "6 / 6" yields 6 and 6 and no loyalty |
| Single.ParseLoyalty | lib/scapeshift/crawlers/single.rb:298-305 | an absent row gives nil; otherwise the loyalty is the first line of the cell that is all digits, nil exactly when no line is |
| SingleValueProofs.LoyaltyRoundTrip | lib/scapeshift/crawlers/single.rb:277-305 | a cell of digits is the loyalty, and its power and toughness are nil |
| Single.ParseMultiverseId | lib/scapeshift/crawlers/single.rb:335-339 | no card image raises NoMethodError on nil, and an image without `src` gives nil |
| Single.IdFrom | lib/scapeshift/crawlers/single.rb:337 | a matched id holds no `&` and no newline |
| SingleValueProofs.IdRoundTrip | lib/scapeshift/crawlers/single.rb:337-338 | the id is the text between the first `multiverseid=` and the next `&` |
| SingleValueProofs.ImageSrcRoundTrip | lib/scapeshift/crawlers/single.rb:124-127 | the image URI of id n yields the multiverse id n, and setting the image id from it rebuilds the same URI |

## Left out

- Network and DOM: `open-uri`, `URI.escape` and Nokogiri's CSS and XPath selection are not modelled. Each page is given as the datatype of the regions the crawler reads, and fetching is a function parameter.
- `Card.cost_symbol_from_str` is not defined in any file of this model; it is a `Decoder` parameter that may fail.
- Callback hooks (`has_callback_hook`, `hook`), the Meta and Sets crawlers, the crawler router and the exception class declarations are not modelled; errors are an `Errors.Error` datatype.
- `Card.new(hash)` assigns through `send`; only `Card.new` without parameters (`Card.Fresh`) is modelled, and other cards are built directly.
- Cards.ParseRow: the type row passes an Array to `types=`, which expects a String; the model takes that assignment as a `setTypes` parameter and makes no claim about the composition.
- Cards.Crawl: the result is a sequence, not a Ruby Set. Cards are distinct objects and are always added; nil is added at most once.
- Card.SetImageIdFrom: `Integer()` conversion covers plain decimal and leading-zero octal digits; signs, underscores, surrounding whitespace and `0x`/`0b`/`0o`/`0d` prefixes are treated as errors, although `Kernel#Integer` accepts them.
- `String#downcase` is modelled for ASCII letters only.
- The name, artist and number are plain stripped text of their regions; the card record carries `flavour_text`, `loyalty`, `artist`, `multiverse_id` and `number` fields, although card.rb declares no accessors for them.
- Single.ParseMultiverseId: its contract states the nil and error cases; the extracted id is stated by SingleValueProofs.IdRoundTrip.

/** The recursive rules-text walker of lib/scapeshift/crawlers/single.rb
    (`_recursive_parse_text`), over a small tree that stands for the
    parsed detail-page markup. */
module Markup {
  import opened Wrappers
  import opened Errors
  import opened Text

  /** A node of the rules-text markup. `TextBox` is an element of class
      `cardtextbox`, `Img` a mana image with its `alt` attribute, `Italic`
      an `i` element, `Text` a text node and `Other` anything else. */
  datatype Node =
    | TextBox(children: seq<Node>)
    | Img(alt: Option<string>)
    | Italic(children: seq<Node>)
    | Text(content: string)
    | Other

  /** The walker's `last_element`: nil, `:div`, `:i`, `:img` or `:text`. */
  datatype Cursor = NoneYet | InDiv | InItalic | AfterImg | AfterText

  /** `Card.cost_symbol_from_str`: turns an image's `alt` text into a mana
      symbol, or raises. */
  type Decoder = Option<string> -> Outcome<string>

  /** The cursor a sibling sees after `n`. Only images and text nodes move
      it; a text box or an italic leaves the cursor its own children ended
      with behind. */
  function Step(n: Node, c: Cursor): Cursor {
    match n
    case Img(_) => AfterImg
    case Text(_) => AfterText
    case _ => c
  }

  /** The cursor after the siblings `ns`, starting from `c`. */
  function After(ns: seq<Node>, c: Cursor): Cursor
    decreases |ns|
  {
    if |ns| == 0 then c else After(ns[1..], Step(ns[0], c))
  }

  /** A space goes before an image unless an image came just before it. */
  function ImgGap(c: Cursor): string {
    if c == AfterImg then "" else " "
  }

  /** A space goes before a text node or an italic only right after an
      image. */
  function TextGap(c: Cursor): string {
    if c == AfterImg then " " else ""
  }

  /** What one node appends to the text being built, and the cursor it
      hands to its next sibling. A failing decoder aborts the walk. */
  function Visit(n: Node, c: Cursor, decode: Decoder): (r: Outcome<(string, Cursor)>)
    ensures r.Success? ==> r.value.1 == Step(n, c)
    decreases n, 0
  {
    match n
    case TextBox(ch) =>
      var inner :- Walk(ch, InDiv, decode);
      Success(("\n" + inner, c))
    case Img(alt) =>
      var sym :- decode(alt);
      Success((ImgGap(c) + sym, AfterImg))
    case Italic(ch) =>
      var inner :- Walk(ch, InItalic, decode);
      Success((TextGap(c) + inner, c))
    case Text(s) =>
      Success((TextGap(c) + Strip(s), AfterText))
    case Other =>
      Success(("", c))
  }

  /** `_recursive_parse_text node_ary, 0, c, text`: what it appends to
      `text` when it returns normally. */
  function Walk(ns: seq<Node>, c: Cursor, decode: Decoder): Outcome<string>
    decreases ns, 1
  {
    if |ns| == 0 then Success("")
    else
      var (out, next) :- Visit(ns[0], c, decode);
      var rest :- Walk(ns[1..], next, decode);
      Success(out + rest)
  }

  /** `_parse_text` and `_parse_flavour_text`: the walk over the text boxes
      of a region from no cursor, stripped. */
  function ParseText(blocks: seq<Node>, decode: Decoder): Outcome<string> {
    var out :- Walk(blocks, NoneYet, decode);
    Success(Strip(out))
  }

  // ---------------------------------------------------------------------
  // Reference definitions

  /** The `alt` texts of every image under `ns`, in document order. */
  function Icons(ns: seq<Node>): seq<Option<string>>
    decreases ns, 1
  {
    if |ns| == 0 then [] else NodeIcons(ns[0]) + Icons(ns[1..])
  }

  function NodeIcons(n: Node): seq<Option<string>>
    decreases n, 0
  {
    match n
    case TextBox(ch) => Icons(ch)
    case Italic(ch) => Icons(ch)
    case Img(alt) => [alt]
    case _ => []
  }

  /** Every image under `ns` has an `alt` the decoder accepts. */
  predicate AllIconsDecode(ns: seq<Node>, decode: Decoder) {
    forall a :: a in Icons(ns) ==> decode(a).Success?
  }

  /** The text of image-free markup: one newline per text box, the stripped
      text nodes glued together, nothing for any other node. */
  function Flat(ns: seq<Node>): string
    decreases ns, 1
  {
    if |ns| == 0 then "" else NodeFlat(ns[0]) + Flat(ns[1..])
  }

  function NodeFlat(n: Node): string
    decreases n, 0
  {
    match n
    case TextBox(ch) => "\n" + Flat(ch)
    case Italic(ch) => Flat(ch)
    case Text(s) => Strip(s)
    case _ => ""
  }

  // ---------------------------------------------------------------------
  // Properties

  /** Walking `xs + ys` walks `xs`, then walks `ys` from the cursor `xs`
      left behind, and appends the two outputs. */
  lemma {:induction false} WalkAppend(xs: seq<Node>, ys: seq<Node>, c: Cursor, decode: Decoder)
    ensures Walk(xs + ys, c, decode).Success? <==>
      Walk(xs, c, decode).Success? && Walk(ys, After(xs, c), decode).Success?
    ensures Walk(xs + ys, c, decode).Success? ==>
      Walk(xs + ys, c, decode).value == Walk(xs, c, decode).value + Walk(ys, After(xs, c), decode).value
    decreases |xs|
  {
    if |xs| == 0 {
      assert xs + ys == ys;
    } else {
      assert (xs + ys)[0] == xs[0];
      assert (xs + ys)[1..] == xs[1..] + ys;
      var v := Visit(xs[0], c, decode);
      if v.Success? {
        WalkAppend(xs[1..], ys, v.value.1, decode);
      }
    }
  }

  lemma {:induction false} IconsAppend(xs: seq<Node>, ys: seq<Node>)
    ensures Icons(xs + ys) == Icons(xs) + Icons(ys)
    decreases |xs|
  {
    if |xs| == 0 {
      assert xs + ys == ys;
    } else {
      assert (xs + ys)[0] == xs[0];
      assert (xs + ys)[1..] == xs[1..] + ys;
      IconsAppend(xs[1..], ys);
    }
  }

  /** The walk returns normally exactly when every image it meets decodes;
      the cursor never decides it. */
  lemma {:induction false} WalkSucceedsIff(ns: seq<Node>, c: Cursor, decode: Decoder)
    ensures Walk(ns, c, decode).Success? <==> AllIconsDecode(ns, decode)
    decreases ns, 1
  {
    if |ns| > 0 {
      VisitSucceedsIff(ns[0], c, decode);
      WalkSucceedsIff(ns[1..], Step(ns[0], c), decode);
      assert Icons(ns) == NodeIcons(ns[0]) + Icons(ns[1..]);
    }
  }

  lemma {:induction false} VisitSucceedsIff(n: Node, c: Cursor, decode: Decoder)
    ensures Visit(n, c, decode).Success? <==> forall a :: a in NodeIcons(n) ==> decode(a).Success?
    decreases n, 0
  {
    match n
    case TextBox(ch) => WalkSucceedsIff(ch, InDiv, decode);
    case Italic(ch) => WalkSucceedsIff(ch, InItalic, decode);
    case Img(alt) => assert alt in NodeIcons(n);
    case Text(_) =>
    case Other =>
  }

  /** Markup without images walks to its flat text from any cursor but
      `:img`: the spacing rules only ever fire next to an image. */
  lemma {:induction false} WalkWithoutImages(ns: seq<Node>, c: Cursor, decode: Decoder)
    requires Icons(ns) == [] && c != AfterImg
    ensures Walk(ns, c, decode) == Success(Flat(ns))
    decreases ns, 1
  {
    if |ns| > 0 {
      assert NodeIcons(ns[0]) == [] && Icons(ns[1..]) == [];
      VisitWithoutImages(ns[0], c, decode);
      WalkWithoutImages(ns[1..], Step(ns[0], c), decode);
    }
  }

  lemma {:induction false} VisitWithoutImages(n: Node, c: Cursor, decode: Decoder)
    requires NodeIcons(n) == [] && c != AfterImg
    ensures Visit(n, c, decode) == Success((NodeFlat(n), Step(n, c)))
    ensures Step(n, c) != AfterImg
    decreases n, 0
  {
    match n
    case TextBox(ch) => WalkWithoutImages(ch, InDiv, decode);
    case Italic(ch) =>
      WalkWithoutImages(ch, InItalic, decode);
      assert TextGap(c) + Flat(ch) == Flat(ch);
    case Text(s) =>
      assert TextGap(c) + Strip(s) == Strip(s);
    case Other =>
  }

  /** One step of the walk: the first node's output, then the rest's. */
  lemma WalkCons(ns: seq<Node>, c: Cursor, decode: Decoder)
    requires |ns| > 0 && Visit(ns[0], c, decode).Success?
    requires Walk(ns[1..], Step(ns[0], c), decode).Success?
    ensures Walk(ns, c, decode)
         == Success(Visit(ns[0], c, decode).value.0 + Walk(ns[1..], Step(ns[0], c), decode).value)
  {
  }

  /** A walk over a single node outputs just that node's text. */
  lemma WalkOne(n: Node, c: Cursor, decode: Decoder)
    requires Visit(n, c, decode).Success?
    ensures Walk([n], c, decode) == Success(Visit(n, c, decode).value.0)
  {
    var out := Visit(n, c, decode).value.0;
    assert [n][1..] == [];
    assert out + "" == out;
  }

  lemma TextNodeAfterImage(s: string, decode: Decoder)
    requires |s| > 0 && !IsStripChar(s[0]) && !IsStripChar(s[|s| - 1])
    ensures Walk([Text(" " + s)], AfterImg, decode) == Success(" " + s)
  {
    StripUnchanged(s);
    assert Strip(" " + s) == s;
    assert Visit(Text(" " + s), AfterImg, decode).value.0 == " " + s;
    WalkOne(Text(" " + s), AfterImg, decode);
  }

  /** A string with no strip character at either end. */
  predicate Trimmed(s: string) {
    |s| > 0 && !IsStripChar(s[0]) && !IsStripChar(s[|s| - 1])
  }

  /** An image then a space-led text inside a text box: the symbol with
      its leading space, then the text. */
  lemma ImageThenText(alt: Option<string>, sym: string, s: string, decode: Decoder)
    requires decode(alt) == Success(sym) && Trimmed(s)
    ensures Walk([Img(alt), Text(" " + s)], InDiv, decode) == Success(" " + sym + " " + s)
  {
    var body := [Img(alt), Text(" " + s)];
    TextNodeAfterImage(s, decode);
    assert body[1..] == [Text(" " + s)];
    assert Visit(body[0], InDiv, decode) == Success((" " + sym, AfterImg));
    assert Step(body[0], InDiv) == AfterImg;
    assert Walk(body[1..], AfterImg, decode) == Success(" " + s);
    WalkCons(body, InDiv, decode);
    assert (" " + sym) + (" " + s) == " " + sym + " " + s;
  }

  /** A mana image opening a text box, followed by text: the decoded
      symbol and the text are set off by one space, and the newline and
      space in front are stripped away. */
  lemma ImageInRulesText(alt: Option<string>, sym: string, s: string, decode: Decoder)
    requires decode(alt) == Success(sym) && Trimmed(sym) && Trimmed(s)
    ensures ParseText([TextBox([Img(alt), Text(" " + s)])], decode) == Success(sym + " " + s)
  {
    ImageThenText(alt, sym, s, decode);
    WalkOne(TextBox([Img(alt), Text(" " + s)]), NoneYet, decode);
    assert "\n" + (" " + sym + " " + s) == "\n " + (sym + " " + s) + "";
    StripPadded("\n ", sym + " " + s, "");
  }

  /** The shape of the test card's rules text: a plain text box strips
      to its text. */
  lemma PlainRulesText(s: string, decode: Decoder)
    requires Trimmed(s)
    ensures ParseText([TextBox([Text(s)])], decode) == Success(s)
  {
    StripUnchanged(s);
    var ch := [Text(s)];
    assert ch[1..] == [];
    assert Icons(ch) == [] && Flat(ch) == s;
    var ns := [TextBox(ch)];
    assert ns[1..] == [];
    assert NodeIcons(ns[0]) == [] && NodeFlat(ns[0]) == "\n" + s;
    assert Icons(ns) == [] && Flat(ns) == "\n" + s + "";
    WalkWithoutImages(ns, NoneYet, decode);
    assert "\n" + s == "\n" + s + "";
    StripPadded("\n", s, "");
  }

  /** An italic right after an image is set off by one space and leaves
      the cursor where the image put it. */
  lemma ItalicAfterImage(s: string, decode: Decoder)
    requires Trimmed(s)
    ensures Visit(Italic([Text(s)]), AfterImg, decode) == Success((" " + s, AfterImg))
  {
    StripUnchanged(s);
    assert Visit(Text(s), InItalic, decode).value.0 == s;
    WalkOne(Text(s), InItalic, decode);
  }

  /** An italic does not hand its cursor on: an image right after an
      italic that follows an image gets no space before it, so its symbol
      is glued to the italic's text. */
  lemma ImageGluedAfterItalic(decode: Decoder)
    requires decode(Some("Tap")) == Success("T") && decode(Some("Red")) == Success("R")
    ensures Walk([Img(Some("Tap")), Italic([Text("x")]), Img(Some("Red"))], NoneYet, decode)
         == Success(" T xR")
  {
    var ns := [Img(Some("Tap")), Italic([Text("x")]), Img(Some("Red"))];
    assert Visit(ns[2], AfterImg, decode).value.0 == "R";
    WalkOne(ns[2], AfterImg, decode);
    assert ns[2..] == [ns[2]];
    ItalicAfterImage("x", decode);
    assert " " + "x" == " x";
    WalkCons(ns[1..], AfterImg, decode);
    assert ns[1..][1..] == ns[2..];
    assert " x" + "R" == " xR";
    assert Walk(ns[1..], AfterImg, decode) == Success(" xR");
    assert Visit(ns[0], NoneYet, decode).value.0 == " T";
    WalkCons(ns, NoneYet, decode);
    assert " T" + " xR" == " T xR";
  }
}

/** The elements of a written sheet: that they are properly nested, and what the tags around the rows say of
    the columns, the frozen pane and the filter. */
module SheetFrame {
  import opened Wrappers
  import opened Columns
  import opened Sheets
  import opened Filing

  /** The element a tag is about. */
  function TagName(body: string): string {
    body[..Find(body, ' ')]
  }

  lemma WordName(word: string)
    requires ' ' !in word
    ensures TagName(word) == word
  {
    FindIs(word, ' ', |word|);
    assert word[..|word|] == word;
  }

  lemma ElementName(name: string, list: seq<Attribute>, close: string)
    requires ' ' !in name && list != []
    ensures Element(name, list, close).Tag?
    ensures var body := Element(name, list, close).body;
      TagName(body) == name && name <= body && body[|name|..] == Attributes(list) + close
      && body != "" && (name != "" ==> body[0] == name[0])
      && body[|body| - 1] == if close == "" then '"' else close[|close| - 1]
  {
    hide TagName;
    AttributesStart(list);
    AttributesEnd(list);
    NameBefore(name, Attributes(list), close);
  }

  lemma NameBefore(name: string, text: string, close: string)
    requires ' ' !in name && text != "" && text[0] == ' ' && text[|text| - 1] == '"'
    ensures var body := name + text + close;
      TagName(body) == name && name <= body && body[|name|..] == text + close
      && body != "" && (name != "" ==> body[0] == name[0])
      && body[|body| - 1] == if close == "" then '"' else close[|close| - 1]
  {
    var body := name + text + close;
    assert body[..|name|] == name && body[|name|] == ' ';
    assert body[|name|..] == text + close;
    FindIs(body, ' ', |name|);
  }

  lemma AttributesStart(list: seq<Attribute>)
    requires list != []
    ensures Attributes(list) != "" && Attributes(list)[0] == ' '
  {
    AttributesFirst(list[0], list[1..]);
    assert list == [list[0]] + list[1..];
  }

  lemma AttributesEnd(list: seq<Attribute>)
    requires list != []
    ensures Attributes(list) != "" && Attributes(list)[|Attributes(list)| - 1] == '"'
  {
  }

  // ------------------------------------------------------------------ nesting

  /** The elements open after a tag: one opened, the innermost closed, or as before after an element without
      content; nothing if a closing tag is not the innermost's. */
  function Nest(open: Option<seq<string>>, token: Token): Option<seq<string>> {
    match (open, token)
    case (None, _) => None
    case (Some(stack), Chars(_)) => open
    case (Some(stack), Tag(body)) =>
      if body == "" then None
      else if body[0] == '/' then
        if stack != [] && stack[|stack| - 1] == body[1..] then Some(stack[..|stack| - 1]) else None
      else if body[|body| - 1] == '/' || body[|body| - 1] == '?' then open
      else Some(stack + [TagName(body)])
  }

  function NestAll(open: Option<seq<string>>, tokens: seq<Token>): Option<seq<string>> {
    if tokens == [] then open else Nest(NestAll(open, tokens[..|tokens| - 1]), tokens[|tokens| - 1])
  }

  lemma {:induction false} NestConcat(open: Option<seq<string>>, a: seq<Token>, b: seq<Token>)
    ensures NestAll(open, a + b) == NestAll(NestAll(open, a), b)
  {
    hide Nest;
    if b == [] {
      assert a + b == a;
    } else {
      NestConcat(open, a, b[..|b| - 1]);
      assert (a + b)[..|a + b| - 1] == a + b[..|b| - 1];
    }
  }

  lemma NestOne(open: Option<seq<string>>, token: Token)
    ensures NestAll(open, [token]) == Nest(open, token)
  {
    hide Nest;
    assert [token][..0] == [];
  }

  lemma NestFirst(open: Option<seq<string>>, token: Token, rest: seq<Token>)
    ensures NestAll(open, [token] + rest) == NestAll(Nest(open, token), rest)
  {
    hide Nest;
    NestConcat(open, [token], rest);
    NestOne(open, token);
  }

  /** What opens and closes: a word, an element with attributes, and an empty element. */
  lemma Opens(stack: seq<string>, name: string)
    requires name != "" && ' ' !in name && name[0] != '/' && name[|name| - 1] != '/' && name[|name| - 1] != '?'
    ensures Nest(Some(stack), Tag(name)) == Some(stack + [name])
  {
    WordName(name);
  }

  lemma OpensWith(stack: seq<string>, name: string, list: seq<Attribute>)
    requires name != "" && ' ' !in name && name[0] != '/' && list != []
    ensures Nest(Some(stack), Element(name, list, "")) == Some(stack + [name])
  {
    hide Element, TagName;
    ElementName(name, list, "");
  }

  lemma IsEmpty(stack: seq<string>, name: string, list: seq<Attribute>, close: string)
    requires name != "" && ' ' !in name && name[0] != '/' && list != [] && (close == "/" || close == "?")
    ensures Nest(Some(stack), Element(name, list, close)) == Some(stack)
  {
    hide Element, TagName;
    ElementName(name, list, close);
  }

  lemma Closes(stack: seq<string>, name: string)
    ensures Nest(Some(stack + [name]), Tag("/" + name)) == Some(stack)
  {
    var body := "/" + name;
    assert body[1..] == name && (stack + [name])[..|stack|] == stack;
  }

  lemma CellNests(stack: seq<string>, r: nat, c: nat, style: Style, v: string)
    ensures NestAll(Some(stack), CellTokens(r, c, style, v)) == Some(stack)
  {
    hide Nest, Element, Address, Decimal, Escape;
    var text, back := CharsOf(Escape(v)), [Tag("/t"), Tag("/is"), Tag("/c")];
    var front := [CellTag(r, c, style), Tag("is"), TEXT_TAG];
    var cell := stack + ["c"];
    NestConcat(Some(stack), front + text, back);
    NestConcat(Some(stack), front, text);
    OpensWith(stack, "c", [Attribute("r", Address(c, r)), Attribute("s", Decimal(StyleNumber(style))), Attribute("t", "inlineStr")]);
    Opens(cell, "is");
    OpensWith(cell + ["is"], "t", [Attribute("xml:space", "preserve")]);
    NestThree(Some(stack), CellTag(r, c, style), Tag("is"), TEXT_TAG);
    TextNests(cell + ["is"] + ["t"], Escape(v));
    Closes(cell + ["is"], "t");
    Closes(cell, "is");
    Closes(stack, "c");
    assert "/" + "t" == "/t" && "/" + "is" == "/is" && "/" + "c" == "/c";
    NestThree(Some(cell + ["is"] + ["t"]), Tag("/t"), Tag("/is"), Tag("/c"));
  }

  lemma NestThree(open: Option<seq<string>>, a: Token, b: Token, c: Token)
    ensures NestAll(open, [a, b, c]) == Nest(Nest(Nest(open, a), b), c)
  {
    hide Nest;
    assert [a, b, c] == [a] + ([b] + [c]);
    NestFirst(open, a, [b] + [c]);
    NestFirst(Nest(open, a), b, [c]);
    NestOne(Nest(Nest(open, a), b), c);
  }

  lemma TextNests(stack: seq<string>, text: string)
    ensures NestAll(Some(stack), CharsOf(text)) == Some(stack)
  {
    if text != "" { NestOne(Some(stack), Chars(text)); }
  }

  lemma {:induction false} CellsNest(stack: seq<string>, rows: seq<seq<string>>, styles: Styles, r: nat, n: nat)
    requires Covers(styles, rows) && r < |rows| && n <= |rows[r]|
    ensures NestAll(Some(stack), CellsTokens(rows, styles, r, n)) == Some(stack)
  {
    hide CellTokens, Nest;
    if n > 0 {
      CellsNest(stack, rows, styles, r, n - 1);
      var cell := CellTokens(r, n - 1, StyleAt(styles, r, n - 1), rows[r][n - 1]);
      NestConcat(Some(stack), CellsTokens(rows, styles, r, n - 1), cell);
      CellNests(stack, r, n - 1, StyleAt(styles, r, n - 1), rows[r][n - 1]);
    }
  }

  lemma RowNests(stack: seq<string>, rows: seq<seq<string>>, styles: Styles, r: nat)
    requires Covers(styles, rows) && r < |rows|
    ensures NestAll(Some(stack), RowTokens(rows, styles, r)) == Some(stack)
  {
    hide CellsTokens, Nest, Element, Decimal;
    var cells := CellsTokens(rows, styles, r, |rows[r]|);
    NestConcat(Some(stack), [RowTag(r)] + cells, [Tag("/row")]);
    NestFirst(Some(stack), RowTag(r), cells);
    OpensWith(stack, "row", [Attribute("r", Decimal(r + 1))]);
    CellsNest(stack + ["row"], rows, styles, r, |rows[r]|);
    NestOne(Some(stack + ["row"]), Tag("/row"));
    Closes(stack, "row");
    assert "/" + "row" == "/row";
  }

  lemma {:induction false} RowsNest(stack: seq<string>, rows: seq<seq<string>>, styles: Styles, n: nat)
    requires Covers(styles, rows) && n <= |rows|
    ensures NestAll(Some(stack), RowsTokens(rows, styles, n)) == Some(stack)
  {
    hide RowTokens, Nest;
    if n > 0 {
      RowsNest(stack, rows, styles, n - 1);
      NestConcat(Some(stack), RowsTokens(rows, styles, n - 1), RowTokens(rows, styles, n - 1));
      RowNests(stack, rows, styles, n - 1);
    }
  }

  lemma {:induction false} WidthsNest(stack: seq<string>, widths: seq<string>, n: nat)
    requires n <= |widths|
    ensures NestAll(Some(stack), WidthTokens(widths, n)) == Some(stack)
  {
    hide Nest, Element, Decimal;
    if n > 0 {
      WidthsNest(stack, widths, n - 1);
      NestConcat(Some(stack), WidthTokens(widths, n - 1), [WidthTag(n - 1, widths[n - 1])]);
      NestOne(Some(stack), WidthTag(n - 1, widths[n - 1]));
      IsEmpty(stack, "col",
              [Attribute("min", Decimal(n)), Attribute("max", Decimal(n)), Attribute("width", widths[n - 1]), Attribute("customWidth", "1")], "/");
    }
  }

  lemma HeadNests(widths: seq<string>, freeze: bool)
    ensures NestAll(Some([]), HeadTokens(widths, freeze)) == Some(["worksheet", "sheetData"])
  {
    hide Nest, HEAD, PANE, BEFORE_COLS, BEFORE_ROWS, WidthTokens;
    var pane := if freeze then PANE else [];
    var view := ["worksheet", "sheetViews", "sheetView"];
    NestConcat(Some([]), HEAD + pane + BEFORE_COLS + WidthTokens(widths, |widths|), BEFORE_ROWS);
    NestConcat(Some([]), HEAD + pane + BEFORE_COLS, WidthTokens(widths, |widths|));
    NestConcat(Some([]), HEAD + pane, BEFORE_COLS);
    NestConcat(Some([]), HEAD, pane);
    ViewOpens();
    if freeze { PaneNests(view); }
    ColsOpen();
    WidthsNest(["worksheet", "cols"], widths, |widths|);
    DataOpens();
  }

  lemma ViewOpens()
    ensures NestAll(Some([]), HEAD) == Some(["worksheet", "sheetViews", "sheetView"])
  {
    hide Nest, Element, NAMESPACE;
    var none: seq<string> := [];
    IsEmpty(none, "?xml", [Attribute("version", "1.0"), Attribute("encoding", "UTF-8"), Attribute("standalone", "yes")], "?");
    OpensWith(none, "worksheet", [Attribute("xmlns", NAMESPACE)]);
    Opens(["worksheet"], "sheetViews");
    OpensWith(["worksheet", "sheetViews"], "sheetView", [Attribute("workbookViewId", "0"), Attribute("showGridLines", "0")]);
    assert Nest(Some(none), XML_TAG) == Some(none) && Nest(Some(none), WORKSHEET_TAG) == Some(none + ["worksheet"]);
    assert none + ["worksheet"] == ["worksheet"];
    hide XML_TAG, WORKSHEET_TAG, VIEW_TAG;
    assert HEAD == [XML_TAG] + [WORKSHEET_TAG, Tag("sheetViews"), VIEW_TAG];
    NestFirst(Some(none), XML_TAG, [WORKSHEET_TAG, Tag("sheetViews"), VIEW_TAG]);
    NestThree(Some(none), WORKSHEET_TAG, Tag("sheetViews"), VIEW_TAG);
    assert ["worksheet"] + ["sheetViews"] == ["worksheet", "sheetViews"];
    assert ["worksheet", "sheetViews"] + ["sheetView"] == ["worksheet", "sheetViews", "sheetView"];
  }

  lemma PaneNests(stack: seq<string>)
    ensures NestAll(Some(stack), PANE) == Some(stack)
  {
    hide Nest, Element;
    IsEmpty(stack, "pane", [
      Attribute("ySplit", "1"), Attribute("topLeftCell", "A2"), Attribute("activePane", "bottomLeft"), Attribute("state", "frozen")], "/");
    hide PANE_TAG;
    NestOne(Some(stack), PANE_TAG);
  }

  lemma ColsOpen()
    ensures NestAll(Some(["worksheet", "sheetViews", "sheetView"]), BEFORE_COLS) == Some(["worksheet", "cols"])
  {
    hide Nest, Element;
    var outer := ["worksheet"];
    Closes(outer + ["sheetViews"], "sheetView");
    Closes(outer, "sheetViews");
    assert "/" + "sheetView" == "/sheetView" && "/" + "sheetViews" == "/sheetViews";
    IsEmpty(outer, "sheetFormatPr", [Attribute("defaultRowHeight", "15")], "/");
    Opens(outer, "cols");
    hide FORMAT_TAG;
    assert BEFORE_COLS == [Tag("/sheetView")] + [Tag("/sheetViews"), FORMAT_TAG, Tag("cols")];
    assert outer + ["sheetViews"] + ["sheetView"] == ["worksheet", "sheetViews", "sheetView"];
    assert outer + ["cols"] == ["worksheet", "cols"];
    NestFirst(Some(outer + ["sheetViews"] + ["sheetView"]), Tag("/sheetView"), [Tag("/sheetViews"), FORMAT_TAG, Tag("cols")]);
    NestThree(Some(outer + ["sheetViews"]), Tag("/sheetViews"), FORMAT_TAG, Tag("cols"));
  }

  lemma DataOpens()
    ensures NestAll(Some(["worksheet", "cols"]), BEFORE_ROWS) == Some(["worksheet", "sheetData"])
  {
    hide Nest;
    var outer := ["worksheet"];
    Closes(outer, "cols");
    Opens(outer, "sheetData");
    assert "/" + "cols" == "/cols";
    assert outer + ["cols"] == ["worksheet", "cols"] && outer + ["sheetData"] == ["worksheet", "sheetData"];
    assert BEFORE_ROWS == [Tag("/cols")] + [Tag("sheetData")];
    NestFirst(Some(outer + ["cols"]), Tag("/cols"), [Tag("sheetData")]);
    NestOne(Some(outer), Tag("sheetData"));
  }

  lemma FootNests(rows: seq<seq<string>>, filt: bool)
    ensures NestAll(Some(["worksheet", "sheetData"]), FootTokens(rows, filt)) == Some([])
  {
    hide Nest, FilterTokens, TAIL;
    var outer := ["worksheet"];
    NestConcat(Some(["worksheet", "sheetData"]), [Tag("/sheetData")] + FilterTokens(rows, filt), TAIL);
    NestFirst(Some(["worksheet", "sheetData"]), Tag("/sheetData"), FilterTokens(rows, filt));
    Closes(outer, "sheetData");
    assert "/" + "sheetData" == "/sheetData" && outer + ["sheetData"] == ["worksheet", "sheetData"];
    FilterNests(outer, rows, filt);
    TailCloses();
  }

  lemma FilterNests(stack: seq<string>, rows: seq<seq<string>>, filt: bool)
    ensures NestAll(Some(stack), FilterTokens(rows, filt)) == Some(stack)
  {
    hide Nest, Element, Name, Decimal;
    if filt && |rows| > 1 {
      var list := [Attribute("ref", "A1:" + Name(|rows[0]|) + Decimal(|rows|))];
      IsEmpty(stack, "autoFilter", list, "/");
      NestOne(Some(stack), Element("autoFilter", list, "/"));
    }
  }

  lemma TailCloses()
    ensures NestAll(Some(["worksheet"]), TAIL) == Some([])
  {
    hide Nest, Element;
    IsEmpty(["worksheet"], "pageMargins", [
      Attribute("left", "0.5"), Attribute("right", "0.5"), Attribute("top", "0.75"), Attribute("bottom", "0.75"),
      Attribute("header", "0.3"), Attribute("footer", "0.3")], "/");
    IsEmpty(["worksheet"], "pageSetup", [Attribute("orientation", "landscape"), Attribute("fitToHeight", "0")], "/");
    Closes([], "worksheet");
    assert "/" + "worksheet" == "/worksheet" && [] + ["worksheet"] == ["worksheet"];
    hide MARGINS_TAG, SETUP_TAG;
    NestThree(Some(["worksheet"]), MARGINS_TAG, SETUP_TAG, Tag("/worksheet"));
  }

  /** Whatever the cells hold, a written sheet is one properly nested element: every tag that is opened is
      closed, innermost first. */
  lemma SheetNests(rows: seq<seq<string>>, widths: seq<string>, freeze: bool, filt: bool, styles: Styles)
    requires Covers(styles, rows) && forall i :: 0 <= i < |widths| ==> Numeral(widths[i])
    ensures NestAll(Some([]), Scan(RenderAll(SheetTokens(rows, widths, freeze, filt, styles)))) == Some([])
    ensures NestAll(Some([]), HeadTokens(widths, freeze)) == Some(["worksheet", "sheetData"])
  {
    hide Nest, NestAll, HeadTokens, RowsTokens, FootTokens, RenderAll, Scan, Block;
    var head, body, foot := HeadTokens(widths, freeze), RowsTokens(rows, styles, |rows|), FootTokens(rows, filt);
    SheetIsBlock(rows, widths, freeze, filt, styles);
    BlockIsPlain(head + body + foot);
    ScanRendered(head + body + foot);
    NestConcat(Some([]), head + body, foot);
    NestConcat(Some([]), head, body);
    HeadNests(widths, freeze);
    RowsNest(["worksheet", "sheetData"], rows, styles, |rows|);
    FootNests(rows, filt);
  }

  lemma BlockIsPlain(tokens: seq<Token>)
    requires Block(tokens)
    ensures Plain(tokens)
  {
  }

  // ------------------------------------------------------------------ columns, pane and filter

  /** The attributes of every element with a name, in order. */
  function Named(tokens: seq<Token>, name: string): seq<seq<Attribute>> {
    if tokens == [] then [] else NamedOne(tokens[0], name) + Named(tokens[1..], name)
  }

  function NamedOne(token: Token, name: string): seq<seq<Attribute>> {
    if token.Tag? && name <= token.body && TagName(token.body) == name then [ReadAttributes(token.body[|name|..])] else []
  }

  lemma {:induction false} NamedConcat(a: seq<Token>, b: seq<Token>, name: string)
    ensures Named(a + b, name) == Named(a, name) + Named(b, name)
  {
    hide NamedOne;
    if a == [] {
      assert a + b == b;
    } else {
      assert (a + b)[1..] == a[1..] + b;
      NamedConcat(a[1..], b, name);
      assert NamedOne(a[0], name) + (Named(a[1..], name) + Named(b, name)) ==
             (NamedOne(a[0], name) + Named(a[1..], name)) + Named(b, name);
    }
  }

  lemma ElementNamed(name: string, list: seq<Attribute>, close: string, wanted: string)
    requires ' ' !in name && list != [] && Filing.Readable(list) && (close == "" || close[0] != ' ')
    ensures NamedOne(Element(name, list, close), wanted) == if name == wanted then [list] else []
  {
    hide Element, TagName, ReadAttributes;
    ElementName(name, list, close);
    AttributesReadBack(list, close);
  }

  lemma WordNamed(word: string, wanted: string)
    requires ' ' !in word && word != wanted
    ensures NamedOne(Tag(word), wanted) == []
  {
    WordName(word);
  }

  /** The three names asked for. */
  predicate Asked(name: string) {
    name == "col" || name == "pane" || name == "autoFilter"
  }

  /** No token is an element of those names. */
  ghost predicate Unasked(tokens: seq<Token>) {
    forall i, name :: 0 <= i < |tokens| && Asked(name) ==> NamedOne(tokens[i], name) == []
  }

  lemma {:induction false} UnaskedNamed(tokens: seq<Token>, name: string)
    requires Unasked(tokens) && Asked(name)
    ensures Named(tokens, name) == []
  {
    hide NamedOne, Asked;
    if tokens != [] {
      assert forall i :: 0 <= i < |tokens[1..]| ==> tokens[1..][i] == tokens[i + 1];
      UnaskedNamed(tokens[1..], name);
      assert NamedOne(tokens[0], name) == [];
    }
  }

  lemma UnaskedTogether(a: seq<Token>, b: seq<Token>)
    requires Unasked(a) && Unasked(b)
    ensures Unasked(a + b)
  {
    hide NamedOne, Asked;
    forall i, name | 0 <= i < |a + b| && Asked(name)
      ensures NamedOne((a + b)[i], name) == []
    {
      if i < |a| { assert (a + b)[i] == a[i]; } else { assert (a + b)[i] == b[i - |a|]; }
    }
  }

  lemma UnaskedElement(name: string, list: seq<Attribute>, close: string)
    requires ' ' !in name && !Asked(name) && list != [] && Filing.Readable(list) && (close == "" || close[0] != ' ')
    ensures Unasked([Element(name, list, close)])
  {
    hide Element, NamedOne;
    forall wanted | Asked(wanted)
      ensures NamedOne(Element(name, list, close), wanted) == []
    {
      ElementNamed(name, list, close, wanted);
    }
  }

  lemma UnaskedWord(word: string)
    requires ' ' !in word && !Asked(word)
    ensures Unasked([Tag(word)])
  {
    hide NamedOne;
    forall wanted | Asked(wanted)
      ensures NamedOne(Tag(word), wanted) == []
    {
      WordNamed(word, wanted);
    }
  }

  lemma UnaskedText(text: string)
    ensures Unasked(CharsOf(text))
  {
  }

  lemma CellTagUnasked(r: nat, c: nat, style: Style)
    ensures Unasked([CellTag(r, c, style)]) && Unasked([TEXT_TAG])
  {
    hide Unasked, Element, Address, Decimal;
    AddressPlain(c, r);
    NoQuotes(StyleNumber(style));
    UnaskedElement("c", [Attribute("r", Address(c, r)), Attribute("s", Decimal(StyleNumber(style))), Attribute("t", "inlineStr")], "");
    UnaskedElement("t", [Attribute("xml:space", "preserve")], "");
  }

  lemma CellUnasked(r: nat, c: nat, style: Style, v: string)
    ensures Unasked(CellTokens(r, c, style, v))
  {
    hide Unasked, CellTag, TEXT_TAG, CharsOf;
    CellTagUnasked(r, c, style);
    UnaskedWord("is");
    UnaskedText(Escape(v));
    UnaskedWord("/t");
    UnaskedWord("/is");
    UnaskedWord("/c");
    UnaskedFour(CellTag(r, c, style), Tag("is"), TEXT_TAG, TEXT_TAG);
    UnaskedFour(Tag("/t"), Tag("/is"), Tag("/c"), Tag("/c"));
    var front, back := [CellTag(r, c, style), Tag("is"), TEXT_TAG], [Tag("/t"), Tag("/is"), Tag("/c")];
    assert CellTokens(r, c, style, v) == front + CharsOf(Escape(v)) + back;
    UnaskedTogether(front, CharsOf(Escape(v)));
    UnaskedTogether(front + CharsOf(Escape(v)), back);
  }

  lemma {:induction false} CellsUnasked(rows: seq<seq<string>>, styles: Styles, r: nat, n: nat)
    requires Covers(styles, rows) && r < |rows| && n <= |rows[r]|
    ensures Unasked(CellsTokens(rows, styles, r, n))
  {
    hide CellTokens, Unasked;
    if n > 0 {
      CellsUnasked(rows, styles, r, n - 1);
      CellUnasked(r, n - 1, StyleAt(styles, r, n - 1), rows[r][n - 1]);
      UnaskedTogether(CellsTokens(rows, styles, r, n - 1), CellTokens(r, n - 1, StyleAt(styles, r, n - 1), rows[r][n - 1]));
    } else {
      UnaskedNothing();
    }
  }

  lemma UnaskedNothing()
    ensures Unasked([])
  {
  }

  lemma {:induction false} RowsUnasked(rows: seq<seq<string>>, styles: Styles, n: nat)
    requires Covers(styles, rows) && n <= |rows|
    ensures Unasked(RowsTokens(rows, styles, n))
  {
    hide CellsTokens, Unasked, Element, Decimal;
    if n > 0 {
      var r := n - 1;
      RowsUnasked(rows, styles, r);
      NoQuotes(r + 1);
      UnaskedElement("row", [Attribute("r", Decimal(r + 1))], "");
      CellsUnasked(rows, styles, r, |rows[r]|);
      UnaskedWord("/row");
      UnaskedTogether([RowTag(r)], CellsTokens(rows, styles, r, |rows[r]|));
      UnaskedTogether([RowTag(r)] + CellsTokens(rows, styles, r, |rows[r]|), [Tag("/row")]);
      UnaskedTogether(RowsTokens(rows, styles, r), RowTokens(rows, styles, r));
    } else {
      UnaskedNothing();
    }
  }

  lemma ReadableTogether(a: seq<Attribute>, b: seq<Attribute>)
    requires Filing.Readable(a) && Filing.Readable(b)
    ensures Filing.Readable(a + b)
  {
  }

  lemma XmlReadable()
    ensures Filing.Readable([Attribute("version", "1.0"), Attribute("encoding", "UTF-8"), Attribute("standalone", "yes")])
  {
    assert Filing.Readable([Attribute("version", "1.0"), Attribute("encoding", "UTF-8")]);
    assert Filing.Readable([Attribute("standalone", "yes")]);
    hide Filing.Readable;
    ReadableTogether([Attribute("version", "1.0"), Attribute("encoding", "UTF-8")], [Attribute("standalone", "yes")]);
    assert [Attribute("version", "1.0"), Attribute("encoding", "UTF-8")] + [Attribute("standalone", "yes")] ==
           [Attribute("version", "1.0"), Attribute("encoding", "UTF-8"), Attribute("standalone", "yes")];
  }

  lemma XmlUnasked()
    ensures Unasked([XML_TAG])
  {
    hide Unasked, Element, Filing.Readable;
    XmlReadable();
    UnaskedElement("?xml", [Attribute("version", "1.0"), Attribute("encoding", "UTF-8"), Attribute("standalone", "yes")], "?");
  }

  lemma WorksheetUnasked()
    ensures Unasked([WORKSHEET_TAG])
  {
    hide Unasked, Element, NAMESPACE;
    NamespaceReadable();
    UnaskedElement("worksheet", [Attribute("xmlns", NAMESPACE)], "");
  }

  lemma ViewUnasked()
    ensures Unasked([VIEW_TAG])
  {
    hide Unasked, Element;
    UnaskedElement("sheetView", [Attribute("workbookViewId", "0"), Attribute("showGridLines", "0")], "");
  }

  lemma HeadUnasked()
    ensures Unasked(HEAD)
  {
    hide Unasked, XML_TAG, WORKSHEET_TAG, VIEW_TAG;
    XmlUnasked();
    WorksheetUnasked();
    UnaskedWord("sheetViews");
    ViewUnasked();
    UnaskedFour(XML_TAG, WORKSHEET_TAG, Tag("sheetViews"), VIEW_TAG);
  }

  lemma UnaskedFour(a: Token, b: Token, c: Token, d: Token)
    requires Unasked([a]) && Unasked([b]) && Unasked([c]) && Unasked([d])
    ensures Unasked([a, b, c, d]) && Unasked([a, b, c])
  {
    hide Unasked;
    UnaskedTogether([a], [b]);
    UnaskedTogether([a] + [b], [c]);
    UnaskedTogether([a] + [b] + [c], [d]);
    assert [a, b, c] == [a] + [b] + [c] && [a, b, c, d] == [a] + [b] + [c] + [d];
  }

  lemma NamespaceReadable()
    ensures '"' !in NAMESPACE
  {
    hide PUBLISHER;
    PublisherReadable();
  }

  lemma PublisherReadable()
    ensures '"' !in PUBLISHER
  {
  }

  lemma FormatUnasked()
    ensures Unasked([FORMAT_TAG])
  {
    hide Unasked, Element;
    UnaskedElement("sheetFormatPr", [Attribute("defaultRowHeight", "15")], "/");
  }

  lemma BeforeColsUnasked()
    ensures Unasked(BEFORE_COLS)
  {
    hide Unasked, FORMAT_TAG;
    UnaskedWord("/sheetView");
    UnaskedWord("/sheetViews");
    FormatUnasked();
    UnaskedWord("cols");
    UnaskedFour(Tag("/sheetView"), Tag("/sheetViews"), FORMAT_TAG, Tag("cols"));
  }

  lemma BeforeRowsUnasked()
    ensures Unasked(BEFORE_ROWS) && Unasked([Tag("/sheetData")])
  {
    hide Unasked;
    UnaskedWord("/cols");
    UnaskedWord("sheetData");
    UnaskedWord("/sheetData");
    assert BEFORE_ROWS == [Tag("/cols")] + [Tag("sheetData")];
    UnaskedTogether([Tag("/cols")], [Tag("sheetData")]);
  }

  lemma MarginsUnasked()
    ensures Unasked([MARGINS_TAG])
  {
    hide Unasked, Element;
    UnaskedElement("pageMargins", [
      Attribute("left", "0.5"), Attribute("right", "0.5"), Attribute("top", "0.75"), Attribute("bottom", "0.75"),
      Attribute("header", "0.3"), Attribute("footer", "0.3")], "/");
  }

  lemma SetupUnasked()
    ensures Unasked([SETUP_TAG])
  {
    hide Unasked, Element;
    UnaskedElement("pageSetup", [Attribute("orientation", "landscape"), Attribute("fitToHeight", "0")], "/");
  }

  lemma TailUnasked()
    ensures Unasked(TAIL)
  {
    hide Unasked, MARGINS_TAG, SETUP_TAG;
    MarginsUnasked();
    SetupUnasked();
    UnaskedWord("/worksheet");
    UnaskedFour(MARGINS_TAG, SETUP_TAG, Tag("/worksheet"), Tag("/worksheet"));
  }

  function WidthAttributes(i: nat, width: string): seq<Attribute> {
    [Attribute("min", Decimal(i + 1)), Attribute("max", Decimal(i + 1)), Attribute("width", width), Attribute("customWidth", "1")]
  }

  lemma WidthNamed(i: nat, width: string, name: string)
    requires Numeral(width)
    ensures Named([WidthTag(i, width)], name) == if name == "col" then [WidthAttributes(i, width)] else []
  {
    hide Element, Decimal, Numeral, NamedOne;
    var list := WidthAttributes(i, width);
    NoQuotes(i + 1);
    NumeralReadable(width);
    ElementNamed("col", list, "/", name);
    NamedSingle(WidthTag(i, width), name);
  }

  lemma NamedSingle(token: Token, name: string)
    ensures Named([token], name) == NamedOne(token, name)
  {
    hide NamedOne;
    assert [token][1..] == [];
  }

  lemma {:induction false} WidthsNamed(widths: seq<string>, n: nat)
    requires n <= |widths| && forall i :: 0 <= i < |widths| ==> Numeral(widths[i])
    ensures |Named(WidthTokens(widths, n), "col")| == n
    ensures forall i :: 0 <= i < n ==> Named(WidthTokens(widths, n), "col")[i] == WidthAttributes(i, widths[i])
  {
    hide WidthTag, Numeral, WidthAttributes, NamedOne;
    if n > 0 {
      WidthsNamed(widths, n - 1);
      WidthNamed(n - 1, widths[n - 1], "col");
      NamedConcat(WidthTokens(widths, n - 1), [WidthTag(n - 1, widths[n - 1])], "col");
    }
  }

  lemma {:induction false} WidthsUnnamed(widths: seq<string>, n: nat, name: string)
    requires n <= |widths| && name != "col" && forall i :: 0 <= i < |widths| ==> Numeral(widths[i])
    ensures Named(WidthTokens(widths, n), name) == []
  {
    hide WidthTag, Numeral, WidthAttributes, NamedOne;
    if n > 0 {
      WidthsUnnamed(widths, n - 1, name);
      WidthNamed(n - 1, widths[n - 1], name);
      NamedConcat(WidthTokens(widths, n - 1), [WidthTag(n - 1, widths[n - 1])], name);
    }
  }

  lemma NumeralReadable(s: string)
    requires Numeral(s)
    ensures '"' !in s
  {
    assert '"' !in "0123456789.+-e";
  }

  lemma OneReadable(name: string, value: string)
    requires '=' !in name && '"' !in value
    ensures Filing.Readable([Attribute(name, value)])
  {
  }

  lemma PaneReadable()
    ensures Filing.Readable(PANE_ATTRIBUTES)
  {
    hide Filing.Readable;
    OneReadable("ySplit", "1");
    OneReadable("topLeftCell", "A2");
    OneReadable("activePane", "bottomLeft");
    OneReadable("state", "frozen");
    var one, two := [Attribute("ySplit", "1")] + [Attribute("topLeftCell", "A2")], [Attribute("activePane", "bottomLeft")] + [Attribute("state", "frozen")];
    ReadableTogether([Attribute("ySplit", "1")], [Attribute("topLeftCell", "A2")]);
    ReadableTogether([Attribute("activePane", "bottomLeft")], [Attribute("state", "frozen")]);
    ReadableTogether(one, two);
    assert one + two == PANE_ATTRIBUTES;
  }

  lemma PaneNamed(name: string)
    requires Asked(name)
    ensures Named(PANE, name) == if name == "pane" then [PANE_ATTRIBUTES] else []
  {
    hide Element, NamedOne, Filing.Readable;
    PaneReadable();
    ElementNamed("pane", PANE_ATTRIBUTES, "/", name);
    assert NamedOne(PANE_TAG, name) == if name == "pane" then [PANE_ATTRIBUTES] else [];
    hide PANE_TAG;
    NamedSingle(PANE_TAG, name);
  }

  /** The first row stays in view, and the rest scrolls under it. */
  const PANE_ATTRIBUTES := [
    Attribute("ySplit", "1"), Attribute("topLeftCell", "A2"), Attribute("activePane", "bottomLeft"), Attribute("state", "frozen")]

  function Range(rows: seq<seq<string>>): string
    requires rows != []
  {
    "A1:" + Name(|rows[0]|) + Decimal(|rows|)
  }

  lemma FilterNamed(rows: seq<seq<string>>, filt: bool, name: string)
    requires Asked(name)
    ensures Named(FilterTokens(rows, filt), name) ==
            if name == "autoFilter" && filt && |rows| > 1 then [[Attribute("ref", Range(rows))]] else []
  {
    hide Element, NamedOne, Name, Decimal;
    if filt && |rows| > 1 {
      NoQuotes(|rows|);
      NameDecodes(|rows[0]|);
      ElementNamed("autoFilter", [Attribute("ref", Range(rows))], "/", name);
      assert FilterTokens(rows, filt)[1..] == [];
    }
  }

  lemma RangeEnds(rows: seq<seq<string>>)
    requires rows != [] && rows[0] != []
    ensures |Range(rows)| >= 3 && Range(rows)[..3] == "A1:" && Filing.Place(Range(rows)[3..]) == Some((|rows| - 1, |rows[0]| - 1))
  {
    hide Name, Decimal, Filing.Place;
    assert Range(rows)[3..] == Address(|rows[0]| - 1, |rows| - 1);
    PlaceOf(|rows[0]| - 1, |rows| - 1);
  }

  lemma NothingNamed(name: string)
    ensures Named([], name) == []
  {
  }

  lemma TopNamed(freeze: bool, name: string)
    requires Asked(name)
    ensures Named(HEAD + (if freeze then PANE else []) + BEFORE_COLS, name) == if freeze && name == "pane" then [PANE_ATTRIBUTES] else []
  {
    hide HEAD, PANE, BEFORE_COLS, Unasked, PANE_ATTRIBUTES, Asked, Named, NamedOne;
    NothingNamed(name);
    var pane := if freeze then PANE else [];
    HeadUnasked();
    BeforeColsUnasked();
    UnaskedNamed(HEAD, name);
    UnaskedNamed(BEFORE_COLS, name);
    PaneNamed(name);
    NamedConcat(HEAD, pane, name);
    NamedConcat(HEAD + pane, BEFORE_COLS, name);
  }

  lemma HeadNamed(widths: seq<string>, freeze: bool, name: string)
    requires Asked(name)
    ensures Named(HeadTokens(widths, freeze), name) ==
            (if freeze && name == "pane" then [PANE_ATTRIBUTES] else []) + Named(WidthTokens(widths, |widths|), name)
  {
    hide HEAD, PANE, BEFORE_COLS, BEFORE_ROWS, WidthTokens, Unasked, PANE_ATTRIBUTES, Asked, Named, NamedOne;
    var top, cols := HEAD + (if freeze then PANE else []) + BEFORE_COLS, WidthTokens(widths, |widths|);
    TopNamed(freeze, name);
    BeforeRowsUnasked();
    UnaskedNamed(BEFORE_ROWS, name);
    NamedConcat(top, cols, name);
    NamedConcat(top + cols, BEFORE_ROWS, name);
  }

  lemma FootNamed(rows: seq<seq<string>>, filt: bool, name: string)
    requires Asked(name)
    ensures Named(FootTokens(rows, filt), name) ==
            if name == "autoFilter" && filt && |rows| > 1 then [[Attribute("ref", Range(rows))]] else []
  {
    hide TAIL, FilterTokens, Unasked, Asked, Range;
    BeforeRowsUnasked();
    TailUnasked();
    UnaskedNamed([Tag("/sheetData")], name);
    UnaskedNamed(TAIL, name);
    FilterNamed(rows, filt, name);
    NamedConcat([Tag("/sheetData")], FilterTokens(rows, filt), name);
    NamedConcat([Tag("/sheetData")] + FilterTokens(rows, filt), TAIL, name);
  }

  lemma SheetNamed(rows: seq<seq<string>>, widths: seq<string>, freeze: bool, filt: bool, styles: Styles, name: string)
    requires Covers(styles, rows) && Asked(name) && forall i :: 0 <= i < |widths| ==> Numeral(widths[i])
    ensures Named(Scan(RenderAll(SheetTokens(rows, widths, freeze, filt, styles))), name) ==
            Named(HeadTokens(widths, freeze), name) + Named(FootTokens(rows, filt), name)
  {
    hide HeadTokens, RowsTokens, FootTokens, RenderAll, Scan, Block, Unasked, Asked, Numeral;
    var head, body, foot := HeadTokens(widths, freeze), RowsTokens(rows, styles, |rows|), FootTokens(rows, filt);
    SheetIsBlock(rows, widths, freeze, filt, styles);
    BlockIsPlain(head + body + foot);
    ScanRendered(head + body + foot);
    RowsUnasked(rows, styles, |rows|);
    UnaskedNamed(body, name);
    NamedConcat(head + body, foot, name);
    NamedConcat(head, body, name);
  }

  /** Read back, a written sheet has one column element for each width, in order, with the width; a pane
      frozen under the first row exactly when asked; and a filter exactly when asked and there is a row below
      the header, from the first cell to the last column of the header and the last row. */
  lemma SheetSays(rows: seq<seq<string>>, widths: seq<string>, freeze: bool, filt: bool, styles: Styles)
    requires Covers(styles, rows) && forall i :: 0 <= i < |widths| ==> Numeral(widths[i])
    ensures var tokens := Scan(RenderAll(SheetTokens(rows, widths, freeze, filt, styles)));
      && |Named(tokens, "col")| == |widths|
      && (forall i :: 0 <= i < |widths| ==> Named(tokens, "col")[i] == WidthAttributes(i, widths[i]))
      && Named(tokens, "pane") == (if freeze then [PANE_ATTRIBUTES] else [])
      && (if filt && |rows| > 1
          then |Named(tokens, "autoFilter")| == 1 && |Named(tokens, "autoFilter")[0]| == 1
               && Named(tokens, "autoFilter")[0][0].name == "ref"
               && (rows[0] != [] ==>
                     var ref := Named(tokens, "autoFilter")[0][0].value;
                     |ref| >= 3 && ref[..3] == "A1:" && Filing.Place(ref[3..]) == Some((|rows| - 1, |rows[0]| - 1)))
          else Named(tokens, "autoFilter") == [])
  {
    hide HeadTokens, FootTokens, WidthTokens, RenderAll, Scan, PANE_ATTRIBUTES, Numeral, Range, Filing.Place, Named, WidthAttributes, SheetTokens;
    SheetNamed(rows, widths, freeze, filt, styles, "col");
    SheetNamed(rows, widths, freeze, filt, styles, "pane");
    SheetNamed(rows, widths, freeze, filt, styles, "autoFilter");
    HeadNamed(widths, freeze, "col");
    HeadNamed(widths, freeze, "pane");
    HeadNamed(widths, freeze, "autoFilter");
    WidthsNamed(widths, |widths|);
    WidthsUnnamed(widths, |widths|, "pane");
    WidthsUnnamed(widths, |widths|, "autoFilter");
    FootNamed(rows, filt, "col");
    FootNamed(rows, filt, "pane");
    FootNamed(rows, filt, "autoFilter");
    if filt && |rows| > 1 && rows[0] != [] { RangeEnds(rows); }
  }
}

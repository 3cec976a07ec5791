/** One worksheet written as XML, and read back. */
module Sheets {
  import opened Wrappers
  import opened Columns

  // ------------------------------------------------------------------ text

  /** The control characters that are dropped: all but tab, line feed and carriage return. */
  predicate Control(c: char) {
    c as int < 32 && c != '\t' && c != '\n' && c != '\r'
  }

  function Strip(s: string): string {
    if s == "" then "" else (if Control(s[0]) then "" else [s[0]]) + Strip(s[1..])
  }

  function EscapeChar(c: char): string {
    if Control(c) then ""
    else if c == '&' then "&amp;"
    else if c == '<' then "&lt;"
    else if c == '>' then "&gt;"
    else [c]
  }

  /** Control characters dropped, then the three markup characters replaced. */
  function Escape(s: string): string {
    if s == "" then "" else EscapeChar(s[0]) + Escape(s[1..])
  }

  /** Text with the three references replaced by the characters they stand for. */
  function Unescape(s: string): string {
    if s == "" then ""
    else if "&amp;" <= s then "&" + Unescape(s[5..])
    else if "&lt;" <= s then "<" + Unescape(s[4..])
    else if "&gt;" <= s then ">" + Unescape(s[4..])
    else [s[0]] + Unescape(s[1..])
  }

  predicate NoMarkup(s: string) {
    '<' !in s && '>' !in s
  }

  lemma UnescapeFirst(c: char, rest: string)
    requires !Control(c)
    ensures Unescape(EscapeChar(c) + rest) == [c] + Unescape(rest)
  {
    var s := EscapeChar(c) + rest;
    if c == '&' {
      assert s[..5] == "&amp;" && s[5..] == rest;
    } else if c == '<' {
      assert s[1] == 'l' && s[..4] == "&lt;" && s[4..] == rest;
    } else if c == '>' {
      assert s[1] == 'g' && s[..4] == "&gt;" && s[4..] == rest;
    } else {
      assert s[0] == c && s[1..] == rest;
    }
  }

  lemma CharHasNoMarkup(c: char)
    ensures NoMarkup(EscapeChar(c))
  {
  }

  lemma {:induction false} EscapeHasNoMarkup(s: string)
    ensures NoMarkup(Escape(s))
  {
    hide EscapeChar;
    if s != "" {
      EscapeHasNoMarkup(s[1..]);
      CharHasNoMarkup(s[0]);
    }
  }

  /** Escaped text unescapes to the text without its control characters. */
  lemma {:induction false} EscapeRoundTrip(s: string)
    ensures Unescape(Escape(s)) == Strip(s)
  {
    if s != "" {
      EscapeRoundTrip(s[1..]);
      if Control(s[0]) {
        assert EscapeChar(s[0]) + Escape(s[1..]) == Escape(s[1..]);
        assert Strip(s) == Strip(s[1..]);
      } else {
        hide EscapeChar, Unescape;
        UnescapeFirst(s[0], Escape(s[1..]));
      }
    }
  }

  /** U+0000 to U+0008, U+000B, U+000C and U+000E to U+001F. */
  predicate Dropped(c: char) {
    c as int <= 8 || 11 <= c as int <= 12 || 14 <= c as int <= 31
  }

  lemma DroppedFirst(c: char, after: string)
    ensures Strip([c] + after) == (if Dropped(c) then "" else [c]) + Strip(after)
  {
    assert ([c] + after)[1..] == after;
  }

  lemma {:induction false} StripConcat(a: string, b: string)
    ensures Strip(a + b) == Strip(a) + Strip(b)
  {
    if a == "" {
      assert a + b == b;
    } else {
      StripConcat(a[1..], b);
      assert (a + b)[1..] == a[1..] + b;
      var first := if Control(a[0]) then "" else [a[0]];
      hide Control;
      assert first + (Strip(a[1..]) + Strip(b)) == first + Strip(a[1..]) + Strip(b);
    }
  }

  /** A character is dropped exactly when it is one of those, wherever it stands. */
  lemma DroppedExactly(before: string, c: char, after: string)
    ensures Strip(before + [c] + after) == Strip(before) + (if Dropped(c) then "" else [c]) + Strip(after)
  {
    hide Strip, Dropped;
    StripConcat(before, [c] + after);
    DroppedFirst(c, after);
    assert before + [c] + after == before + ([c] + after);
  }

  /** The references of section 4.6 of XML 1.0. */
  lemma References()
    ensures Escape("&") == "&amp;" && Escape("<") == "&lt;" && Escape(">") == "&gt;"
  {
    assert "&"[1..] == "" && "<"[1..] == "" && ">"[1..] == "";
  }

  // ------------------------------------------------------------------ tags and characters

  datatype Token = Tag(body: string) | Chars(text: string)

  /** What may stand in a tag: printable ASCII but the closing bracket. */
  predicate Safe(c: char) {
    ' ' <= c <= '~' && c != '>'
  }

  predicate SafeText(s: string) {
    forall k :: 0 <= k < |s| ==> Safe(s[k])
  }

  function Render(token: Token): string {
    match token
    case Tag(body) => "<" + body + ">"
    case Chars(text) => text
  }

  function RenderAll(tokens: seq<Token>): string {
    if tokens == [] then "" else Render(tokens[0]) + RenderAll(tokens[1..])
  }

  /** Where `c` first is, or the length. */
  function Find(s: string, c: char): (k: nat)
    ensures k <= |s| && c !in s[..k] && (k < |s| ==> s[k] == c)
  {
    if s == "" || s[0] == c then 0 else 1 + Find(s[1..], c)
  }

  /** The markup of a text: what stands between angle brackets, and the characters around it. */
  function Scan(s: string): seq<Token>
    decreases |s|
  {
    if s == "" then []
    else if s[0] == '<' then
      var k := Find(s, '>');
      if k == |s| then [Tag(s[1..])] else [Tag(s[1..k])] + Scan(s[k + 1..])
    else
      var k := Find(s, '<');
      [Chars(s[..k])] + Scan(s[k..])
  }

  /** Tokens that can be told apart when read back: no bracket inside, no empty characters, and two
      stretches of characters never side by side. */
  predicate Plain(tokens: seq<Token>) {
    && (forall i :: 0 <= i < |tokens| ==> PlainToken(tokens[i]))
    && (forall i :: 0 <= i < |tokens| - 1 ==> tokens[i].Tag? || tokens[i + 1].Tag?)
  }

  predicate PlainToken(token: Token) {
    match token
    case Tag(body) => SafeText(body)
    case Chars(text) => text != "" && '<' !in text
  }

  lemma FindIs(s: string, c: char, k: nat)
    requires k <= |s| && c !in s[..k] && (k < |s| ==> s[k] == c)
    ensures Find(s, c) == k
  {
    var j := Find(s, c);
    assert forall i :: 0 <= i < k ==> s[..k][i] == s[i];
    assert forall i :: 0 <= i < j ==> s[..j][i] == s[i];
  }

  lemma ScanTag(body: string, rest: string)
    requires '>' !in body
    ensures Scan("<" + body + ">" + rest) == [Tag(body)] + Scan(rest)
  {
    var s := "<" + body + ">" + rest;
    var k := |body| + 1;
    assert s[..k] == "<" + body && s[k] == '>' && s[k + 1..] == rest && s[1..k] == body;
    FindIs(s, '>', k);
  }

  lemma ScanChars(text: string, rest: string)
    requires text != "" && '<' !in text && (rest != "" ==> rest[0] == '<')
    ensures Scan(text + rest) == [Chars(text)] + Scan(rest)
  {
    var s := text + rest;
    assert s[..|text|] == text && s[|text|..] == rest;
    FindIs(s, '<', |text|);
  }

  /** Reading back rendered tokens gives the tokens. */
  lemma {:induction false} ScanRendered(tokens: seq<Token>)
    requires Plain(tokens)
    ensures Scan(RenderAll(tokens)) == tokens
  {
    if tokens != [] {
      var rest := tokens[1..];
      assert forall i :: 0 <= i < |rest| ==> rest[i] == tokens[i + 1];
      ScanRendered(rest);
      assert PlainToken(tokens[0]);
      match tokens[0]
      case Tag(body) => ScanTag(body, RenderAll(rest));
      case Chars(text) =>
        if rest != [] {
          assert tokens[0].Tag? || tokens[0 + 1].Tag?;
          assert RenderAll(rest)[0] == '<';
        }
        ScanChars(text, RenderAll(rest));
    }
  }

  // ------------------------------------------------------------------ the sheet

  datatype Style = Header | Normal | Green | Amber | Red | Grey | Title | Bold

  function StyleNumber(style: Style): nat {
    match style
    case Header => 1
    case Normal => 2
    case Green => 3
    case Amber => 4
    case Red => 5
    case Grey => 6
    case Title => 7
    case Bold => 8
  }

  type Styles = Option<seq<seq<Style>>>

  /** Styles are given: `if styles` in Python, where an empty list is as good as none. */
  predicate Given(styles: Styles) {
    styles.Some? && styles.value != []
  }

  /** The styles given cover every cell. */
  predicate Covers(styles: Styles, rows: seq<seq<string>>) {
    Given(styles) ==>
      |styles.value| >= |rows| && forall r :: 0 <= r < |rows| ==> |styles.value[r]| >= |rows[r]|
  }

  function StyleAt(styles: Styles, r: nat, c: nat): Style
    requires Given(styles) ==> r < |styles.value| && c < |styles.value[r]|
  {
    if Given(styles) then styles.value[r][c] else if r == 0 then Header else Normal
  }

  function CharsOf(text: string): seq<Token> {
    if text == "" then [] else [Chars(text)]
  }

  datatype Attribute = Attribute(name: string, value: string)

  function Attributes(list: seq<Attribute>): string {
    if list == [] then ""
    else
      var last := list[|list| - 1];
      Attributes(list[..|list| - 1]) + " " + last.name + "=\"" + last.value + "\""
  }

  /** What stands between the brackets of a tag; `close` is "/" for an element without content. */
  function Element(name: string, attributes: seq<Attribute>, close: string): Token {
    Tag(name + Attributes(attributes) + close)
  }

  const TEXT_TAG := Element("t", [Attribute("xml:space", "preserve")], "")

  function CellTag(r: nat, c: nat, style: Style): Token {
    Element("c", [Attribute("r", Address(c, r)), Attribute("s", Decimal(StyleNumber(style))), Attribute("t", "inlineStr")], "")
  }

  function CellTokens(r: nat, c: nat, style: Style, v: string): seq<Token> {
    [CellTag(r, c, style), Tag("is"), TEXT_TAG] + CharsOf(Escape(v)) + [Tag("/t"), Tag("/is"), Tag("/c")]
  }

  /** The first `n` cells of a row. */
  function CellsTokens(rows: seq<seq<string>>, styles: Styles, r: nat, n: nat): seq<Token>
    requires Covers(styles, rows) && r < |rows| && n <= |rows[r]|
  {
    if n == 0 then []
    else CellsTokens(rows, styles, r, n - 1) + CellTokens(r, n - 1, StyleAt(styles, r, n - 1), rows[r][n - 1])
  }

  function RowTag(r: nat): Token {
    Element("row", [Attribute("r", Decimal(r + 1))], "")
  }

  function RowTokens(rows: seq<seq<string>>, styles: Styles, r: nat): seq<Token>
    requires Covers(styles, rows) && r < |rows|
  {
    [RowTag(r)] + CellsTokens(rows, styles, r, |rows[r]|) + [Tag("/row")]
  }

  /** The first `n` rows. */
  function RowsTokens(rows: seq<seq<string>>, styles: Styles, n: nat): seq<Token>
    requires Covers(styles, rows) && n <= |rows|
  {
    if n == 0 then [] else RowsTokens(rows, styles, n - 1) + RowTokens(rows, styles, n - 1)
  }

  function WidthTag(i: nat, width: string): Token {
    Element("col", [Attribute("min", Decimal(i + 1)), Attribute("max", Decimal(i + 1)), Attribute("width", width), Attribute("customWidth", "1")], "/")
  }

  function WidthTokens(widths: seq<string>, n: nat): seq<Token>
    requires n <= |widths|
  {
    if n == 0 then [] else WidthTokens(widths, n - 1) + [WidthTag(n - 1, widths[n - 1])]
  }

  /** Who publishes the schemas, and the one for worksheets. */
  const PUBLISHER := "http://schemas.openxmlformats.org"
  const NAMESPACE := PUBLISHER + "/spreadsheetml/2006/main"

  const XML_TAG := Element("?xml", [Attribute("version", "1.0"), Attribute("encoding", "UTF-8"), Attribute("standalone", "yes")], "?")
  const WORKSHEET_TAG := Element("worksheet", [Attribute("xmlns", NAMESPACE)], "")
  const VIEW_TAG := Element("sheetView", [Attribute("workbookViewId", "0"), Attribute("showGridLines", "0")], "")
  const PANE_TAG := Element("pane", [
    Attribute("ySplit", "1"), Attribute("topLeftCell", "A2"), Attribute("activePane", "bottomLeft"), Attribute("state", "frozen")], "/")
  const FORMAT_TAG := Element("sheetFormatPr", [Attribute("defaultRowHeight", "15")], "/")
  const MARGINS_TAG := Element("pageMargins", [
    Attribute("left", "0.5"), Attribute("right", "0.5"), Attribute("top", "0.75"), Attribute("bottom", "0.75"),
    Attribute("header", "0.3"), Attribute("footer", "0.3")], "/")
  const SETUP_TAG := Element("pageSetup", [Attribute("orientation", "landscape"), Attribute("fitToHeight", "0")], "/")

  const HEAD: seq<Token> := [XML_TAG, WORKSHEET_TAG, Tag("sheetViews"), VIEW_TAG]
  const PANE: seq<Token> := [PANE_TAG]
  const BEFORE_COLS: seq<Token> := [Tag("/sheetView"), Tag("/sheetViews"), FORMAT_TAG, Tag("cols")]
  const BEFORE_ROWS: seq<Token> := [Tag("/cols"), Tag("sheetData")]
  const TAIL: seq<Token> := [MARGINS_TAG, SETUP_TAG, Tag("/worksheet")]

  function FilterTokens(rows: seq<seq<string>>, filt: bool): seq<Token> {
    if filt && |rows| > 1
    then [Element("autoFilter", [Attribute("ref", "A1:" + Name(|rows[0]|) + Decimal(|rows|))], "/")]
    else []
  }

  function HeadTokens(widths: seq<string>, freeze: bool): seq<Token> {
    HEAD + (if freeze then PANE else []) + BEFORE_COLS + WidthTokens(widths, |widths|) + BEFORE_ROWS
  }

  function FootTokens(rows: seq<seq<string>>, filt: bool): seq<Token> {
    [Tag("/sheetData")] + FilterTokens(rows, filt) + TAIL
  }

  function SheetTokens(rows: seq<seq<string>>, widths: seq<string>, freeze: bool, filt: bool, styles: Styles): seq<Token>
    requires Covers(styles, rows)
  {
    HeadTokens(widths, freeze) + RowsTokens(rows, styles, |rows|) + FootTokens(rows, filt)
  }

  /** `"".join(x)` */
  function Join(x: seq<string>): string {
    if x == [] then "" else Join(x[..|x| - 1]) + x[|x| - 1]
  }

  lemma {:induction false} RenderConcat(a: seq<Token>, b: seq<Token>)
    ensures RenderAll(a + b) == RenderAll(a) + RenderAll(b)
  {
    hide Render;
    if a == [] {
      assert a + b == b;
    } else {
      RenderConcat(a[1..], b);
      assert (a + b)[1..] == a[1..] + b;
      assert RenderAll(a + b) == Render(a[0]) + (RenderAll(a[1..]) + RenderAll(b));
    }
  }

  /** The buffer holds the text of `tokens`; one more piece is appended. */
  lemma Appending(x: seq<string>, tokens: seq<Token>, more: seq<Token>)
    requires Join(x) == RenderAll(tokens)
    ensures Join(x + [RenderAll(more)]) == RenderAll(tokens + more)
  {
    RenderConcat(tokens, more);
    assert (x + [RenderAll(more)])[..|x|] == x;
  }

  /** The writer: pieces appended to a buffer, then joined. Widths come as the numerals they print. */
  method Sheet(rows: seq<seq<string>>, widths: seq<string>, freeze: bool, filt: bool, styles: Styles) returns (text: string)
    requires Covers(styles, rows)
    ensures text == RenderAll(SheetTokens(rows, widths, freeze, filt, styles))
  {
    hide RenderAll, Join, HeadTokens, RowTokens, FootTokens;
    var x, tokens := WriteHead(widths, freeze);
    ghost var head := tokens;
    for r := 0 to |rows|
      invariant Join(x) == RenderAll(tokens) && tokens == head + RowsTokens(rows, styles, r)
    {
      x, tokens := WriteRow(x, tokens, rows, styles, r);
    }
    x, tokens := WriteFoot(x, tokens, rows, filt);
    return Join(x);
  }

  method WriteHead(widths: seq<string>, freeze: bool) returns (x: seq<string>, ghost tokens: seq<Token>)
    ensures tokens == HeadTokens(widths, freeze)
    ensures Join(x) == RenderAll(HeadTokens(widths, freeze))
  {
    hide RenderAll, Join, HEAD, PANE, BEFORE_COLS, BEFORE_ROWS, WidthTag;
    x, tokens := Empty();
    x, tokens := Append(x, tokens, HEAD);
    if freeze {
      x, tokens := Append(x, tokens, PANE);
    }
    x, tokens := Append(x, tokens, BEFORE_COLS);
    ghost var start := tokens;
    for i := 0 to |widths|
      invariant Join(x) == RenderAll(tokens) && tokens == start + WidthTokens(widths, i)
    {
      x, tokens := Append(x, tokens, [WidthTag(i, widths[i])]);
    }
    x, tokens := Append(x, tokens, BEFORE_ROWS);
    assert tokens == HeadTokens(widths, freeze);
  }

  method WriteRow(x: seq<string>, ghost tokens: seq<Token>, rows: seq<seq<string>>, styles: Styles, r: nat)
    returns (y: seq<string>, ghost all: seq<Token>)
    requires Covers(styles, rows) && r < |rows| && Join(x) == RenderAll(tokens)
    ensures all == tokens + RowTokens(rows, styles, r)
    ensures Join(y) == RenderAll(tokens + RowTokens(rows, styles, r))
  {
    hide RenderAll, Join, CellTokens;
    y, all := Append(x, tokens, [RowTag(r)]);
    ghost var begun := all;
    for c := 0 to |rows[r]|
      invariant Join(y) == RenderAll(all) && all == begun + CellsTokens(rows, styles, r, c)
    {
      y, all := Append(y, all, CellTokens(r, c, StyleAt(styles, r, c), rows[r][c]));
    }
    y, all := Append(y, all, [Tag("/row")]);
    assert all == tokens + RowTokens(rows, styles, r);
  }

  method WriteFoot(x: seq<string>, ghost tokens: seq<Token>, rows: seq<seq<string>>, filt: bool)
    returns (y: seq<string>, ghost all: seq<Token>)
    requires Join(x) == RenderAll(tokens)
    ensures all == tokens + FootTokens(rows, filt)
    ensures Join(y) == RenderAll(tokens + FootTokens(rows, filt))
  {
    hide RenderAll, Join, FilterTokens, TAIL;
    y, all := Append(x, tokens, [Tag("/sheetData")]);
    y, all := Append(y, all, FilterTokens(rows, filt));
    y, all := Append(y, all, TAIL);
  }

  method Empty() returns (x: seq<string>, ghost tokens: seq<Token>)
    ensures x == [] && tokens == [] && Join(x) == RenderAll(tokens)
  {
    x, tokens := [], [];
  }

  method Append(x: seq<string>, ghost tokens: seq<Token>, more: seq<Token>) returns (y: seq<string>, ghost all: seq<Token>)
    requires Join(x) == RenderAll(tokens)
    ensures y == x + [RenderAll(more)] && all == tokens + more && Join(y) == RenderAll(all)
  {
    y, all := x + [RenderAll(more)], tokens + more;
    Appending(x, tokens, more);
  }

  // ------------------------------------------------------------------ reading it back

  /** A reader's state: the rows so far, and the characters of the cell it is in. */
  datatype Reading = Reading(grid: seq<seq<string>>, cell: Option<string>)

  /** One token read: a `row` starts a row, a `t` starts a cell, its end files the cell's text. */
  function Read(st: Reading, token: Token): Reading {
    match token
    case Chars(text) => if st.cell.Some? then st.(cell := Some(st.cell.value + text)) else st
    case Tag(body) =>
      if "row " <= body then st.(grid := st.grid + [[]])
      else if "t " <= body then st.(cell := Some(""))
      else if body == "/t" && st.cell.Some? && st.grid != [] then
        var last := |st.grid| - 1;
        Reading(st.grid[last := st.grid[last] + [Unescape(st.cell.value)]], None)
      else st
  }

  function ReadAll(st: Reading, tokens: seq<Token>): Reading {
    if tokens == [] then st else Read(ReadAll(st, tokens[..|tokens| - 1]), tokens[|tokens| - 1])
  }

  /** The cells of a sheet. */
  function Cells(text: string): seq<seq<string>> {
    ReadAll(Reading([], None), Scan(text)).grid
  }

  function StripRow(row: seq<string>): seq<string> {
    seq(|row|, c requires 0 <= c < |row| => Strip(row[c]))
  }

  /** The grid with only the control characters gone. */
  function StripGrid(rows: seq<seq<string>>): seq<seq<string>> {
    seq(|rows|, r requires 0 <= r < |rows| => StripRow(rows[r]))
  }

  lemma {:induction false} ReadConcat(st: Reading, a: seq<Token>, b: seq<Token>)
    ensures ReadAll(st, a + b) == ReadAll(ReadAll(st, a), b)
  {
    hide Read;
    if b == [] {
      assert a + b == a;
    } else {
      ReadConcat(st, a, b[..|b| - 1]);
      assert (a + b)[..|a + b| - 1] == a + b[..|b| - 1];
    }
  }

  /** A tag that is neither a row nor a cell's text. */
  predicate Quiet(token: Token) {
    token.Tag? && !("row " <= token.body) && !("t " <= token.body) && token.body != "/t"
  }

  lemma {:induction false} QuietRead(st: Reading, tokens: seq<Token>)
    requires forall i :: 0 <= i < |tokens| ==> Quiet(tokens[i])
    ensures ReadAll(st, tokens) == st
  {
    if tokens != [] {
      QuietRead(st, tokens[..|tokens| - 1]);
    }
  }

  lemma ReadOne(st: Reading, token: Token)
    ensures ReadAll(st, [token]) == Read(st, token)
  {
    assert [token][..0] == [];
  }

  lemma CellTagQuiet(r: nat, c: nat, style: Style)
    ensures Quiet(CellTag(r, c, style)) && Quiet(Tag("is"))
  {
    hide Attributes;
    assert CellTag(r, c, style).body[0] == 'c';
  }

  lemma ReadCellStart(st: Reading, r: nat, c: nat, style: Style)
    ensures ReadAll(st, [CellTag(r, c, style), Tag("is"), TEXT_TAG]) == st.(cell := Some(""))
  {
    hide CellTag, Read;
    var front := [CellTag(r, c, style), Tag("is")];
    CellTagQuiet(r, c, style);
    ReadConcat(st, front, [TEXT_TAG]);
    QuietRead(st, front);
    ReadOne(st, TEXT_TAG);
    assert front + [TEXT_TAG] == [CellTag(r, c, style), Tag("is"), TEXT_TAG];
    ReadTextTag(st);
  }

  lemma ReadTextTag(st: Reading)
    ensures Read(st, TEXT_TAG) == st.(cell := Some(""))
  {
    var one := [Attribute("xml:space", "preserve")];
    assert one[..0] == [];
    assert TEXT_TAG.body[0] == 't' && TEXT_TAG.body[1] == ' ';
  }

  lemma ReadCellText(st: Reading, text: string)
    requires st.cell == Some("")
    ensures ReadAll(st, CharsOf(text)) == st.(cell := Some(text))
  {
    if text != "" {
      ReadOne(st, Chars(text));
      assert "" + text == text;
    }
  }

  lemma ReadCellEnd(st: Reading)
    requires st.cell.Some? && st.grid != []
    ensures ReadAll(st, [Tag("/t"), Tag("/is"), Tag("/c")]) ==
            Reading(st.grid[|st.grid| - 1 := st.grid[|st.grid| - 1] + [Unescape(st.cell.value)]], None)
  {
    hide Unescape;
    var rest := [Tag("/is"), Tag("/c")];
    ReadConcat(st, [Tag("/t")], rest);
    ReadOne(st, Tag("/t"));
    QuietRead(Read(st, Tag("/t")), rest);
    assert [Tag("/t")] + rest == [Tag("/t"), Tag("/is"), Tag("/c")];
  }

  /** Reading one cell files its stripped text in the last row. */
  lemma ReadCell(st: Reading, r: nat, c: nat, style: Style, v: string)
    requires st.grid != []
    ensures ReadAll(st, CellTokens(r, c, style, v)) ==
            Reading(st.grid[|st.grid| - 1 := st.grid[|st.grid| - 1] + [Strip(v)]], None)
  {
    hide Escape, Unescape, CellTag, Read, ReadAll, CharsOf, TEXT_TAG;
    var front := [CellTag(r, c, style), Tag("is"), TEXT_TAG];
    var text := CharsOf(Escape(v));
    var back := [Tag("/t"), Tag("/is"), Tag("/c")];
    assert CellTokens(r, c, style, v) == front + text + back;
    ReadConcat(st, front + text, back);
    ReadConcat(st, front, text);
    ReadCellStart(st, r, c, style);
    ReadCellText(st.(cell := Some("")), Escape(v));
    ReadCellEnd(st.(cell := Some(Escape(v))));
    EscapeRoundTrip(v);
  }

  lemma StripRowStep(row: seq<string>, k: nat)
    requires k < |row|
    ensures StripRow(row[..k + 1]) == StripRow(row[..k]) + [Strip(row[k])]
  {
    hide Strip;
  }

  lemma StripNoCells(row: seq<string>)
    ensures StripRow(row[..0]) == []
  {
  }

  lemma {:induction false} ReadCells(grid: seq<seq<string>>, rows: seq<seq<string>>, styles: Styles, r: nat, n: nat)
    requires Covers(styles, rows) && r < |rows| && n <= |rows[r]|
    ensures ReadAll(Reading(grid + [[]], None), CellsTokens(rows, styles, r, n)) ==
            Reading(grid + [StripRow(rows[r][..n])], None)
  {
    hide CellTokens, Strip, ReadAll, Read, StripRow;
    var st := Reading(grid + [[]], None);
    if n > 0 {
      ReadCells(grid, rows, styles, r, n - 1);
      var cell := CellTokens(r, n - 1, StyleAt(styles, r, n - 1), rows[r][n - 1]);
      ReadConcat(st, CellsTokens(rows, styles, r, n - 1), cell);
      ReadCell(Reading(grid + [StripRow(rows[r][..n - 1])], None), r, n - 1, StyleAt(styles, r, n - 1), rows[r][n - 1]);
      StripRowStep(rows[r], n - 1);
    } else {
      assert StripRow(rows[r][..0]) == [] by { StripNoCells(rows[r]); }
      ReadNothing(st);
    }
  }

  lemma ReadRowStart(st: Reading, r: nat)
    ensures Read(st, RowTag(r)) == st.(grid := st.grid + [[]])
  {
    hide Decimal;
    var one := [Attribute("r", Decimal(r + 1))];
    assert one[..0] == [];
    assert Attributes(one)[0] == ' ';
    assert RowTag(r).body[3] == ' ' && RowTag(r).body[..3] == "row";
    assert RowTag(r).body[..4] == "row" + " ";
  }

  lemma ReadRow(grid: seq<seq<string>>, rows: seq<seq<string>>, styles: Styles, r: nat)
    requires Covers(styles, rows) && r < |rows|
    ensures ReadAll(Reading(grid, None), RowTokens(rows, styles, r)) == Reading(grid + [StripRow(rows[r])], None)
  {
    hide CellsTokens, RowTag, Read, StripRow;
    var st := Reading(grid, None);
    var start, cells, end := [RowTag(r)], CellsTokens(rows, styles, r, |rows[r]|), [Tag("/row")];
    ReadConcat(st, start + cells, end);
    ReadConcat(st, start, cells);
    ReadOne(st, start[0]);
    ReadRowStart(st, r);
    ReadCells(grid, rows, styles, r, |rows[r]|);
    assert rows[r][..|rows[r]|] == rows[r];
    assert end[0].body[0] == '/' && |end[0].body| == 4;
    QuietRead(Reading(grid + [StripRow(rows[r])], None), end);
  }

  lemma StripGridStep(rows: seq<seq<string>>, k: nat)
    requires k < |rows|
    ensures StripGrid(rows[..k + 1]) == StripGrid(rows[..k]) + [StripRow(rows[k])]
  {
    hide StripRow;
  }

  lemma StripNoRows(rows: seq<seq<string>>)
    ensures StripGrid(rows[..0]) == []
  {
  }

  lemma ReadNothing(st: Reading)
    ensures ReadAll(st, []) == st
  {
  }

  lemma {:induction false} ReadRows(rows: seq<seq<string>>, styles: Styles, n: nat)
    requires Covers(styles, rows) && n <= |rows|
    ensures ReadAll(Reading([], None), RowsTokens(rows, styles, n)) == Reading(StripGrid(rows[..n]), None)
  {
    hide RowTokens, StripRow, ReadAll, Read, StripGrid;
    if n > 0 {
      ReadRows(rows, styles, n - 1);
      ReadConcat(Reading([], None), RowsTokens(rows, styles, n - 1), RowTokens(rows, styles, n - 1));
      ReadRow(StripGrid(rows[..n - 1]), rows, styles, n - 1);
      StripGridStep(rows, n - 1);
    } else {
      StripNoRows(rows);
      ReadNothing(Reading([], None));
    }
  }

  // ------------------------------------------------------------------ the frame around the rows

  /** A tag outside the rows: read quietly, no cell, and readable back. */
  predicate Frame(token: Token) {
    Quiet(token) && !("c " <= token.body) && SafeText(token.body)
  }

  predicate Frames(tokens: seq<Token>) {
    forall i :: 0 <= i < |tokens| ==> Frame(tokens[i])
  }

  predicate FrameName(name: string) {
    && name != "" && name[0] != 'r' && name[0] != 't' && (name[0] == '/' ==> |name| > 2)
    && (name[0] == 'c' ==> |name| > 1 && name[1] != ' ')
    && SafeText(name)
  }

  predicate PlainAttributes(list: seq<Attribute>) {
    forall i :: 0 <= i < |list| ==> SafeText(list[i].name) && SafeText(list[i].value)
  }

  lemma FrameTag(name: string, rest: string)
    requires FrameName(name) && SafeText(rest)
    ensures Frame(Tag(name + rest))
  {
    var body := name + rest;
    assert body[0] == name[0];
    if name[0] == 'c' { assert body[1] == name[1]; }
  }

  lemma {:induction false} AttributesPlain(list: seq<Attribute>)
    requires PlainAttributes(list)
    ensures SafeText(Attributes(list))
  {
    if list != [] {
      AttributesPlain(list[..|list| - 1]);
    }
  }

  lemma FrameElement(name: string, list: seq<Attribute>, close: string)
    requires FrameName(name) && PlainAttributes(list) && SafeText(close)
    ensures Frame(Element(name, list, close))
  {
    hide Frame, Attributes;
    AttributesPlain(list);
    FrameTag(name, Attributes(list) + close);
    assert name + (Attributes(list) + close) == name + Attributes(list) + close;
  }

  lemma FrameWord(name: string)
    requires FrameName(name)
    ensures Frame(Tag(name))
  {
    hide Frame;
    FrameTag(name, "");
    assert name + "" == name;
  }

  lemma PublisherPlain()
    ensures SafeText(PUBLISHER)
  {
  }

  lemma PathPlain()
    ensures SafeText("/spreadsheetml/2006/main")
  {
  }

  lemma NamespacePlain()
    ensures SafeText(NAMESPACE)
  {
    hide PUBLISHER;
    PublisherPlain();
    PathPlain();
  }

  lemma XmlTagIsFrame()
    ensures Frame(XML_TAG)
  {
    hide Frame, Element;
    FrameElement("?xml", [Attribute("version", "1.0"), Attribute("encoding", "UTF-8"), Attribute("standalone", "yes")], "?");
  }

  lemma WorksheetTagIsFrame()
    ensures Frame(WORKSHEET_TAG)
  {
    hide Frame, Element, NAMESPACE;
    NamespacePlain();
    FrameElement("worksheet", [Attribute("xmlns", NAMESPACE)], "");
  }

  lemma ViewTagIsFrame()
    ensures Frame(VIEW_TAG)
  {
    hide Frame, Element;
    FrameElement("sheetView", [Attribute("workbookViewId", "0"), Attribute("showGridLines", "0")], "");
  }

  lemma PlainTogether(a: seq<Attribute>, b: seq<Attribute>)
    requires PlainAttributes(a) && PlainAttributes(b)
    ensures PlainAttributes(a + b)
  {
  }

  lemma PanePlain()
    ensures PlainAttributes([Attribute("ySplit", "1"), Attribute("topLeftCell", "A2")])
    ensures PlainAttributes([Attribute("activePane", "bottomLeft"), Attribute("state", "frozen")])
  {
  }

  lemma PaneTagIsFrame()
    ensures Frame(PANE_TAG)
  {
    hide Frame, Element, PlainAttributes;
    PanePlain();
    PlainTogether([Attribute("ySplit", "1"), Attribute("topLeftCell", "A2")],
                  [Attribute("activePane", "bottomLeft"), Attribute("state", "frozen")]);
    assert [Attribute("ySplit", "1"), Attribute("topLeftCell", "A2")] + [Attribute("activePane", "bottomLeft"), Attribute("state", "frozen")] ==
           [Attribute("ySplit", "1"), Attribute("topLeftCell", "A2"), Attribute("activePane", "bottomLeft"), Attribute("state", "frozen")];
    FrameElement("pane", [
      Attribute("ySplit", "1"), Attribute("topLeftCell", "A2"), Attribute("activePane", "bottomLeft"), Attribute("state", "frozen")], "/");
  }

  lemma FormatTagIsFrame()
    ensures Frame(FORMAT_TAG)
  {
    hide Frame, Element;
    FrameElement("sheetFormatPr", [Attribute("defaultRowHeight", "15")], "/");
  }

  lemma MarginsTagIsFrame()
    ensures Frame(MARGINS_TAG)
  {
    hide Frame, Element;
    FrameElement("pageMargins", [
      Attribute("left", "0.5"), Attribute("right", "0.5"), Attribute("top", "0.75"), Attribute("bottom", "0.75"),
      Attribute("header", "0.3"), Attribute("footer", "0.3")], "/");
  }

  lemma SetupTagIsFrame()
    ensures Frame(SETUP_TAG)
  {
    hide Frame, Element;
    FrameElement("pageSetup", [Attribute("orientation", "landscape"), Attribute("fitToHeight", "0")], "/");
  }

  lemma FixedTagsAreFrames()
    ensures Frames(HEAD) && Frames(PANE) && Frames(BEFORE_COLS) && Frames(BEFORE_ROWS) && Frames(TAIL)
  {
    hide Frame, XML_TAG, WORKSHEET_TAG, VIEW_TAG, PANE_TAG, FORMAT_TAG, MARGINS_TAG, SETUP_TAG;
    XmlTagIsFrame();
    WorksheetTagIsFrame();
    ViewTagIsFrame();
    PaneTagIsFrame();
    FormatTagIsFrame();
    MarginsTagIsFrame();
    SetupTagIsFrame();
    WordsAreFrames();
  }

  lemma WordsAreFrames()
    ensures Frame(Tag("sheetViews")) && Frame(Tag("/sheetView")) && Frame(Tag("/sheetViews")) && Frame(Tag("cols"))
    ensures Frame(Tag("/cols")) && Frame(Tag("sheetData")) && Frame(Tag("/sheetData")) && Frame(Tag("/worksheet"))
  {
    hide Frame;
    FrameWord("sheetViews");
    FrameWord("/sheetView");
    FrameWord("/sheetViews");
    FrameWord("cols");
    FrameWord("/cols");
    FrameWord("sheetData");
    FrameWord("/sheetData");
    FrameWord("/worksheet");
  }

  lemma NumeralsPlain(n: nat)
    ensures SafeText(Decimal(n)) && SafeText(Name(n))
  {
    DecimalIsDigits(n);
    NameDecodes(n);
    hide Decimal, Name;
  }

  // ------------------------------------------------------------------ the round trip

  /** A printed number: digits and the signs numerals use. */
  predicate Numeral(s: string) {
    forall k :: 0 <= k < |s| ==> s[k] in "0123456789.+-e"
  }

  lemma NumeralPlain(s: string)
    requires Numeral(s)
    ensures SafeText(s)
  {
    assert SafeText("0123456789.+-e");
  }

  lemma WidthTagIsFrame(i: nat, width: string)
    requires Numeral(width)
    ensures Frame(WidthTag(i, width))
  {
    hide Frame, Element, Decimal, Numeral;
    NumeralPlain(width);
    NumeralsPlain(i + 1);
    FrameElement("col", [Attribute("min", Decimal(i + 1)), Attribute("max", Decimal(i + 1)), Attribute("width", width), Attribute("customWidth", "1")], "/");
  }

  lemma {:induction false} WidthsAreFrames(widths: seq<string>, n: nat)
    requires n <= |widths| && forall i :: 0 <= i < |widths| ==> Numeral(widths[i])
    ensures Frames(WidthTokens(widths, n))
  {
    hide Frame, WidthTag, Numeral;
    if n > 0 {
      WidthsAreFrames(widths, n - 1);
      WidthTagIsFrame(n - 1, widths[n - 1]);
    }
  }

  lemma FilterIsFrame(rows: seq<seq<string>>, filt: bool)
    ensures Frames(FilterTokens(rows, filt))
  {
    hide Frame, Element, Decimal, Name;
    if filt && |rows| > 1 {
      NumeralsPlain(|rows[0]|);
      NumeralsPlain(|rows|);
      FrameElement("autoFilter", [Attribute("ref", "A1:" + Name(|rows[0]|) + Decimal(|rows|))], "/");
    }
  }

  lemma HeadAndFootAreFrames(rows: seq<seq<string>>, widths: seq<string>, freeze: bool, filt: bool)
    requires forall i :: 0 <= i < |widths| ==> Numeral(widths[i])
    ensures Frames(HeadTokens(widths, freeze)) && Frames(FootTokens(rows, filt))
  {
    hide Frame, HEAD, PANE, BEFORE_COLS, BEFORE_ROWS, TAIL, WidthTokens, FilterTokens;
    FixedTagsAreFrames();
    WidthsAreFrames(widths, |widths|);
    FilterIsFrame(rows, filt);
    WordsAreFrames();
  }

  /** Tokens that begin and end with a tag can stand side by side. */
  predicate Block(tokens: seq<Token>) {
    Plain(tokens) && (tokens != [] ==> tokens[0].Tag? && tokens[|tokens| - 1].Tag?)
  }

  lemma BlockConcat(a: seq<Token>, b: seq<Token>)
    requires Block(a) && Block(b)
    ensures Block(a + b)
  {
    var all := a + b;
    assert forall i :: 0 <= i < |a| ==> all[i] == a[i];
    assert forall i :: 0 <= i < |b| ==> all[|a| + i] == b[i];
    forall i | 0 <= i < |all| - 1
      ensures all[i].Tag? || all[i + 1].Tag?
    {
      if i + 1 < |a| { assert a[i].Tag? || a[i + 1].Tag?; }
      else if i >= |a| { assert b[i - |a|].Tag? || b[i - |a| + 1].Tag?; }
    }
  }

  lemma FramesAreBlock(tokens: seq<Token>)
    requires Frames(tokens)
    ensures Block(tokens)
  {
    assert forall i :: 0 <= i < |tokens| ==> Frame(tokens[i]);
  }

  lemma CellTagPlain(r: nat, c: nat, style: Style)
    ensures PlainToken(CellTag(r, c, style)) && PlainToken(RowTag(r))
  {
    hide Decimal, Name, Attributes;
    NumeralsPlain(StyleNumber(style));
    NumeralsPlain(r + 1);
    NumeralsPlain(c + 1);
    AttributesPlain([Attribute("r", Address(c, r)), Attribute("s", Decimal(StyleNumber(style))), Attribute("t", "inlineStr")]);
    AttributesPlain([Attribute("r", Decimal(r + 1))]);
  }

  lemma TextTagPlain()
    ensures PlainToken(TEXT_TAG)
  {
    hide Attributes;
    AttributesPlain([Attribute("xml:space", "preserve")]);
  }

  lemma CellIsBlock(r: nat, c: nat, style: Style, v: string)
    ensures Block(CellTokens(r, c, style, v))
  {
    hide CellTag, TEXT_TAG, Escape;
    CellTagPlain(r, c, style);
    TextTagPlain();
    EscapeHasNoMarkup(v);
    assert TEXT_TAG.Tag? && CellTag(r, c, style).Tag? by { TagsAreTags(r, c, style); }
  }

  lemma TagsAreTags(r: nat, c: nat, style: Style)
    ensures TEXT_TAG.Tag? && CellTag(r, c, style).Tag? && RowTag(r).Tag?
  {
  }

  lemma {:induction false} CellsAreBlock(rows: seq<seq<string>>, styles: Styles, r: nat, n: nat)
    requires Covers(styles, rows) && r < |rows| && n <= |rows[r]|
    ensures Block(CellsTokens(rows, styles, r, n))
  {
    hide CellTokens, Block;
    if n > 0 {
      CellsAreBlock(rows, styles, r, n - 1);
      CellIsBlock(r, n - 1, StyleAt(styles, r, n - 1), rows[r][n - 1]);
      BlockConcat(CellsTokens(rows, styles, r, n - 1), CellTokens(r, n - 1, StyleAt(styles, r, n - 1), rows[r][n - 1]));
    } else {
      EmptyBlock();
    }
  }

  lemma EmptyBlock()
    ensures Block([])
  {
  }

  lemma TagIsBlock(token: Token)
    requires token.Tag? && PlainToken(token)
    ensures Block([token])
  {
  }

  lemma RowIsBlock(rows: seq<seq<string>>, styles: Styles, r: nat)
    requires Covers(styles, rows) && r < |rows|
    ensures Block(RowTokens(rows, styles, r))
  {
    hide CellsTokens, Block, RowTag;
    CellTagPlain(r, 0, Normal);
    TagsAreTags(r, 0, Normal);
    TagIsBlock(RowTag(r));
    TagIsBlock(Tag("/row"));
    CellsAreBlock(rows, styles, r, |rows[r]|);
    BlockConcat([RowTag(r)], CellsTokens(rows, styles, r, |rows[r]|));
    BlockConcat([RowTag(r)] + CellsTokens(rows, styles, r, |rows[r]|), [Tag("/row")]);
  }

  lemma {:induction false} RowsAreBlock(rows: seq<seq<string>>, styles: Styles, n: nat)
    requires Covers(styles, rows) && n <= |rows|
    ensures Block(RowsTokens(rows, styles, n))
  {
    hide RowTokens, Block;
    if n > 0 {
      RowsAreBlock(rows, styles, n - 1);
      RowIsBlock(rows, styles, n - 1);
      BlockConcat(RowsTokens(rows, styles, n - 1), RowTokens(rows, styles, n - 1));
    } else {
      EmptyBlock();
    }
  }

  lemma SheetIsBlock(rows: seq<seq<string>>, widths: seq<string>, freeze: bool, filt: bool, styles: Styles)
    requires Covers(styles, rows) && forall i :: 0 <= i < |widths| ==> Numeral(widths[i])
    ensures Block(SheetTokens(rows, widths, freeze, filt, styles))
  {
    hide HeadTokens, RowsTokens, FootTokens, Block, Frames;
    var head, body, foot := HeadTokens(widths, freeze), RowsTokens(rows, styles, |rows|), FootTokens(rows, filt);
    HeadAndFootAreFrames(rows, widths, freeze, filt);
    FramesAreBlock(head);
    FramesAreBlock(foot);
    RowsAreBlock(rows, styles, |rows|);
    BlockConcat(head, body);
    BlockConcat(head + body, foot);
  }

  lemma ReadFrames(st: Reading, tokens: seq<Token>)
    requires Frames(tokens)
    ensures ReadAll(st, tokens) == st
  {
    assert forall i :: 0 <= i < |tokens| ==> Frame(tokens[i]);
    QuietRead(st, tokens);
  }

  /** Reading a written sheet back gives the grid, with only the control characters gone. */
  lemma SheetRoundTrip(rows: seq<seq<string>>, widths: seq<string>, freeze: bool, filt: bool, styles: Styles)
    requires Covers(styles, rows) && forall i :: 0 <= i < |widths| ==> Numeral(widths[i])
    ensures Cells(RenderAll(SheetTokens(rows, widths, freeze, filt, styles))) == StripGrid(rows)
  {
    hide HeadTokens, RowsTokens, FootTokens, Frames, Plain, StripGrid, ReadAll, RenderAll, Scan;
    var head, body, foot := HeadTokens(widths, freeze), RowsTokens(rows, styles, |rows|), FootTokens(rows, filt);
    SheetIsBlock(rows, widths, freeze, filt, styles);
    ScanRendered(head + body + foot);
    HeadAndFootAreFrames(rows, widths, freeze, filt);
    var st := Reading([], None);
    ReadConcat(st, head + body, foot);
    ReadConcat(st, head, body);
    ReadFrames(st, head);
    ReadRows(rows, styles, |rows|);
    assert rows[..|rows|] == rows;
    ReadFrames(Reading(StripGrid(rows), None), foot);
  }
}

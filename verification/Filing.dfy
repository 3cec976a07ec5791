/** A second reader of a written sheet, which goes by what the tags say: each cell is filed under the address
    in its `r`, and the columns, the frozen pane and the filter are taken from their own tags. */
module Filing {
  import opened Wrappers
  import opened Columns
  import opened Sheets

  // ------------------------------------------------------------------ reading numbers and addresses

  predicate Digits(s: string) {
    forall k :: 0 <= k < |s| ==> '0' <= s[k] <= '9'
  }

  /** The number a string of digits stands for. */
  function Number(s: string): nat
    requires Digits(s)
  {
    if s == "" then 0 else Number(s[..|s| - 1]) * 10 + (s[|s| - 1] as int - 48)
  }

  lemma {:induction false} NumberOfDecimal(n: nat)
    ensures Digits(Decimal(n)) && Number(Decimal(n)) == n
  {
    if n >= 10 {
      NumberOfDecimal(n / 10);
      var d := Decimal(n);
      assert d[..|d| - 1] == Decimal(n / 10);
    }
  }

  /** How many letters come first. */
  function LetterCount(s: string): (k: nat)
    ensures k <= |s| && Letters(s[..k]) && (k < |s| ==> !('A' <= s[k] <= 'Z'))
  {
    if s == "" || !('A' <= s[0] <= 'Z') then 0
    else
      assert s[1..][..LetterCount(s[1..])] == s[1..1 + LetterCount(s[1..])];
      1 + LetterCount(s[1..])
  }

  /** Row and column of an address such as "B7", counted from zero. */
  function Place(address: string): Option<(nat, nat)> {
    var k := LetterCount(address);
    if k == 0 || k == |address| || !Digits(address[k..]) || Value(address[..k]) == 0 || Number(address[k..]) == 0 then None
    else Some((Number(address[k..]) - 1, Value(address[..k]) - 1))
  }

  lemma PlaceOf(column: nat, row: nat)
    ensures Place(Address(column, row)) == Some((row, column))
  {
    hide Name, Decimal, Value, Number;
    var a, d := Column(column), Decimal(row + 1);
    NameDecodes(column + 1);
    DecimalIsDigits(row + 1);
    NumberOfDecimal(row + 1);
    var k := LetterCount(a + d);
    AddressSplits(a, d, (a + d)[..k], (a + d)[k..]) by { LettersEnd(a, d); }
  }

  lemma LettersEnd(a: string, d: string)
    requires Letters(a) && d != "" && '0' <= d[0] <= '9'
    ensures LetterCount(a + d) == |a|
  {
    var s := a + d;
    var k := LetterCount(s);
    assert forall i :: 0 <= i < k ==> 'A' <= s[..k][i] <= 'Z' && s[..k][i] == s[i];
    assert s[|a|] == d[0] && forall i :: 0 <= i < |a| ==> s[i] == a[i];
  }

  // ------------------------------------------------------------------ reading attributes

  /** The attributes that follow a tag's name. */
  function ReadAttributes(s: string): seq<Attribute>
    decreases |s|
  {
    if s == "" || s[0] != ' ' then []
    else
      var e := Find(s, '=');
      if e + 1 >= |s| || e == 0 || s[e + 1] != '"' then []
      else
        var rest := s[e + 2..];
        var q := Find(rest, '"');
        if q == |rest| then [] else [Attribute(s[1..e], rest[..q])] + ReadAttributes(rest[q + 1..])
  }

  predicate Readable(list: seq<Attribute>) {
    forall i :: 0 <= i < |list| ==> '=' !in list[i].name && '"' !in list[i].value
  }

  lemma {:induction false} AttributesFirst(first: Attribute, rest: seq<Attribute>)
    ensures Attributes([first] + rest) == " " + first.name + "=\"" + first.value + "\"" + Attributes(rest)
  {
    var all := [first] + rest;
    if rest == [] {
      assert all[..0] == [];
    } else {
      var k := |rest| - 1;
      assert all[..|all| - 1] == [first] + rest[..k];
      AttributesFirst(first, rest[..k]);
    }
  }

  lemma ReadFirst(name: string, value: string, rest: string)
    requires '=' !in name && '"' !in value
    ensures ReadAttributes(" " + name + "=\"" + value + "\"" + rest) == [Attribute(name, value)] + ReadAttributes(rest)
  {
    var s := " " + name + "=\"" + value + "\"" + rest;
    var e := 1 + |name|;
    assert s[..e] == " " + name && s[e] == '=' && s[e + 1] == '"' && s[1..e] == name;
    FindIs(s, '=', e);
    var more := s[e + 2..];
    assert more == value + "\"" + rest;
    assert more[..|value|] == value && more[|value|] == '"' && more[|value| + 1..] == rest;
    FindIs(more, '"', |value|);
  }

  /** The attributes written are the attributes read. */
  lemma {:induction false} AttributesReadBack(list: seq<Attribute>, close: string)
    requires Readable(list) && (close == "" || close[0] != ' ')
    ensures ReadAttributes(Attributes(list) + close) == list
  {
    hide ReadAttributes;
    if list == [] {
      assert Attributes(list) + close == close;
      NoAttributes(close);
    } else {
      var first, rest := list[0], list[1..];
      assert list == [first] + rest;
      AttributesFirst(first, rest);
      AttributesReadBack(rest, close);
      assert Attributes(list) + close ==
             " " + first.name + "=\"" + first.value + "\"" + (Attributes(rest) + close);
      ReadFirst(first.name, first.value, Attributes(rest) + close);
    }
  }

  lemma NoAttributes(s: string)
    requires s == "" || s[0] != ' '
    ensures ReadAttributes(s) == []
  {
  }

  /** The value of the first attribute with a name. */
  function Lookup(list: seq<Attribute>, name: string): string {
    if list == [] then "" else if list[0].name == name then list[0].value else Lookup(list[1..], name)
  }

  // ------------------------------------------------------------------ filing the cells

  datatype Cell = Cell(style: nat, text: string)

  /** What the reader has seen: the number of the row it is in, the address and style of the cell it is in,
      the cell's characters, and the cells filed so far. */
  datatype Desk = Desk(row: string, address: string, style: string, text: Option<string>, filed: map<(nat, nat), Cell>)

  /** A cell is filed under its address; one whose row is not the row it stands in is not. */
  function FileUnder(d: Desk): map<(nat, nat), Cell>
    requires d.text.Some?
  {
    match Place(d.address)
    case None => d.filed
    case Some(place) =>
      if Digits(d.row) && Digits(d.style) && Number(d.row) == place.0 + 1
      then d.filed[place := Cell(Number(d.style), Unescape(d.text.value))]
      else d.filed
  }

  function FileToken(d: Desk, token: Token): Desk {
    match token
    case Chars(text) => if d.text.Some? then d.(text := Some(d.text.value + text)) else d
    case Tag(body) =>
      if "row " <= body then d.(row := Lookup(ReadAttributes(body[3..]), "r"))
      else if "c " <= body then
        d.(address := Lookup(ReadAttributes(body[1..]), "r"), style := Lookup(ReadAttributes(body[1..]), "s"))
      else if "t " <= body then d.(text := Some(""))
      else if body == "/t" && d.text.Some? then d.(text := None, filed := FileUnder(d))
      else d
  }

  function FileAll(d: Desk, tokens: seq<Token>): Desk {
    if tokens == [] then d else FileToken(FileAll(d, tokens[..|tokens| - 1]), tokens[|tokens| - 1])
  }

  const EMPTY_DESK := Desk("", "", "", None, map[])

  /** The cells of a sheet by row and column. */
  function CellsByAddress(text: string): map<(nat, nat), Cell> {
    FileAll(EMPTY_DESK, Scan(text)).filed
  }

  lemma {:induction false} FileConcat(d: Desk, a: seq<Token>, b: seq<Token>)
    ensures FileAll(d, a + b) == FileAll(FileAll(d, a), b)
  {
    hide FileToken;
    if b == [] {
      assert a + b == a;
    } else {
      FileConcat(d, a, b[..|b| - 1]);
      assert (a + b)[..|a + b| - 1] == a + b[..|b| - 1];
    }
  }

  lemma FileOne(d: Desk, token: Token)
    ensures FileAll(d, [token]) == FileToken(d, token)
  {
    hide FileToken;
    assert [token][..0] == [];
  }

  lemma {:induction false} FramesFileNothing(d: Desk, tokens: seq<Token>)
    requires Frames(tokens)
    ensures FileAll(d, tokens) == d
  {
    if tokens != [] {
      var k := |tokens| - 1;
      assert Frames(tokens[..k]);
      FramesFileNothing(d, tokens[..k]);
      assert Frame(tokens[k]);
    }
  }

  // ------------------------------------------------------------------ one cell

  lemma CellAttributes(r: nat, c: nat, style: Style)
    ensures CellTag(r, c, style).Tag? && "c " <= CellTag(r, c, style).body
    ensures var list := ReadAttributes(CellTag(r, c, style).body[1..]);
      Lookup(list, "r") == Address(c, r) && Lookup(list, "s") == Decimal(StyleNumber(style))
  {
    hide Address, Decimal, ReadAttributes;
    var list := [Attribute("r", Address(c, r)), Attribute("s", Decimal(StyleNumber(style))), Attribute("t", "inlineStr")];
    var body := CellTag(r, c, style).body;
    AddressPlain(c, r);
    NoQuotes(StyleNumber(style));
    AttributesReadBack(list, "");
    AttributesFirst(list[0], list[1..]);
    assert list == [list[0]] + list[1..];
    hide Attributes;
    assert body[1..] == Attributes(list) + "";
    assert Attributes(list)[0] == ' ';
    assert body[0] == 'c' && body[1] == ' ';
    LookupThree(list);
  }

  lemma LookupThree(list: seq<Attribute>)
    requires |list| == 3 && list[0].name == "r" && list[1].name == "s"
    ensures Lookup(list, "r") == list[0].value && Lookup(list, "s") == list[1].value
  {
  }

  lemma NoQuotes(n: nat)
    ensures '"' !in Decimal(n) && '=' !in Decimal(n)
  {
    hide Decimal;
    DecimalIsDigits(n);
  }

  lemma AddressPlain(c: nat, r: nat)
    ensures '"' !in Address(c, r)
  {
    hide Decimal, Name;
    NameDecodes(c + 1);
    NoQuotes(r + 1);
  }

  lemma RowAttribute(r: nat)
    ensures RowTag(r).Tag? && "row " <= RowTag(r).body
    ensures Lookup(ReadAttributes(RowTag(r).body[3..]), "r") == Decimal(r + 1)
  {
    hide Decimal, ReadAttributes;
    var list := [Attribute("r", Decimal(r + 1))];
    var body := RowTag(r).body;
    NoQuotes(r + 1);
    AttributesReadBack(list, "");
    AttributesFirst(list[0], []);
    assert list == [list[0]] + [];
    assert Attributes([]) == "";
    hide Attributes;
    assert Attributes(list)[0] == ' ';
    assert body[..3] == "row" && body[3] == ' ';
    assert body[..4] == "row" + " ";
    assert body[3..] == Attributes(list) + "";
  }

  lemma CellBegun(d: Desk, r: nat, c: nat, style: Style)
    ensures FileAll(d, [CellTag(r, c, style), Tag("is"), TEXT_TAG]) ==
            d.(address := Address(c, r), style := Decimal(StyleNumber(style)), text := Some(""))
  {
    hide CellTag, TEXT_TAG, Address, Decimal;
    var front := [CellTag(r, c, style), Tag("is")];
    FileConcat(d, front, [TEXT_TAG]);
    assert front + [TEXT_TAG] == [CellTag(r, c, style), Tag("is"), TEXT_TAG];
    FileConcat(d, [CellTag(r, c, style)], [Tag("is")]);
    assert [CellTag(r, c, style)] + [Tag("is")] == front;
    FileOne(d, CellTag(r, c, style));
    var begun := d.(address := Address(c, r), style := Decimal(StyleNumber(style)));
    assert FileToken(d, CellTag(r, c, style)) == begun by { CellTagFiled(d, r, c, style); }
    FileOne(begun, Tag("is"));
    FileOne(begun, TEXT_TAG);
    TextTagFiled(begun);
  }

  lemma CellTagFiled(d: Desk, r: nat, c: nat, style: Style)
    ensures FileToken(d, CellTag(r, c, style)) == d.(address := Address(c, r), style := Decimal(StyleNumber(style)))
  {
    hide CellTag, Address, Decimal, ReadAttributes, Lookup;
    CellAttributes(r, c, style);
    assert CellTag(r, c, style).body[0] == 'c';
  }

  lemma TextTagFiled(d: Desk)
    ensures FileToken(d, TEXT_TAG) == d.(text := Some(""))
  {
    var one := [Attribute("xml:space", "preserve")];
    assert one[..0] == [];
    assert TEXT_TAG.body[0] == 't' && TEXT_TAG.body[1] == ' ';
  }

  lemma TextFiled(d: Desk, text: string)
    requires d.text == Some("")
    ensures FileAll(d, CharsOf(text)) == d.(text := Some(text))
  {
    if text != "" {
      FileOne(d, Chars(text));
      assert "" + text == text;
    }
  }

  lemma CellEnded(d: Desk)
    requires d.text.Some?
    ensures FileAll(d, [Tag("/t"), Tag("/is"), Tag("/c")]) == d.(text := None, filed := FileUnder(d))
  {
    hide FileUnder, FileToken;
    var done := d.(text := None, filed := FileUnder(d));
    FileConcat(d, [Tag("/t")], [Tag("/is"), Tag("/c")]);
    assert [Tag("/t")] + [Tag("/is"), Tag("/c")] == [Tag("/t"), Tag("/is"), Tag("/c")];
    FileOne(d, Tag("/t"));
    TextEndFiled(d);
    FileConcat(done, [Tag("/is")], [Tag("/c")]);
    assert [Tag("/is")] + [Tag("/c")] == [Tag("/is"), Tag("/c")];
    FileOne(done, Tag("/is"));
    EndFiled(done, "/is");
    FileOne(done, Tag("/c"));
    EndFiled(done, "/c");
  }

  lemma TextEndFiled(d: Desk)
    requires d.text.Some?
    ensures FileToken(d, Tag("/t")) == d.(text := None, filed := FileUnder(d))
  {
    hide FileUnder;
    assert |"/t"| == 2;
  }

  lemma EndFiled(d: Desk, name: string)
    requires d.text.None? && name != "" && name[0] == '/'
    ensures FileToken(d, Tag(name)) == d
  {
  }

  /** A written cell is filed at its row and column, with its style's number and its stripped text. */
  lemma CellIsFiled(d: Desk, r: nat, c: nat, style: Style, v: string)
    requires d.row == Decimal(r + 1) && d.text.None?
    ensures FileAll(d, CellTokens(r, c, style, v)) ==
            d.(address := Address(c, r), style := Decimal(StyleNumber(style)),
               filed := d.filed[(r, c) := Cell(StyleNumber(style), Strip(v))])
  {
    hide Escape, Unescape, Strip, CellTag, FileToken, FileAll, CharsOf, TEXT_TAG, Address, Decimal, FileUnder;
    var front := [CellTag(r, c, style), Tag("is"), TEXT_TAG];
    var text := CharsOf(Escape(v));
    var back := [Tag("/t"), Tag("/is"), Tag("/c")];
    assert CellTokens(r, c, style, v) == front + text + back;
    FileConcat(d, front + text, back);
    FileConcat(d, front, text);
    CellBegun(d, r, c, style);
    var begun := d.(address := Address(c, r), style := Decimal(StyleNumber(style)), text := Some(""));
    TextFiled(begun, Escape(v));
    CellEnded(begun.(text := Some(Escape(v))));
    FiledThere(begun.(text := Some(Escape(v))), r, c, style, v);
  }

  lemma FiledThere(d: Desk, r: nat, c: nat, style: Style, v: string)
    requires d.row == Decimal(r + 1) && d.address == Address(c, r) && d.style == Decimal(StyleNumber(style)) && d.text == Some(Escape(v))
    ensures FileUnder(d) == d.filed[(r, c) := Cell(StyleNumber(style), Strip(v))]
  {
    hide Escape, Unescape, Strip, Address, Decimal, Number, Place;
    PlaceOf(c, r);
    NumberOfDecimal(r + 1);
    NumberOfDecimal(StyleNumber(style));
    EscapeRoundTrip(v);
  }

  // ------------------------------------------------------------------ the whole grid

  /** Filed are exactly the cells of the first `r` rows and the first `n` of row `r`, each with its style and
      text. */
  ghost predicate FiledTo(rows: seq<seq<string>>, styles: Styles, filed: map<(nat, nat), Cell>, r: nat, n: nat)
    requires Covers(styles, rows)
  {
    && (forall a: nat, b: nat :: (a, b) in filed <==> a < |rows| && b < |rows[a]| && (a < r || (a == r && b < n)))
    && (forall a: nat, b: nat :: (a, b) in filed ==> filed[(a, b)] == Cell(StyleNumber(StyleAt(styles, a, b)), Strip(rows[a][b])))
  }

  lemma {:induction false} CellsAreFiled(d: Desk, rows: seq<seq<string>>, styles: Styles, r: nat, n: nat)
    requires Covers(styles, rows) && r < |rows| && n <= |rows[r]|
    requires d.row == Decimal(r + 1) && d.text.None? && FiledTo(rows, styles, d.filed, r, 0)
    ensures var after := FileAll(d, CellsTokens(rows, styles, r, n));
      after.row == d.row && after.text.None? && FiledTo(rows, styles, after.filed, r, n)
  {
    hide CellTokens, Strip, FileToken, FileAll, Decimal, Address, StyleNumber;
    if n > 0 {
      CellsAreFiled(d, rows, styles, r, n - 1);
      var style := StyleAt(styles, r, n - 1);
      var cell := CellTokens(r, n - 1, style, rows[r][n - 1]);
      FileConcat(d, CellsTokens(rows, styles, r, n - 1), cell);
      CellIsFiled(FileAll(d, CellsTokens(rows, styles, r, n - 1)), r, n - 1, style, rows[r][n - 1]);
    } else {
      FileNothing(d);
    }
  }

  lemma FileNothing(d: Desk)
    ensures FileAll(d, []) == d
  {
  }

  lemma RowIsFiled(d: Desk, rows: seq<seq<string>>, styles: Styles, r: nat)
    requires Covers(styles, rows) && r < |rows| && d.text.None? && FiledTo(rows, styles, d.filed, r, 0)
    ensures var after := FileAll(d, RowTokens(rows, styles, r));
      after.text.None? && FiledTo(rows, styles, after.filed, r + 1, 0)
  {
    hide CellsTokens, RowTag, FileToken, Decimal, StyleNumber, Strip;
    var start, cells, end := [RowTag(r)], CellsTokens(rows, styles, r, |rows[r]|), [Tag("/row")];
    FileConcat(d, start + cells, end);
    FileConcat(d, start, cells);
    FileOne(d, RowTag(r));
    RowTagFiled(d, r);
    var begun := d.(row := Decimal(r + 1));
    CellsAreFiled(begun, rows, styles, r, |rows[r]|);
    var done := FileAll(begun, cells);
    FileOne(done, Tag("/row"));
    EndFiled(done, "/row");
  }

  lemma RowTagFiled(d: Desk, r: nat)
    ensures FileToken(d, RowTag(r)) == d.(row := Decimal(r + 1))
  {
    hide RowTag, Decimal, ReadAttributes, Lookup;
    RowAttribute(r);
  }

  lemma {:induction false} RowsAreFiled(rows: seq<seq<string>>, styles: Styles, n: nat)
    requires Covers(styles, rows) && n <= |rows|
    ensures var after := FileAll(EMPTY_DESK, RowsTokens(rows, styles, n));
      after.text.None? && FiledTo(rows, styles, after.filed, n, 0)
  {
    hide RowTokens, FileAll, FileToken, StyleNumber, Strip;
    if n > 0 {
      RowsAreFiled(rows, styles, n - 1);
      FileConcat(EMPTY_DESK, RowsTokens(rows, styles, n - 1), RowTokens(rows, styles, n - 1));
      RowIsFiled(FileAll(EMPTY_DESK, RowsTokens(rows, styles, n - 1)), rows, styles, n - 1);
    } else {
      FileNothing(EMPTY_DESK);
    }
  }

  /** Read by its addresses, a written sheet holds exactly the cells of the grid, each at its own row and
      column, with the number of its style and its text but for the control characters. */
  lemma SheetFiledByAddress(rows: seq<seq<string>>, widths: seq<string>, freeze: bool, filt: bool, styles: Styles)
    requires Covers(styles, rows) && forall i :: 0 <= i < |widths| ==> Numeral(widths[i])
    ensures var filed := CellsByAddress(RenderAll(SheetTokens(rows, widths, freeze, filt, styles)));
      && (forall r: nat, c: nat :: (r, c) in filed <==> r < |rows| && c < |rows[r]|)
      && (forall r: nat, c: nat :: r < |rows| && c < |rows[r]| ==>
            filed[(r, c)] == Cell(StyleNumber(StyleAt(styles, r, c)), Strip(rows[r][c])))
  {
    hide HeadTokens, RowsTokens, FootTokens, Frames, Plain, FileAll, RenderAll, Scan, Strip, StyleNumber, FileToken;
    var head, body, foot := HeadTokens(widths, freeze), RowsTokens(rows, styles, |rows|), FootTokens(rows, filt);
    SheetIsBlock(rows, widths, freeze, filt, styles);
    ScanRendered(head + body + foot);
    HeadAndFootAreFrames(rows, widths, freeze, filt);
    FileConcat(EMPTY_DESK, head + body, foot);
    FileConcat(EMPTY_DESK, head, body);
    FramesFileNothing(EMPTY_DESK, head);
    RowsAreFiled(rows, styles, |rows|);
    FramesFileNothing(FileAll(EMPTY_DESK, body), foot);
  }

  /** The cell formats of the style sheet, in its order; without styles the first row is the header and the
      others are normal. */
  const FORMATS := [Header, Normal, Green, Amber, Red, Grey, Title, Bold]

  lemma StylesByNumber(styles: Styles, r: nat, c: nat)
    requires Given(styles) ==> r < |styles.value| && c < |styles.value[r]|
    ensures 1 <= StyleNumber(StyleAt(styles, r, c)) <= 8
    ensures var format := FORMATS[StyleNumber(StyleAt(styles, r, c)) - 1];
      match styles
      case None => format == if r == 0 then Header else Normal
      case Some(given) => given == [] || format == given[r][c]
  {
  }
}

/** The characters of a written sheet: which are legal in XML, and what a reader that normalises line ends
    gets back. */
module SheetText {
  import opened Wrappers
  import opened Sheets

  predicate AllOk(s: string, ok: char -> bool) {
    forall k :: 0 <= k < |s| ==> ok(s[k])
  }

  /** The characters a writer adds of its own are ok. */
  ghost predicate Admits(ok: char -> bool) {
    ok('<') && ok('>') && ok('&') && forall c :: Safe(c) ==> ok(c)
  }

  ghost predicate GridOk(grid: seq<seq<string>>, ok: char -> bool) {
    forall r, c :: 0 <= r < |grid| && 0 <= c < |grid[r]| ==> AllOk(grid[r][c], ok)
  }

  // ------------------------------------------------------------------ from the cells to the text

  predicate TokenOk(token: Token, ok: char -> bool) {
    match token
    case Tag(body) => SafeText(body)
    case Chars(text) => AllOk(text, ok)
  }

  predicate TokensOk(tokens: seq<Token>, ok: char -> bool) {
    forall i :: 0 <= i < |tokens| ==> TokenOk(tokens[i], ok)
  }

  lemma {:induction false} RenderedOk(tokens: seq<Token>, ok: char -> bool)
    requires TokensOk(tokens, ok) && Admits(ok)
    ensures AllOk(RenderAll(tokens), ok)
  {
    if tokens != [] {
      RenderedOk(tokens[1..], ok);
      assert TokenOk(tokens[0], ok);
      assert AllOk(Render(tokens[0]), ok);
    }
  }

  lemma {:induction false} EscapedOk(s: string, ok: char -> bool)
    requires Admits(ok) && AllOk(Strip(s), ok)
    ensures AllOk(Escape(s), ok)
  {
    if s != "" {
      assert Strip(s) == (if Control(s[0]) then "" else [s[0]]) + Strip(s[1..]);
      assert AllOk(Strip(s[1..]), ok) by {
        var t := Strip(s);
        assert forall k :: 0 <= k < |Strip(s[1..])| ==> Strip(s[1..])[k] == t[k + |t| - |Strip(s[1..])|];
      }
      EscapedOk(s[1..], ok);
      assert AllOk(EscapeChar(s[0]), ok) by {
        if !Control(s[0]) { assert Strip(s)[0] == s[0]; }
        assert SafeText("&amp;") && SafeText("&lt;") && SafeText("&gt;");
      }
    }
  }

  /** Every token of a sheet is ok when its cells are. */
  lemma SheetTokensOk(rows: seq<seq<string>>, widths: seq<string>, freeze: bool, filt: bool, styles: Styles, ok: char -> bool)
    requires Covers(styles, rows) && forall i :: 0 <= i < |widths| ==> Numeral(widths[i])
    requires Admits(ok) && GridOk(StripGrid(rows), ok)
    ensures TokensOk(SheetTokens(rows, widths, freeze, filt, styles), ok)
  {
    hide HeadTokens, FootTokens, RowsTokens, StripGrid, Frames, Frame;
    HeadAndFootAreFrames(rows, widths, freeze, filt);
    FramesOk(HeadTokens(widths, freeze), ok);
    FramesOk(FootTokens(rows, filt), ok);
    RowsOk(rows, styles, |rows|, ok);
  }

  lemma FramesOk(tokens: seq<Token>, ok: char -> bool)
    requires Frames(tokens)
    ensures TokensOk(tokens, ok)
  {
    forall i | 0 <= i < |tokens|
      ensures TokenOk(tokens[i], ok)
    {
      assert Frame(tokens[i]);
    }
  }

  lemma {:induction false} RowsOk(rows: seq<seq<string>>, styles: Styles, n: nat, ok: char -> bool)
    requires Covers(styles, rows) && n <= |rows| && Admits(ok) && GridOk(StripGrid(rows), ok)
    ensures TokensOk(RowsTokens(rows, styles, n), ok)
  {
    hide CellsTokens, RowTag, StripGrid, TokenOk;
    if n > 0 {
      RowsOk(rows, styles, n - 1, ok);
      CellsOk(rows, styles, n - 1, |rows[n - 1]|, ok);
      RowTagOk(n - 1, ok);
    }
  }

  lemma RowTagOk(r: nat, ok: char -> bool)
    ensures TokenOk(RowTag(r), ok) && TokenOk(Tag("/row"), ok)
  {
    hide RowTag;
    CellTagPlain(r, 0, Normal);
    TagsAreTags(r, 0, Normal);
  }

  lemma {:induction false} CellsOk(rows: seq<seq<string>>, styles: Styles, r: nat, n: nat, ok: char -> bool)
    requires Covers(styles, rows) && r < |rows| && n <= |rows[r]| && Admits(ok) && GridOk(StripGrid(rows), ok)
    ensures TokensOk(CellsTokens(rows, styles, r, n), ok)
  {
    hide CellTokens, TokenOk, Strip;
    if n > 0 {
      CellsOk(rows, styles, r, n - 1, ok);
      assert StripGrid(rows)[r][n - 1] == Strip(rows[r][n - 1]);
      CellOk(r, n - 1, StyleAt(styles, r, n - 1), rows[r][n - 1], ok);
    }
  }

  lemma CellOk(r: nat, c: nat, style: Style, v: string, ok: char -> bool)
    requires Admits(ok) && AllOk(Strip(v), ok)
    ensures TokensOk(CellTokens(r, c, style, v), ok)
  {
    hide CellTag, TEXT_TAG, Escape, Strip;
    EscapedOk(v, ok);
    CellTagPlain(r, c, style);
    TextTagPlain();
    TagsAreTags(r, c, style);
  }

  // ------------------------------------------------------------------ from the text to the cells

  lemma {:induction false} ScannedOk(s: string, ok: char -> bool)
    requires AllOk(s, ok)
    ensures forall i :: 0 <= i < |Scan(s)| && Scan(s)[i].Chars? ==> AllOk(Scan(s)[i].text, ok)
    decreases |s|
  {
    if s != "" {
      if s[0] == '<' {
        var k := Find(s, '>');
        if k < |s| { ScannedOk(s[k + 1..], ok); }
      } else {
        var k := Find(s, '<');
        assert AllOk(s[..k], ok) && AllOk(s[k..], ok);
        ScannedOk(s[k..], ok);
      }
    }
  }

  lemma {:induction false} UnescapedOk(s: string, ok: char -> bool)
    requires AllOk(s, ok) && ok('&') && ok('<') && ok('>')
    ensures AllOk(Unescape(s), ok)
    decreases |s|
  {
    if s != "" {
      if "&amp;" <= s { UnescapedOk(s[5..], ok); }
      else if "&lt;" <= s { UnescapedOk(s[4..], ok); }
      else if "&gt;" <= s { UnescapedOk(s[4..], ok); }
      else { UnescapedOk(s[1..], ok); }
    }
  }

  lemma {:induction false} ReadOk(tokens: seq<Token>, ok: char -> bool)
    requires forall i :: 0 <= i < |tokens| && tokens[i].Chars? ==> AllOk(tokens[i].text, ok)
    requires ok('&') && ok('<') && ok('>')
    ensures var st := ReadAll(Reading([], None), tokens);
      GridOk(st.grid, ok) && (st.cell.Some? ==> AllOk(st.cell.value, ok))
  {
    hide Unescape;
    if tokens != [] {
      var k := |tokens| - 1;
      ReadOk(tokens[..k], ok);
      var before := ReadAll(Reading([], None), tokens[..k]);
      if before.cell.Some? { UnescapedOk(before.cell.value, ok); }
    }
  }

  /** A reader adds nothing of its own but the three markup characters. */
  lemma ReaderAddsNothing(text: string, ok: char -> bool)
    requires AllOk(text, ok) && ok('&') && ok('<') && ok('>')
    ensures GridOk(Cells(text), ok)
  {
    ScannedOk(text, ok);
    ReadOk(Scan(text), ok);
  }

  /** A written sheet is ok exactly when its cells are. */
  lemma SheetOkExactly(rows: seq<seq<string>>, widths: seq<string>, freeze: bool, filt: bool, styles: Styles, ok: char -> bool)
    requires Covers(styles, rows) && forall i :: 0 <= i < |widths| ==> Numeral(widths[i])
    requires Admits(ok)
    ensures AllOk(RenderAll(SheetTokens(rows, widths, freeze, filt, styles)), ok) <==> GridOk(StripGrid(rows), ok)
  {
    hide SheetTokens, RenderAll, StripGrid, Cells;
    var tokens := SheetTokens(rows, widths, freeze, filt, styles);
    if GridOk(StripGrid(rows), ok) {
      SheetTokensOk(rows, widths, freeze, filt, styles, ok);
      RenderedOk(tokens, ok);
    }
    if AllOk(RenderAll(tokens), ok) {
      ReaderAddsNothing(RenderAll(tokens), ok);
      SheetRoundTrip(rows, widths, freeze, filt, styles);
    }
  }

  lemma {:induction false} StripKeeps(s: string, c: char)
    requires !Control(c)
    ensures c in Strip(s) <==> c in s
  {
    if s != "" { StripKeeps(s[1..], c); }
  }

  lemma {:induction false} StrippedIsNoControl(s: string)
    ensures forall k :: 0 <= k < |Strip(s)| ==> !Control(Strip(s)[k])
  {
    if s != "" { StrippedIsNoControl(s[1..]); }
  }

  // ------------------------------------------------------------------ legal characters

  /** Section 2.2 of XML 1.0. A character here is never a surrogate. */
  predicate Legal(c: char) {
    || c == '\t' || c == '\n' || c == '\r' || (0x20 <= c as int <= 0xD7FF)
    || (0xE000 <= c as int <= 0xFFFD) || 0x10000 <= c as int
  }

  predicate NonCharacter(c: char) {
    c as int == 0xFFFE || c as int == 0xFFFF
  }

  /** No cell holds U+FFFE or U+FFFF. */
  ghost predicate NoNonCharacters(rows: seq<seq<string>>) {
    forall r, c, k :: 0 <= r < |rows| && 0 <= c < |rows[r]| && 0 <= k < |rows[r][c]| ==> !NonCharacter(rows[r][c][k])
  }

  /** A written sheet is legal XML text exactly when no cell holds U+FFFE or U+FFFF. */
  lemma SheetLegalExactly(rows: seq<seq<string>>, widths: seq<string>, freeze: bool, filt: bool, styles: Styles)
    requires Covers(styles, rows) && forall i :: 0 <= i < |widths| ==> Numeral(widths[i])
    ensures AllOk(RenderAll(SheetTokens(rows, widths, freeze, filt, styles)), Legal) <==> NoNonCharacters(rows)
  {
    hide SheetTokens, RenderAll, StripGrid;
    SheetOkExactly(rows, widths, freeze, filt, styles, Legal);
    LegalCells(rows);
  }

  lemma LegalCells(rows: seq<seq<string>>)
    ensures GridOk(StripGrid(rows), Legal) <==> NoNonCharacters(rows)
  {
    hide Strip;
    forall r, c | 0 <= r < |rows| && 0 <= c < |rows[r]|
      ensures AllOk(StripGrid(rows)[r][c], Legal) <==> forall k :: 0 <= k < |rows[r][c]| ==> !NonCharacter(rows[r][c][k])
    {
      LegalCell(rows[r][c]);
    }
  }

  lemma LegalCell(s: string)
    ensures AllOk(Strip(s), Legal) <==> forall k :: 0 <= k < |s| ==> !NonCharacter(s[k])
  {
    hide Strip;
    var t := Strip(s);
    StrippedIsNoControl(s);
    if AllOk(t, Legal) {
      forall k | 0 <= k < |s|
        ensures !NonCharacter(s[k])
      {
        if !Control(s[k]) { StripKeeps(s, s[k]); }
      }
    }
    if forall k :: 0 <= k < |s| ==> !NonCharacter(s[k]) {
      forall k | 0 <= k < |t|
        ensures Legal(t[k])
      {
        StripKeeps(s, t[k]);
      }
    }
  }

  // ------------------------------------------------------------------ line ends

  /** Section 2.11 of XML 1.0: a carriage return, with the line feed after it if there is one, is read as one
      line feed. */
  function Normalised(s: string): string {
    if s == "" then ""
    else if s[0] != '\r' then [s[0]] + Normalised(s[1..])
    else if |s| > 1 && s[1] == '\n' then "\n" + Normalised(s[2..])
    else "\n" + Normalised(s[1..])
  }

  predicate NoReturn(c: char) {
    c != '\r'
  }

  lemma {:induction false} NormalisedHasNone(s: string)
    ensures AllOk(Normalised(s), NoReturn)
    decreases |s|
  {
    if s != "" {
      if s[0] == '\r' && |s| > 1 && s[1] == '\n' { NormalisedHasNone(s[2..]); }
      else { NormalisedHasNone(s[1..]); }
    }
  }

  lemma {:induction false} NothingToNormalise(s: string)
    requires AllOk(s, NoReturn)
    ensures Normalised(s) == s
  {
    if s != "" {
      assert NoReturn(s[0]);
      NothingToNormalise(s[1..]);
    }
  }

  /** What a reader that normalises line ends gets. */
  function NormalisedCells(text: string): seq<seq<string>> {
    Cells(Normalised(text))
  }

  /** Whatever the text, such a reader never gets a carriage return. */
  lemma NeverReadsReturn(text: string)
    ensures GridOk(NormalisedCells(text), NoReturn)
  {
    NormalisedHasNone(text);
    ReaderAddsNothing(Normalised(text), NoReturn);
  }

  ghost predicate NoReturns(rows: seq<seq<string>>) {
    forall r, c :: 0 <= r < |rows| && 0 <= c < |rows[r]| ==> '\r' !in rows[r][c]
  }

  lemma ReturnlessCells(rows: seq<seq<string>>)
    ensures GridOk(StripGrid(rows), NoReturn) <==> NoReturns(rows)
  {
    hide Strip;
    forall r, c | 0 <= r < |rows| && 0 <= c < |rows[r]|
      ensures AllOk(StripGrid(rows)[r][c], NoReturn) <==> '\r' !in rows[r][c]
    {
      StripKeeps(rows[r][c], '\r');
    }
  }

  /** A reader that normalises line ends gets the stripped grid back exactly when no cell holds a carriage
      return. */
  lemma NormalisedRoundTripExactly(rows: seq<seq<string>>, widths: seq<string>, freeze: bool, filt: bool, styles: Styles)
    requires Covers(styles, rows) && forall i :: 0 <= i < |widths| ==> Numeral(widths[i])
    ensures NormalisedCells(RenderAll(SheetTokens(rows, widths, freeze, filt, styles))) == StripGrid(rows) <==> NoReturns(rows)
  {
    hide SheetTokens, RenderAll, StripGrid, Cells, GridOk;
    var text := RenderAll(SheetTokens(rows, widths, freeze, filt, styles));
    NeverReadsReturn(text);
    ReturnlessCells(rows);
    if NoReturns(rows) {
      SheetOkExactly(rows, widths, freeze, filt, styles, NoReturn);
      NothingToNormalise(text);
      SheetRoundTrip(rows, widths, freeze, filt, styles);
    }
  }
}

/**
 * `POST /generate-pdf`: the right-to-left text workaround and the table
 * layout of the attendance report, as a list of draw commands. The PDF
 * document itself, its font and the streaming are not modelled.
 */
module Report {
  import opened Wrappers
  import opened JsString
  import opened Labels

  /** `" " + text + " "`. */
  function Pad(t: string): string {
    [' '] + t + [' ']
  }

  /**
   * `reverseTextForRTL`: the space-separated tokens of the padded text in
   * reverse order, joined by single spaces.
   */
  function ReverseTextForRtl(t: string): string {
    Join(Reverse(Split(Pad(t), ' ')), ' ')
  }

  /** The padding adds one empty token at each end. */
  lemma PadTokens(t: string)
    ensures Split(Pad(t), ' ') == [""] + Split(t, ' ') + [""]
  {
    assert Pad(t) == [' '] + (t + [' ']);
    assert Pad(t)[1..] == t + [' '];
    SplitTrailing(t, ' ');
  }

  /** The tokens of the result are those of the padded text, reversed. */
  lemma RtlTokens(t: string)
    ensures Split(ReverseTextForRtl(t), ' ') == Reverse(Split(Pad(t), ' '))
  {
    SplitPiecesFree(Pad(t), ' ');
    SplitJoin(Reverse(Split(Pad(t), ' ')), ' ');
  }

  /** The result is two characters longer than the text and begins and ends with a space. */
  lemma RtlShape(t: string)
    ensures |ReverseTextForRtl(t)| == |t| + 2
    ensures ReverseTextForRtl(t)[0] == ' '
    ensures ReverseTextForRtl(t)[|t| + 1] == ' '
  {
    var pieces := Split(Pad(t), ' ');
    var r := Reverse(pieces);
    PadTokens(t);
    assert |r| >= 3 && r[0] == "" && r[|r| - 1] == "";
    JoinLength(r, ' ');
    TotalLengthReverse(pieces);
    JoinLength(pieces, ' ');
    JoinSplit(Pad(t), ' ');
    assert r == r[..|r| - 1] + [""];
    JoinSnoc(r[..|r| - 1], "", ' ');
    assert Join(r, ' ') == Join(r[..|r| - 1], ' ') + [' '];
  }

  /** A word without spaces is only padded: `w` becomes `" w "`. */
  lemma RtlWord(w: string)
    requires ' ' !in w
    ensures ReverseTextForRtl(w) == Pad(w)
  {
    PadTokens(w);
    SplitWhole(w, ' ');
    ReverseFramed("", [w], "");
    assert Reverse([w]) == [w];
    JoinFramed([w], ' ');
  }

  lemma ReverseFramed(x: string, s: seq<string>, y: string)
    ensures Reverse([x] + s + [y]) == [y] + Reverse(s) + [x]
  {
  }

  /** Applying the transform twice restores the token order, padded twice. */
  lemma RtlTwice(t: string)
    ensures ReverseTextForRtl(ReverseTextForRtl(t)) == Pad(Pad(t))
  {
    var pieces := Split(Pad(t), ' ');
    var once := ReverseTextForRtl(t);
    PadTokens(t);
    PadTokens(once);
    RtlTokens(t);
    assert Split(Pad(once), ' ') == [""] + Reverse(pieces) + [""];
    ReverseFramed("", Reverse(pieces), "");
    ReverseReverse(pieces);
    assert Reverse(Split(Pad(once), ' ')) == [""] + pieces + [""];
    JoinFramed(pieces, ' ');
    JoinSplit(Pad(t), ' ');
  }

  const StartY: int := 90
  const RowHeight: int := 20
  const StartX: int := 500
  const DayWidth: int := 65
  const NameWidth: int := 300
  const SymbolWidth: int := 55
  const NameX: int := StartX - DayWidth - NameWidth
  const SymbolX: int := StartX - DayWidth - NameWidth - SymbolWidth

  const TitlePrefix: string := "דוח נוכחות למפעיל: "
  /** Column headings, stored already in display order. */
  const DayHeading: string := " בשבוע יום "
  const NameHeading: string := " מוסד שם "
  const SymbolHeading: string := " מוסד סמל "

  /** `doc.text(text, x, y, { width, align: 'right' })`. */
  datatype Draw = Draw(text: string, x: int, y: int, width: nat)

  /** One element of the request's `data`; a field is `None` when undefined. */
  datatype ReportItem = ReportItem(symbolId: Option<string>, name: Option<string>, day: Option<string>)

  /** 400 for a missing or empty list, otherwise the title and the table's draw commands. */
  datatype PdfResult = BadRequest | Pdf(title: string, table: seq<Draw>)

  /** String conversion in `" " + x` and template literals: undefined becomes "undefined". */
  function Interpolate(o: Option<string>): string {
    match o
    case Some(s) => s
    case None => "undefined"
  }

  /** `x || 'לא נבחר'`: undefined and the empty string are falsy. */
  function OrNotSelected(o: Option<string>): (r: string)
    ensures r != ""
    ensures r == NotSelected || o == Some(r)
    ensures o.Some? && o.value != "" ==> r == o.value
  {
    if o.Some? && o.value != "" then o.value else NotSelected
  }

  /** The display text of one item's three cells, already transformed for right-to-left output. */
  datatype CellTexts = CellTexts(symbol: string, name: string, day: string)

  /**
   * The symbol is interpolated as is; the name and the day fall back to
   * "not selected" when undefined or empty.
   */
  function ItemTexts(item: ReportItem): CellTexts {
    CellTexts(ReverseTextForRtl(Interpolate(item.symbolId)),
              ReverseTextForRtl(OrNotSelected(item.name)),
              ReverseTextForRtl(OrNotSelected(item.day)))
  }

  /** The three cells of one row at height `y`, left to right: symbol, name, day. */
  function RowDraws(c: CellTexts, y: int): seq<Draw> {
    [ Draw(c.symbol, SymbolX, y, SymbolWidth),
      Draw(c.name, NameX, y, NameWidth),
      Draw(c.day, StartX, y, DayWidth) ]
  }

  /** The heading row. */
  function HeadingDraws(): seq<Draw> {
    [ Draw(DayHeading, StartX, StartY, DayWidth),
      Draw(NameHeading, NameX, StartY, NameWidth),
      Draw(SymbolHeading, SymbolX, StartY, SymbolWidth) ]
  }

  /** The height of row `n`, the headings being row 0: `y += rowHeight` once per row. */
  function RowY(n: nat): int {
    if n == 0 then StartY else RowY(n - 1) + RowHeight
  }

  /** Row `n` sits at y = 90 + 20 n. */
  lemma {:induction false} RowYAt(n: nat)
    ensures RowY(n) == 90 + 20 * n
  {
    if n > 0 {
      RowYAt(n - 1);
    }
  }

  /** The item rows, each one row height below the previous, starting one below the headings. */
  function ItemRows(rows: seq<CellTexts>): seq<Draw> {
    if rows == [] then []
    else ItemRows(rows[..|rows| - 1]) + RowDraws(rows[|rows| - 1], RowY(|rows|))
  }

  lemma {:induction false} ItemRowsSnoc(rows: seq<CellTexts>, c: CellTexts)
    ensures ItemRows(rows + [c]) == ItemRows(rows) + RowDraws(c, RowY(|rows| + 1))
  {
    assert (rows + [c])[..|rows|] == rows;
  }

  /** The cell texts of every item, in order. */
  function Texts(items: seq<ReportItem>): (texts: seq<CellTexts>)
    ensures |texts| == |items|
  {
    seq(|items|, k requires 0 <= k < |items| => ItemTexts(items[k]))
  }

  /** Row `i` occupies draws 3i to 3i + 2, at y = 110 + 20 i. */
  lemma {:induction false} ItemRowsAt(rows: seq<CellTexts>, i: nat)
    requires i < |rows|
    ensures |ItemRows(rows)| == 3 * |rows|
    ensures ItemRows(rows)[3 * i .. 3 * i + 3] == RowDraws(rows[i], 110 + 20 * i)
  {
    var init := rows[..|rows| - 1];
    if i < |rows| - 1 {
      ItemRowsAt(init, i);
      assert init[i] == rows[i];
      assert ItemRows(rows)[3 * i .. 3 * i + 3] == ItemRows(init)[3 * i .. 3 * i + 3];
    } else {
      RowYAt(|rows|);
      if init != [] {
        ItemRowsAt(init, 0);
      }
    }
  }

  /** With the headings in front, row `i` occupies draws 3 + 3i to 5 + 3i. */
  lemma {:induction false} HeadedRowsAt(rows: seq<CellTexts>, i: nat)
    requires i < |rows|
    ensures |HeadingDraws() + ItemRows(rows)| == 3 + 3 * |rows|
    ensures (HeadingDraws() + ItemRows(rows))[3 + 3 * i .. 6 + 3 * i] == RowDraws(rows[i], 110 + 20 * i)
  {
    ItemRowsAt(rows, i);
    assert (HeadingDraws() + ItemRows(rows))[3 + 3 * i .. 6 + 3 * i] == ItemRows(rows)[3 * i .. 3 * i + 3];
  }

  /** The table drawn for `rows`: the headings, then one row after another, three draws each. */
  lemma {:induction false} TableLayout(rows: seq<CellTexts>, table: seq<Draw>)
    requires rows != []
    requires table == HeadingDraws() + ItemRows(rows)
    ensures |table| == 3 + 3 * |rows|
    ensures table[..3] ==
      [Draw(DayHeading, 500, 90, 65), Draw(NameHeading, 135, 90, 300), Draw(SymbolHeading, 80, 90, 55)]
    ensures forall i :: 0 <= i < |rows| ==> table[3 + 3 * i .. 6 + 3 * i] == RowDraws(rows[i], 110 + 20 * i)
  {
    HeadedRowsAt(rows, 0);
    forall i | 0 <= i < |rows|
      ensures table[3 + 3 * i .. 6 + 3 * i] == RowDraws(rows[i], 110 + 20 * i)
    {
      HeadedRowsAt(rows, i);
    }
  }

  /** The three columns sit side by side, right to left: day, name, symbol. */
  lemma RowDrawsColumns(c: CellTexts, y: int)
    ensures |RowDraws(c, y)| == 3
    ensures RowDraws(c, y)[0].x == 80 && RowDraws(c, y)[0].width == 55
    ensures RowDraws(c, y)[1].x == 135 && RowDraws(c, y)[1].width == 300
    ensures RowDraws(c, y)[2].x == 500 && RowDraws(c, y)[2].width == 65
    ensures forall k :: 0 <= k < 3 ==> RowDraws(c, y)[k].y == y
    ensures RowDraws(c, y)[0].text == c.symbol && RowDraws(c, y)[1].text == c.name && RowDraws(c, y)[2].text == c.day
    ensures RowDraws(c, y)[0].x + 55 == RowDraws(c, y)[1].x
    ensures RowDraws(c, y)[1].x + 300 + 65 == RowDraws(c, y)[2].x
  {
  }

  /**
   * The `data.forEach` loop: the heading row, then each item's cells one
   * row height further down.
   */
  method DrawTable(texts: seq<CellTexts>) returns (table: seq<Draw>)
    ensures table == HeadingDraws() + ItemRows(texts)
  {
    table := HeadingDraws();
    var y := StartY + RowHeight;
    for i := 0 to |texts|
      invariant y == RowY(i + 1)
      invariant table == HeadingDraws() + ItemRows(texts[..i])
    {
      assert texts[..i + 1] == texts[..i] + [texts[i]];
      ItemRowsSnoc(texts[..i], texts[i]);
      table := table + RowDraws(texts[i], y);
      y := y + RowHeight;
    }
    assert texts[..|texts|] == texts;
  }

  /**
   * The `/generate-pdf` handler: a missing or empty list is rejected before
   * anything is drawn; otherwise the heading row at y = 90 and item `i` at
   * y = 110 + 20 i, symbol at x = 80, name at x = 135, day at x = 500.
   */
  method GeneratePdf(operatorName: Option<string>, data: Option<seq<ReportItem>>) returns (r: PdfResult)
    ensures r.BadRequest? <==> data.None? || data.value == []
    ensures r.Pdf? ==> r.title == ReverseTextForRtl(TitlePrefix + Interpolate(operatorName))
    ensures r.Pdf? ==> |r.table| == 3 + 3 * |data.value|
    ensures r.Pdf? ==> (r.table[..3] ==
      [Draw(DayHeading, 500, 90, 65), Draw(NameHeading, 135, 90, 300), Draw(SymbolHeading, 80, 90, 55)])
    ensures r.Pdf? ==> forall i :: 0 <= i < |data.value| ==>
      r.table[3 + 3 * i .. 6 + 3 * i] == RowDraws(Texts(data.value)[i], 110 + 20 * i)
  {
    if data.None? || |data.value| == 0 {
      return BadRequest;
    }
    var items := data.value;
    var table := DrawTable(Texts(items));
    TableLayout(Texts(items), table);
    var title := ReverseTextForRtl(TitlePrefix + Interpolate(operatorName));
    r := Pdf(title, table);
  }

  lemma TwoWordTokens(u: string, v: string)
    requires ' ' !in u && ' ' !in v
    ensures Split(Pad(u + [' '] + v), ' ') == ["", u, v, ""]
  {
    PadTokens(u + [' '] + v);
    SplitPiece(u, v, ' ');
    SplitWhole(v, ' ');
  }

  lemma JoinSpaced(u: string, v: string)
    ensures Join(["", v, u, ""], ' ') == [' '] + v + [' '] + u + [' ']
  {
    JoinCons(u, [""], ' ');
    JoinCons(v, [u, ""], ' ');
    JoinCons("", [v, u, ""], ' ');
    assert ["", v, u, ""] == [""] + [v, u, ""];
  }

  /** Two words swap places: `u v` is drawn as ` v u `. */
  lemma RtlTwoWords(u: string, v: string)
    requires ' ' !in u && ' ' !in v
    ensures ReverseTextForRtl(u + [' '] + v) == [' '] + v + [' '] + u + [' ']
  {
    TwoWordTokens(u, v);
    assert Reverse(["", u, v, ""]) == ["", v, u, ""];
    JoinSpaced(u, v);
  }
}

/** The invoice table and the blocks after it: column geometry, the item loop with its
    bottom-reserve page breaks, and the totals, payment and footer placements. A document is
    the sequence of placements in drawing order; each carries its page (0 is the first) and
    its y coordinate. Coordinates are PDF points; A4 is 595.28 by 841.89. */
module InvoiceLayout {
  import opened Wrappers

  /** One line item of the request body. The quantity, price and total are not checked before
      drawing and may be absent (None); the layout only carries them. */
  datatype Item = Item(product: string, quantity: Option<real>, price: Option<real>, total: Option<real>)

  datatype Placement =
    | TableHeader(page: nat, y: real)
    | Row(page: nat, y: real, index: nat, shaded: bool, item: Item)
    | TotalsBox(page: nat, y: real)
    | PaymentBox(page: nat, y: real)
    | Footer(page: nat, y: real)

  datatype Align = Left | Center | Right

  /** A text cell: left edge, top, width and alignment. */
  datatype Cell = Cell(x: real, y: real, width: real, align: Align)

  /** A filled rectangle. */
  datatype Band = Band(x: real, y: real, width: real, height: real)

  const A4_WIDTH: real := 595.28
  const A4_HEIGHT: real := 841.89

  const TABLE_LEFT: real := 40.0
  const FIRST_TABLE_TOP: real := 230.0
  const PAGE_TOP: real := 40.0
  const HEADER_BAND_HEIGHT: real := 20.0
  const HEADER_TO_ROW: real := 25.0
  const ROW_HEIGHT: real := 15.0
  const BOTTOM_RESERVE: real := 100.0
  const TOTALS_GAP: real := 10.0
  const TOTALS_WIDTH: real := 180.0
  const TOTALS_HEIGHT: real := 70.0
  const PAYMENT_GAP: real := 80.0
  const PAYMENT_HEIGHT: real := 40.0
  const FOOTER_GAP: real := 50.0
  const FOOTER_HEIGHT: real := 20.0
  const COL_WIDTHS: seq<real> := [220.0, 60.0, 80.0, 80.0]

  /** Where the first row goes below the first page's header, and below a repeated header. */
  const FIRST_ROW_Y: real := FIRST_TABLE_TOP + HEADER_TO_ROW
  const FRESH_ROW_Y: real := PAGE_TOP + HEADER_TO_ROW

  /** The page-break test: content of this height placed at y would reach into the reserve. */
  predicate Overflows(pageHeight: real, y: real, height: real)
  {
    y + height > pageHeight - BOTTOM_RESERVE
  }

  // ---------------------------------------------------------------------------------------
  // Columns and bands

  /** `arr.reduce((a, b) => a + b, 0)`. */
  function Sum(s: seq<real>): real
  {
    if s == [] then 0.0 else s[0] + Sum(s[1..])
  }

  lemma {:induction false} SumSnoc(s: seq<real>, i: nat)
    requires i < |s|
    ensures Sum(s[..i + 1]) == Sum(s[..i]) + s[i]
    decreases i
  {
    if i > 0 {
      SumSnoc(s[1..], i - 1);
      assert s[..i + 1][1..] == s[1..][..i];
      assert s[..i][1..] == s[1..][..i - 1];
    }
  }

  function TableWidth(pageWidth: real): real
  {
    pageWidth - 2.0 * TABLE_LEFT
  }

  /** Column i's left text edge: the table's left edge, the widths of the columns before it,
      and 5 points of padding. */
  function ColumnX(i: nat): real
    requires i < |COL_WIDTHS|
  {
    TABLE_LEFT + Sum(COL_WIDTHS[..i]) + 5.0
  }

  function ColumnWidth(i: nat): real
    requires i < |COL_WIDTHS|
  {
    COL_WIDTHS[i] - 10.0
  }

  function ColumnAlign(i: nat): Align
  {
    if i == 0 then Left else if i == 1 then Center else Right
  }

  function ColumnCells(y: real): seq<Cell>
  {
    seq(|COL_WIDTHS|, i requires 0 <= i < |COL_WIDTHS| => Cell(ColumnX(i), y, ColumnWidth(i), ColumnAlign(i)))
  }

  /** The four header labels, 5 points below the header band's top. */
  function HeaderCells(tableTop: real): seq<Cell>
  {
    ColumnCells(tableTop + 5.0)
  }

  /** The four cells of a row at y. */
  function RowCells(y: real): seq<Cell>
  {
    ColumnCells(y)
  }

  /** Header and row cells share each column's left edge, width and alignment, and the columns
      sit left to right with 10 points between one cell's right edge and the next cell. */
  lemma ColumnLayout(tableTop: real, y: real, i: nat)
    requires i < |COL_WIDTHS|
    ensures |HeaderCells(tableTop)| == |RowCells(y)| == 4
    ensures HeaderCells(tableTop)[i].x == RowCells(y)[i].x == ColumnX(i)
    ensures HeaderCells(tableTop)[i].width == RowCells(y)[i].width == COL_WIDTHS[i] - 10.0
    ensures HeaderCells(tableTop)[i].align == RowCells(y)[i].align
    ensures HeaderCells(tableTop)[i].y == tableTop + 5.0 && RowCells(y)[i].y == y
    ensures i + 1 < |COL_WIDTHS| ==> ColumnX(i) + ColumnWidth(i) + 10.0 == ColumnX(i + 1)
  {
    if i + 1 < |COL_WIDTHS| {
      SumSnoc(COL_WIDTHS, i);
    }
  }

  /** The column positions: 45, 265, 325, 405; the last cell ends at 475. */
  lemma ColumnPositions()
    ensures ColumnX(0) == 45.0 && ColumnX(1) == 265.0 && ColumnX(2) == 325.0 && ColumnX(3) == 405.0
    ensures ColumnX(3) + ColumnWidth(3) == 475.0
  {
    ColumnLayout(0.0, 0.0, 0);
    ColumnLayout(0.0, 0.0, 1);
    ColumnLayout(0.0, 0.0, 2);
    assert COL_WIDTHS[..0] == [];
  }

  /** The cells stay inside the table's band (with their 5-point padding) whenever the table
      is at least 440 points wide, as it is on A4. */
  lemma CellsInsideTable(pageWidth: real, i: nat)
    requires i < |COL_WIDTHS|
    requires TableWidth(pageWidth) >= 440.0
    ensures TABLE_LEFT + 5.0 <= ColumnX(i)
    ensures ColumnX(i) + ColumnWidth(i) + 5.0 <= TABLE_LEFT + TableWidth(pageWidth)
  {
    ColumnPositions();
  }

  lemma A4TableIsWideEnough()
    ensures TableWidth(A4_WIDTH) >= 440.0
  {
  }

  function HeaderBand(pageWidth: real, tableTop: real): Band
  {
    Band(TABLE_LEFT, tableTop, TableWidth(pageWidth), HEADER_BAND_HEIGHT)
  }

  /** The background of a shaded row at y. */
  function RowBand(pageWidth: real, y: real): Band
  {
    Band(TABLE_LEFT, y - 5.0, TableWidth(pageWidth), ROW_HEIGHT)
  }

  /** The header band ends exactly where the band of the row below it begins, and the bands of two
      rows 15 apart meet without overlapping. */
  lemma BandsTile(pageWidth: real, tableTop: real, y: real)
    ensures HeaderBand(pageWidth, tableTop).y + HEADER_BAND_HEIGHT == RowBand(pageWidth, tableTop + HEADER_TO_ROW).y
    ensures RowBand(pageWidth, y).y + RowBand(pageWidth, y).height == RowBand(pageWidth, y + ROW_HEIGHT).y
  {
  }

  /** The totals box's background: 180 by 70, its left edge 220 points from the page's right edge. */
  function TotalsBand(pageWidth: real, totalsY: real): Band
  {
    Band(pageWidth - 220.0, totalsY, TOTALS_WIDTH, TOTALS_HEIGHT)
  }

  /** The payment box's background, as wide as the table. */
  function PaymentBand(pageWidth: real, paymentY: real): Band
  {
    Band(TABLE_LEFT, paymentY, pageWidth - 80.0, PAYMENT_HEIGHT)
  }

  /** The totals box is flush with the table's right edge, and the payment box spans exactly the
      table's width. */
  lemma ClosingBandsAlign(pageWidth: real, y: real)
    ensures TotalsBand(pageWidth, y).x + TotalsBand(pageWidth, y).width == TABLE_LEFT + TableWidth(pageWidth)
    ensures PaymentBand(pageWidth, y).x == HeaderBand(pageWidth, y).x
    ensures PaymentBand(pageWidth, y).width == HeaderBand(pageWidth, y).width
  {
  }

  // ---------------------------------------------------------------------------------------
  // Views of a document

  /** The rows of a document, in drawing order. */
  function Rows(doc: seq<Placement>): (r: seq<Placement>)
    ensures |r| <= |doc|
    ensures forall k :: 0 <= k < |r| ==> r[k].Row?
  {
    if doc == [] then []
    else Rows(doc[..|doc| - 1]) + (if doc[|doc| - 1].Row? then [doc[|doc| - 1]] else [])
  }

  /** How many table headers a document draws. */
  function HeaderCount(doc: seq<Placement>): nat
  {
    if doc == [] then 0
    else HeaderCount(doc[..|doc| - 1]) + (if doc[|doc| - 1].TableHeader? then 1 else 0)
  }

  /** A placement is among the rows exactly when it is a Row placement of the document. */
  lemma {:induction false} RowsExactly(doc: seq<Placement>)
    ensures forall p :: p in Rows(doc) <==> p in doc && p.Row?
    decreases |doc|
  {
    if doc != [] {
      RowsExactly(doc[..|doc| - 1]);
      assert doc == doc[..|doc| - 1] + [doc[|doc| - 1]];
    }
  }

  lemma Snoc(doc: seq<Placement>, p: Placement)
    ensures Rows(doc + [p]) == Rows(doc) + (if p.Row? then [p] else [])
    ensures HeaderCount(doc + [p]) == HeaderCount(doc) + (if p.TableHeader? then 1 else 0)
  {
    assert (doc + [p])[..|doc|] == doc;
  }

  /** The k-th row draws the k-th item, with its index, shaded exactly when the index is even. */
  predicate RowsFollowItems(rows: seq<Placement>, items: seq<Item>)
  {
    && |rows| == |items|
    && forall k :: 0 <= k < |rows| ==>
         rows[k].Row? && rows[k].index == k && rows[k].item == items[k] && rows[k].shaded == (k % 2 == 0)
  }

  /** The page cursor just before row k: page and rowY. */
  function PageBefore(rows: seq<Placement>, k: nat): nat
    requires k <= |rows|
  {
    if k == 0 then 0 else rows[k - 1].page
  }

  function CursorBefore(rows: seq<Placement>, k: nat): real
    requires k <= |rows|
  {
    if k == 0 then FIRST_ROW_Y else rows[k - 1].y + ROW_HEIGHT
  }

  /** The page the item loop ends on, and its final rowY. */
  function TablePage(rows: seq<Placement>): nat
  {
    PageBefore(rows, |rows|)
  }

  function TableEnd(rows: seq<Placement>): real
  {
    CursorBefore(rows, |rows|)
  }

  /** Where one row goes from cursor (page, rowY): on the next page below a fresh header when it
      would reach into the bottom reserve, at the cursor otherwise. */
  predicate PlacedAfter(pageHeight: real, page: nat, rowY: real, r: Placement)
  {
    if Overflows(pageHeight, rowY, ROW_HEIGHT) then r.page == page + 1 && r.y == FRESH_ROW_Y
    else r.page == page && r.y == rowY
  }

  /** Row k is placed from the cursor that row k - 1 left (the first row from the first page's cursor). */
  predicate RowPlaced(pageHeight: real, rows: seq<Placement>, k: nat)
    requires k < |rows|
  {
    PlacedAfter(pageHeight, PageBefore(rows, k), CursorBefore(rows, k), rows[k])
  }

  predicate RowChain(pageHeight: real, rows: seq<Placement>)
  {
    forall k :: 0 <= k < |rows| ==> RowPlaced(pageHeight, rows, k)
  }

  /** How many rows were preceded by a page break. */
  function BreakCount(rows: seq<Placement>): nat
  {
    if rows == [] then 0
    else BreakCount(rows[..|rows| - 1]) + (if rows[|rows| - 1].page != PageBefore(rows, |rows| - 1) then 1 else 0)
  }

  /** The table part of a document: it opens with the first page's header at 230; each later
      header starts the next page at the top and is directly followed by a row; a row directly
      below a header sits 25 points under it; the page changes only at a header, by one. */
  predicate TableShape(t: seq<Placement>)
  {
    && |t| >= 1
    && t[0] == TableHeader(0, FIRST_TABLE_TOP)
    && (forall j :: 0 <= j < |t| ==> t[j].TableHeader? || t[j].Row?)
    && (forall j :: 0 < j < |t| ==> t[j - 1].page <= t[j].page)
    && (forall j :: 0 < j < |t| && t[j].page != t[j - 1].page ==> t[j].TableHeader?)
    && (forall j :: 0 < j < |t| && t[j].TableHeader? ==>
          t[j].page == t[j - 1].page + 1 && t[j].y == PAGE_TOP && j + 1 < |t| && t[j + 1].Row?)
    && (forall j :: 0 <= j < |t| - 1 && t[j].TableHeader? && t[j + 1].Row? ==>
          t[j + 1].page == t[j].page && t[j + 1].y == t[j].y + HEADER_TO_ROW)
  }

  /** The totals box at the last rowY plus 10 with no page check; the payment box 80 below it,
      or at the top of a new page if it would reach into the reserve; the footer 50 below the
      payment box, or at the top of a new page if it would reach into the reserve. */
  function ClosingBlocks(pageHeight: real, page: nat, rowY: real): (c: seq<Placement>)
    ensures |c| == 3 && c[0].TotalsBox? && c[1].PaymentBox? && c[2].Footer?
  {
    var totalsY := rowY + TOTALS_GAP;
    var payment :=
      if Overflows(pageHeight, totalsY + PAYMENT_GAP, PAYMENT_HEIGHT) then PaymentBox(page + 1, PAGE_TOP)
      else PaymentBox(page, totalsY + PAYMENT_GAP);
    var footer :=
      if Overflows(pageHeight, payment.y + FOOTER_GAP, FOOTER_HEIGHT) then Footer(payment.page + 1, PAGE_TOP)
      else Footer(payment.page, payment.y + FOOTER_GAP);
    [TotalsBox(page, totalsY), payment, footer]
  }

  /** What the item loop promises about the table it draws for `items`: its shape, one row per
      item in order, each row placed from the previous row's cursor, and one header per page. */
  predicate IsTableLayout(pageHeight: real, items: seq<Item>, t: seq<Placement>)
  {
    && TableShape(t)
    && RowsFollowItems(Rows(t), items)
    && RowChain(pageHeight, Rows(t))
    && HeaderCount(t) == 1 + BreakCount(Rows(t))
  }

  /** Everything the layout routine promises about the document it draws for `items`: the
      table, followed by the three closing blocks placed from the cursor the item loop ends with. */
  predicate IsInvoiceLayout(pageHeight: real, items: seq<Item>, doc: seq<Placement>)
  {
    && |doc| >= 4
    && TableShape(doc[..|doc| - 3])
    && RowsFollowItems(Rows(doc), items)
    && RowChain(pageHeight, Rows(doc))
    && HeaderCount(doc) == 1 + BreakCount(Rows(doc))
    && doc[|doc| - 3..] == ClosingBlocks(pageHeight, TablePage(Rows(doc)), TableEnd(Rows(doc)))
  }

  /** A step of the item loop without a page break keeps the table's shape. */
  lemma ShapeAfterRow(t: seq<Placement>, row: Placement)
    requires TableShape(t)
    requires row.Row? && row.page == t[|t| - 1].page
    requires t[|t| - 1].TableHeader? ==> row.y == t[|t| - 1].y + HEADER_TO_ROW
    ensures TableShape(t + [row])
  {
    RowKeepsPages(t, row);
    RowKeepsHeaders(t, row);
  }

  lemma RowKeepsPages(t: seq<Placement>, row: Placement)
    requires TableShape(t)
    requires row.Row? && row.page == t[|t| - 1].page
    ensures var u := t + [row];
      && (forall j :: 0 <= j < |u| ==> u[j].TableHeader? || u[j].Row?)
      && (forall j :: 0 < j < |u| ==> u[j - 1].page <= u[j].page)
      && (forall j :: 0 < j < |u| && u[j].page != u[j - 1].page ==> u[j].TableHeader?)
  {
    var u := t + [row];
    var n := |t|;
    forall j | 0 <= j < |u| ensures u[j].TableHeader? || u[j].Row? {
      if j < n { assert u[j] == t[j]; }
    }
    forall j | 0 < j < |u| ensures u[j - 1].page <= u[j].page {
      if j < n { assert u[j] == t[j] && u[j - 1] == t[j - 1]; }
    }
    forall j | 0 < j < |u| && u[j].page != u[j - 1].page ensures u[j].TableHeader? {
      assert j < n;
      assert u[j] == t[j] && u[j - 1] == t[j - 1];
    }
  }

  lemma RowKeepsHeaders(t: seq<Placement>, row: Placement)
    requires TableShape(t)
    requires row.Row? && row.page == t[|t| - 1].page
    requires t[|t| - 1].TableHeader? ==> row.y == t[|t| - 1].y + HEADER_TO_ROW
    ensures var u := t + [row];
      && (forall j :: 0 < j < |u| && u[j].TableHeader? ==>
            u[j].page == u[j - 1].page + 1 && u[j].y == PAGE_TOP && j + 1 < |u| && u[j + 1].Row?)
      && (forall j :: 0 <= j < |u| - 1 && u[j].TableHeader? && u[j + 1].Row? ==>
            u[j + 1].page == u[j].page && u[j + 1].y == u[j].y + HEADER_TO_ROW)
  {
    var u := t + [row];
    var n := |t|;
    forall j | 0 < j < |u| && u[j].TableHeader?
      ensures u[j].page == u[j - 1].page + 1 && u[j].y == PAGE_TOP && j + 1 < |u| && u[j + 1].Row?
    {
      assert j < n;
      assert u[j] == t[j] && u[j - 1] == t[j - 1];
      if j + 1 < n { assert u[j + 1] == t[j + 1]; }
    }
    forall j | 0 <= j < |u| - 1 && u[j].TableHeader? && u[j + 1].Row?
      ensures u[j + 1].page == u[j].page && u[j + 1].y == u[j].y + HEADER_TO_ROW
    {
      assert u[j] == t[j];
      if j + 1 < n { assert u[j + 1] == t[j + 1]; }
    }
  }

  /** A step of the item loop with a page break (a header at the top of the next page, then the
      row below it) keeps the table's shape. */
  lemma ShapeAfterBreak(t: seq<Placement>, row: Placement)
    requires TableShape(t)
    requires row.Row? && row.page == t[|t| - 1].page + 1 && row.y == FRESH_ROW_Y
    ensures TableShape(t + [TableHeader(row.page, PAGE_TOP)] + [row])
  {
    BreakKeepsPages(t, row);
    BreakKeepsHeaders(t, row);
  }

  lemma BreakKeepsPages(t: seq<Placement>, row: Placement)
    requires TableShape(t)
    requires row.Row? && row.page == t[|t| - 1].page + 1 && row.y == FRESH_ROW_Y
    ensures var u := t + [TableHeader(row.page, PAGE_TOP)] + [row];
      && (forall j :: 0 <= j < |u| ==> u[j].TableHeader? || u[j].Row?)
      && (forall j :: 0 < j < |u| ==> u[j - 1].page <= u[j].page)
      && (forall j :: 0 < j < |u| && u[j].page != u[j - 1].page ==> u[j].TableHeader?)
  {
    var hdr := TableHeader(row.page, PAGE_TOP);
    var u := t + [hdr] + [row];
    var n := |t|;
    assert u[n] == hdr && u[n + 1] == row;
    forall j | 0 <= j < |u| ensures u[j].TableHeader? || u[j].Row? {
      if j < n { assert u[j] == t[j]; }
    }
    forall j | 0 < j < |u| ensures u[j - 1].page <= u[j].page {
      if j < n { assert u[j] == t[j] && u[j - 1] == t[j - 1]; }
      else if j == n { assert u[j - 1] == t[n - 1]; }
    }
    forall j | 0 < j < |u| && u[j].page != u[j - 1].page ensures u[j].TableHeader? {
      if j < n { assert u[j] == t[j] && u[j - 1] == t[j - 1]; }
    }
  }

  lemma BreakKeepsHeaders(t: seq<Placement>, row: Placement)
    requires TableShape(t)
    requires row.Row? && row.page == t[|t| - 1].page + 1 && row.y == FRESH_ROW_Y
    ensures var u := t + [TableHeader(row.page, PAGE_TOP)] + [row];
      && (forall j :: 0 < j < |u| && u[j].TableHeader? ==>
            u[j].page == u[j - 1].page + 1 && u[j].y == PAGE_TOP && j + 1 < |u| && u[j + 1].Row?)
      && (forall j :: 0 <= j < |u| - 1 && u[j].TableHeader? && u[j + 1].Row? ==>
            u[j + 1].page == u[j].page && u[j + 1].y == u[j].y + HEADER_TO_ROW)
  {
    BreakKeepsHeaderPages(t, row);
    BreakKeepsFirstRows(t, row);
  }

  lemma BreakKeepsHeaderPages(t: seq<Placement>, row: Placement)
    requires TableShape(t)
    requires row.Row? && row.page == t[|t| - 1].page + 1 && row.y == FRESH_ROW_Y
    ensures var u := t + [TableHeader(row.page, PAGE_TOP)] + [row];
      forall j :: 0 < j < |u| && u[j].TableHeader? ==>
        u[j].page == u[j - 1].page + 1 && u[j].y == PAGE_TOP && j + 1 < |u| && u[j + 1].Row?
  {
    var hdr := TableHeader(row.page, PAGE_TOP);
    var u := t + [hdr] + [row];
    var n := |t|;
    assert u[n] == hdr && u[n + 1] == row;
    forall j | 0 < j < |u| && u[j].TableHeader?
      ensures u[j].page == u[j - 1].page + 1 && u[j].y == PAGE_TOP && j + 1 < |u| && u[j + 1].Row?
    {
      if j < n {
        assert u[j] == t[j] && u[j - 1] == t[j - 1];
        if j + 1 < n { assert u[j + 1] == t[j + 1]; }
      }
      else if j == n { assert u[j - 1] == t[n - 1]; }
    }
  }

  lemma BreakKeepsFirstRows(t: seq<Placement>, row: Placement)
    requires TableShape(t)
    requires row.Row? && row.page == t[|t| - 1].page + 1 && row.y == FRESH_ROW_Y
    ensures var u := t + [TableHeader(row.page, PAGE_TOP)] + [row];
      forall j :: 0 <= j < |u| - 1 && u[j].TableHeader? && u[j + 1].Row? ==>
        u[j + 1].page == u[j].page && u[j + 1].y == u[j].y + HEADER_TO_ROW
  {
    var hdr := TableHeader(row.page, PAGE_TOP);
    var u := t + [hdr] + [row];
    var n := |t|;
    assert u[n] == hdr && u[n + 1] == row;
    forall j | 0 <= j < |u| - 1 && u[j].TableHeader? && u[j + 1].Row?
      ensures u[j + 1].page == u[j].page && u[j + 1].y == u[j].y + HEADER_TO_ROW
    {
      if j < n {
        assert u[j] == t[j];
        if j + 1 < n { assert u[j + 1] == t[j + 1]; }
      }
    }
  }

  /** Extending the rows by the row for item i keeps them in item order. */
  lemma FollowAfterRow(items: seq<Item>, i: nat, rows: seq<Placement>, row: Placement)
    requires i < |items|
    requires RowsFollowItems(rows, items[..i])
    requires row.Row? && row.index == i && row.item == items[i] && row.shaded == (i % 2 == 0)
    ensures RowsFollowItems(rows + [row], items[..i + 1])
  {
    var r := rows + [row];
    var its := items[..i + 1];
    forall k | 0 <= k < |r|
      ensures r[k].Row? && r[k].index == k && r[k].item == its[k] && r[k].shaded == (k % 2 == 0)
    {
      if k < |rows| {
        assert r[k] == rows[k] && its[k] == items[..i][k];
      }
    }
  }

  /** Extending the rows by one placed from the cursor after the last row keeps the chain. */
  lemma ChainAfterRow(pageHeight: real, rows: seq<Placement>, row: Placement)
    requires RowChain(pageHeight, rows)
    requires PlacedAfter(pageHeight, TablePage(rows), TableEnd(rows), row)
    ensures RowChain(pageHeight, rows + [row])
    ensures BreakCount(rows + [row]) == BreakCount(rows) + (if row.page != TablePage(rows) then 1 else 0)
    ensures TablePage(rows + [row]) == row.page && TableEnd(rows + [row]) == row.y + ROW_HEIGHT
  {
    var r := rows + [row];
    assert r[..|r| - 1] == rows;
    forall k | 0 <= k < |r|
      ensures RowPlaced(pageHeight, r, k)
    {
      if k < |rows| {
        assert r[k] == rows[k];
        if k > 0 { assert r[k - 1] == rows[k - 1]; }
        assert RowPlaced(pageHeight, rows, k);
      } else {
        if k > 0 { assert r[k - 1] == rows[k - 1]; }
      }
    }
    if |rows| > 0 { assert r[|rows| - 1] == rows[|rows| - 1]; }
  }

  /** The views of the document after a step of the item loop without a page break. */
  lemma StepRowViews(t: seq<Placement>, row: Placement)
    requires TableShape(t)
    requires row.Row? && row.page == t[|t| - 1].page
    requires t[|t| - 1].TableHeader? ==> row.y == t[|t| - 1].y + HEADER_TO_ROW
    ensures TableShape(t + [row])
    ensures Rows(t + [row]) == Rows(t) + [row]
    ensures HeaderCount(t + [row]) == HeaderCount(t)
  {
    Snoc(t, row);
    ShapeAfterRow(t, row);
  }

  /** The views of the document after a step of the item loop with a page break. */
  lemma StepBreakViews(t: seq<Placement>, row: Placement)
    requires TableShape(t)
    requires row.Row? && row.page == t[|t| - 1].page + 1 && row.y == FRESH_ROW_Y
    ensures var u := t + [TableHeader(row.page, PAGE_TOP)] + [row];
      && TableShape(u)
      && Rows(u) == Rows(t) + [row]
      && HeaderCount(u) == HeaderCount(t) + 1
  {
    var hdr := TableHeader(row.page, PAGE_TOP);
    Snoc(t + [hdr], row);
    Snoc(t, hdr);
    ShapeAfterBreak(t, row);
  }

  /** The closing blocks add no rows and no headers. */
  lemma ClosingViews(pageHeight: real, items: seq<Item>, table: seq<Placement>)
    requires IsTableLayout(pageHeight, items, table)
    ensures IsInvoiceLayout(pageHeight, items, table + ClosingBlocks(pageHeight, TablePage(Rows(table)), TableEnd(Rows(table))))
  {
    var c := ClosingBlocks(pageHeight, TablePage(Rows(table)), TableEnd(Rows(table)));
    var doc := table + c;
    Snoc(table, c[0]);
    Snoc(table + [c[0]], c[1]);
    Snoc(table + [c[0], c[1]], c[2]);
    assert table + [c[0]] + [c[1]] == table + [c[0], c[1]];
    assert table + [c[0], c[1]] + [c[2]] == doc;
    assert doc[..|doc| - 3] == table;
    assert doc[|doc| - 3..] == c;
    assert Rows(doc) == Rows(table);
    assert HeaderCount(doc) == HeaderCount(table);
  }

  // ---------------------------------------------------------------------------------------
  // The layout routine

  /** The state of the item loop after i items: the table drawn so far and the cursor. */
  predicate LoopState(pageHeight: real, items: seq<Item>, i: nat, doc: seq<Placement>, page: nat, rowY: real)
  {
    && i <= |items|
    && TableShape(doc)
    && doc[|doc| - 1].page == page
    && (doc[|doc| - 1].TableHeader? ==> rowY == doc[|doc| - 1].y + HEADER_TO_ROW)
    && RowsFollowItems(Rows(doc), items[..i])
    && RowChain(pageHeight, Rows(doc))
    && page == TablePage(Rows(doc)) && rowY == TableEnd(Rows(doc))
    && HeaderCount(doc) == 1 + BreakCount(Rows(doc))
  }

  /** One iteration of the item loop: from cursor (page, rowY), `withHeader` is the table after
      the optional page break, and `row` the row drawn for item i; (next, nextPage, nextY) is the
      state after it. */
  lemma LoopStep(pageHeight: real, items: seq<Item>, i: nat, t: seq<Placement>, page: nat, rowY: real,
                 withHeader: seq<Placement>, row: Placement, n: nat, next: seq<Placement>, nextPage: nat, nextY: real)
    requires i < |items|
    requires LoopState(pageHeight, items, i, t, page, rowY) == true
    requires Overflows(pageHeight, rowY, ROW_HEIGHT) ==>
               withHeader == t + [TableHeader(page + 1, PAGE_TOP)] && row.page == page + 1 && row.y == FRESH_ROW_Y
    requires !Overflows(pageHeight, rowY, ROW_HEIGHT) ==> withHeader == t && row.page == page && row.y == rowY
    requires row == Row(row.page, row.y, i, i % 2 == 0, items[i])
    requires n == i + 1 && next == withHeader + [row] && nextPage == row.page && nextY == row.y + ROW_HEIGHT
    ensures LoopState(pageHeight, items, n, next, nextPage, nextY)
  {
    var rows := Rows(t);
    FollowAfterRow(items, i, rows, row);
    ChainAfterRow(pageHeight, rows, row);
    if Overflows(pageHeight, rowY, ROW_HEIGHT) {
      StepBreakViews(t, row);
    } else {
      StepRowViews(t, row);
    }
  }

  /** The item loop's state after the first n items, written as a recursion: the table drawn so
      far, the page and rowY. */
  function TableAfter(pageHeight: real, items: seq<Item>, n: nat): (seq<Placement>, nat, real)
    requires n <= |items|
  {
    if n == 0 then ([TableHeader(0, FIRST_TABLE_TOP)], 0, FIRST_ROW_Y)
    else
      var (doc, page, rowY) := TableAfter(pageHeight, items, n - 1);
      var i := n - 1;
      if Overflows(pageHeight, rowY, ROW_HEIGHT) then
        (doc + [TableHeader(page + 1, PAGE_TOP)] + [Row(page + 1, FRESH_ROW_Y, i, i % 2 == 0, items[i])],
         page + 1, FRESH_ROW_Y + ROW_HEIGHT)
      else
        (doc + [Row(page, rowY, i, i % 2 == 0, items[i])], page, rowY + ROW_HEIGHT)
  }

  /** The loop's starting state: the first page's header and the cursor 25 below it. */
  lemma LoopStart(pageHeight: real, items: seq<Item>)
    ensures LoopState(pageHeight, items, 0, [TableHeader(0, FIRST_TABLE_TOP)], 0, FIRST_ROW_Y)
  {
    var doc := [TableHeader(0, FIRST_TABLE_TOP)];
    assert doc[..0] == [];
    assert Rows(doc) == [];
    assert items[..0] == [];
  }

  /** One recursion step of TableAfter with a page break keeps the loop's promises. */
  lemma {:induction false} BreakStepState(pageHeight: real, items: seq<Item>, n: nat)
    requires 0 < n <= |items|
    requires Overflows(pageHeight, TableAfter(pageHeight, items, n - 1).2, ROW_HEIGHT)
    ensures var next := TableAfter(pageHeight, items, n); LoopState(pageHeight, items, n, next.0, next.1, next.2)
    decreases n, 0
  {
    TableAfterState(pageHeight, items, n - 1);
    var prev := TableAfter(pageHeight, items, n - 1);
    var i := n - 1;
    var row := Row(prev.1 + 1, FRESH_ROW_Y, i, i % 2 == 0, items[i]);
    var withHeader := prev.0 + [TableHeader(prev.1 + 1, PAGE_TOP)];
    var next := TableAfter(pageHeight, items, n);
    assert next == (withHeader + [row], prev.1 + 1, FRESH_ROW_Y + ROW_HEIGHT);
    LoopStep(pageHeight, items, i, prev.0, prev.1, prev.2, withHeader, row, n, next.0, next.1, next.2);
  }

  /** One recursion step of TableAfter without a page break keeps the loop's promises. */
  lemma {:induction false} RowStepState(pageHeight: real, items: seq<Item>, n: nat)
    requires 0 < n <= |items|
    requires !Overflows(pageHeight, TableAfter(pageHeight, items, n - 1).2, ROW_HEIGHT)
    ensures var next := TableAfter(pageHeight, items, n); LoopState(pageHeight, items, n, next.0, next.1, next.2)
    decreases n, 0
  {
    TableAfterState(pageHeight, items, n - 1);
    var prev := TableAfter(pageHeight, items, n - 1);
    var i := n - 1;
    var row := Row(prev.1, prev.2, i, i % 2 == 0, items[i]);
    var next := TableAfter(pageHeight, items, n);
    assert next == (prev.0 + [row], prev.1, prev.2 + ROW_HEIGHT);
    LoopStep(pageHeight, items, i, prev.0, prev.1, prev.2, prev.0, row, n, next.0, next.1, next.2);
  }

  /** Every state the item loop passes through satisfies the table's promises. */
  lemma {:induction false} TableAfterState(pageHeight: real, items: seq<Item>, n: nat)
    requires n <= |items|
    ensures var s := TableAfter(pageHeight, items, n); LoopState(pageHeight, items, n, s.0, s.1, s.2)
    decreases n, 1
  {
    if n == 0 {
      LoopStart(pageHeight, items);
    } else {
      if Overflows(pageHeight, TableAfter(pageHeight, items, n - 1).2, ROW_HEIGHT) {
        BreakStepState(pageHeight, items, n);
      } else {
        RowStepState(pageHeight, items, n);
      }
    }
  }

  /** The table part of generateInvoice: draw the header, then for each item break the page if
      the row would reach into the reserve (redrawing the header at the top of the new page),
      draw the row and advance by the row pitch. Returns the cursor the loop ends with. */
  method DrawTable(pageHeight: real, items: seq<Item>) returns (doc: seq<Placement>, page: nat, rowY: real)
    ensures IsTableLayout(pageHeight, items, doc)
    ensures page == TablePage(Rows(doc)) && rowY == TableEnd(Rows(doc))
  {
    page := 0;
    var tableTop := FIRST_TABLE_TOP;
    doc := [TableHeader(page, tableTop)];
    rowY := tableTop + HEADER_TO_ROW;
    var i := 0;
    while i < |items|
      invariant 0 <= i <= |items|
      invariant (doc, page, rowY) == TableAfter(pageHeight, items, i)
    {
      if rowY + ROW_HEIGHT > pageHeight - BOTTOM_RESERVE {
        page := page + 1;
        tableTop := PAGE_TOP;
        doc := doc + [TableHeader(page, tableTop)];
        rowY := tableTop + HEADER_TO_ROW;
      }
      doc := doc + [Row(page, rowY, i, i % 2 == 0, items[i])];
      rowY := rowY + ROW_HEIGHT;
      i := i + 1;
    }
    TableAfterState(pageHeight, items, i);
    assert items[..i] == items;
  }

  /** generateInvoice's layout: the table, then the totals box 10 below the last rowY, the payment
      box 80 below that (or at the top of a new page), the footer 50 below that (or at the top of a
      new page). */
  method LayoutInvoice(pageHeight: real, items: seq<Item>) returns (doc: seq<Placement>)
    ensures IsInvoiceLayout(pageHeight, items, doc)
  {
    var page, rowY;
    doc, page, rowY := DrawTable(pageHeight, items);
    ghost var table := doc;
    var totalsY := rowY + TOTALS_GAP;
    doc := doc + [TotalsBox(page, totalsY)];
    var paymentY := totalsY + PAYMENT_GAP;
    if paymentY + PAYMENT_HEIGHT > pageHeight - BOTTOM_RESERVE {
      page := page + 1;
      paymentY := PAGE_TOP;
    }
    doc := doc + [PaymentBox(page, paymentY)];
    var footerY := paymentY + FOOTER_GAP;
    if footerY + FOOTER_HEIGHT > pageHeight - BOTTOM_RESERVE {
      page := page + 1;
      footerY := PAGE_TOP;
    }
    doc := doc + [Footer(page, footerY)];
    assert doc == table + ClosingBlocks(pageHeight, TablePage(Rows(table)), TableEnd(Rows(table)));
    ClosingViews(pageHeight, items, table);
  }

  // ---------------------------------------------------------------------------------------
  // Properties of a layout

  /** The page the item loop ends on is the number of page breaks it took. */
  lemma {:induction false} BreakCountIsTablePage(pageHeight: real, rows: seq<Placement>)
    requires RowChain(pageHeight, rows)
    ensures BreakCount(rows) == TablePage(rows)
    decreases |rows|
  {
    if rows != [] {
      var prefix := rows[..|rows| - 1];
      forall k | 0 <= k < |prefix| ensures RowPlaced(pageHeight, prefix, k) {
        assert RowPlaced(pageHeight, rows, k);
        assert prefix[k] == rows[k];
        if k > 0 { assert prefix[k - 1] == rows[k - 1]; }
      }
      BreakCountIsTablePage(pageHeight, prefix);
      assert RowPlaced(pageHeight, rows, |rows| - 1);
      if |rows| > 1 { assert prefix[|prefix| - 1] == rows[|rows| - 2]; }
    }
  }

  /** One table header per page the table occupies. */
  lemma HeadersMatchPages(pageHeight: real, items: seq<Item>, doc: seq<Placement>)
    requires IsInvoiceLayout(pageHeight, items, doc)
    ensures HeaderCount(doc) == 1 + TablePage(Rows(doc))
  {
    BreakCountIsTablePage(pageHeight, Rows(doc));
  }

  /** Whenever the page is at least 180 high, no row reaches into the bottom reserve. */
  lemma RowsClearReserve(pageHeight: real, rows: seq<Placement>, k: nat)
    requires RowChain(pageHeight, rows) && k < |rows|
    requires pageHeight >= 180.0
    ensures rows[k].y + ROW_HEIGHT <= pageHeight - BOTTOM_RESERVE
  {
    assert RowPlaced(pageHeight, rows, k);
  }

  /** Consecutive rows on one page are one row pitch apart; a row on a new page opens the next
      page, 25 below its header. */
  lemma RowSpacing(pageHeight: real, rows: seq<Placement>, k: nat)
    requires RowChain(pageHeight, rows) && 0 < k < |rows|
    ensures rows[k].page == rows[k - 1].page ==> rows[k].y == rows[k - 1].y + ROW_HEIGHT
    ensures rows[k].page != rows[k - 1].page ==> rows[k].page == rows[k - 1].page + 1 && rows[k].y == PAGE_TOP + HEADER_TO_ROW
    ensures rows[k].page != rows[k - 1].page <==> Overflows(pageHeight, rows[k - 1].y + ROW_HEIGHT, ROW_HEIGHT)
  {
    assert RowPlaced(pageHeight, rows, k);
  }

  /** Every page that holds a row of the table also holds a table header, drawn before the row. */
  lemma {:induction false} HeaderBeforeEveryRow(t: seq<Placement>, m: nat)
    requires TableShape(t) && m < |t|
    ensures exists j :: 0 <= j <= m && t[j].TableHeader? && t[j].page == t[m].page
    decreases m
  {
    if t[m].TableHeader? {
      assert t[m].TableHeader? && t[m].page == t[m].page;
    } else {
      assert m > 0;
      assert t[m].page == t[m - 1].page;
      HeaderBeforeEveryRow(t, m - 1);
      var j :| 0 <= j <= m - 1 && t[j].TableHeader? && t[j].page == t[m - 1].page;
      assert 0 <= j <= m && t[j].TableHeader? && t[j].page == t[m].page;
    }
  }

  /** A repeated header is always directly followed, on its page, by a row 25 points below it. */
  lemma HeaderThenRow(pageHeight: real, items: seq<Item>, doc: seq<Placement>, j: nat)
    requires IsInvoiceLayout(pageHeight, items, doc)
    requires 0 < j < |doc| - 3 && doc[j].TableHeader?
    ensures j + 1 < |doc| - 3 && doc[j + 1].Row?
    ensures doc[j + 1].page == doc[j].page && doc[j + 1].y == PAGE_TOP + HEADER_TO_ROW
  {
    var t := doc[..|doc| - 3];
    assert t[j] == doc[j];
    assert t[j + 1] == doc[j + 1];
  }

  /** On a page too short for a single row below the first header, the first page holds only
      that header: the first row already goes to the second page. */
  lemma ShortPageSkipsFirstPage(pageHeight: real, items: seq<Item>, doc: seq<Placement>)
    requires IsInvoiceLayout(pageHeight, items, doc)
    requires |items| > 0 && Overflows(pageHeight, FIRST_ROW_Y, ROW_HEIGHT)
    ensures Rows(doc)[0].page == 1 && Rows(doc)[0].y == FRESH_ROW_Y
    ensures HeaderCount(doc) >= 2
  {
    assert RowPlaced(pageHeight, Rows(doc), 0);
    BreakCountIsTablePage(pageHeight, Rows(doc));
    if |items| > 1 {
      RowSpacingMonotone(pageHeight, Rows(doc), |items| - 1);
    }
  }

  /** Pages never decrease along the rows: every row up to row k is on a page no later than row k's. */
  lemma {:induction false} RowSpacingMonotone(pageHeight: real, rows: seq<Placement>, k: nat)
    requires RowChain(pageHeight, rows) && k < |rows|
    ensures forall j :: 0 <= j <= k ==> rows[j].page <= rows[k].page
    decreases k
  {
    if k > 0 {
      RowSpacingMonotone(pageHeight, rows, k - 1);
      assert RowPlaced(pageHeight, rows, k);
      assert rows[k - 1].page <= rows[k].page;
    }
  }

  // ---------------------------------------------------------------------------------------
  // Where each row lands

  /** F rows fit below the first page's header, and F + 1 do not. */
  predicate FirstPageHolds(pageHeight: real, f: nat)
  {
    && (f == 0 || FIRST_ROW_Y + ROW_HEIGHT * (f as real) <= pageHeight - BOTTOM_RESERVE)
    && FIRST_ROW_Y + ROW_HEIGHT * ((f + 1) as real) > pageHeight - BOTTOM_RESERVE
  }

  /** L >= 1 rows fit below a repeated header, and L + 1 do not. */
  predicate FreshPageHolds(pageHeight: real, l: nat)
  {
    && l >= 1
    && FRESH_ROW_Y + ROW_HEIGHT * (l as real) <= pageHeight - BOTTOM_RESERVE
    && FRESH_ROW_Y + ROW_HEIGHT * ((l + 1) as real) > pageHeight - BOTTOM_RESERVE
  }

  /** The page of row k when the first page holds f rows and every later page l. */
  function SlotPage(f: nat, l: nat, k: nat): nat
    requires l >= 1
  {
    if k < f then 0 else 1 + (k - f) / l
  }

  function SlotY(f: nat, l: nat, k: nat): real
    requires l >= 1
  {
    if k < f then FIRST_ROW_Y + ROW_HEIGHT * (k as real)
    else FRESH_ROW_Y + ROW_HEIGHT * (((k - f) % l) as real)
  }

  lemma {:induction false} MulAtLeast(l: int, d: int)
    requires l >= 1 && d >= 1
    ensures l * d >= l
    decreases d
  {
    if d > 1 {
      MulAtLeast(l, d - 1);
      assert l * d == l * (d - 1) + l;
    }
  }

  lemma DivModUnique(a: int, l: int, q: int, r: int)
    requires l >= 1 && 0 <= r < l && a == l * q + r
    ensures a / l == q && a % l == r
  {
    var q', r' := a / l, a % l;
    assert a == l * q' + r' && 0 <= r' < l;
    if q > q' {
      assert l * q == l * q' + l * (q - q');
      MulAtLeast(l, q - q');
    } else if q < q' {
      assert l * q' == l * q + l * (q' - q);
      MulAtLeast(l, q' - q);
    }
  }

  /** Counting one further: the position within a page advances, or wraps to the next page. */
  lemma DivModStep(m: nat, l: nat)
    requires l >= 1
    ensures m % l == l - 1 ==> (m + 1) / l == m / l + 1 && (m + 1) % l == 0
    ensures m % l < l - 1 ==> (m + 1) / l == m / l && (m + 1) % l == m % l + 1
  {
    var q, r := m / l, m % l;
    assert m == l * q + r;
    if r == l - 1 {
      DivModUnique(m + 1, l, q + 1, 0);
    } else {
      DivModUnique(m + 1, l, q, r + 1);
    }
  }

  /** The closed form of the pagination: with f rows on the first page and l on each later one,
      row k is on page 0 at 255 + 15k when k < f, and otherwise on page 1 + (k - f) / l at
      65 + 15 ((k - f) mod l). */
  lemma {:induction false} RowSlots(pageHeight: real, rows: seq<Placement>, f: nat, l: nat, k: nat)
    requires RowChain(pageHeight, rows) && k < |rows|
    requires FirstPageHolds(pageHeight, f) && FreshPageHolds(pageHeight, l)
    ensures rows[k].page == SlotPage(f, l, k) && rows[k].y == SlotY(f, l, k)
    decreases k
  {
    assert RowPlaced(pageHeight, rows, k);
    if k > 0 {
      RowSlots(pageHeight, rows, f, l, k - 1);
    }
    if k < f {
      FirstPageSlot(pageHeight, f, k);
    } else if k == f {
      FirstBreakSlot(pageHeight, f, k);
    } else {
      FreshPageSlot(pageHeight, f, l, k);
    }
  }

  /** Rows before the f-th stay on the first page, one pitch apart. */
  lemma FirstPageSlot(pageHeight: real, f: nat, k: nat)
    requires FirstPageHolds(pageHeight, f) && k < f
    ensures k > 0 ==> FIRST_ROW_Y + ROW_HEIGHT * ((k - 1) as real) + ROW_HEIGHT == FIRST_ROW_Y + ROW_HEIGHT * (k as real)
    ensures !Overflows(pageHeight, FIRST_ROW_Y + ROW_HEIGHT * (k as real), ROW_HEIGHT)
  {
    assert ROW_HEIGHT * (k as real) + ROW_HEIGHT == ROW_HEIGHT * ((k + 1) as real);
    assert ROW_HEIGHT * ((k + 1) as real) <= ROW_HEIGHT * (f as real);
  }

  /** The f-th row is the first that does not fit on the first page. */
  lemma FirstBreakSlot(pageHeight: real, f: nat, k: nat)
    requires FirstPageHolds(pageHeight, f) && k == f
    ensures k > 0 ==> FIRST_ROW_Y + ROW_HEIGHT * ((k - 1) as real) + ROW_HEIGHT == FIRST_ROW_Y + ROW_HEIGHT * (k as real)
    ensures Overflows(pageHeight, FIRST_ROW_Y + ROW_HEIGHT * (k as real), ROW_HEIGHT)
  {
    assert ROW_HEIGHT * (f as real) + ROW_HEIGHT == ROW_HEIGHT * ((f + 1) as real);
  }

  /** On a later page, the row after position r fits exactly when r + 1 < l, and otherwise wraps. */
  lemma FreshPageSlot(pageHeight: real, f: nat, l: nat, k: nat)
    requires FreshPageHolds(pageHeight, l) && k > f
    ensures var m := k - 1 - f;
      && (Overflows(pageHeight, FRESH_ROW_Y + ROW_HEIGHT * ((m % l) as real) + ROW_HEIGHT, ROW_HEIGHT) <==> m % l == l - 1)
      && SlotPage(f, l, k) == (if m % l == l - 1 then SlotPage(f, l, k - 1) + 1 else SlotPage(f, l, k - 1))
      && SlotY(f, l, k) == (if m % l == l - 1 then FRESH_ROW_Y
                            else FRESH_ROW_Y + ROW_HEIGHT * ((m % l) as real) + ROW_HEIGHT)
  {
    var m := k - 1 - f;
    DivModStep(m, l);
    var r := m % l;
    assert ROW_HEIGHT * (r as real) + ROW_HEIGHT + ROW_HEIGHT == ROW_HEIGHT * ((r + 2) as real);
    assert ROW_HEIGHT * (r as real) + ROW_HEIGHT == ROW_HEIGHT * ((r + 1) as real);
    if r == l - 1 {
      assert ROW_HEIGHT * ((r + 2) as real) == ROW_HEIGHT * ((l + 1) as real);
    } else {
      assert ROW_HEIGHT * ((r + 2) as real) <= ROW_HEIGHT * (l as real);
    }
    assert k - f == m + 1;
  }

  /** On A4 the first page holds 32 rows and every later page 45. */
  lemma A4Capacity()
    ensures FirstPageHolds(A4_HEIGHT, 32) && FreshPageHolds(A4_HEIGHT, 45)
  {
  }

  /** On A4 row k sits on page 0 at 255 + 15k for k < 32, and otherwise on page 1 + (k - 32) / 45
      at 65 + 15 ((k - 32) mod 45). */
  lemma A4RowSlots(rows: seq<Placement>, k: nat)
    requires RowChain(A4_HEIGHT, rows) && k < |rows|
    ensures rows[k].page == (if k < 32 then 0 else 1 + (k - 32) / 45)
    ensures rows[k].y == (if k < 32 then 255.0 + 15.0 * (k as real) else 65.0 + 15.0 * (((k - 32) % 45) as real))
  {
    A4Capacity();
    RowSlots(A4_HEIGHT, rows, 32, 45, k);
  }

  /** On A4 an invoice with more than 32 items spans several pages and repeats the table header. */
  lemma A4LongTableRepeatsHeader(items: seq<Item>, doc: seq<Placement>)
    requires IsInvoiceLayout(A4_HEIGHT, items, doc)
    requires |items| > 32
    ensures TablePage(Rows(doc)) >= 1
    ensures HeaderCount(doc) >= 2
  {
    A4RowSlots(Rows(doc), |items| - 1);
    HeadersMatchPages(A4_HEIGHT, items, doc);
  }

  /** Row shading follows the item's position in the whole invoice, not on its page: on A4 the
      second page opens with a shaded row (item 32) and the third with an unshaded one (item 77). */
  lemma A4ShadingIgnoresPages(items: seq<Item>, doc: seq<Placement>)
    requires IsInvoiceLayout(A4_HEIGHT, items, doc)
    requires |items| >= 78
    ensures Rows(doc)[31].page == 0 && Rows(doc)[32].page == 1 && Rows(doc)[32].shaded
    ensures Rows(doc)[76].page == 1 && Rows(doc)[77].page == 2 && !Rows(doc)[77].shaded
  {
    var rows := Rows(doc);
    A4RowSlots(rows, 31);
    A4RowSlots(rows, 32);
    A4RowSlots(rows, 76);
    A4RowSlots(rows, 77);
  }

  // ---------------------------------------------------------------------------------------
  // The closing blocks

  /** The closing blocks follow the cursor in page order, each at most one page after the
      previous one; the totals box is on the cursor's page. */
  lemma ClosingOrder(pageHeight: real, page: nat, rowY: real)
    ensures var c := ClosingBlocks(pageHeight, page, rowY);
      && c[0] == TotalsBox(page, rowY + TOTALS_GAP)
      && (c[1].page == c[0].page || (c[1].page == c[0].page + 1 && c[1].y == PAGE_TOP))
      && (c[2].page == c[1].page || (c[2].page == c[1].page + 1 && c[2].y == PAGE_TOP))
      && (c[1].page == c[0].page <==> !Overflows(pageHeight, c[0].y + PAYMENT_GAP, PAYMENT_HEIGHT))
      && (c[2].page == c[1].page <==> !Overflows(pageHeight, c[1].y + FOOTER_GAP, FOOTER_HEIGHT))
      && (c[1].page == c[0].page ==> c[1].y == c[0].y + PAYMENT_GAP)
      && (c[2].page == c[1].page ==> c[2].y == c[1].y + FOOTER_GAP)
  {
  }

  /** Whenever the page is at least 180 high, neither the payment box nor the footer reaches into
      the bottom reserve. */
  lemma ClosingClearsReserve(pageHeight: real, page: nat, rowY: real)
    requires pageHeight >= 180.0
    ensures var c := ClosingBlocks(pageHeight, page, rowY);
      && !Overflows(pageHeight, c[1].y, PAYMENT_HEIGHT)
      && !Overflows(pageHeight, c[2].y, FOOTER_HEIGHT)
  {
  }

  /** Whenever the page is at least 210 high, the payment box and the footer together add at most
      one page: after a break for the payment box the footer always fits below it. */
  lemma ClosingAddsAtMostOnePage(pageHeight: real, page: nat, rowY: real)
    requires pageHeight >= 210.0
    ensures ClosingBlocks(pageHeight, page, rowY)[2].page <= page + 1
  {
  }

  /** The totals box is not checked against the reserve, but when the item loop ends above the
      reserve it still ends 20 points above the page's bottom edge. */
  lemma TotalsStayOnPage(pageHeight: real, page: nat, rowY: real)
    requires rowY <= pageHeight - BOTTOM_RESERVE
    ensures ClosingBlocks(pageHeight, page, rowY)[0].y + TOTALS_HEIGHT <= pageHeight - 20.0
  {
  }

  /** On A4 with exactly 32 items the totals box starts inside the bottom reserve, where a row
      would have been moved to the next page. */
  lemma A4TotalsEnterReserve(items: seq<Item>, doc: seq<Placement>)
    requires IsInvoiceLayout(A4_HEIGHT, items, doc)
    requires |items| == 32
    ensures doc[|doc| - 3].page == 0
    ensures Overflows(A4_HEIGHT, doc[|doc| - 3].y, 0.0)
  {
    A4RowSlots(Rows(doc), 31);
    assert doc[|doc| - 3] == doc[|doc| - 3..][0];
  }

  /** Where the closing blocks of an invoice layout sit relative to its table. */
  lemma LayoutEnds(pageHeight: real, items: seq<Item>, doc: seq<Placement>)
    requires IsInvoiceLayout(pageHeight, items, doc)
    ensures doc[|doc| - 3] == TotalsBox(TablePage(Rows(doc)), TableEnd(Rows(doc)) + TOTALS_GAP)
    ensures doc[|doc| - 2].PaymentBox? && doc[|doc| - 1].Footer?
    ensures pageHeight >= 180.0 ==>
              !Overflows(pageHeight, doc[|doc| - 2].y, PAYMENT_HEIGHT) && !Overflows(pageHeight, doc[|doc| - 1].y, FOOTER_HEIGHT)
    ensures pageHeight >= 210.0 ==> doc[|doc| - 1].page <= TablePage(Rows(doc)) + 1
    ensures |items| == 0 ==> doc[|doc| - 3] == TotalsBox(0, FIRST_ROW_Y + TOTALS_GAP)
  {
    var c := doc[|doc| - 3..];
    assert doc[|doc| - 3] == c[0] && doc[|doc| - 2] == c[1] && doc[|doc| - 1] == c[2];
    ClosingOrder(pageHeight, TablePage(Rows(doc)), TableEnd(Rows(doc)));
    if pageHeight >= 180.0 {
      ClosingClearsReserve(pageHeight, TablePage(Rows(doc)), TableEnd(Rows(doc)));
    }
    if pageHeight >= 210.0 {
      ClosingAddsAtMostOnePage(pageHeight, TablePage(Rows(doc)), TableEnd(Rows(doc)));
    }
  }
}

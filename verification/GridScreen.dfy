/**
 What a pane's caches show after any run, cell by cell of the frame on screen.
 */
module GridScreen {
  import opened Wrappers
  import opened Cells
  import opened GridRow
  import opened GridCache
  import opened GridRuns

  predicate SamePlace(a: RenderCell, b: RenderCell) {
    a.row == b.row && a.col == b.col
  }

  /** The cell decides what its place shows: no later cell of the snapshot but spacers is there. */
  ghost predicate DecidesPlace(cells: seq<RenderCell>, i: nat) {
    && i < |cells| && !cells[i].flags.spacer
    && forall j :: i < j < |cells| ==> cells[j].flags.spacer || !SamePlace(cells[j], cells[i])
  }

  /** Each place of the grid shows the glyph of the cell that decides it, shaped for the font, or nothing. */
  ghost predicate ShowsFrame(theme: Theme, font: FontSpec, f: Frame, keys: seq<seq<Option<CellShapeKey>>>,
                             buffers: seq<seq<Option<GlyphBuffer>>>)
  {
    && |keys| == f.lines && |buffers| == f.lines
    && (forall i :: 0 <= i < |f.cells| && DecidesPlace(f.cells, i) && f.cells[i].row < f.lines ==>
          && f.cells[i].col < |keys[f.cells[i].row]|
          && ShowsGlyph(theme, f.view, f.cells[i], keys[f.cells[i].row][f.cells[i].col]))
    && (forall r, c :: 0 <= r < f.lines && 0 <= c < |keys[r]| && keys[r][c].Some? ==> HasCellAt(f.cells, r, c))
    && (forall r :: 0 <= r < f.lines ==> ShapesRow(font, keys[r], buffers[r]))
  }

  ghost predicate HasCellAt(cells: seq<RenderCell>, row: nat, col: nat) {
    exists i :: 0 <= i < |cells| && !cells[i].flags.spacer && cells[i].row == row && cells[i].col == col
  }

  /** A row's cells are those of the snapshot in that row, in order: the deciding ones stay so. */
  lemma {:induction false} RowOfDecides(cells: seq<RenderCell>, i: nat) returns (k: nat)
    requires DecidesPlace(cells, i)
    ensures Decides(RowOf(cells, cells[i].row), k) && RowOf(cells, cells[i].row)[k] == cells[i]
  {
    var row, last := cells[i].row, |cells| - 1;
    if i == last {
      k := |RowOf(cells, row)| - 1;
    } else {
      k := RowOfDecides(cells[..last], i);
    }
  }

  lemma {:induction false} RowOfIsFromCells(cells: seq<RenderCell>, row: nat, k: nat)
    requires k < |RowOf(cells, row)|
    ensures RowOf(cells, row)[k] in cells
  {
    var init := cells[..|cells| - 1];
    if k < |RowOf(init, row)| { RowOfIsFromCells(init, row, k); }
  }

  lemma RowShowsFrame(theme: Theme, f: Frame, i: nat, keys: seq<Option<CellShapeKey>>)
    requires DecidesPlace(f.cells, i) && keys == FrameRowKeys(theme, f, f.cells[i].row)
    ensures f.cells[i].col < |keys| && ShowsGlyph(theme, f.view, f.cells[i], keys[f.cells[i].col])
  {
    hide RowKeys, RowOf, ShowsGlyph;
    var k := RowOfDecides(f.cells, i);
    RowShowsItsCells(theme, f.view, RowOf(f.cells, f.cells[i].row));
  }

  lemma GlyphHasCell(theme: Theme, f: Frame, r: nat, c: nat, keys: seq<Option<CellShapeKey>>)
    requires keys == FrameRowKeys(theme, f, r) && c < |keys| && keys[c].Some?
    ensures HasCellAt(f.cells, r, c)
  {
    hide RowKeys, ShowsGlyph;
    var cells := RowOf(f.cells, r);
    RowShowsItsCells(theme, f.view, cells);
    var k :| 0 <= k < |cells| && !cells[k].flags.spacer && cells[k].col == c;
    RowOfIsFromCells(f.cells, r, k);
    var j :| 0 <= j < |f.cells| && f.cells[j] == cells[k];
  }

  lemma DepictedFrameIsShown(theme: Theme, font: FontSpec, f: Frame, c: PaneCaches)
    requires Depicts(theme, font, f, c)
    ensures c.keys.Some? && c.buffers.Some? && ShowsFrame(theme, font, f, c.keys.value, c.buffers.value)
  {
    var keys := c.keys.value;
    hide FrameRowKeys, ShowsGlyph, DecidesPlace, HasCellAt, FrameRow, ShapedRow, ShapesRow;
    forall i | 0 <= i < |f.cells| && DecidesPlace(f.cells, i) && f.cells[i].row < f.lines
      ensures f.cells[i].col < |keys[f.cells[i].row]|
      ensures ShowsGlyph(theme, f.view, f.cells[i], keys[f.cells[i].row][f.cells[i].col])
    {
      RowShowsFrame(theme, f, i, keys[f.cells[i].row]);
    }
    forall r, k | 0 <= r < f.lines && 0 <= k < |keys[r]| && keys[r][k].Some? ensures HasCellAt(f.cells, r, k) {
      GlyphHasCell(theme, f, r, k, keys[r]);
    }
    forall r | 0 <= r < f.lines ensures ShapesRow(font, keys[r], c.buffers.value[r]) {
      ShapedRowShapes(font, keys[r]);
    }
  }

  /**
   After any run, every pane on screen shows at each place the glyph of the cell that
   decides it, in that cell's text, flags and colour, and nothing where no cell is.
   */
  lemma EveryPaneShowsItsCells(start: World, theme: Theme, font: FontSpec, ops: seq<Op>, w: World, pane: PaneId)
    requires start == Start(theme, font) && AllAllowed(start, ops) && w == Run(start, ops)
    requires pane in w.shown
    ensures pane in w.caches.keys && pane in w.caches.buffers
    ensures ShowsFrame(w.theme, w.font, w.shown[pane], w.caches.keys[pane], w.caches.buffers[pane])
  {
    EveryFrameIsAFullRebuild(start, theme, font, ops, w, pane);
    FullFrameDepicts(w.theme, w.font, EMPTY_CACHES, pane, w.shown[pane]);
    hide AllAllowed, Run, Depicts, RenderFrame, ShowsFrame;
    DepictedFrameIsShown(w.theme, w.font, w.shown[pane], CachesOf(w.caches, pane));
  }

  // ── Clickable places ─────────────────────────────────────────────────────

  /** A hotspot counts unless the cell is linked to something other than a file. */
  predicate Clickable(cell: RenderCell) {
    && cell.hotspot.Some?
    && (cell.hyperlink.Some? ==> |cell.hyperlink.value| >= 7 && cell.hyperlink.value[..7] == "file://")
  }

  /** What a place of a frame offers to click: the hotspot of the last clickable cell there. */
  ghost predicate Offers(f: Frame, row: nat, col: nat, spot: Option<Hotspot>) {
    if spot.Some? then
      && row < f.lines
      && exists i :: 0 <= i < |f.cells| && IsLastClickable(f.cells, i, row, col) && f.cells[i].hotspot == spot
    else
      || row >= f.lines
      || forall i :: 0 <= i < |f.cells| && Clickable(f.cells[i]) ==> f.cells[i].row != row || f.cells[i].col != col
  }

  ghost predicate IsLastClickable(cells: seq<RenderCell>, i: nat, row: nat, col: nat) {
    && i < |cells| && Clickable(cells[i]) && cells[i].row == row && cells[i].col == col
    && forall j :: i < j < |cells| && Clickable(cells[j]) ==> cells[j].row != row || cells[j].col != col
  }

  lemma ShownIffClickable(cell: RenderCell)
    ensures ShownHotspot(cell) == if Clickable(cell) then cell.hotspot else None
  {
    if cell.hyperlink.Some? && "file://" <= cell.hyperlink.value { assert cell.hyperlink.value[..7] == "file://"; }
  }

  lemma {:induction false} HotspotAtPlace(cells: seq<RenderCell>, row: nat, col: nat)
    ensures
      var spot := HotspotAt(RowOf(cells, row), col);
      if spot.Some? then exists i :: 0 <= i < |cells| && IsLastClickable(cells, i, row, col) && cells[i].hotspot == spot
      else forall i :: 0 <= i < |cells| && Clickable(cells[i]) ==> cells[i].row != row || cells[i].col != col
  {
    if cells != [] {
      var n, init, last := |cells| - 1, cells[..|cells| - 1], cells[|cells| - 1];
      HotspotAtPlace(init, row, col);
      ShownIffClickable(last);
      hide ShownHotspot, Clickable;
      if last.row == row { assert (RowOf(init, row) + [last])[..|RowOf(init, row)|] == RowOf(init, row); }
      if Clickable(last) && last.row == row && last.col == col {
        assert IsLastClickable(cells, n, row, col);
      } else if HotspotAt(RowOf(init, row), col).Some? {
        var i :| 0 <= i < |init| && IsLastClickable(init, i, row, col)
            && init[i].hotspot == HotspotAt(RowOf(init, row), col);
        assert IsLastClickable(cells, i, row, col);
      }
    }
  }

  /** After a run whose damaged rows cover their columns, the index holds at every place what the frame offers there. */
  lemma IndexHoldsWhatIsOffered(start: World, theme: Theme, font: FontSpec, size: PaneId -> Size, ops: seq<Op>,
                                w: World, k: HotspotKey)
    requires start == Start(theme, font) && AllAllowed(start, ops) && w == Run(start, ops)
    requires forall i :: 0 <= i < |ops| ==> Covers(size, ops[i])
    requires k.pane in w.shown
    ensures Offers(w.shown[k.pane], k.row, k.col, Lookup(w.caches.hotspots, k))
  {
    CoveringRunsStayFresh(start, theme, font, size, ops);
    HotspotAtPlace(w.shown[k.pane].cells, k.row, k.col);
    hide AllAllowed, Run, Covers, Clickable, IsLastClickable, RowOf, HotspotAt;
    assert HotspotsFresh(w, k.pane);
  }
}

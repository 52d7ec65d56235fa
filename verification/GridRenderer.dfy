/** The renderer object: per-pane caches updated in place, one damaged row at a time. */
module GridRenderer {
  import opened Wrappers
  import opened Cells
  import opened GridRow
  import opened GridCache

  /** Rebuild the glyph buffers and keys of every row that is damaged or holds the old or new cursor. */
  method RebuildCellBuffers(theme: Theme, font: FontSpec, view: CursorView, lines: nat, damage: Option<seq<bool>>,
                            previous: Option<(nat, nat)>, rows: seq<Option<CachedRow>>,
                            oldBuffers: seq<seq<Option<GlyphBuffer>>>, oldKeys: seq<seq<Option<CellShapeKey>>>)
    returns (buffers: seq<seq<Option<GlyphBuffer>>>, keys: seq<seq<Option<CellShapeKey>>>)
    requires oldBuffers == ShapedGrid(font, oldKeys)
    ensures keys == RebuiltKeys(theme, view, lines, damage, previous, rows, oldKeys)
    ensures buffers == ShapedGrid(font, keys)
  {
    buffers, keys := oldBuffers, oldKeys;
    while |buffers| < lines
      invariant |buffers| >= |oldBuffers| && (|buffers| <= lines || |buffers| == |oldBuffers|)
      invariant forall r :: 0 <= r < |buffers| ==> buffers[r] == if r < |oldBuffers| then oldBuffers[r] else []
    {
      buffers := buffers + [[]];
    }
    buffers := buffers[..lines];
    while |keys| < lines
      invariant |keys| >= |oldKeys| && (|keys| <= lines || |keys| == |oldKeys|)
      invariant forall r :: 0 <= r < |keys| ==> keys[r] == if r < |oldKeys| then oldKeys[r] else []
    {
      keys := keys + [[]];
    }
    keys := keys[..lines];
    ghost var padded := keys;

    var fullRebuild := damage.None?;
    var r := 0;
    while r < |rows|
      invariant 0 <= r <= |rows| && |keys| == lines
      invariant buffers == ShapedGrid(font, keys)
      invariant forall q :: 0 <= q < lines ==>
        keys[q] ==
            if q < r && NeedsRebuild(damage, previous, view, q) then RowKeys(theme, view, CachedCells(rows[q]))
            else padded[q]
    {
      if r >= lines { break; }
      var needsRebuild := true;
      if !fullRebuild {
        var inDamageSet := r < |damage.value| && damage.value[r];
        var isCursorRow := r == view.row;
        var wasCursorRow := previous.Some? && previous.value.0 == r;
        needsRebuild := inDamageSet || isCursorRow || wasCursorRow;
      }
      if needsRebuild {
        match rows[r] {
          case None =>
            buffers, keys := buffers[r := []], keys[r := []];
          case Some(row) =>
            var rowBuffers, rowKeys := RebuildRow(theme, font, view, row.cells, buffers[r], keys[r]);
            buffers, keys := buffers[r := rowBuffers], keys[r := rowKeys];
        }
      }
      r := r + 1;
    }
    RowByRow(theme, view, lines, damage, previous, rows, oldKeys, keys);
  }

  class GridRenderer {
    var paneRowCache: map<PaneId, seq<Option<CachedRow>>>
    var paneCellBuffers: map<PaneId, seq<seq<Option<GlyphBuffer>>>>
    var paneCellShapeKeys: map<PaneId, seq<seq<Option<CellShapeKey>>>>
    var paneLastCursorPos: map<PaneId, (nat, nat)>
    var paneLastDisplayOffset: map<PaneId, nat>
    var paneLastColumnCount: map<PaneId, nat>
    var hotspotMap: map<HotspotKey, Hotspot>
    var currentPane: Option<PaneId>
    var theme: Theme
    var font: FontSpec
    var configCursorShape: CursorShape
    var cursorBlinkVisible: bool
    var focusedCursorPane: Option<PaneId>

    ghost function Caches(): Caches
      reads `paneRowCache, `paneCellBuffers, `paneCellShapeKeys, `paneLastCursorPos,
            `paneLastDisplayOffset, `paneLastColumnCount, `hotspotMap
    {
      GridCache.Caches(paneRowCache, paneCellBuffers, paneCellShapeKeys, paneLastCursorPos,
                       paneLastDisplayOffset, paneLastColumnCount, hotspotMap)
    }

    ghost predicate Valid()
      reads this
    {
      Consistent(font, Caches())
    }

    /** How the cursor of the current pane is drawn. */
    function View(cursor: TermCursor): CursorView
      reads `currentPane, `configCursorShape, `cursorBlinkVisible, `focusedCursorPane
    {
      var focused := focusedCursorPane.Some? && currentPane == focusedCursorPane;
      CursorViewOf(PresentedCursorShape(cursor.shape, configCursorShape, focused, cursorBlinkVisible), cursor)
    }

    constructor (theme: Theme, font: FontSpec)
      ensures Valid() && Caches() == EMPTY_CACHES
      ensures this.theme == theme && this.font == font && currentPane == None
    {
      this.theme, this.font := theme, font;
      paneRowCache, paneCellBuffers, paneCellShapeKeys := map[], map[], map[];
      paneLastCursorPos, paneLastDisplayOffset, paneLastColumnCount := map[], map[], map[];
      hotspotMap := map[];
      currentPane, focusedCursorPane := None, None;
      configCursorShape, cursorBlinkVisible := Block, true;
    }

    /** Drop every pane's caches, so that the next frame of each pane rebuilds fully. */
    method ClearRenderCaches()
      modifies `paneRowCache, `paneCellBuffers, `paneCellShapeKeys, `paneLastCursorPos,
               `paneLastDisplayOffset, `paneLastColumnCount, `hotspotMap
      ensures Valid() && Caches() == EMPTY_CACHES
    {
      paneRowCache, paneCellBuffers, paneCellShapeKeys := map[], map[], map[];
      paneLastCursorPos, paneLastDisplayOffset, paneLastColumnCount := map[], map[], map[];
      hotspotMap := map[];
    }

    /** A change of colours invalidates every cached glyph. */
    method ApplyColorOverrides(newTheme: Theme)
      modifies `paneRowCache, `paneCellBuffers, `paneCellShapeKeys, `paneLastCursorPos,
               `paneLastDisplayOffset, `paneLastColumnCount, `hotspotMap, `theme
      ensures Valid() && Caches() == EMPTY_CACHES && theme == newTheme
    {
      theme := newTheme;
      ClearRenderCaches();
    }

    /** So does a change of font metrics. */
    method UpdateFont(newFont: FontSpec)
      modifies `paneRowCache, `paneCellBuffers, `paneCellShapeKeys, `paneLastCursorPos,
               `paneLastDisplayOffset, `paneLastColumnCount, `hotspotMap, `font
      ensures Valid() && Caches() == EMPTY_CACHES && font == newFont
    {
      font := newFont;
      ClearRenderCaches();
    }

    /** Forget a closed pane. */
    method RemovePaneCache(pane: PaneId)
      modifies `paneRowCache, `paneCellBuffers, `paneCellShapeKeys, `paneLastCursorPos,
               `paneLastDisplayOffset, `paneLastColumnCount, `hotspotMap
      ensures Caches() == old(Removed(Caches(), pane))
      ensures old(Valid()) ==> Valid()
    {
      hide Consistent;
      if Valid() { RemovedConsistent(font, Caches(), pane); }
      paneRowCache := paneRowCache - {pane};
      paneCellBuffers := paneCellBuffers - {pane};
      paneCellShapeKeys := paneCellShapeKeys - {pane};
      hotspotMap := map k | k in hotspotMap && k.pane != pane :: hotspotMap[k];
      paneLastCursorPos := paneLastCursorPos - {pane};
      paneLastDisplayOffset := paneLastDisplayOffset - {pane};
      paneLastColumnCount := paneLastColumnCount - {pane};
    }

    method PaneCacheMatchesViewport(pane: PaneId, columns: nat, lines: nat, offset: nat) returns (matches: bool)
      ensures matches == CacheMatchesViewport(Caches(), pane, columns, lines, offset)
      ensures matches <==>
        && pane in paneRowCache && |paneRowCache[pane]| == lines
        && pane in paneLastColumnCount && paneLastColumnCount[pane] == columns
        && pane in paneLastDisplayOffset && paneLastDisplayOffset[pane] == offset
    {
      var cachedLines := if pane in paneRowCache then Some(|paneRowCache[pane]|) else None;
      matches := cachedLines == Some(lines)
        && Lookup(paneLastColumnCount, pane) == Some(columns)
        && Lookup(paneLastDisplayOffset, pane) == Some(offset);
    }

    /** Choose the pane that the next frame draws. */
    method SetCurrentPane(pane: PaneId)
      modifies `currentPane, `paneRowCache, `paneCellBuffers, `paneCellShapeKeys
      ensures Caches() == old(Selected(Caches(), pane)) && currentPane == Some(pane)
      ensures old(Valid()) ==> Valid()
    {
      hide Consistent;
      if Valid() { SelectedConsistent(font, Caches(), pane); }
      currentPane := Some(pane);
      if pane !in paneRowCache { paneRowCache := paneRowCache[pane := []]; }
      if pane !in paneCellBuffers { paneCellBuffers := paneCellBuffers[pane := []]; }
      if pane !in paneCellShapeKeys { paneCellShapeKeys := paneCellShapeKeys[pane := []]; }
      assert paneRowCache == Selected(old(Caches()), pane).rows;
      assert paneCellBuffers == Selected(old(Caches()), pane).buffers;
      assert paneCellShapeKeys == Selected(old(Caches()), pane).keys;
    }

    /** Sort the snapshot into rows, store the damaged ones, and draw the pane from its row cache. */
    method Render(cells: seq<RenderCell>, cursor: TermCursor, columns: nat, lines: nat, offset: nat,
                  damage: Option<seq<bool>>)
      requires Valid()
      modifies `paneRowCache, `paneCellBuffers, `paneCellShapeKeys, `paneLastCursorPos,
               `paneLastDisplayOffset, `paneLastColumnCount, `hotspotMap
      ensures Valid()
      ensures Caches()
        == old(Rendered(theme, font, Caches(), currentPane.GetOr(0), View(cursor),
                        cells, columns, lines, offset, damage))
    {
      var pane := currentPane.GetOr(0);
      var rowCache := Lookup(paneRowCache, pane).GetOr([]);
      rowCache := StoreDamagedRows(rowCache, lines, damage, cells);
      RenderedConsistent(theme, font, Caches(), pane, View(cursor), cells, columns, lines, offset, damage);
      paneRowCache := paneRowCache[pane := rowCache];
      assert PaneConsistent(font, Caches(), pane);
      RenderFromCache(cursor, columns, lines, offset, damage);
    }

    /** Draw an undamaged pane again: only the rows of the old and the new cursor are rebuilt. */
    method RenderCached(cursor: TermCursor, columns: nat, lines: nat, offset: nat)
      requires Valid()
      modifies `paneRowCache, `paneCellBuffers, `paneCellShapeKeys, `paneLastCursorPos,
               `paneLastDisplayOffset, `paneLastColumnCount, `hotspotMap
      ensures Valid()
      ensures Caches()
        == old(FromCache(theme, font, Caches(), currentPane.GetOr(0), View(cursor), columns, lines, offset, Some([])))
    {
      FromCacheConsistent(theme, font, Caches(), currentPane.GetOr(0), View(cursor), columns, lines, offset, Some([]));
      assert PaneConsistent(font, Caches(), currentPane.GetOr(0));
      RenderFromCache(cursor, columns, lines, offset, Some([]));
    }

    method RenderFromCache(cursor: TermCursor, columns: nat, lines: nat, offset: nat, damage: Option<seq<bool>>)
      requires PaneConsistent(font, Caches(), currentPane.GetOr(0))
      modifies `paneRowCache, `paneCellBuffers, `paneCellShapeKeys, `paneLastCursorPos,
               `paneLastDisplayOffset, `paneLastColumnCount, `hotspotMap
      ensures Caches()
        == old(FromCache(theme, font, Caches(), currentPane.GetOr(0), View(cursor), columns, lines, offset, damage))
    {
      var pane := currentPane.GetOr(0);
      var rowCache := Lookup(paneRowCache, pane).GetOr([]);
      var cellBuffers := Lookup(paneCellBuffers, pane).GetOr([]);
      var cellShapeKeys := Lookup(paneCellShapeKeys, pane).GetOr([]);
      var view := View(cursor);
      cellBuffers, cellShapeKeys :=
        RebuildCellBuffers(theme, font, view, lines, damage, Lookup(paneLastCursorPos, pane), rowCache, cellBuffers,
            cellShapeKeys);

      ProcessHotspots(pane, rowCache, damage);
      paneLastCursorPos := paneLastCursorPos[pane := (view.row, view.col)];
      paneLastDisplayOffset := paneLastDisplayOffset[pane := offset];
      paneLastColumnCount := paneLastColumnCount[pane := columns];
      paneRowCache := paneRowCache[pane := rowCache];
      paneCellBuffers := paneCellBuffers[pane := cellBuffers];
      paneCellShapeKeys := paneCellShapeKeys[pane := cellShapeKeys];
    }

    /** Update the hotspot index from every damaged row. */
    method ProcessHotspots(pane: PaneId, rows: seq<Option<CachedRow>>, damage: Option<seq<bool>>)
      requires RowsPlaced(rows)
      modifies `hotspotMap
      ensures hotspotMap == old(HotspotUpdate(hotspotMap, pane, rows, damage))
    {
      ghost var start := hotspotMap;
      for r := 0 to |rows|
        invariant hotspotMap == HotspotUpdate(start, pane, rows[..r], damage)
      {
        assert rows[..r + 1][..r] == rows[..r];
        if Damaged(damage, r) && rows[r].Some? {
          assert rows[r].value.cells == CachedCells(rows[r]);
          RefreshRowHotspots(pane, r, rows[r].value.cells);
        }
      }
      assert rows[..|rows|] == rows;
    }

    /** Evict the entries of a row's cells, then insert those that show a hotspot. */
    method RefreshRowHotspots(pane: PaneId, row: nat, cells: seq<RenderCell>)
      requires forall i :: 0 <= i < |cells| ==> cells[i].row == row
      modifies `hotspotMap
      ensures hotspotMap == old(Inserted(Evicted(hotspotMap, pane, row, cells), pane, row, cells))
    {
      ghost var before := hotspotMap;
      for i := 0 to |cells|
        invariant hotspotMap == Evicted(before, pane, row, cells[..i])
      {
        assert cells[..i + 1][..i] == cells[..i];
        hotspotMap := hotspotMap - {HotspotKey(pane, cells[i].row, cells[i].col)};
      }
      assert cells[..|cells|] == cells;
      ghost var evicted := hotspotMap;
      for i := 0 to |cells|
        invariant hotspotMap == Inserted(evicted, pane, row, cells[..i])
      {
        assert cells[..i + 1][..i] == cells[..i];
        var shown := ShownHotspot(cells[i]);
        if shown.Some? {
          hotspotMap := hotspotMap[HotspotKey(pane, cells[i].row, cells[i].col) := shown.value];
        }
      }
    }
  }

  /**
   The cursor a pane is drawn with: off every row while it is scrolled out above, hidden
   where the program hides it or, in the focused pane, while it blinks off.
   */
  lemma CursorOfPane(renderer: GridRenderer, cursor: TermCursor, rows: nat)
    requires renderer.configCursorShape != Hidden && rows <= USIZE_MAX
    ensures
      var view := renderer.View(cursor);
      var focused := renderer.currentPane.Some? && renderer.focusedCursorPane == renderer.currentPane;
      && view.col == cursor.column && (view.row < rows <==> 0 <= cursor.line < rows)
      && (view.row < rows ==> view.row == cursor.line)
      && (view.shape == Hidden <==> cursor.shape == Hidden || (focused && !renderer.cursorBlinkVisible))
      && (view.shape != Hidden ==>
            view.shape == if cursor.shape == Block then renderer.configCursorShape else cursor.shape)
  {
  }

  /** Fit the row cache to the viewport and replace its damaged rows by the snapshot's. */
  method StoreDamagedRows(rows: seq<Option<CachedRow>>, lines: nat, damage: Option<seq<bool>>, cells: seq<RenderCell>)
    returns (rowCache: seq<Option<CachedRow>>)
    ensures rowCache == UpdatedRows(rows, lines, damage, cells)
  {
    rowCache := rows;
    if |rowCache| != lines {
      rowCache := seq(lines, r requires 0 <= r < lines => if r < |rows| then rows[r] else None);
    }
    var newRowCells := SortIntoRows(cells, lines);
    for r := 0 to lines
      invariant |rowCache| == lines
      invariant forall q :: 0 <= q < lines ==>
        rowCache[q] == if q < r then UpdatedRow(rows, damage, cells, q) else if q < |rows| then rows[q] else None
    {
      if Damaged(damage, r) {
        if newRowCells[r] == [] {
          rowCache := rowCache[r := None];
        } else {
          rowCache := rowCache[r := Some(CachedRow(newRowCells[r]))];
        }
      }
    }
  }

  method SortIntoRows(cells: seq<RenderCell>, lines: nat) returns (rows: seq<seq<RenderCell>>)
    ensures |rows| == lines
    ensures forall r :: 0 <= r < lines ==> rows[r] == RowOf(cells, r)
  {
    rows := seq(lines, _ => []);
    for n := 0 to |cells|
      invariant |rows| == lines
      invariant forall r :: 0 <= r < lines ==> rows[r] == RowOf(cells[..n], r)
    {
      assert cells[..n + 1][..n] == cells[..n];
      var cell := cells[n];
      if cell.row < lines {
        rows := rows[cell.row := rows[cell.row] + [cell]];
      }
    }
    assert cells[..|cells|] == cells;
  }
}

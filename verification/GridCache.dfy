/**
 The renderer's per-pane caches as values, and what one frame makes of them.
 Every definition here is declarative (row by row, column by column); the
 loops that achieve it in place are in GridRenderer.
 */
module GridCache {
  import opened Wrappers
  import opened Cells
  import opened GridRow

  type PaneId = nat

  const USIZE_MAX: nat := 0xFFFF_FFFF_FFFF_FFFF

  datatype CachedRow = CachedRow(cells: seq<RenderCell>)

  datatype HotspotKey = HotspotKey(pane: PaneId, row: nat, col: nat)

  /** The terminal's cursor; its line is negative while it is scrolled out of view. */
  datatype TermCursor = TermCursor(shape: CursorShape, line: int, column: nat)

  datatype Caches = Caches(
    rows: map<PaneId, seq<Option<CachedRow>>>,
    buffers: map<PaneId, seq<seq<Option<GlyphBuffer>>>>,
    keys: map<PaneId, seq<seq<Option<CellShapeKey>>>>,
    cursors: map<PaneId, (nat, nat)>,
    offsets: map<PaneId, nat>,
    columns: map<PaneId, nat>,
    hotspots: map<HotspotKey, Hotspot>)

  const EMPTY_CACHES := Caches(map[], map[], map[], map[], map[], map[], map[])

  function Lookup<K, V>(m: map<K, V>, k: K): Option<V> {
    if k in m then Some(m[k]) else None
  }

  function CursorViewOf(presented: CursorShape, cursor: TermCursor): CursorView {
    CursorView(presented, if cursor.line >= 0 then cursor.line else USIZE_MAX, cursor.column)
  }

  /** No damage list means that every row is damaged. */
  predicate Damaged(damage: Option<seq<bool>>, row: nat) {
    damage.None? || (row < |damage.value| && damage.value[row])
  }

  predicate NeedsRebuild(damage: Option<seq<bool>>, previous: Option<(nat, nat)>, view: CursorView, row: nat) {
    Damaged(damage, row) || row == view.row || (previous.Some? && previous.value.0 == row)
  }

  /** The cells of one row, in the order in which the snapshot lists them. */
  function RowOf(cells: seq<RenderCell>, row: nat): (r: seq<RenderCell>)
    ensures forall i :: 0 <= i < |r| ==> r[i].row == row
  {
    if cells == [] then []
    else
      var init, last := cells[..|cells| - 1], cells[|cells| - 1];
      if last.row == row then RowOf(init, row) + [last] else RowOf(init, row)
  }

  function AsCachedRow(cells: seq<RenderCell>): (row: Option<CachedRow>)
    ensures row.None? <==> cells == []
    ensures row.Some? ==> row.value.cells == cells
  {
    if cells == [] then None else Some(CachedRow(cells))
  }

  function CachedCells(row: Option<CachedRow>): seq<RenderCell> {
    match row case Some(cached) => cached.cells case None => []
  }

  function UpdatedRow(rows: seq<Option<CachedRow>>, damage: Option<seq<bool>>, cells: seq<RenderCell>, r: nat)
    : Option<CachedRow>
  {
    if Damaged(damage, r) then AsCachedRow(RowOf(cells, r)) else if r < |rows| then rows[r] else None
  }

  function UpdatedRows(rows: seq<Option<CachedRow>>, lines: nat, damage: Option<seq<bool>>, cells: seq<RenderCell>)
    : seq<Option<CachedRow>>
  {
    seq(lines, r requires 0 <= r < lines => UpdatedRow(rows, damage, cells, r))
  }

  function RebuiltRowKeys(theme: Theme, view: CursorView, damage: Option<seq<bool>>, previous: Option<(nat, nat)>,
                          rows: seq<Option<CachedRow>>, keys: seq<seq<Option<CellShapeKey>>>, r: nat)
    : seq<Option<CellShapeKey>>
  {
    if r < |rows| && NeedsRebuild(damage, previous, view, r) then RowKeys(theme, view, CachedCells(rows[r]))
    else if r < |keys| then keys[r] else []
  }

  function RebuiltKeys(theme: Theme, view: CursorView, lines: nat, damage: Option<seq<bool>>,
                       previous: Option<(nat, nat)>, rows: seq<Option<CachedRow>>,
                       keys: seq<seq<Option<CellShapeKey>>>)
    : (rebuilt: seq<seq<Option<CellShapeKey>>>)
    ensures |rebuilt| == lines
  {
    if lines == 0 then []
    else RebuiltKeys(theme, view, lines - 1, damage, previous, rows, keys)
         + [RebuiltRowKeys(theme, view, damage, previous, rows, keys, lines - 1)]
  }

  lemma {:induction false} RebuiltKeysAt(theme: Theme, view: CursorView, lines: nat, damage: Option<seq<bool>>,
                                         previous: Option<(nat, nat)>, rows: seq<Option<CachedRow>>,
                                         keys: seq<seq<Option<CellShapeKey>>>, r: nat)
    requires r < lines
    ensures RebuiltKeys(theme, view, lines, damage, previous, rows, keys)[r]
      == RebuiltRowKeys(theme, view, damage, previous, rows, keys, r)
      == if r < |rows| && (damage.None? || (r < |damage.value| && damage.value[r])
                           || r == view.row || (previous.Some? && r == previous.value.0))
         then RowKeys(theme, view, CachedCells(rows[r]))
         else if r < |keys| then keys[r] else []
  {
    if r < lines - 1 { RebuiltKeysAt(theme, view, lines - 1, damage, previous, rows, keys, r); }
  }

  lemma RowByRow(theme: Theme, view: CursorView, lines: nat, damage: Option<seq<bool>>, previous: Option<(nat, nat)>,
                 rows: seq<Option<CachedRow>>, keys: seq<seq<Option<CellShapeKey>>>,
                 rebuilt: seq<seq<Option<CellShapeKey>>>)
    requires |rebuilt| == lines
    requires forall r :: 0 <= r < lines ==> rebuilt[r] == RebuiltRowKeys(theme, view, damage, previous, rows, keys, r)
    ensures rebuilt == RebuiltKeys(theme, view, lines, damage, previous, rows, keys)
  {
    forall r: nat | r < lines ensures rebuilt[r] == RebuiltKeys(theme, view, lines, damage, previous, rows, keys)[r] {
      RebuiltKeysAt(theme, view, lines, damage, previous, rows, keys, r);
    }
  }

  function ShapedGrid(font: FontSpec, keys: seq<seq<Option<CellShapeKey>>>): seq<seq<Option<GlyphBuffer>>> {
    seq(|keys|, r requires 0 <= r < |keys| => ShapedRow(font, keys[r]))
  }

  // ── Hotspots ─────────────────────────────────────────────────────────────

  /** A cell's clickable hotspot; a link other than a file link takes precedence over it. */
  function ShownHotspot(cell: RenderCell): Option<Hotspot> {
    if cell.hotspot.Some? && (cell.hyperlink.None? || "file://" <= cell.hyperlink.value)
    then cell.hotspot else None
  }

  predicate InColumns(cells: seq<RenderCell>, col: nat) {
    exists i :: 0 <= i < |cells| && cells[i].col == col
  }

  /** The hotspot of the last cell in this column that shows one. */
  function HotspotAt(cells: seq<RenderCell>, col: nat): Option<Hotspot> {
    if cells == [] then None
    else
      var last := cells[|cells| - 1];
      if last.col == col && ShownHotspot(last).Some? then ShownHotspot(last)
      else HotspotAt(cells[..|cells| - 1], col)
  }

  /** What the hotspot index holds at one key after a frame of `pane`. */
  function HotspotAfter(hotspots: map<HotspotKey, Hotspot>, pane: PaneId, rows: seq<Option<CachedRow>>,
                        damage: Option<seq<bool>>, key: HotspotKey): Option<Hotspot>
  {
    if key.pane == pane && key.row < |rows| && Damaged(damage, key.row)
        && InColumns(CachedCells(rows[key.row]), key.col)
    then HotspotAt(CachedCells(rows[key.row]), key.col)
    else Lookup(hotspots, key)
  }

  function Evicted(hotspots: map<HotspotKey, Hotspot>, pane: PaneId, row: nat, cells: seq<RenderCell>)
    : map<HotspotKey, Hotspot>
  {
    if cells == [] then hotspots
    else Evicted(hotspots, pane, row, cells[..|cells| - 1]) - {HotspotKey(pane, row, cells[|cells| - 1].col)}
  }

  function Inserted(hotspots: map<HotspotKey, Hotspot>, pane: PaneId, row: nat, cells: seq<RenderCell>)
    : map<HotspotKey, Hotspot>
  {
    if cells == [] then hotspots
    else
      var rest := Inserted(hotspots, pane, row, cells[..|cells| - 1]);
      var last := cells[|cells| - 1];
      if ShownHotspot(last).Some? then rest[HotspotKey(pane, row, last.col) := ShownHotspot(last).value] else rest
  }

  /** The index after the damaged rows' cells were evicted and re-inserted, row by row. */
  function HotspotUpdate(hotspots: map<HotspotKey, Hotspot>, pane: PaneId, rows: seq<Option<CachedRow>>,
                         damage: Option<seq<bool>>): map<HotspotKey, Hotspot>
  {
    if rows == [] then hotspots
    else
      var r := |rows| - 1;
      var rest := HotspotUpdate(hotspots, pane, rows[..r], damage);
      if Damaged(damage, r) && rows[r].Some?
      then Inserted(Evicted(rest, pane, r, rows[r].value.cells), pane, r, rows[r].value.cells)
      else rest
  }

  lemma {:induction false} EvictedLookup(hotspots: map<HotspotKey, Hotspot>, pane: PaneId, row: nat,
                                         cells: seq<RenderCell>, k: HotspotKey)
    ensures Lookup(Evicted(hotspots, pane, row, cells), k)
         == if k.pane == pane && k.row == row && InColumns(cells, k.col) then None else Lookup(hotspots, k)
  {
    if cells != [] {
      EvictedLookup(hotspots, pane, row, cells[..|cells| - 1], k);
    }
  }

  lemma {:induction false} InsertedLookup(hotspots: map<HotspotKey, Hotspot>, pane: PaneId, row: nat,
                                          cells: seq<RenderCell>, k: HotspotKey)
    ensures Lookup(Inserted(hotspots, pane, row, cells), k)
         == if k.pane == pane && k.row == row && HotspotAt(cells, k.col).Some? then HotspotAt(cells, k.col)
             else Lookup(hotspots, k)
  {
    if cells != [] {
      InsertedLookup(hotspots, pane, row, cells[..|cells| - 1], k);
    }
  }

  /** What the row-by-row update amounts to, key by key. */
  lemma {:induction false} HotspotUpdateLookup(hotspots: map<HotspotKey, Hotspot>, pane: PaneId,
                                               rows: seq<Option<CachedRow>>,
                                               damage: Option<seq<bool>>, k: HotspotKey)
    ensures Lookup(HotspotUpdate(hotspots, pane, rows, damage), k) == HotspotAfter(hotspots, pane, rows, damage, k)
  {
    if rows != [] {
      var r := |rows| - 1;
      var rest := HotspotUpdate(hotspots, pane, rows[..r], damage);
      HotspotUpdateLookup(hotspots, pane, rows[..r], damage, k);
      if rows[r].Some? {
        var cells := rows[r].value.cells;
        EvictedLookup(rest, pane, r, cells, k);
        InsertedLookup(Evicted(rest, pane, r, cells), pane, r, cells, k);
        HotspotInColumns(cells, k.col);
      }
    }
  }

  lemma {:induction false} HotspotInColumns(cells: seq<RenderCell>, col: nat)
    ensures HotspotAt(cells, col).Some? ==> InColumns(cells, col)
  {
    if cells != [] {
      HotspotInColumns(cells[..|cells| - 1], col);
    }
  }

  // ── One frame ────────────────────────────────────────────────────────────

  /** Is the glyph cache what shaping the stored keys gives, and is every cached cell in its own row? */
  ghost predicate Consistent(font: FontSpec, s: Caches) {
    forall p :: PaneConsistent(font, s, p)
  }

  ghost predicate PaneConsistent(font: FontSpec, s: Caches, pane: PaneId) {
    && (pane in s.keys <==> pane in s.buffers)
    && (pane in s.keys ==> s.buffers[pane] == ShapedGrid(font, s.keys[pane]))
    && (pane in s.rows ==> RowsPlaced(s.rows[pane]))
  }

  ghost predicate RowsPlaced(rows: seq<Option<CachedRow>>) {
    forall r, i :: 0 <= r < |rows| && 0 <= i < |CachedCells(rows[r])| ==> CachedCells(rows[r])[i].row == r
  }

  predicate CacheMatchesViewport(s: Caches, pane: PaneId, columns: nat, lines: nat, offset: nat) {
    && pane in s.rows && |s.rows[pane]| == lines
    && Lookup(s.columns, pane) == Some(columns)
    && Lookup(s.offsets, pane) == Some(offset)
  }

  function Selected(s: Caches, pane: PaneId): Caches {
    s.(rows := s.rows[pane := Lookup(s.rows, pane).GetOr([])],
       buffers := s.buffers[pane := Lookup(s.buffers, pane).GetOr([])],
       keys := s.keys[pane := Lookup(s.keys, pane).GetOr([])])
  }

  function Removed(s: Caches, pane: PaneId): Caches {
    Caches(s.rows - {pane}, s.buffers - {pane}, s.keys - {pane}, s.cursors - {pane}, s.offsets - {pane},
        s.columns - {pane},
           map k | k in s.hotspots && k.pane != pane :: s.hotspots[k])
  }

  function FromCache(theme: Theme, font: FontSpec, s: Caches, pane: PaneId, view: CursorView,
                     columns: nat, lines: nat, offset: nat, damage: Option<seq<bool>>): Caches
  {
    var rows := Lookup(s.rows, pane).GetOr([]);
    var keys := RebuiltKeys(theme, view, lines, damage, Lookup(s.cursors, pane), rows, Lookup(s.keys, pane).GetOr([]));
    Caches(s.rows[pane := rows], s.buffers[pane := ShapedGrid(font, keys)], s.keys[pane := keys],
           s.cursors[pane := (view.row, view.col)], s.offsets[pane := offset], s.columns[pane := columns],
           HotspotUpdate(s.hotspots, pane, rows, damage))
  }

  function Rendered(theme: Theme, font: FontSpec, s: Caches, pane: PaneId, view: CursorView, cells: seq<RenderCell>,
                    columns: nat, lines: nat, offset: nat, damage: Option<seq<bool>>): Caches
  {
    var rows := UpdatedRows(Lookup(s.rows, pane).GetOr([]), lines, damage, cells);
    FromCache(theme, font, s.(rows := s.rows[pane := rows]), pane, view, columns, lines, offset, damage)
  }

  // ── Consistency is kept ──────────────────────────────────────────────────

  lemma RemovedConsistent(font: FontSpec, s: Caches, pane: PaneId)
    requires Consistent(font, s)
    ensures Consistent(font, Removed(s, pane))
  {
    forall p ensures PaneConsistent(font, Removed(s, pane), p) { assert PaneConsistent(font, s, p); }
  }

  lemma SelectedConsistent(font: FontSpec, s: Caches, pane: PaneId)
    requires Consistent(font, s)
    ensures Consistent(font, Selected(s, pane))
  {
    forall p ensures PaneConsistent(font, Selected(s, pane), p) { assert PaneConsistent(font, s, p); }
  }

  lemma FromCacheConsistent(theme: Theme, font: FontSpec, s: Caches, pane: PaneId, view: CursorView,
                            columns: nat, lines: nat, offset: nat, damage: Option<seq<bool>>)
    requires Consistent(font, s)
    ensures Consistent(font, FromCache(theme, font, s, pane, view, columns, lines, offset, damage))
  {
    var t := FromCache(theme, font, s, pane, view, columns, lines, offset, damage);
    forall p ensures PaneConsistent(font, t, p) { assert PaneConsistent(font, s, p); }
  }

  lemma RenderedConsistent(theme: Theme, font: FontSpec, s: Caches, pane: PaneId, view: CursorView,
                           cells: seq<RenderCell>,
                           columns: nat, lines: nat, offset: nat, damage: Option<seq<bool>>)
    requires Consistent(font, s)
    ensures Consistent(font,
      s.(rows := s.rows[pane := UpdatedRows(Lookup(s.rows, pane).GetOr([]), lines, damage, cells)]))
    ensures Consistent(font, Rendered(theme, font, s, pane, view, cells, columns, lines, offset, damage))
  {
    var rows := Lookup(s.rows, pane).GetOr([]);
    var t := s.(rows := s.rows[pane := UpdatedRows(rows, lines, damage, cells)]);
    assert RowsPlaced(rows) by { assert PaneConsistent(font, s, pane); }
    forall p ensures PaneConsistent(font, t, p) { assert PaneConsistent(font, s, p); }
    FromCacheConsistent(theme, font, t, pane, view, columns, lines, offset, damage);
  }
}

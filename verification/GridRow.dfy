/**
 One row of the damage-driven glyph cache: what a row's shape keys and shaped
 buffers should be, and the in-place rebuild that skips every cell whose key
 did not change.
 */
module GridRow {
  import opened Wrappers
  import opened Cells

  datatype CursorShape = Block | Underline | Beam | HollowBlock | Hidden

  /** The cursor shape that is drawn, for the cursor's geometry and its cell text alike. */
  function PresentedCursorShape(program: CursorShape, configured: CursorShape, focused: bool, blinkVisible: bool)
    : CursorShape
  {
    if program == Hidden || (focused && !blinkVisible) then Hidden
    else if program == Block then configured
    else program
  }

  /**
   A program that asks for another shape than a block gets it; a block stands for the
   configured one. The cursor is hidden if the program hides it or, in the focused pane,
   while it blinks off.
   */
  lemma CursorIsDrawn(program: CursorShape, configured: CursorShape, focused: bool, blinkVisible: bool)
    requires configured != Hidden
    ensures
      var drawn := PresentedCursorShape(program, configured, focused, blinkVisible);
      && (drawn == Hidden <==> program == Hidden || (focused && !blinkVisible))
      && (drawn != Hidden ==> drawn == if program == Block then configured else program)
  {
  }

  /** Where the cursor is and how it is drawn in the frame being rendered. */
  datatype CursorView = CursorView(shape: CursorShape, row: nat, col: nat)

  datatype CellShapeKey = CellShapeKey(text: string, bold: bool, italic: bool, wide: bool, fg: Rgba)

  datatype FontSpec = FontSpec(family: string, size: real, lineHeight: real, cellWidth: real, cellHeight: real)

  /**
   A shaped glyph buffer. Shaping itself is abstract: the buffer is identified
   by everything the shaper is given.
   */
  datatype GlyphBuffer = GlyphBuffer(text: string, width: real, height: real, fg: Rgba, font: FontSpec)

  function Shape(font: FontSpec, key: CellShapeKey): GlyphBuffer {
    var width := if key.wide then font.cellWidth * 2.0 else font.cellWidth;
    GlyphBuffer(key.text, width + 4.0, font.cellHeight + 4.0, key.fg, font)
  }

  predicate UnderBlockCursor(view: CursorView, cell: RenderCell) {
    view.shape == Block && view.col == cell.col && view.row == cell.row
  }

  function TextColor(theme: Theme, view: CursorView, cell: RenderCell): Rgba {
    if UnderBlockCursor(view, cell) then ResolvedBg(theme)
    else if cell.hyperlink.Some? then theme.hyperlink
    else if cell.flags.inverse then ResolveBg(theme, cell.bg).GetOr(ResolvedBg(theme))
    else ResolveFg(theme, cell.fg)
  }

  /** The key a cell contributes: none for a blank that the cursor does not cover. */
  function CellKey(theme: Theme, view: CursorView, cell: RenderCell): Option<CellShapeKey> {
    if cell.c == ' ' && !UnderBlockCursor(view, cell) then None
    else Some(CellShapeKey(cell.text, cell.flags.bold, cell.flags.italic, cell.flags.wide,
        TextColor(theme, view, cell)))
  }

  /** Does some cell of the row, other than a wide-character spacer, sit in this column? */
  predicate Occupied(cells: seq<RenderCell>, col: nat) {
    exists i :: 0 <= i < |cells| && !cells[i].flags.spacer && cells[i].col == col
  }

  /** The key of the last non-spacer cell in this column; none when there is no such cell. */
  function KeyAt(theme: Theme, view: CursorView, cells: seq<RenderCell>, col: nat): Option<CellShapeKey> {
    if cells == [] then None
    else
      var last := cells[|cells| - 1];
      if !last.flags.spacer && last.col == col then CellKey(theme, view, last)
      else KeyAt(theme, view, cells[..|cells| - 1], col)
  }

  /** One more than the largest column of the row. */
  function RowWidth(cells: seq<RenderCell>): (width: nat)
    ensures forall i :: 0 <= i < |cells| ==> cells[i].col < width
    ensures cells != [] ==> exists i :: 0 <= i < |cells| && cells[i].col + 1 == width
    ensures cells == [] ==> width == 0
  {
    if cells == [] then 0
    else
      var init, last := cells[..|cells| - 1], cells[|cells| - 1];
      assert forall i :: 0 <= i < |init| ==> init[i] == cells[i];
      var rest := RowWidth(init);
      if last.col >= rest then last.col + 1 else rest
  }

  /** The keys of a row built from nothing. */
  function RowKeys(theme: Theme, view: CursorView, cells: seq<RenderCell>): seq<Option<CellShapeKey>> {
    seq(RowWidth(cells), col requires 0 <= col => KeyAt(theme, view, cells, col))
  }

  /** The buffers that go with a row of keys. */
  function ShapedRow(font: FontSpec, keys: seq<Option<CellShapeKey>>): (buffers: seq<Option<GlyphBuffer>>)
    ensures |buffers| == |keys|
  {
    seq(|keys|, i requires 0 <= i < |keys| =>
      match keys[i] case Some(key) => Some(Shape(font, key)) case None => None)
  }

  // ── What a cell shows ────────────────────────────────────────────────────

  /** The cell decides what its column of the row shows: no later cell but spacers is in that column. */
  ghost predicate Decides(cells: seq<RenderCell>, i: nat) {
    && i < |cells| && !cells[i].flags.spacer
    && forall j :: i < j < |cells| ==> cells[j].flags.spacer || cells[j].col != cells[i].col
  }

  /**
   The key is the glyph of this cell: its own text and flags, in the terminal's
   background under a block cursor, else in the link colour if it is linked, else in
   its background colour if it is inverse, else in its foreground colour. Blanks off the
   cursor have none.
   */
  ghost predicate ShowsGlyph(theme: Theme, view: CursorView, cell: RenderCell, key: Option<CellShapeKey>) {
    var onCursor := view.shape == Block && view.row == cell.row && view.col == cell.col;
    var behind := if theme.bgOverride.Some? then theme.bgOverride.value else theme.termBg;
    && (key == None <==> cell.c == ' ' && !onCursor)
    && (key.Some? ==>
          && key.value.text == cell.text && key.value.bold == cell.flags.bold
          && key.value.italic == cell.flags.italic && key.value.wide == cell.flags.wide
          && (onCursor ==> key.value.fg == behind)
          && (!onCursor && cell.hyperlink.Some? ==> key.value.fg == theme.hyperlink)
          && (!onCursor && cell.hyperlink.None? && cell.flags.inverse ==>
                key.value.fg == match ResolveBg(theme, cell.bg) case Some(color) => color case None => behind)
          && (!onCursor && cell.hyperlink.None? && !cell.flags.inverse ==> key.value.fg == ResolveFg(theme, cell.fg)))
  }

  /** A row's keys are the glyphs of the cells that decide its columns, and nothing in any other column. */
  ghost predicate ShowsRow(theme: Theme, view: CursorView, cells: seq<RenderCell>, keys: seq<Option<CellShapeKey>>) {
    && (forall i :: 0 <= i < |cells| && Decides(cells, i) ==>
          cells[i].col < |keys| && ShowsGlyph(theme, view, cells[i], keys[cells[i].col]))
    && (forall c :: 0 <= c < |keys| && keys[c].Some? ==>
          exists i :: 0 <= i < |cells| && !cells[i].flags.spacer && cells[i].col == c)
  }

  lemma RowShowsItsCells(theme: Theme, view: CursorView, cells: seq<RenderCell>)
    ensures ShowsRow(theme, view, cells, RowKeys(theme, view, cells))
  {
    var keys := RowKeys(theme, view, cells);
    forall i | 0 <= i < |cells| && Decides(cells, i)
      ensures cells[i].col < |keys| && ShowsGlyph(theme, view, cells[i], keys[cells[i].col])
    {
      LastCellWins(theme, view, cells, i);
    }
    forall c | 0 <= c < |keys| && keys[c].Some? ensures Occupied(cells, c) {
      if !Occupied(cells, c) { UnoccupiedHasNoKey(theme, view, cells, c); }
    }
  }

  /** The buffers of a row are its glyphs, a wide one in a box of two cells, with a margin of four pixels. */
  ghost predicate ShapesRow(font: FontSpec, keys: seq<Option<CellShapeKey>>, buffers: seq<Option<GlyphBuffer>>) {
    && |buffers| == |keys|
    && forall c :: 0 <= c < |keys| ==>
         && (buffers[c] == None <==> keys[c] == None)
         && (keys[c].Some? ==>
               && buffers[c].value.text == keys[c].value.text && buffers[c].value.fg == keys[c].value.fg
               && buffers[c].value.font == font && buffers[c].value.height - 4.0 == font.cellHeight
               && buffers[c].value.width - 4.0 == (if keys[c].value.wide then 2.0 else 1.0) * font.cellWidth)
  }

  lemma ShapedRowShapes(font: FontSpec, keys: seq<Option<CellShapeKey>>)
    ensures ShapesRow(font, keys, ShapedRow(font, keys))
  {
  }

  lemma UnoccupiedHasNoKey(theme: Theme, view: CursorView, cells: seq<RenderCell>, col: nat)
    requires !Occupied(cells, col)
    ensures KeyAt(theme, view, cells, col) == None
  {
    if cells != [] {
      var init := cells[..|cells| - 1];
      assert forall i :: 0 <= i < |init| ==> init[i] == cells[i];
      UnoccupiedHasNoKey(theme, view, init, col);
    }
  }

  /** With distinct columns every visible cell is shaped by exactly its own key. */
  lemma DistinctColumnsShowEveryCell(theme: Theme, view: CursorView, cells: seq<RenderCell>, i: nat)
    requires i < |cells| && !cells[i].flags.spacer
    requires forall a, b :: 0 <= a < b < |cells| ==> cells[a].col != cells[b].col
    ensures RowKeys(theme, view, cells)[cells[i].col] == CellKey(theme, view, cells[i])
  {
    LastCellWins(theme, view, cells, i);
  }

  lemma {:induction false} LastCellWins(theme: Theme, view: CursorView, cells: seq<RenderCell>, i: nat)
    requires i < |cells| && !cells[i].flags.spacer
    requires forall j :: i < j < |cells| ==> cells[j].flags.spacer || cells[j].col != cells[i].col
    ensures KeyAt(theme, view, cells, cells[i].col) == CellKey(theme, view, cells[i])
  {
    if i < |cells| - 1 {
      LastCellWins(theme, view, cells[..|cells| - 1], i);
    }
  }

  /**
   A row away from both the old and the new cursor shows the same keys under
   either: the reason undamaged rows may be skipped.
   */
  lemma KeysIgnoreDistantCursor(theme: Theme, v0: CursorView, v1: CursorView, cells: seq<RenderCell>, row: nat)
    requires forall i :: 0 <= i < |cells| ==> cells[i].row == row
    requires v0.row != row && v1.row != row
    ensures RowKeys(theme, v0, cells) == RowKeys(theme, v1, cells)
  {
    forall col: nat | col < RowWidth(cells)
      ensures KeyAt(theme, v0, cells, col) == KeyAt(theme, v1, cells, col)
    {
      KeyIgnoresDistantCursor(theme, v0, v1, cells, row, col);
    }
  }

  lemma {:induction false} KeyIgnoresDistantCursor(theme: Theme, v0: CursorView, v1: CursorView,
                                                   cells: seq<RenderCell>, row: nat, col: nat)
    requires forall i :: 0 <= i < |cells| ==> cells[i].row == row
    requires v0.row != row && v1.row != row
    ensures KeyAt(theme, v0, cells, col) == KeyAt(theme, v1, cells, col)
  {
    if cells != [] {
      KeyIgnoresDistantCursor(theme, v0, v1, cells[..|cells| - 1], row, col);
    }
  }

  method MaxColumn(cells: seq<RenderCell>) returns (width: nat)
    ensures width == RowWidth(cells)
  {
    width := 0;
    for i := 0 to |cells|
      invariant width == RowWidth(cells[..i])
    {
      assert cells[..i + 1][..i] == cells[..i];
      if cells[i].col >= width { width := cells[i].col + 1; }
    }
    assert cells[..|cells|] == cells;
  }

  method PadWithNone<T>(slots: seq<Option<T>>, length: nat) returns (padded: seq<Option<T>>)
    ensures |padded| == if |slots| < length then length else |slots|
    ensures forall i :: 0 <= i < |padded| ==> padded[i] == if i < |slots| then slots[i] else None
  {
    padded := slots;
    while |padded| < length
      invariant |slots| <= |padded| && (|padded| <= length || |padded| == |slots|)
      invariant forall i :: 0 <= i < |padded| ==> padded[i] == if i < |slots| then slots[i] else None
    {
      padded := padded + [None];
    }
  }

  /** Empty the slots of columns that no cell of the row occupies. */
  method ClearUnoccupied(font: FontSpec, occupied: seq<bool>,
                         oldBuffers: seq<Option<GlyphBuffer>>, oldKeys: seq<Option<CellShapeKey>>)
    returns (buffers: seq<Option<GlyphBuffer>>, keys: seq<Option<CellShapeKey>>)
    requires oldBuffers == ShapedRow(font, oldKeys)
    ensures |keys| == |oldKeys| && buffers == ShapedRow(font, keys)
    ensures forall c :: 0 <= c < |keys| ==> keys[c] == if c < |occupied| && !occupied[c] then None else oldKeys[c]
  {
    buffers, keys := oldBuffers, oldKeys;
    for col := 0 to |buffers|
      invariant |keys| == |oldKeys| && buffers == ShapedRow(font, keys)
      invariant forall c :: 0 <= c < |keys| ==>
        keys[c] == if c < col && c < |occupied| && !occupied[c] then None else oldKeys[c]
    {
      if col < |occupied| && !occupied[col] {
        buffers := buffers[col := None];
        keys := keys[col := None];
      }
    }
  }

  /**
   Rebuild one row's buffers and keys in place. A cell whose stored key equals
   its new key keeps its buffer; the result is nevertheless the row built from
   nothing.
   */
  method RebuildRow(theme: Theme, font: FontSpec, view: CursorView, cells: seq<RenderCell>,
                    oldBuffers: seq<Option<GlyphBuffer>>, oldKeys: seq<Option<CellShapeKey>>)
    returns (buffers: seq<Option<GlyphBuffer>>, keys: seq<Option<CellShapeKey>>)
    requires oldBuffers == ShapedRow(font, oldKeys)
    ensures keys == RowKeys(theme, view, cells) && buffers == ShapedRow(font, keys)
    ensures ShowsRow(theme, view, cells, keys) && ShapesRow(font, keys, buffers)
  {
    RowShowsItsCells(theme, view, cells);
    ShapedRowShapes(font, RowKeys(theme, view, cells));
    hide ShowsRow, ShapesRow;
    buffers, keys := oldBuffers, oldKeys;
    if cells == [] {
      assert RowKeys(theme, view, cells) == [];
      return [], [];
    }
    var maxCol := MaxColumn(cells);
    buffers := PadWithNone(buffers, maxCol);
    keys := PadWithNone(keys, maxCol);
    assert buffers == ShapedRow(font, keys);

    var occupied := seq(maxCol, _ => false);
    for n := 0 to |cells|
      invariant |keys| >= maxCol && |occupied| == maxCol
      invariant buffers == ShapedRow(font, keys)
      invariant forall c :: 0 <= c < maxCol ==> occupied[c] == Occupied(cells[..n], c)
      invariant forall c :: 0 <= c < maxCol && occupied[c] ==> keys[c] == KeyAt(theme, view, cells[..n], c)
    {
      var cell := cells[n];
      ghost var before := cells[..n];
      assert cells[..n + 1] == before + [cell];
      assert cells[..n + 1][..n] == before;
      OccupiedSnoc(before, cell);
      if cell.flags.spacer { continue; }

      var blockCursor := UnderBlockCursor(view, cell);
      var fg := TextColor(theme, view, cell);
      if cell.c == ' ' && !blockCursor {
        buffers := buffers[cell.col := None];
        keys := keys[cell.col := None];
        occupied := occupied[cell.col := true];
        continue;
      }
      occupied := occupied[cell.col := true];
      var newKey := CellShapeKey(cell.text, cell.flags.bold, cell.flags.italic, cell.flags.wide, fg);
      if keys[cell.col] == Some(newKey) { continue; }

      buffers := buffers[cell.col := Some(Shape(font, newKey))];
      keys := keys[cell.col := Some(newKey)];
    }
    assert cells[..|cells|] == cells;

    buffers, keys := ClearUnoccupied(font, occupied, buffers, keys);
    forall c: nat | c < maxCol
      ensures keys[c] == KeyAt(theme, view, cells, c)
    {
      if !occupied[c] { UnoccupiedHasNoKey(theme, view, cells, c); }
    }

    buffers := buffers[..maxCol];
    keys := keys[..maxCol];
    assert keys == RowKeys(theme, view, cells);
  }

  lemma OccupiedSnoc(before: seq<RenderCell>, cell: RenderCell)
    ensures forall c: nat :: Occupied(before + [cell], c) <==>
      Occupied(before, c) || (!cell.flags.spacer && cell.col == c)
  {
    forall c: nat
      ensures Occupied(before + [cell], c) <==> Occupied(before, c) || (!cell.flags.spacer && cell.col == c)
    {
      if Occupied(before, c) {
        var i :| 0 <= i < |before| && !before[i].flags.spacer && before[i].col == c;
        assert (before + [cell])[i] == before[i];
      }
      if !cell.flags.spacer && cell.col == c {
        assert (before + [cell])[|before|] == cell;
      }
    }
  }
}

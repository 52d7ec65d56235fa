/**
 Runs of the renderer: any mixture of full, partial and undamaged frames of any
 number of panes, with panes closed and the style changed in between. After
 every frame the caches are those of a full rebuild of what is on screen.
 */
module GridRuns {
  import opened Wrappers
  import opened Cells
  import opened GridRow
  import opened GridCache

  /** What a pane shows: its complete snapshot, its geometry and its drawn cursor. */
  datatype Frame = Frame(cells: seq<RenderCell>, view: CursorView, columns: nat, lines: nat, offset: nat)

  datatype Op =
    | Full(pane: PaneId, frame: Frame)
      /** Only the damaged rows of `passed` reach the renderer; `frame` is the pane's true content. */
    | Partial(pane: PaneId, frame: Frame, damage: seq<bool>, passed: seq<RenderCell>)
    | Undamaged(pane: PaneId, frame: Frame)
    | Select(pane: PaneId)
    | Remove(pane: PaneId)
    | Restyle(theme: Theme, font: FontSpec)

  /** The renderer's caches beside the truth: the last frame of every pane since the caches were cleared. */
  datatype World = World(theme: Theme, font: FontSpec, caches: Caches, shown: map<PaneId, Frame>)

  function Start(theme: Theme, font: FontSpec): World {
    World(theme, font, EMPTY_CACHES, map[])
  }

  function RenderFrame(theme: Theme, font: FontSpec, s: Caches, pane: PaneId, f: Frame,
                       damage: Option<seq<bool>>, passed: seq<RenderCell>): Caches
  {
    Rendered(theme, font, Selected(s, pane), pane, f.view, passed, f.columns, f.lines, f.offset, damage)
  }

  function Step(w: World, op: Op): World {
    match op
    case Full(p, f) =>
      w.(caches := RenderFrame(w.theme, w.font, w.caches, p, f, None, f.cells), shown := w.shown[p := f])
    case Partial(p, f, damage, passed) =>
      w.(caches := RenderFrame(w.theme, w.font, w.caches, p, f, Some(damage), passed), shown := w.shown[p := f])
    case Undamaged(p, f) =>
      w.(caches := FromCache(w.theme, w.font, Selected(w.caches, p), p, f.view, f.columns, f.lines, f.offset, Some([])),
         shown := w.shown[p := f])
    case Select(p) => w.(caches := Selected(w.caches, p))
    case Remove(p) => w.(caches := Removed(w.caches, p), shown := w.shown - {p})
    case Restyle(theme, font) => Start(theme, font)
  }

  function Run(w: World, ops: seq<Op>): World
    decreases |ops|
  {
    if ops == [] then w else Run(Step(w, ops[0]), ops[1..])
  }

  /** The damage list that an operation hands to the renderer. */
  function DamageOf(op: Op): Option<seq<bool>> {
    match op
    case Partial(_, _, damage, _) => Some(damage)
    case Undamaged(_, _) => Some([])
    case _ => None
  }

  predicate Renders(op: Op) {
    op.Full? || op.Partial? || op.Undamaged?
  }

  /**
   When damage may be used: the cache matches the viewport, rows outside the
   damage are as they were, and the rows inside it were passed.
   */
  ghost predicate Allowed(w: World, op: Op) {
    (op.Partial? || op.Undamaged?) ==>
      && CacheMatchesViewport(w.caches, op.pane, op.frame.columns, op.frame.lines, op.frame.offset)
      && (op.pane in w.shown ==>
            forall r: nat :: r < op.frame.lines && !Damaged(DamageOf(op), r) ==>
              RowOf(op.frame.cells, r) == RowOf(w.shown[op.pane].cells, r))
      && (op.Partial? ==>
            forall r: nat :: r < op.frame.lines && Damaged(DamageOf(op), r) ==>
              RowOf(op.passed, r) == RowOf(op.frame.cells, r))
  }

  ghost predicate AllAllowed(w: World, ops: seq<Op>)
    decreases |ops|
  {
    ops == [] || (Allowed(w, ops[0]) && AllAllowed(Step(w, ops[0]), ops[1..]))
  }

  /** Everything cached for one pane, apart from the shared hotspot index. */
  datatype PaneCaches = PaneCaches(
    rows: Option<seq<Option<CachedRow>>>,
    keys: Option<seq<seq<Option<CellShapeKey>>>>,
    buffers: Option<seq<seq<Option<GlyphBuffer>>>>,
    cursor: Option<(nat, nat)>,
    offset: Option<nat>,
    columns: Option<nat>)

  function CachesOf(s: Caches, pane: PaneId): PaneCaches {
    PaneCaches(Lookup(s.rows, pane), Lookup(s.keys, pane), Lookup(s.buffers, pane),
               Lookup(s.cursors, pane), Lookup(s.offsets, pane), Lookup(s.columns, pane))
  }

  /** A full rebuild of one frame by a renderer that has never drawn anything. */
  function FullRebuild(theme: Theme, font: FontSpec, pane: PaneId, f: Frame): PaneCaches {
    CachesOf(RenderFrame(theme, font, EMPTY_CACHES, pane, f, None, f.cells), pane)
  }

  ghost predicate UpToDate(w: World, pane: PaneId) {
    && (pane in w.shown <==> pane in w.caches.offsets)
    && (pane in w.shown ==> CachesOf(w.caches, pane) == FullRebuild(w.theme, w.font, pane, w.shown[pane]))
  }

  ghost predicate Current(w: World) {
    Consistent(w.font, w.caches) && forall p :: UpToDate(w, p)
  }

  // ── What a full rebuild holds ────────────────────────────────────────────

  function FrameRow(f: Frame, r: nat): Option<CachedRow> {
    AsCachedRow(RowOf(f.cells, r))
  }

  function FrameRowKeys(theme: Theme, f: Frame, r: nat): seq<Option<CellShapeKey>> {
    RowKeys(theme, f.view, RowOf(f.cells, r))
  }

  /** The rows and keys of a frame, row by row, without any history. */
  ghost predicate Depicts(theme: Theme, font: FontSpec, f: Frame, c: PaneCaches) {
    && c.rows.Some? && |c.rows.value| == f.lines
    && c.keys.Some? && |c.keys.value| == f.lines
    && (forall r :: 0 <= r < f.lines ==> c.rows.value[r] == FrameRow(f, r))
    && (forall r :: 0 <= r < f.lines ==> c.keys.value[r] == FrameRowKeys(theme, f, r))
    && c.buffers == Some(ShapedGrid(font, c.keys.value))
    && c.cursor == Some((f.view.row, f.view.col)) && c.offset == Some(f.offset) && c.columns == Some(f.columns)
  }

  lemma DepictionIsUnique(theme: Theme, font: FontSpec, f: Frame, c: PaneCaches, d: PaneCaches)
    requires Depicts(theme, font, f, c) && Depicts(theme, font, f, d)
    ensures c == d
  {
    assert c.rows.value == d.rows.value;
    assert c.keys.value == d.keys.value;
  }

  lemma FullFrameDepicts(theme: Theme, font: FontSpec, s: Caches, pane: PaneId, f: Frame)
    ensures Depicts(theme, font, f, CachesOf(RenderFrame(theme, font, s, pane, f, None, f.cells), pane))
  {
    var rows0 := Lookup(Selected(s, pane).rows, pane).GetOr([]);
    var keys0 := Lookup(Selected(s, pane).keys, pane).GetOr([]);
    var rows := UpdatedRows(rows0, f.lines, None, f.cells);
    var previous := Lookup(s.cursors, pane);
    forall r: nat | r < f.lines
      ensures rows[r] == FrameRow(f, r)
      ensures RebuiltKeys(theme, f.view, f.lines, None, previous, rows, keys0)[r] == FrameRowKeys(theme, f, r)
    {
      RebuiltKeysAt(theme, f.view, f.lines, None, previous, rows, keys0, r);
    }
  }

  /** The heart of the matter: redrawing only what is damaged or near a cursor gives the whole frame. */
  lemma DamagedFrameDepicts(theme: Theme, font: FontSpec, before: PaneCaches, f0: Frame, f: Frame,
                            damage: seq<bool>, passed: seq<RenderCell>, rows: seq<Option<CachedRow>>,
                            keys: seq<seq<Option<CellShapeKey>>>, after: PaneCaches)
    requires Depicts(theme, font, f0, before) && f0.lines == f.lines
    requires forall r: nat :: r < f.lines && !Damaged(Some(damage), r) ==> RowOf(f.cells, r) == RowOf(f0.cells, r)
    requires forall r: nat :: r < f.lines && Damaged(Some(damage), r) ==> RowOf(passed, r) == RowOf(f.cells, r)
    requires rows == UpdatedRows(before.rows.value, f.lines, Some(damage), passed)
    requires keys == RebuiltKeys(theme, f.view, f.lines, Some(damage), before.cursor, rows, before.keys.value)
    requires after == PaneCaches(Some(rows), Some(keys), Some(ShapedGrid(font, keys)),
                                 Some((f.view.row, f.view.col)), Some(f.offset), Some(f.columns))
    ensures Depicts(theme, font, f, after)
  {
    forall r: nat | r < f.lines
      ensures rows[r] == FrameRow(f, r) && keys[r] == FrameRowKeys(theme, f, r)
    {
      RebuiltKeysAt(theme, f.view, f.lines, Some(damage), before.cursor, rows, before.keys.value, r);
      assert rows[r] == UpdatedRow(before.rows.value, Some(damage), passed, r);
      if !NeedsRebuild(Some(damage), before.cursor, f.view, r) {
        KeysIgnoreDistantCursor(theme, f0.view, f.view, RowOf(f.cells, r), r);
      }
    }
  }

  // ── Every step keeps the caches current ──────────────────────────────────

  lemma StepConsistent(w: World, op: Op)
    requires Consistent(w.font, w.caches)
    ensures Consistent(Step(w, op).font, Step(w, op).caches)
  {
    match op
    case Full(p, f) =>
      SelectedConsistent(w.font, w.caches, p);
      RenderedConsistent(w.theme, w.font, Selected(w.caches, p), p, f.view, f.cells, f.columns, f.lines, f.offset,
          None);
    case Partial(p, f, damage, passed) =>
      SelectedConsistent(w.font, w.caches, p);
      RenderedConsistent(w.theme, w.font, Selected(w.caches, p), p, f.view, passed, f.columns, f.lines, f.offset,
          Some(damage));
    case Undamaged(p, f) =>
      SelectedConsistent(w.font, w.caches, p);
      FromCacheConsistent(w.theme, w.font, Selected(w.caches, p), p, f.view, f.columns, f.lines, f.offset, Some([]));
    case Select(p) => SelectedConsistent(w.font, w.caches, p);
    case Remove(p) => RemovedConsistent(w.font, w.caches, p);
    case Restyle(theme, font) => forall p ensures PaneConsistent(font, EMPTY_CACHES, p) {}
  }

  /** The pane an operation draws shows its frame exactly as a full rebuild would. */
  lemma RenderedPaneIsCurrent(w: World, op: Op)
    requires Current(w) && Renders(op) && Allowed(w, op)
    ensures UpToDate(Step(w, op), op.pane)
  {
    var p, f := op.pane, op.frame;
    FullFrameDepicts(w.theme, w.font, EMPTY_CACHES, p, f);
    if op.Full? {
      FullFrameDepicts(w.theme, w.font, w.caches, p, f);
    } else {
      DamagedPaneDepicts(w, op);
    }
    DepictionIsUnique(w.theme, w.font, f, CachesOf(Step(w, op).caches, p), FullRebuild(w.theme, w.font, p, f));
  }

  lemma DamagedPaneDepicts(w: World, op: Op)
    requires Current(w) && Allowed(w, op) && (op.Partial? || op.Undamaged?)
    ensures Depicts(w.theme, w.font, op.frame, CachesOf(Step(w, op).caches, op.pane))
  {
    var p, f := op.pane, op.frame;
    assert UpToDate(w, p);
    var f0, before := w.shown[p], CachesOf(w.caches, p);
    FullFrameDepicts(w.theme, w.font, EMPTY_CACHES, p, f0);
    var damage := DamageOf(op).value;
    var passed := if op.Partial? then op.passed else [];
    var rows := UpdatedRows(before.rows.value, f.lines, Some(damage), passed);
    var keys := RebuiltKeys(w.theme, f.view, f.lines, Some(damage), before.cursor, rows, before.keys.value);
    if op.Undamaged? { assert rows == before.rows.value; }
    DamagedFrameDepicts(w.theme, w.font, before, f0, f, damage, passed, rows, keys, CachesOf(Step(w, op).caches, p));
  }

  /** No operation on one pane touches another pane's caches or hotspots. */
  lemma OtherPanesUntouched(w: World, op: Op, q: PaneId)
    requires !op.Restyle? && q != op.pane
    ensures CachesOf(Step(w, op).caches, q) == CachesOf(w.caches, q)
    ensures forall k: HotspotKey :: k.pane == q ==>
      Lookup(Step(w, op).caches.hotspots, k) == Lookup(w.caches.hotspots, k)
  {
    if Renders(op) {
      var p := op.pane;
      var rows := Step(w, op).caches.rows[p];
      forall k: HotspotKey | k.pane == q
        ensures Lookup(HotspotUpdate(w.caches.hotspots, p, rows, DamageOf(op)), k) == Lookup(w.caches.hotspots, k)
      {
        HotspotUpdateLookup(w.caches.hotspots, p, rows, DamageOf(op), k);
      }
    }
  }

  lemma StepKeepsCurrent(w: World, op: Op)
    requires Current(w) && Allowed(w, op)
    ensures Current(Step(w, op))
  {
    StepConsistent(w, op);
    var v := Step(w, op);
    forall q ensures UpToDate(v, q) {
      assert UpToDate(w, q);
      if !op.Restyle? && q != op.pane {
        OtherPanesUntouched(w, op, q);
        assert Lookup(v.caches.offsets, q) == Lookup(w.caches.offsets, q);
      } else if Renders(op) {
        RenderedPaneIsCurrent(w, op);
      }
    }
  }

  lemma StartIsCurrent(theme: Theme, font: FontSpec)
    ensures Current(Start(theme, font))
  {
    forall p ensures PaneConsistent(font, EMPTY_CACHES, p) {}
  }

  lemma {:induction false} RunKeepsCurrent(w: World, ops: seq<Op>)
    requires Current(w) && AllAllowed(w, ops)
    ensures Current(Run(w, ops))
    decreases |ops|
  {
    if ops != [] {
      StepKeepsCurrent(w, ops[0]);
      RunKeepsCurrent(Step(w, ops[0]), ops[1..]);
    }
  }

  /**
   After any run, for every pane on screen, the row cache, the shape keys, the
   glyph buffers and the bookkeeping are exactly those of a renderer that draws
   the pane's current content in full for the first time.
   */
  lemma EveryFrameIsAFullRebuild(start: World, theme: Theme, font: FontSpec, ops: seq<Op>, w: World, pane: PaneId)
    requires start == Start(theme, font) && AllAllowed(start, ops) && w == Run(start, ops)
    requires pane in w.shown
    ensures CachesOf(w.caches, pane) == FullRebuild(w.theme, w.font, pane, w.shown[pane])
  {
    StartIsCurrent(theme, font);
    RunKeepsCurrent(start, ops);
    assert UpToDate(w, pane);
  }

  // ── The hotspot index ────────────────────────────────────────────────────

  /** The hotspot a frame shows at one place, computed from its cells alone. */
  function FrameHotspot(f: Frame, row: nat, col: nat): Option<Hotspot> {
    if row < f.lines then HotspotAt(RowOf(f.cells, row), col) else None
  }

  /** What the index should hold for a pane: its frame's hotspots, and nothing for a pane not on screen. */
  function TrueHotspot(w: World, k: HotspotKey): Option<Hotspot> {
    if k.pane in w.shown then FrameHotspot(w.shown[k.pane], k.row, k.col) else None
  }

  ghost predicate HotspotsFresh(w: World, pane: PaneId) {
    forall k: HotspotKey :: k.pane == pane ==> Lookup(w.caches.hotspots, k) == TrueHotspot(w, k)
  }

  /** What is on screen after an operation, from what was before. */
  function ShownAfter(shown: map<PaneId, Frame>, op: Op): map<PaneId, Frame> {
    match op
    case Full(p, f) => shown[p := f]
    case Partial(p, f, _, _) => shown[p := f]
    case Undamaged(p, f) => shown[p := f]
    case Select(_) => shown
    case Remove(p) => shown - {p}
    case Restyle(_, _) => map[]
  }

  /**
   Checked on the frames alone, before drawing: every hotspot of the pane's last
   frame lies in the new viewport and, if its row is damaged, in a column the new
   row's cells cover. Wide-character spacers are not among the cells, so their
   columns are not covered.
   */
  ghost predicate NothingLeftBehind(shown: map<PaneId, Frame>, op: Op) {
    Renders(op) && op.pane in shown ==>
      forall row: nat, col: nat :: FrameHotspot(shown[op.pane], row, col).Some? ==>
        row < op.frame.lines && (Damaged(DamageOf(op), row) ==> InColumns(RowOf(op.frame.cells, row), col))
  }

  lemma HotspotAfterStep(w: World, op: Op, k: HotspotKey)
    requires Current(w) && Renders(op) && Allowed(w, op) && k.pane == op.pane
    ensures Lookup(Step(w, op).caches.hotspots, k)
         == if k.row < op.frame.lines && Damaged(DamageOf(op), k.row) && InColumns(RowOf(op.frame.cells, k.row), k.col)
            then FrameHotspot(op.frame, k.row, k.col)
            else Lookup(w.caches.hotspots, k)
  {
    var v := Step(w, op);
    var rows := v.caches.rows[op.pane];
    HotspotUpdateLookup(w.caches.hotspots, op.pane, rows, DamageOf(op), k);
    StepKeepsCurrent(w, op);
    assert UpToDate(v, op.pane);
    FullFrameDepicts(w.theme, w.font, EMPTY_CACHES, op.pane, op.frame);
    assert |rows| == op.frame.lines;
    if k.row < |rows| { assert rows[k.row] == FrameRow(op.frame, k.row); }
  }

  /** A frame leaves the pane's index fresh exactly when it leaves nothing behind. */
  lemma FreshIffNothingLeftBehind(w: World, op: Op)
    requires Current(w) && Renders(op) && Allowed(w, op)
    requires HotspotsFresh(w, op.pane)
    ensures HotspotsFresh(Step(w, op), op.pane) <==> NothingLeftBehind(w.shown, op)
  {
    var v := Step(w, op);
    forall row: nat, col: nat
      ensures
        var k := HotspotKey(op.pane, row, col);
        Lookup(v.caches.hotspots, k) == TrueHotspot(v, k) <==>
        (op.pane in w.shown && FrameHotspot(w.shown[op.pane], row, col).Some? ==>
          row < op.frame.lines && (Damaged(DamageOf(op), row) ==> InColumns(RowOf(op.frame.cells, row), col)))
    {
      var k := HotspotKey(op.pane, row, col);
      assert Lookup(w.caches.hotspots, k) == TrueHotspot(w, k);
      HotspotAfterStep(w, op, k);
      if row < op.frame.lines {
        HotspotInColumns(RowOf(op.frame.cells, row), col);
        if !Damaged(DamageOf(op), row) { assert UpToDate(w, op.pane); }
      }
    }
    hide *;
    FreshByPlace(v, op.pane);
    NothingByPlace(w.shown, op);
  }

  lemma FreshByPlace(w: World, pane: PaneId)
    ensures HotspotsFresh(w, pane) <==>
      forall row: nat, col: nat ::
          Lookup(w.caches.hotspots, HotspotKey(pane, row, col)) == TrueHotspot(w, HotspotKey(pane, row, col))
  {
    hide Lookup, TrueHotspot;
    if forall row: nat, col: nat ::
        Lookup(w.caches.hotspots, HotspotKey(pane, row, col)) == TrueHotspot(w, HotspotKey(pane, row, col)) {
      forall k: HotspotKey | k.pane == pane ensures Lookup(w.caches.hotspots, k) == TrueHotspot(w, k) {
        assert k == HotspotKey(pane, k.row, k.col);
      }
    }
  }

  lemma NothingByPlace(shown: map<PaneId, Frame>, op: Op)
    requires Renders(op)
    ensures NothingLeftBehind(shown, op) <==>
      forall row: nat, col: nat ::
        op.pane in shown && FrameHotspot(shown[op.pane], row, col).Some? ==>
          row < op.frame.lines && (Damaged(DamageOf(op), row) ==> InColumns(RowOf(op.frame.cells, row), col))
  {
    hide FrameHotspot, Damaged, InColumns;
  }

  ghost predicate AllFresh(w: World) {
    forall q :: HotspotsFresh(w, q)
  }

  lemma StepFreshIff(w: World, op: Op)
    requires Current(w) && Allowed(w, op) && AllFresh(w)
    ensures AllFresh(Step(w, op)) <==> NothingLeftBehind(w.shown, op)
    ensures Step(w, op).shown == ShownAfter(w.shown, op)
  {
    var v := Step(w, op);
    if !op.Restyle? {
      forall q | q != op.pane ensures HotspotsFresh(v, q) {
        assert HotspotsFresh(w, q);
        OtherPanesUntouched(w, op, q);
      }
      assert HotspotsFresh(w, op.pane);
      if Renders(op) { FreshIffNothingLeftBehind(w, op); }
    }
  }

  /** Is the index that of the frames on screen now and after every further operation? */
  ghost predicate FreshThroughout(w: World, ops: seq<Op>)
    decreases |ops|
  {
    AllFresh(w) && (ops != [] ==> FreshThroughout(Step(w, ops[0]), ops[1..]))
  }

  /** Does no frame of the run leave anything of the pane's previous frame behind? */
  ghost predicate NothingEverLeftBehind(shown: map<PaneId, Frame>, ops: seq<Op>)
    decreases |ops|
  {
    ops != [] ==> NothingLeftBehind(shown, ops[0]) && NothingEverLeftBehind(ShownAfter(shown, ops[0]), ops[1..])
  }

  lemma {:induction false} FreshThroughoutIffFrom(w: World, ops: seq<Op>)
    requires Current(w) && AllAllowed(w, ops) && AllFresh(w)
    ensures FreshThroughout(w, ops) <==> NothingEverLeftBehind(w.shown, ops)
    decreases |ops|
  {
    if ops != [] {
      var v := Step(w, ops[0]);
      StepFreshIff(w, ops[0]);
      StepKeepsCurrent(w, ops[0]);
      if AllFresh(v) { FreshThroughoutIffFrom(v, ops[1..]); }
    }
  }

  /**
   From the start, the index equals the one computed afresh after every operation
   of a run if and only if no frame of the run leaves a hotspot of its pane's
   previous frame behind: a condition on the frames alone.
   */
  lemma HotspotIndexIsFreshIff(start: World, theme: Theme, font: FontSpec, ops: seq<Op>)
    requires start == Start(theme, font) && AllAllowed(start, ops)
    ensures FreshThroughout(start, ops) <==> NothingEverLeftBehind(map[], ops)
  {
    StartIsCurrent(theme, font);
    FreshThroughoutIffFrom(start, ops);
  }

  // ── Rows that cover their columns ────────────────────────────────────────

  /** Does every damaged row of the frame have a cell in each of its columns and in no other? */
  ghost predicate CoversDamage(op: Op)
    requires Renders(op)
  {
    forall r: nat, c: nat :: r < op.frame.lines && Damaged(DamageOf(op), r) ==>
      (InColumns(RowOf(op.frame.cells, r), c) <==> c < op.frame.columns)
  }

  datatype Size = Size(lines: nat, columns: nat)

  /** Does the operation, if it renders, keep its pane's size and cover what it damages? */
  ghost predicate Covers(size: PaneId -> Size, op: Op) {
    Renders(op) ==> Size(op.frame.lines, op.frame.columns) == size(op.pane) && CoversDamage(op)
  }

  /** The rows on screen have cells in the frame's columns only. */
  ghost predicate VisibleWithin(f: Frame) {
    forall r: nat, c: nat :: r < f.lines && InColumns(RowOf(f.cells, r), c) ==> c < f.columns
  }

  ghost predicate AllWithin(size: PaneId -> Size, shown: map<PaneId, Frame>) {
    forall p :: p in shown ==> VisibleWithin(shown[p]) && Size(shown[p].lines, shown[p].columns) == size(p)
  }

  lemma CoveringLeavesNothingBehind(size: PaneId -> Size, shown: map<PaneId, Frame>, op: Op)
    requires AllWithin(size, shown) && Covers(size, op)
    ensures NothingLeftBehind(shown, op)
  {
    if Renders(op) && op.pane in shown {
      var f := shown[op.pane];
      forall row: nat, col: nat | FrameHotspot(f, row, col).Some?
        ensures row < op.frame.lines && col < op.frame.columns
      {
        HotspotInColumns(RowOf(f.cells, row), col);
      }
    }
  }

  lemma CoveringStaysWithin(size: PaneId -> Size, w: World, op: Op)
    requires Current(w) && Allowed(w, op) && AllWithin(size, w.shown) && Covers(size, op)
    ensures AllWithin(size, ShownAfter(w.shown, op))
  {
    if Renders(op) {
      assert UpToDate(w, op.pane);
      forall r: nat, c: nat | r < op.frame.lines && InColumns(RowOf(op.frame.cells, r), c)
        ensures c < op.frame.columns
      {
        if !Damaged(DamageOf(op), r) { assert RowOf(op.frame.cells, r) == RowOf(w.shown[op.pane].cells, r); }
      }
    }
  }

  lemma {:induction false} CoveringRunsFrom(size: PaneId -> Size, w: World, ops: seq<Op>)
    requires Current(w) && AllAllowed(w, ops) && AllFresh(w) && AllWithin(size, w.shown)
    requires forall i :: 0 <= i < |ops| ==> Covers(size, ops[i])
    ensures FreshThroughout(w, ops)
    decreases |ops|
  {
    if ops != [] {
      hide Covers, AllWithin, AllFresh, NothingLeftBehind;
      assert Covers(size, ops[0]);
      CoveringLeavesNothingBehind(size, w.shown, ops[0]);
      CoveringStaysWithin(size, w, ops[0]);
      StepFreshIff(w, ops[0]);
      StepKeepsCurrent(w, ops[0]);
      CoveringRunsFrom(size, Step(w, ops[0]), ops[1..]);
    }
  }

  lemma {:induction false} FreshAtTheEnd(w: World, ops: seq<Op>)
    requires FreshThroughout(w, ops)
    ensures AllFresh(Run(w, ops))
    decreases |ops|
  {
    if ops != [] { FreshAtTheEnd(Step(w, ops[0]), ops[1..]); }
  }

  /**
   Between size changes, if every damaged row covers all its columns, the index
   is after every operation the one computed afresh from what is on screen.
   */
  lemma CoveringRunsStayFresh(start: World, theme: Theme, font: FontSpec, size: PaneId -> Size, ops: seq<Op>)
    requires start == Start(theme, font) && AllAllowed(start, ops)
    requires forall i :: 0 <= i < |ops| ==> Covers(size, ops[i])
    ensures FreshThroughout(start, ops)
    ensures forall q :: HotspotsFresh(Run(start, ops), q)
  {
    StartIsCurrent(theme, font);
    CoveringRunsFrom(size, start, ops);
    FreshAtTheEnd(start, ops);
  }

  // ── A hotspot left behind ────────────────────────────────────────────────

  function LinkCell(spot: Hotspot): RenderCell {
    RenderCell(0, 1, 'x', "x", Named(Foreground), Named(Background), Flags(false, false, false, false, false), None,
        None, Some(spot))
  }

  function WideCell(): RenderCell {
    RenderCell(0, 0, 'x', "x", Named(Foreground), Named(Background), Flags(false, false, true, false, false), None,
        None, None)
  }

  function OneCellFrame(cell: RenderCell): Frame {
    Frame([cell], CursorView(Hidden, 0, 0), 2, 1, 0)
  }

  lemma OneCellFrameHotspot(cell: RenderCell)
    requires cell.row == 0
    ensures RowOf(OneCellFrame(cell).cells, 0) == [cell]
    ensures FrameHotspot(OneCellFrame(cell), 0, 1) == if cell.col == 1 then ShownHotspot(cell) else None
  {
    assert [cell][..0] == [];
    assert RowOf([cell], 0) == RowOf([], 0) + [cell];
    assert HotspotAt([], 1) == None;
  }

  /** A hotspot whose column is not covered by its redrawn row stays in the index. */
  lemma UncoveredHotspotStays(w: World, op: Op, k: HotspotKey)
    requires Current(w) && Renders(op) && Allowed(w, op) && HotspotsFresh(w, op.pane)
    requires k.pane == op.pane && k.row < op.frame.lines && TrueHotspot(w, k).Some?
    requires Damaged(DamageOf(op), k.row) && !InColumns(RowOf(op.frame.cells, k.row), k.col)
    ensures !HotspotsFresh(Step(w, op), op.pane)
  {
    FreshIffNothingLeftBehind(w, op);
  }

  ghost predicate ShowsOneLink(w: World, spot: Hotspot) {
    && Current(w) && HotspotsFresh(w, 0) && CacheMatchesViewport(w.caches, 0, 2, 1, 0)
    && 0 in w.shown && w.shown[0] == OneCellFrame(LinkCell(spot))
  }

  lemma LinkIsShown(theme: Theme, font: FontSpec, spot: Hotspot)
    ensures ShowsOneLink(Step(Start(theme, font), Full(0, OneCellFrame(LinkCell(spot)))), spot)
  {
    FirstFrameIsFresh(theme, font, Full(0, OneCellFrame(LinkCell(spot))));
  }

  lemma WideOverLink(w: World, spot: Hotspot, op: Op)
    requires ShowsOneLink(w, spot)
    requires op == Partial(0, OneCellFrame(WideCell()), [true], [WideCell()])
    ensures Allowed(w, op)
    ensures !HotspotsFresh(Step(w, op), 0)
  {
    OneCellFrameHotspot(LinkCell(spot));
    OneCellFrameHotspot(WideCell());
    UncoveredHotspotStays(w, op, HotspotKey(0, 0, 1));
  }

  /**
   A run that ends with a stale entry: a link is drawn in column 1, and then its row is
   redrawn with one wide character, whose spacer column has no cell.
   */
  lemma WideCharacterLeavesHotspotBehind(start: World, theme: Theme, font: FontSpec, spot: Hotspot, ops: seq<Op>)
    requires start == Start(theme, font)
    requires ops == [Full(0, OneCellFrame(LinkCell(spot))), Partial(0, OneCellFrame(WideCell()), [true], [WideCell()])]
    ensures AllAllowed(start, ops) && !HotspotsFresh(Run(start, ops), 0)
  {
    FullIsAllowed(start, ops[0]);
    LinkIsShown(theme, font, spot);
    hide *;
    WideOverLink(Step(start, ops[0]), spot, ops[1]);
    TwoSteps(start, ops[0], ops[1]);
  }

  lemma FullIsAllowed(w: World, op: Op)
    requires op.Full?
    ensures Allowed(w, op)
  {
  }

  lemma TwoSteps(w: World, a: Op, b: Op)
    requires Allowed(w, a) && Allowed(Step(w, a), b)
    ensures AllAllowed(w, [a, b]) && Run(w, [a, b]) == Step(Step(w, a), b)
  {
    hide Allowed, Step;
    assert [a, b][1..] == [b] && [b][1..] == [];
    assert AllAllowed(Step(w, a), [b]) && Run(Step(w, a), [b]) == Step(Step(w, a), b);
  }

  lemma FirstFrameIsFresh(theme: Theme, font: FontSpec, op: Op)
    requires op.Full?
    ensures
      var w := Step(Start(theme, font), op);
      && Current(w) && HotspotsFresh(w, op.pane)
      && CacheMatchesViewport(w.caches, op.pane, op.frame.columns, op.frame.lines, op.frame.offset)
  {
    StartIsCurrent(theme, font);
    StepKeepsCurrent(Start(theme, font), op);
    StepFreshIff(Start(theme, font), op);
    assert UpToDate(Step(Start(theme, font), op), op.pane);
    FullFrameDepicts(theme, font, EMPTY_CACHES, op.pane, op.frame);
  }
}

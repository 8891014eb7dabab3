/** The grid editor controller of js/main.js with the DOM stripped away: an
    immutable state record and one pure transition per event handler. */
module Editor {
  import opened Platform
  import opened Grid

  const MinSize: int := 2
  const MaxSize: int := 64
  const InitialSize: int := 16

  /** The two localStorage keys the editor writes and reads. */
  const PixelArtKey: string := "pixelArt"
  const GridSizeKey: string := "gridSize"

  /** Everything the handlers read or write.
      - `cells`: the grid's cells in row-major order;
      - `dim`: the size the grid was last created with (its column count);
      - `color`: `currentColor`;  `eraser`: `isEraserActive`;
      - `mouseDown`: `isMouseDown`;
      - `sizeField`: the text in the grid-size input box;
      - `store`: localStorage, string keys to string values. */
  datatype State = State(
    cells: seq<Color>,
    dim: int,
    color: Color,
    eraser: bool,
    mouseDown: bool,
    sizeField: string,
    store: map<string, string>)

  /** The grid holds exactly `dim * dim` cells, as `createGrid` makes it. */
  predicate Valid(s: State)
  {
    |s.cells| == s.dim * s.dim
  }

  /** What the user is told (an `alert`), if anything. */
  datatype Notice = Silent | InvalidSize | Saved | Loaded | NoSavedGrid | LoadFailed

  /** A transition's resulting state and the notice it raises. */
  datatype Reply = Reply(state: State, notice: Notice)

  /** Two states agree on everything but the grid. */
  predicate SameSettings(a: State, b: State)
  {
    && a.color == b.color
    && a.eraser == b.eraser
    && a.mouseDown == b.mouseDown
    && a.sizeField == b.sizeField
    && a.store == b.store
  }

  /** Two states agree on everything but the cells' colors. */
  predicate SameButColors(a: State, b: State)
  {
    SameSettings(a, b) && a.dim == b.dim && |a.cells| == |b.cells|
  }

  /** The color a click or drag gives a cell: white when erasing, the
      current color otherwise. */
  function Brush(s: State): Color
  {
    if s.eraser then White else s.color
  }

  /** The color picker's input handler: take the picked color and leave
      erase mode. */
  function PickColor(s: State, picked: Color): (r: State)
    ensures r.color == picked && !r.eraser
    ensures Brush(r) == picked
    ensures r.cells == s.cells && r.dim == s.dim
    ensures r.mouseDown == s.mouseDown && r.sizeField == s.sizeField && r.store == s.store
  {
    s.(color := picked, eraser := false)
  }

  /** The eraser button: enter erase mode; the color is kept. */
  function EraserButton(s: State): (r: State)
    ensures r.eraser && r.color == s.color
    ensures Brush(r) == White
    ensures r.cells == s.cells && r.dim == s.dim
    ensures r.mouseDown == s.mouseDown && r.sizeField == s.sizeField && r.store == s.store
  {
    s.(eraser := true)
  }

  /** The draw button: leave erase mode; the color is kept. */
  function DrawButton(s: State): (r: State)
    ensures !r.eraser && r.color == s.color
    ensures Brush(r) == s.color
    ensures r.cells == s.cells && r.dim == s.dim
    ensures r.mouseDown == s.mouseDown && r.sizeField == s.sizeField && r.store == s.store
  {
    s.(eraser := false)
  }

  /** Erasing and then drawing again paints with the color picked before. */
  lemma EraseThenDrawKeepsColor(s: State, picked: Color)
    ensures DrawButton(EraserButton(PickColor(s, picked))) == PickColor(s, picked)
    ensures Brush(EraserButton(DrawButton(s))) == White
  {
  }

  /** The user typing into the size box. Nothing else reacts to it until a
      button reads the box. */
  function TypeSize(s: State, text: string): (r: State)
    ensures r.sizeField == text
    ensures r.cells == s.cells && r.dim == s.dim
    ensures r.color == s.color && r.eraser == s.eraser
    ensures r.mouseDown == s.mouseDown && r.store == s.store
  {
    s.(sizeField := text)
  }

  /** `createGrid(size)`: the old cells are discarded and `size * size`
      uncolored ones take their place. */
  function CreateGrid(s: State, size: int): (r: State)
    ensures Valid(r) && r.dim == size
    ensures |r.cells| == size * size
    ensures forall i :: 0 <= i < |r.cells| ==> r.cells[i] == Uncolored
    ensures SameSettings(r, s)
  {
    s.(cells := Fresh(size), dim := size)
  }

  /** The size range the set-size button accepts. */
  predicate InRange(n: Option<int>)
  {
    n.Some? && MinSize <= n.value <= MaxSize
  }

  /** The set-size button: parse the size box; a size in 2..64 rebuilds the
      grid, anything else (NaN included) is refused with a notice and
      changes nothing. */
  function SetSize(h: Host, s: State): (r: Reply)
    ensures r.notice == Silent <==> InRange(h.parseInt(s.sizeField))
    ensures r.notice != Silent ==> r.notice == InvalidSize && r.state == s
    ensures r.notice == Silent ==>
      && r.state.dim == h.parseInt(s.sizeField).value
      && MinSize <= r.state.dim <= MaxSize
      && |r.state.cells| == r.state.dim * r.state.dim
      && (forall i :: 0 <= i < |r.state.cells| ==> r.state.cells[i] == Uncolored)
      && SameSettings(r.state, s)
  {
    var n := h.parseInt(s.sizeField);
    if InRange(n) then Reply(CreateGrid(s, n.value), Silent)
    else Reply(s, InvalidSize)
  }

  /** A successful resize leaves a grid between 4 and 4096 cells. */
  lemma SetSizeBounds(h: Host, s: State)
    requires SetSize(h, s).notice == Silent
    ensures MinSize * MinSize <= |SetSize(h, s).state.cells| <= MaxSize * MaxSize
  {
  }

  /** The reset button: every cell turns white; the grid keeps its size. */
  function Reset(s: State): (r: State)
    ensures SameButColors(r, s)
    ensures forall i :: 0 <= i < |r.cells| ==> r.cells[i] == White
  {
    s.(cells := seq(|s.cells|, _ => White))
  }

  /** Resetting twice is resetting once. */
  lemma ResetIdempotent(s: State)
    ensures Reset(Reset(s)) == Reset(s)
  {
  }

  /** A reset grid is saved exactly as it is shown: all white. */
  lemma ResetIsWhitened(s: State)
    ensures Whiten(Reset(s).cells) == Reset(s).cells
  {
  }

  /** The cell click handler bound by `createGrid`: the clicked cell takes
      the brush color; no other cell and no setting changes. */
  function CellClick(s: State, index: nat): (r: State)
    requires index < |s.cells|
    ensures SameButColors(r, s)
    ensures r.cells[index] == Brush(s)
    ensures forall j :: 0 <= j < |s.cells| && j != index ==> r.cells[j] == s.cells[j]
  {
    s.(cells := s.cells[index := Brush(s)])
  }

  /** The element a mouse event lands on: a cell of the grid, by index, or
      the grid element itself (the gaps between cells). */
  datatype Target = OnCell(index: nat) | OffCell

  /** The target names a cell of the current grid. */
  predicate IsCell(s: State, t: Target)
  {
    t.OnCell? && t.index < |s.cells|
  }

  /** `paintCell`: a target that is a cell takes the brush color; any
      other target changes nothing. */
  function PaintCell(s: State, t: Target): (r: State)
    ensures SameButColors(r, s)
    ensures IsCell(s, t) ==> r.cells[t.index] == Brush(s)
    ensures forall j :: 0 <= j < |s.cells| && !(IsCell(s, t) && j == t.index) ==> r.cells[j] == s.cells[j]
  {
    if IsCell(s, t) then CellClick(s, t.index) else s
  }

  /** Painting the same target twice is painting it once. */
  lemma PaintCellIdempotent(s: State, t: Target)
    ensures PaintCell(PaintCell(s, t), t) == PaintCell(s, t)
  {
  }

  /** Painting two targets gives the same picture in either order. */
  lemma PaintCellCommutes(s: State, t: Target, u: Target)
    ensures PaintCell(PaintCell(s, t), u) == PaintCell(PaintCell(s, u), t)
  {
  }

  /** The grid's mousedown handler: the button is held and the target is
      painted. */
  function MouseDown(s: State, t: Target): (r: State)
    ensures r.mouseDown
    ensures r.cells == PaintCell(s, t).cells && r.dim == s.dim
    ensures r.color == s.color && r.eraser == s.eraser
    ensures r.sizeField == s.sizeField && r.store == s.store
  {
    PaintCell(s.(mouseDown := true), t)
  }

  /** The grid's mousemove handler: paint the target only while the button
      is held. */
  function MouseMove(s: State, t: Target): (r: State)
    ensures s.mouseDown ==> r == PaintCell(s, t)
    ensures !s.mouseDown ==> r == s
  {
    if s.mouseDown then PaintCell(s, t) else s
  }

  /** The document's mouseup handler: the button is released wherever the
      pointer is; nothing is painted. */
  function MouseUp(s: State): (r: State)
    ensures !r.mouseDown
    ensures r.cells == s.cells && r.dim == s.dim
    ensures r.color == s.color && r.eraser == s.eraser
    ensures r.sizeField == s.sizeField && r.store == s.store
  {
    s.(mouseDown := false)
  }

  /** A drag paints every cell it passes over, and moving after the release
      paints nothing. */
  lemma DragPaintsWhileHeld(s: State, t: Target, u: Target)
    ensures MouseMove(MouseDown(s, t), u) == PaintCell(MouseDown(s, t), u)
    ensures MouseMove(MouseUp(s), u) == MouseUp(s)
    ensures MouseUp(MouseDown(s, t)).cells == PaintCell(s, t).cells
  {
  }

  /** The animate button, after every callback it scheduled has run (and
      nothing else touched the grid meanwhile): cell `i` shows the
      `i mod 5`-th palette color. */
  function Animate(s: State): (r: State)
    ensures SameButColors(r, s)
    ensures forall i :: 0 <= i < |r.cells| ==> r.cells[i] == Palette[i % |Palette|]
  {
    s.(cells := Animated(s.cells))
  }

  /** Animating twice leaves the same picture as animating once. */
  lemma AnimateIdempotent(s: State)
    ensures Animate(Animate(s)) == Animate(s)
  {
  }
}

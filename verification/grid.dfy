/** The grid as a row-major sequence of cell colors. A color is the text
    of the cell's inline background style; a freshly created cell has none,
    which is the empty text. */
module Grid {

  type Color = string

  /** The background of a cell that has never been painted. */
  const Uncolored: Color := ""

  /** The color written by reset and by the eraser, and the color saved
      for an uncolored cell. */
  const White: Color := "white"

  /** The five colors the animation cycles through, in order. */
  const Palette: seq<Color> := ["#FF5733", "#33FF57", "#3357FF", "#F3FF33", "#FF33F3"]

  /** The cells `createGrid(size)` appends: its loop runs while
      `i < size * size`, so a negative size gives as many cells as its
      absolute value squared, and zero gives none. */
  function Fresh(size: int): (cells: seq<Color>)
    ensures |cells| == size * size
    ensures size == 0 ==> cells == []
    ensures forall i :: 0 <= i < |cells| ==> cells[i] == Uncolored
  {
    var count: nat := size * size;
    seq(count, _ => Uncolored)
  }

  /** The list the save handler serializes: each cell's color, with an
      uncolored cell read as white. */
  function Whiten(cells: seq<Color>): (saved: seq<Color>)
    ensures |saved| == |cells|
    ensures forall i :: 0 <= i < |cells| && cells[i] != Uncolored ==> saved[i] == cells[i]
    ensures forall i :: 0 <= i < |cells| && cells[i] == Uncolored ==> saved[i] == White
  {
    seq(|cells|, i requires 0 <= i < |cells| => if cells[i] == Uncolored then White else cells[i])
  }

  /** Saving never stores an uncolored cell. */
  lemma WhitenHasNoUncolored(cells: seq<Color>)
    ensures Uncolored !in Whiten(cells)
  {
  }

  /** Whitening twice is whitening once. */
  lemma WhitenIdempotent(cells: seq<Color>)
    ensures Whiten(Whiten(cells)) == Whiten(cells)
  {
  }

  /** The load handler's assignment of the parsed array to the cells of a
      fresh grid of `count` cells: cell `i` receives `items[i]`; past the end
      of the array the assigned value is `undefined`, which the browser
      ignores, so the cell stays uncolored; items past the last cell are
      never read. */
  function Overlay(count: nat, items: seq<Color>): (cells: seq<Color>)
    ensures |cells| == count
    ensures forall i :: 0 <= i < count && i < |items| ==> cells[i] == items[i]
    ensures forall i :: |items| <= i < count ==> cells[i] == Uncolored
  {
    seq(count, i requires 0 <= i < count => if i < |items| then items[i] else Uncolored)
  }

  /** The index the shared `colorIndex` has after `k` callbacks that started
      from `start`: it steps by one modulo the palette length. */
  lemma StepColorIndex(start: nat, k: nat, j: nat)
    requires start < |Palette| && k < j
    ensures (((start + 1) % |Palette|) + (j - (k + 1))) % |Palette| == (start + (j - k)) % |Palette|
  {
  }

  /** The animation's timeouts, drained from callback `k` on with the shared
      `colorIndex` at `colorIndex`: callback `k` (the one scheduled for the
      k-th cell to run `50 * k` milliseconds after the click) paints its cell with
      `Palette[colorIndex]` and advances the index modulo five. The
      callbacks fire in index order because their delays strictly grow. */
  function RunCallbacks(cells: seq<Color>, k: nat, colorIndex: nat): (r: seq<Color>)
    requires k <= |cells| && colorIndex < |Palette|
    ensures |r| == |cells|
    ensures forall j :: 0 <= j < k ==> r[j] == cells[j]
    ensures forall j :: k <= j < |cells| ==> r[j] == Palette[(colorIndex + (j - k)) % |Palette|]
    decreases |cells| - k
  {
    if k == |cells| then cells
    else
      var next := (colorIndex + 1) % |Palette|;
      var r := RunCallbacks(cells[k := Palette[colorIndex]], k + 1, next);
      forall j | k < j < |cells|
        ensures r[j] == Palette[(colorIndex + (j - k)) % |Palette|]
      {
        StepColorIndex(colorIndex, k, j);
      }
      r
  }

  /** Once every callback of one animation has run, cell `i` shows the
      `i mod 5`-th palette color, whatever it showed before. */
  function Animated(cells: seq<Color>): (r: seq<Color>)
    ensures |r| == |cells|
    ensures forall i :: 0 <= i < |cells| ==> r[i] == Palette[i % |Palette|]
  {
    RunCallbacks(cells, 0, 0)
  }

  /** The drained animation depends only on the number of cells. */
  lemma AnimatedIgnoresColors(a: seq<Color>, b: seq<Color>)
    requires |a| == |b|
    ensures Animated(a) == Animated(b)
  {
  }
}

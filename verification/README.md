# Pixel-art grid editor, modelled in Dafny

The editor in `js/main.js` is a page with a square grid of cells. The user
picks a color, switches between drawing and erasing, paints cells by clicking
or by dragging with the mouse button held, resizes the grid (2 to 64 cells a
side), resets it to white, saves it to and loads it from `localStorage`, and
plays a five-color animation across the cells.

This project recasts that controller as a pure state machine. The state is the
record `Editor.State`:

- the cells in row-major order, each the text of its inline background color
  (`""` for a cell never painted);
- the size the grid was last created with;
- `currentColor`, `isEraserActive` and `isMouseDown`;
- the text of the size input box;
- `localStorage` as a map from keys to texts.

Every event handler is a pure function from one state to the next. Typing in
the size box is one more transition, `Editor.TypeSize`. Set-size and save read
the box, and load writes it. Handlers that show an `alert` also return a
`Notice` tag naming it.

Modules:

- `Platform` (`platform.dfy`): the browser functions the handlers call, as
  parameters. These are `parseInt` (NaN as `None`), `JSON.parse`,
  `JSON.stringify`, and the text an input box shows for a number.
- `Grid` (`grid.dfy`): the cell sequences. It defines a fresh grid, the list
  that save writes, the way load lays a parsed array over a fresh grid, and
  the drained animation.
- `Editor` (`editor.dfy`): the state and the handlers for color, mode, size,
  reset, click and mouse.
- `Persistence` (`persistence.dfy`): save, load, and the save-then-load round
  trip.
- `Session` (`session.dfy`): start-up, one step per event, runs of events, and
  the invariants that hold along a run.

How the code behaves at its edges:

- A negative size passed to `createGrid` still makes `size * size` cells,
  because the loop bound is `size * size`. Only zero makes an empty grid.
  Load can pass such a size, since it never checks the range.
- Load treats an empty stored text the same as a missing key, because the
  `if` tests the texts' truthiness.
- A JSON syntax error, a parsed value that is not an array, and a NaN size
  all raise the same "failed to load" alert. In each case nothing changes.
- Load does not check that the array has `size * size` items.
  - Cells past the end of a short array are assigned `undefined`. The
    browser ignores that, so they stay uncolored.
  - Items past the last cell are never read.
- Save writes the size box's text, not the size of the grid. So save
  followed by load gives back the grid only when that text parses to a
  number whose square is the cell count (`Persistence.SaveThenLoad`,
  `Persistence.TypedSizeBreaksRoundTrip`).
- Save writes an uncolored cell as `"white"`. A grid that is saved and then
  loaded therefore comes back whitened (`Grid.Whiten`), not identical.

## Model

| member | source | states |
|---|---|---|
| Grid.Fresh | js/main.js:29-41 | `createGrid(size)` yields exactly `size * size` cells, all uncolored; size 0 yields none |
| Grid.Whiten | js/main.js:63 | the saved list has one entry per cell, in order; an uncolored cell is saved as `white` and any other cell as its own color |
| Grid.WhitenHasNoUncolored | js/main.js:63 | the saved list never contains an uncolored entry |
| Grid.WhitenIdempotent | js/main.js:63 | whitening an already saved list changes nothing |
| Grid.Overlay | js/main.js:83-86 | after load's assignment, cell `i` holds item `i` where the array has one, and stays uncolored past the array's end |
| Grid.RunCallbacks | js/main.js:104-110 | draining the timeouts from callback `k` leaves cells before `k` untouched and paints cell `j` with the palette color the shared index reaches after `j - k` steps modulo 5 |
| Grid.Animated | js/main.js:101-111 | after one animation has fully run, cell `i` shows `colors[i mod 5]`, whatever it showed before, and the cell count is kept |
| Grid.AnimatedIgnoresColors | js/main.js:106-110 | the drained animation's picture depends only on the number of cells |
| Editor.TypeSize | js/main.js:52 | typing sets the size box's text, which set-size and save read later; nothing else changes |
| Editor.PickColor | js/main.js:15-18 | picking a color sets `currentColor` to it and always leaves erase mode; the grid, mouse flag, size box and store are unchanged |
| Editor.EraserButton | js/main.js:20-22 | the eraser button turns erase mode on, so the brush becomes white, and keeps `currentColor` |
| Editor.DrawButton | js/main.js:24-26 | the draw button turns erase mode off, so the brush becomes `currentColor` again, and keeps `currentColor` |
| Editor.EraseThenDrawKeepsColor | js/main.js:15-26 | eraser then draw after a pick returns to exactly the picked state; draw then eraser always brushes white |
| Editor.CreateGrid | js/main.js:29-41 | the old cells are discarded; the new grid has `size * size` uncolored cells and records `size`; the settings are unchanged |
| Editor.SetSize | js/main.js:51-58 | the grid is rebuilt if and only if the parsed size is a number in 2..64, and then holds `size * size` uncolored cells; any other input, NaN included, raises the size alert and leaves the whole state unchanged |
| Editor.SetSizeBounds | js/main.js:53-54 | a successful resize leaves between 4 and 4096 cells |
| Editor.Reset | js/main.js:45-48 | every cell becomes white; the cell count, `currentColor`, erase mode and everything else are unchanged |
| Editor.ResetIdempotent | js/main.js:45-48 | resetting twice is the same as resetting once |
| Editor.ResetIsWhitened | js/main.js:45-48 | a reset grid is saved exactly as it is shown |
| Editor.CellClick | js/main.js:37-38 | the clicked cell becomes white in erase mode and `currentColor` otherwise; no other cell and no setting changes |
| Editor.PaintCell | js/main.js:140-144 | a cell target takes the brush color and nothing else changes; a target that is not a cell changes nothing |
| Editor.PaintCellIdempotent | js/main.js:140-144 | painting the same target twice is the same as painting it once |
| Editor.PaintCellCommutes | js/main.js:140-144 | painting two targets gives the same grid in either order |
| Editor.MouseDown | js/main.js:122-125 | mousedown sets `isMouseDown` and paints the target, changing nothing else |
| Editor.MouseMove | js/main.js:128-132 | mousemove paints the target while `isMouseDown` holds and otherwise leaves the state unchanged |
| Editor.MouseUp | js/main.js:135-137 | mouseup clears `isMouseDown` and paints nothing |
| Editor.DragPaintsWhileHeld | js/main.js:119-137 | after a press, moves paint; after a release, moves leave the state unchanged; press then release paints only the pressed target |
| Editor.Animate | js/main.js:101-111 | after the animation drains, cell `i` is `colors[i mod 5]` and everything but the colors is unchanged |
| Editor.AnimateIdempotent | js/main.js:101-111 | animating twice leaves the same grid as animating once |
| Persistence.Save | js/main.js:61-67 | save writes the whitened colors as JSON under `pixelArt` and the size box's text under `gridSize`; it adds only those two keys, keeps every other entry, changes nothing else, and raises the saved alert |
| Persistence.Load | js/main.js:70-98 | with a key missing or empty, load raises "no saved grid" and changes nothing; with a non-array or a NaN size it raises "failed to load" and changes nothing; otherwise the grid becomes `n * n` cells with cell `i` taking item `i`, past a short array's end uncolored, the size box shows `n`, and the other settings and the store are kept |
| Persistence.LoadForgetsOldGrid | js/main.js:80-86 | a successful load's result does not depend on the grid or size box it replaces |
| Persistence.SaveThenLoad | js/main.js:61-86 | save then load succeeds when the size box parses to `n`; the cells come back as saved (uncolored as white) if and only if `n * n` equals the cell count |
| Persistence.SaveWithEmptySizeBox | js/main.js:65-74 | a save with an empty size box is followed by a load that reports "no saved grid" and changes nothing |
| Persistence.TypedSizeBreaksRoundTrip | js/main.js:52-65 | a size typed but never applied is what save records, so a later load builds `n * n` cells and does not give back the saved grid |
| Persistence.ResizeThenSaveLoad | js/main.js:51-86 | after a successful resize, save then load gives back the fresh grid, all white |
| Persistence.LoadSkipsChecks | js/main.js:79-86 | load accepts any parsed size and any array length: the grid holds the first `n * n` stored colors, padded with uncolored cells when the array is short |
| Session.Init | js/main.js:12-13 | at start-up the color is the picker's value and draw mode is on (lines 12-13), the grid is `createGrid(16)`'s 16 by 16 uncolored cells (line 115), and the button is released (line 119) |
| Session.Step | js/main.js:15-137 | every handler keeps the grid at `dim * dim` cells; a refused resize or failed load changes nothing; only save may touch the store |
| Session.RunPreservesValid | js/main.js:29-137 | every state reached by a sequence of events from a consistent state holds `dim * dim` cells |
| Session.ReachableIsValid | js/main.js:114-137 | every state reachable from start-up holds `dim * dim` cells |
| Session.StoreChangesOnlyBySave | js/main.js:61-98 | a run of events without a save leaves `localStorage` unchanged |
| Session.MovesWithoutPressPaintNothing | js/main.js:128-132 | with the button released, any number of mouse moves leave the state unchanged |
| Session.DragPaintsPath | js/main.js:122-132 | while the button is held, a run of moves paints exactly the cells moved over with the brush color; every other cell and every setting is unchanged |

## Left out

- Persistence.Load: `parseInt` is modelled as giving an integer or NaN. JavaScript's `parseInt` also gives `Infinity` for a digit string of more than about 309 digits. `!isNaN(Infinity)` holds, so load would call `createGrid(Infinity)`, whose loop never ends. A huge finite size, such as 100000, asks for 10^10 cells. In both cases the page is exhausted and no grid appears. The model instead promises an `n * n` grid for every parsed `n`, and so does `Persistence.LoadSkipsChecks`.

- DOM lookup, `innerHTML`, cell elements and the CSS grid templates are presentation only. The grid is its sequence of colors.
- `alert` and `console.error` are user notifications. They appear only as the `Notice` a transition returns.
- The internals of `parseInt`, `JSON.parse`, `JSON.stringify` and the number-to-text conversion of the size box are host behaviour. They are functions of `Platform.Host`. The round-trip lemmas take what they need of them (the stored JSON parses back to the same array, the size text parses to `n`) as premises.
- Array items that are not strings, such as numbers or `null`, are left out. The model reads every JSON array item as the color text it is assigned as.
- `localStorage` is not real I/O here. It is a map in the state, and its quota errors are not modelled.
- Animation timing is not modelled. This covers the `setTimeout` delays, user events that arrive while callbacks are pending, and the shared `colorIndex` when two animations overlap. Only the fully drained result of one animation, with nothing else in between, is modelled.
- Callbacks that still hold cells of a grid that was replaced are not modelled, because only the drained result is.
- Browser color handling is host behaviour. This covers normalising a color read back (a hex color returned as `rgb(...)`) and ignoring a color text that is not valid CSS. A cell keeps exactly the text assigned to it.

/** The save and load buttons: the grid goes to and comes back from
    localStorage under the keys "pixelArt" (the JSON array of colors) and
    "gridSize" (the text of the size box). */
module Persistence {
  import opened Platform
  import opened Grid
  import opened Editor

  /** `localStorage.getItem(key)` is truthy: the key is there and its value
      is not the empty text. */
  predicate Present(store: map<string, string>, key: string)
  {
    key in store && store[key] != ""
  }

  /** The save button: the colors, uncolored read as white, are written as
      JSON under "pixelArt", and the size box's text under "gridSize".
      Nothing but those two entries changes. */
  function Save(h: Host, s: State): (r: Reply)
    ensures r.notice == Saved
    ensures r.state.store.Keys == s.store.Keys + {PixelArtKey, GridSizeKey}
    ensures r.state.store[PixelArtKey] == h.stringify(Whiten(s.cells))
    ensures r.state.store[GridSizeKey] == s.sizeField
    ensures forall k :: k in s.store && k != PixelArtKey && k != GridSizeKey ==> r.state.store[k] == s.store[k]
    ensures r.state.cells == s.cells && r.state.dim == s.dim
    ensures r.state.color == s.color && r.state.eraser == s.eraser
    ensures r.state.mouseDown == s.mouseDown && r.state.sizeField == s.sizeField
  {
    var store := s.store[PixelArtKey := h.stringify(Whiten(s.cells))][GridSizeKey := s.sizeField];
    Reply(s.(store := store), Saved)
  }

  /** The load button. Both entries must be present (else "no saved grid"
      and nothing changes); the artwork must parse as a JSON array and the
      size must not parse to NaN (else "failed to load" and nothing
      changes). Otherwise the size box shows the parsed size, the grid is
      recreated with that size, and cell `i` takes the `i`-th array item.
      Neither the range 2..64 nor the array's length is checked: cells past
      the end of a short array stay uncolored, and extra items are unused. */
  function Load(h: Host, s: State): (r: Reply)
    ensures r.notice in {NoSavedGrid, LoadFailed, Loaded}
    ensures r.notice == NoSavedGrid <==> !(Present(s.store, PixelArtKey) && Present(s.store, GridSizeKey))
    ensures r.notice == LoadFailed <==>
      && Present(s.store, PixelArtKey) && Present(s.store, GridSizeKey)
      && !(h.parseJson(s.store[PixelArtKey]).JsonArray? && h.parseInt(s.store[GridSizeKey]).Some?)
    ensures r.notice != Loaded ==> r.state == s
    ensures r.notice == Loaded ==>
      var items := h.parseJson(s.store[PixelArtKey]).items;
      var n := h.parseInt(s.store[GridSizeKey]).value;
      && Valid(r.state)
      && r.state.dim == n
      && |r.state.cells| == n * n
      && (forall i :: 0 <= i < |r.state.cells| && i < |items| ==> r.state.cells[i] == items[i])
      && (forall i :: |items| <= i < |r.state.cells| ==> r.state.cells[i] == Uncolored)
      && r.state.sizeField == h.numberText(n)
      && r.state.color == s.color && r.state.eraser == s.eraser
      && r.state.mouseDown == s.mouseDown && r.state.store == s.store
  {
    if !(Present(s.store, PixelArtKey) && Present(s.store, GridSizeKey)) then
      Reply(s, NoSavedGrid)
    else
      var data := h.parseJson(s.store[PixelArtKey]);
      var size := h.parseInt(s.store[GridSizeKey]);
      if data.JsonArray? && size.Some? then
        var made := CreateGrid(s.(sizeField := h.numberText(size.value)), size.value);
        Reply(made.(cells := Overlay(|made.cells|, data.items)), Loaded)
      else
        Reply(s, LoadFailed)
  }

  /** The loaded grid depends only on the stored entries, never on the grid
      or size box it replaces. */
  lemma LoadForgetsOldGrid(h: Host, s: State, cells: seq<Color>, dim: int, field: string)
    requires Load(h, s).notice == Loaded
    ensures Load(h, s.(cells := cells, dim := dim, sizeField := field)) == Load(h, s)
  {
  }

  /** Saving and then loading, with nothing in between, succeeds exactly
      when the size box is non-empty and parses to a number; the grid then
      comes back color for color (uncolored cells as white) if and only
      if the number squared is the grid's cell count. The size box, not the
      grid, is what is saved, so typing a new size without pressing the
      set-size button breaks the round trip. */
  lemma SaveThenLoad(h: Host, s: State, n: int)
    requires Valid(s)
    requires JsonRoundTrips(h, Whiten(s.cells))
    requires ParsesTo(h, s.sizeField, n)
    ensures Load(h, Save(h, s).state).notice == Loaded
    ensures Load(h, Save(h, s).state).state.cells == Whiten(s.cells) <==> n * n == |s.cells|
    ensures n * n == |s.cells| ==> Load(h, Save(h, s).state).state.dim * Load(h, Save(h, s).state).state.dim == s.dim * s.dim
  {
  }

  /** Saving with an empty size box stores nothing a later load accepts. */
  lemma SaveWithEmptySizeBox(h: Host, s: State)
    requires s.sizeField == ""
    ensures Load(h, Save(h, s).state).notice == NoSavedGrid
    ensures Load(h, Save(h, s).state).state == Save(h, s).state
  {
  }

  /** A size typed after the grid was made, but never applied, is what a
      save records: the grid that comes back has that size's square of
      cells, not the saved grid's. */
  lemma TypedSizeBreaksRoundTrip(h: Host, s: State, text: string, n: int)
    requires Valid(s)
    requires JsonRoundTrips(h, Whiten(s.cells))
    requires ParsesTo(h, text, n) && n * n != s.dim * s.dim
    ensures Load(h, Save(h, TypeSize(s, text)).state).notice == Loaded
    ensures |Load(h, Save(h, TypeSize(s, text)).state).state.cells| == n * n
    ensures Load(h, Save(h, TypeSize(s, text)).state).state.cells != Whiten(s.cells)
  {
  }

  /** After a successful resize the size box matches the grid, so saving
      and loading brings the fresh grid back, every cell white. */
  lemma ResizeThenSaveLoad(h: Host, s: State)
    requires SetSize(h, s).notice == Silent && s.sizeField != ""
    requires JsonRoundTrips(h, Whiten(SetSize(h, s).state.cells))
    ensures Load(h, Save(h, SetSize(h, s).state).state).notice == Loaded
    ensures Load(h, Save(h, SetSize(h, s).state).state).state.cells == seq(|SetSize(h, s).state.cells|, _ => White)
  {
  }

  /** Load accepts a size outside 2..64 and an array of the wrong length:
      a stored size of `n` always yields `n * n` cells, which are the first
      `n * n` stored colors when there are enough, and otherwise all of
      them followed by uncolored cells. */
  lemma LoadSkipsChecks(h: Host, s: State, data: seq<Color>, n: int)
    requires Present(s.store, PixelArtKey) && GridSizeKey in s.store
    requires ParsesTo(h, s.store[GridSizeKey], n)
    requires h.parseJson(s.store[PixelArtKey]) == JsonArray(data)
    ensures Load(h, s).notice == Loaded
    ensures Load(h, s).state.dim == n
    ensures Load(h, s).state.cells ==
      if n * n <= |data| then data[..n * n]
      else data + seq(n * n - |data|, _ => Uncolored)
  {
  }
}

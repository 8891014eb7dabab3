/** An editing session: the page's start-up code, then one handler per user
    event, run to completion in arrival order. */
module Session {
  import opened Platform
  import opened Grid
  import opened Editor
  import opened Persistence

  /** The events the page listens for, plus the user typing in the size box. */
  datatype Event =
    | ColorInput(picked: Color)
    | EraserClick
    | DrawClick
    | SizeTyped(text: string)
    | SetSizeClick
    | ResetClick
    | SaveClick
    | LoadClick
    | AnimateClick
    | CellClicked(index: nat)
    | GridMouseDown(target: Target)
    | GridMouseMove(target: Target)
    | DocumentMouseUp

  /** The start-up code: the color picker's initial value, draw mode, a
      16 by 16 uncolored grid, the button released. The size box text and
      localStorage are whatever the page and earlier sessions left. */
  function Init(pickerValue: Color, sizeText: string, store: map<string, string>): (s: State)
    ensures Valid(s) && s.dim == InitialSize && |s.cells| == 256
    ensures forall i :: 0 <= i < |s.cells| ==> s.cells[i] == Uncolored
    ensures s.color == pickerValue && !s.eraser && !s.mouseDown
    ensures s.sizeField == sizeText && s.store == store
  {
    CreateGrid(State([], 0, pickerValue, false, false, sizeText, store), InitialSize)
  }

  /** One event's handler. A click on a cell that no longer exists cannot
      happen in the page; here it changes nothing. */
  function Step(h: Host, s: State, e: Event): (r: Reply)
    ensures Valid(s) ==> Valid(r.state)
    ensures r.notice in {InvalidSize, NoSavedGrid, LoadFailed} ==> r.state == s
    ensures !e.SaveClick? ==> r.state.store == s.store
  {
    match e
    case ColorInput(c) => Reply(PickColor(s, c), Silent)
    case EraserClick => Reply(EraserButton(s), Silent)
    case DrawClick => Reply(DrawButton(s), Silent)
    case SizeTyped(text) => Reply(TypeSize(s, text), Silent)
    case SetSizeClick => SetSize(h, s)
    case ResetClick => Reply(Reset(s), Silent)
    case SaveClick => Save(h, s)
    case LoadClick => Load(h, s)
    case AnimateClick => Reply(Animate(s), Silent)
    case CellClicked(i) => Reply(if i < |s.cells| then CellClick(s, i) else s, Silent)
    case GridMouseDown(t) => Reply(MouseDown(s, t), Silent)
    case GridMouseMove(t) => Reply(MouseMove(s, t), Silent)
    case DocumentMouseUp => Reply(MouseUp(s), Silent)
  }

  /** The state after a sequence of events. */
  function Run(h: Host, s: State, events: seq<Event>): (r: State)
    decreases |events|
  {
    if events == [] then s else Run(h, Step(h, s, events[0]).state, events[1..])
  }

  /** Every handler keeps the grid at exactly `dim * dim` cells, so every
      reachable state does. */
  lemma {:induction false} RunPreservesValid(h: Host, s: State, events: seq<Event>)
    requires Valid(s)
    ensures Valid(Run(h, s, events))
    decreases |events|
  {
    if events != [] {
      RunPreservesValid(h, Step(h, s, events[0]).state, events[1..]);
    }
  }

  /** Every state reachable from start-up has `dim * dim` cells. */
  lemma ReachableIsValid(h: Host, pickerValue: Color, sizeText: string, store: map<string, string>, events: seq<Event>)
    ensures Valid(Run(h, Init(pickerValue, sizeText, store), events))
  {
    RunPreservesValid(h, Init(pickerValue, sizeText, store), events);
  }

  /** Only the save button writes to localStorage. */
  lemma {:induction false} StoreChangesOnlyBySave(h: Host, s: State, events: seq<Event>)
    requires forall k :: 0 <= k < |events| ==> !events[k].SaveClick?
    ensures Run(h, s, events).store == s.store
    decreases |events|
  {
    if events != [] {
      assert !events[0].SaveClick?;
      StoreChangesOnlyBySave(h, Step(h, s, events[0]).state, events[1..]);
    }
  }

  /** With the button released, mouse moves paint nothing, however many. */
  lemma {:induction false} MovesWithoutPressPaintNothing(h: Host, s: State, events: seq<Event>)
    requires !s.mouseDown
    requires forall k :: 0 <= k < |events| ==> events[k].GridMouseMove?
    ensures Run(h, s, events) == s
    decreases |events|
  {
    if events != [] {
      assert events[0].GridMouseMove?;
      assert Step(h, s, events[0]).state == s;
      MovesWithoutPressPaintNothing(h, s, events[1..]);
    }
  }

  /** A press followed by moves paints the pressed cell and every cell
      moved over, with the brush color, and nothing else. */
  lemma {:induction false} DragPaintsPath(h: Host, s: State, events: seq<Event>)
    requires s.mouseDown
    requires forall k :: 0 <= k < |events| ==> events[k].GridMouseMove?
    ensures SameButColors(Run(h, s, events), s)
    ensures forall i :: 0 <= i < |s.cells| ==>
      Run(h, s, events).cells[i] ==
        if exists k :: 0 <= k < |events| && events[k].target == OnCell(i) then Brush(s) else s.cells[i]
    decreases |events|
  {
    if events != [] {
      var next := Step(h, s, events[0]).state;
      assert events[0].GridMouseMove?;
      assert next == PaintCell(s, events[0].target);
      DragPaintsPath(h, next, events[1..]);
      var rest := events[1..];
      forall i | 0 <= i < |s.cells|
        ensures Run(h, s, events).cells[i] ==
          if exists k :: 0 <= k < |events| && events[k].target == OnCell(i) then Brush(s) else s.cells[i]
      {
        if exists k :: 0 <= k < |events| && events[k].target == OnCell(i) {
          var k :| 0 <= k < |events| && events[k].target == OnCell(i);
          if k > 0 {
            assert rest[k - 1].target == OnCell(i);
          }
        } else {
          forall k | 0 <= k < |rest|
            ensures rest[k].target != OnCell(i)
          {
            assert events[k + 1] == rest[k];
          }
        }
      }
    }
  }
}

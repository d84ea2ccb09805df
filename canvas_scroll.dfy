/** Scrolling of the dashboard's tables (src/canvas.rs): where a table's
    visible window starts, remembered from one frame to the next, and which of
    the visible rows is drawn highlighted. */
module CanvasScroll {

  /** The direction the user last moved the selection in. */
  datatype ScrollDirection = Up | Down

  /** What one call decides: the row the window starts at, and the value the
      remembered offset holds afterwards. */
  datatype StartPosition = StartPosition(start: int, stored: int)

  /** get_start_position on values: `previous` is the remembered offset,
      `selected` the selected row. Scrolling down keeps the window while the
      selection is inside it and otherwise moves it so that the selection is
      `numRows` rows below its start; scrolling up moves the start up to the
      selection when it leaves the window at the top. */
  function NextStartPosition(numRows: int, direction: ScrollDirection, previous: int, selected: int): (r: StartPosition)
    ensures r.stored == previous || r.stored == r.start
    ensures direction == Down ==> previous <= r.stored
    ensures direction == Up ==> r.stored <= previous
  {
    match direction
    case Down =>
      if selected < previous + numRows then StartPosition(previous, previous)
      else if selected >= numRows then StartPosition(selected - numRows, selected - numRows)
      else StartPosition(0, previous)
    case Up =>
      if selected <= previous then StartPosition(selected, selected)
      else StartPosition(previous, previous)
  }

  /** One step keeps the selection in the window, when it was in the window
      before and moved in the direction given: the start is at most the
      selection, and the selection at most `numRows` rows below the start
      (exactly that many right after the window moves down). */
  lemma StepKeepsSelectionVisible(numRows: int, direction: ScrollDirection, previous: int, selected: int)
    requires 0 <= numRows && 0 <= previous && 0 <= selected
    requires direction == Down ==> previous <= selected
    requires direction == Up ==> selected <= previous + numRows
    ensures var r := NextStartPosition(numRows, direction, previous, selected);
      && r.start == r.stored
      && 0 <= r.start <= selected <= r.start + numRows
  {
  }

  /** The selected row lands on the window's last row, `numRows` below the
      start, right after the window moves down: 5 rows, offset 0, row 7
      selected gives start 2 = 7 - 5. */
  lemma AdvanceLandsOnLastRow()
    ensures NextStartPosition(5, Down, 0, 7) == StartPosition(2, 2)
  {
  }

  predicate NonDecreasing(s: seq<int>)
  {
    forall i, j :: 0 <= i < j < |s| ==> s[i] <= s[j]
  }

  predicate NonIncreasing(s: seq<int>)
  {
    forall i, j :: 0 <= i < j < |s| ==> s[j] <= s[i]
  }

  /** The window starts of successive frames while the selection takes the
      values `selections`, starting from the remembered offset `previous`. */
  function ScrollRun(numRows: int, direction: ScrollDirection, previous: int, selections: seq<int>): (starts: seq<int>)
    ensures |starts| == |selections|
    decreases |selections|
  {
    if selections == [] then []
    else
      var r := NextStartPosition(numRows, direction, previous, selections[0]);
      [r.start] + ScrollRun(numRows, direction, r.stored, selections[1..])
  }

  /** Moving the selection down (never up) from a window that starts at or
      above it: the start never decreases, never goes below where it was, and
      the selection stays visible in every frame. */
  lemma {:induction false} DownRunKeepsSelectionVisible(numRows: int, previous: int, selections: seq<int>)
    requires 0 <= numRows && 0 <= previous
    requires NonDecreasing(selections)
    requires |selections| > 0 ==> previous <= selections[0]
    ensures var starts := ScrollRun(numRows, Down, previous, selections);
      && NonDecreasing(starts)
      && (forall k :: 0 <= k < |starts| ==> previous <= starts[k] <= selections[k] <= starts[k] + numRows)
    decreases |selections|
  {
    if selections != [] {
      var r := NextStartPosition(numRows, Down, previous, selections[0]);
      StepKeepsSelectionVisible(numRows, Down, previous, selections[0]);
      var tail := selections[1..];
      assert |tail| > 0 ==> r.stored <= tail[0];
      DownRunKeepsSelectionVisible(numRows, r.stored, tail);
      var starts := ScrollRun(numRows, Down, previous, selections);
      assert starts == [r.start] + ScrollRun(numRows, Down, r.stored, tail);
      forall k | 0 <= k < |starts|
        ensures previous <= starts[k] <= selections[k] <= starts[k] + numRows
      {
        if k > 0 {
          assert starts[k] == ScrollRun(numRows, Down, r.stored, tail)[k - 1];
          assert selections[k] == tail[k - 1];
        }
      }
    }
  }

  /** Moving the selection up (never down) from a window that shows it: the
      start never increases, never goes above where it was, and the selection
      stays visible in every frame. */
  lemma {:induction false} UpRunKeepsSelectionVisible(numRows: int, previous: int, selections: seq<int>)
    requires 0 <= numRows && 0 <= previous
    requires NonIncreasing(selections)
    requires forall k :: 0 <= k < |selections| ==> 0 <= selections[k]
    requires |selections| > 0 ==> selections[0] <= previous + numRows
    ensures var starts := ScrollRun(numRows, Up, previous, selections);
      && NonIncreasing(starts)
      && (forall k :: 0 <= k < |starts| ==> 0 <= starts[k] <= previous && starts[k] <= selections[k] <= starts[k] + numRows)
    decreases |selections|
  {
    if selections != [] {
      var r := NextStartPosition(numRows, Up, previous, selections[0]);
      StepKeepsSelectionVisible(numRows, Up, previous, selections[0]);
      var tail := selections[1..];
      assert |tail| > 0 ==> tail[0] <= r.stored + numRows;
      UpRunKeepsSelectionVisible(numRows, r.stored, tail);
      var starts := ScrollRun(numRows, Up, previous, selections);
      assert starts == [r.start] + ScrollRun(numRows, Up, r.stored, tail);
      forall k | 0 <= k < |starts|
        ensures 0 <= starts[k] <= previous && starts[k] <= selections[k] <= starts[k] + numRows
      {
        if k > 0 {
          assert starts[k] == ScrollRun(numRows, Up, r.stored, tail)[k - 1];
          assert selections[k] == tail[k - 1];
        }
      }
    }
  }

  /** The remembered offset of one table (the previous_*_position fields the
      drawing code passes by `&mut`). */
  class ScrollState {
    var previouslyScrolledPosition: int

    constructor (initial: int)
      ensures previouslyScrolledPosition == initial
    {
      previouslyScrolledPosition := initial;
    }

    /** get_start_position: returns the row the window starts at and updates
        the remembered offset when the window moves. */
    method GetStartPosition(numRows: int, scrollDirection: ScrollDirection, currentlySelectedPosition: int)
      returns (start: int)
      modifies this
      ensures var r := NextStartPosition(numRows, scrollDirection, old(previouslyScrolledPosition), currentlySelectedPosition);
        start == r.start && previouslyScrolledPosition == r.stored
    {
      match scrollDirection {
        case Down =>
          if currentlySelectedPosition < previouslyScrolledPosition + numRows {
            start := previouslyScrolledPosition;
          } else if currentlySelectedPosition >= numRows {
            previouslyScrolledPosition := currentlySelectedPosition - numRows;
            start := currentlySelectedPosition - numRows;
          } else {
            start := 0;
          }
        case Up =>
          if currentlySelectedPosition <= previouslyScrolledPosition {
            previouslyScrolledPosition := currentlySelectedPosition;
            start := currentlySelectedPosition;
          } else {
            start := previouslyScrolledPosition;
          }
      }
    }
  }

  /** The row-highlighting counter of the table drawing code: rows are styled
      in order, the counter counts the rows passed until it meets
      `selected - start` and is then parked at -1. The highlighting only
      happens while the table has the focus. */
  method HighlightRows(rowCount: nat, focused: bool, selected: int, start: int) returns (highlighted: seq<bool>)
    ensures |highlighted| == rowCount
    ensures forall k :: 0 <= k < rowCount ==> (highlighted[k] <==> focused && k == selected - start)
  {
    highlighted := [];
    var rowCounter := 0;
    for itx := 0 to rowCount
      invariant |highlighted| == itx
      invariant forall k :: 0 <= k < itx ==> (highlighted[k] <==> focused && k == selected - start)
      invariant !focused ==> rowCounter == 0
      invariant focused && 0 <= selected - start < itx ==> rowCounter == -1
      invariant focused && !(0 <= selected - start < itx) ==> rowCounter == itx
    {
      if focused {
        if rowCounter == selected - start {
          rowCounter := -1;
          highlighted := highlighted + [true];
        } else {
          if rowCounter >= 0 {
            rowCounter := rowCounter + 1;
          }
          highlighted := highlighted + [false];
        }
      } else {
        highlighted := highlighted + [false];
      }
    }
  }
}

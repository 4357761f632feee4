/**
  The mini calendar of the invitation page (`renderCalendar`): a title, then
  a grid holding seven weekday header cells followed by the day cells of one
  month, padded with blank cells to whole weeks. The two values the page
  takes from `Date` (the weekday of the 1st and the number of days of the
  month) are parameters here.
 */
module Calendar {
  import opened Text
  import opened Dom

  /** The weekday labels, Sunday first, as `getDay()` numbers the days. */
  const WeekdayLabels: seq<string> := ["일", "월", "화", "수", "목", "금", "토"]

  /** The markup of the calendar's title block. */
  const Title: string := "<strong>2026년 1월</strong>"

  /** The day the page circles. */
  const SelectedDay: int := 31

  /** One cell of the grid. */
  datatype Cell =
    | WeekdayCell(name: string)   // class "cell dow"
    | BlankCell                    // class "cell day", empty text
    | DayCell(day: nat, selected: bool)  // class "cell day" (+ "selected")

  /** What the calendar root receives: the title block, then the grid element. */
  datatype Block = Head(html: string) | Grid(grid: Container<Cell>)

  /**
    The class list of a cell: "cell dow" for a weekday label, and "cell day"
    for the others, with "selected" added exactly on the circled day.
   */
  function ClassName(c: Cell): (r: string)
    ensures IsSelected(c) <==> r == "cell day selected"
    ensures c.WeekdayCell? <==> r == "cell dow"
    ensures !c.WeekdayCell? && !IsSelected(c) ==> r == "cell day"
  {
    match c
    case WeekdayCell(_) => "cell dow"
    case BlankCell => "cell day"
    case DayCell(_, selected) => if selected then "cell day selected" else "cell day"
  }

  /** The text content of a cell. */
  function TextContent(c: Cell): string {
    match c
    case WeekdayCell(name) => name
    case BlankCell => ""
    case DayCell(day, _) => NatToString(day)
  }

  /**
    `Math.ceil((first + daysInMonth) / 7) * 7`: the smallest multiple of 7
    that is at least `first + daysInMonth`.
   */
  function TotalCells(first: nat, daysInMonth: nat): (n: nat)
    ensures n % 7 == 0
    ensures first + daysInMonth <= n < first + daysInMonth + 7
  {
    (first + daysInMonth + 6) / 7 * 7
  }

  /** The seven weekday header cells, in fixed order. */
  function WeekdayCells(): (cells: seq<Cell>)
    ensures |cells| == 7
  {
    seq(7, i requires 0 <= i < 7 => WeekdayCell(WeekdayLabels[i]))
  }

  /**
    Day cell number `i` of the grid: it shows `i - first + 1` when that is a
    day of the month, marked selected when it is `selectedDay`, and is blank
    otherwise.
   */
  function DayCellAt(i: nat, first: nat, daysInMonth: nat, selectedDay: int): Cell {
    var dayNum := i - first + 1;
    if 0 < dayNum <= daysInMonth then DayCell(dayNum, dayNum == selectedDay) else BlankCell
  }

  /** Whether a cell carries the "selected" class. */
  predicate IsSelected(c: Cell) {
    c.DayCell? && c.selected
  }

  /** All day cells of the grid, in order. */
  function DayCells(first: nat, daysInMonth: nat, selectedDay: int): (cells: seq<Cell>)
    ensures |cells| == TotalCells(first, daysInMonth)
  {
    seq(TotalCells(first, daysInMonth), i requires 0 <= i => DayCellAt(i, first, daysInMonth, selectedDay))
  }

  /**
    `renderCalendar`: when the root element exists, appends the title block
    and a new grid to it, then fills the grid with the weekday header cells
    and the day cells. Without a root nothing happens.
   */
  method RenderCalendar(root: Container?<Block>, first: nat, daysInMonth: nat, selectedDay: int)
    returns (grid: Container?<Cell>)
    modifies root
    ensures root == null ==> grid == null
    ensures root != null ==>
      && grid != null && fresh(grid)
      && root.children == old(root.children) + [Head(Title), Grid(grid)]
      && grid.children == WeekdayCells() + DayCells(first, daysInMonth, selectedDay)
  {
    if root == null {
      return null;
    }
    root.Append(Head(Title));
    grid := new Container<Cell>();
    root.Append(Grid(grid));
    ghost var rootChildren := root.children;

    for i := 0 to 7
      invariant root.children == rootChildren
      invariant grid.children == WeekdayCells()[..i]
    {
      grid.Append(WeekdayCell(WeekdayLabels[i]));
    }

    var totalCells := (first + daysInMonth + 6) / 7 * 7;
    for i := 0 to totalCells
      invariant root.children == rootChildren
      invariant grid.children == WeekdayCells() + DayCells(first, daysInMonth, selectedDay)[..i]
    {
      var dayNum := i - first + 1;
      var cell;
      if 0 < dayNum <= daysInMonth {
        cell := DayCell(dayNum, dayNum == selectedDay);
      } else {
        cell := BlankCell;
      }
      grid.Append(cell);
    }
  }

  /** The day numbers shown by a run of cells, in order (weekday and blank cells show none). */
  function ShownDays(cells: seq<Cell>): seq<nat> {
    if cells == [] then []
    else ShownDays(cells[..|cells| - 1]) + (if cells[|cells| - 1].DayCell? then [cells[|cells| - 1].day] else [])
  }

  /** `1, 2, …, n`. */
  function OneTo(n: nat): (s: seq<nat>)
    ensures |s| == n && forall k :: 0 <= k < n ==> s[k] == k + 1
  {
    seq(n, k requires 0 <= k => k + 1)
  }

  /** How many days the first `i` day cells show. */
  function ShownBy(i: nat, first: nat, daysInMonth: nat): nat {
    if i <= first then 0 else if i - first <= daysInMonth then i - first else daysInMonth
  }

  lemma {:induction false} ShownDaysPrefix(first: nat, daysInMonth: nat, selectedDay: int, i: nat)
    requires i <= TotalCells(first, daysInMonth)
    ensures ShownDays(DayCells(first, daysInMonth, selectedDay)[..i]) == OneTo(ShownBy(i, first, daysInMonth))
  {
    var cells := DayCells(first, daysInMonth, selectedDay);
    if i > 0 {
      ShownDaysPrefix(first, daysInMonth, selectedDay, i - 1);
      assert cells[..i][..i - 1] == cells[..i - 1];
    }
  }

  /**
    The non-blank day cells show exactly `1, …, daysInMonth`, in ascending
    order, after `first` blank cells, and every cell after the last day is
    blank.
   */
  lemma DayCellsLayout(first: nat, daysInMonth: nat, selectedDay: int)
    ensures ShownDays(DayCells(first, daysInMonth, selectedDay)) == OneTo(daysInMonth)
    ensures forall i :: 0 <= i < first ==> DayCells(first, daysInMonth, selectedDay)[i] == BlankCell
    ensures forall i :: first + daysInMonth <= i < TotalCells(first, daysInMonth) ==>
      DayCells(first, daysInMonth, selectedDay)[i] == BlankCell
    ensures forall i :: first <= i < first + daysInMonth ==>
      DayCells(first, daysInMonth, selectedDay)[i].DayCell? &&
      DayCells(first, daysInMonth, selectedDay)[i].day == i - first + 1
  {
    var cells := DayCells(first, daysInMonth, selectedDay);
    ShownDaysPrefix(first, daysInMonth, selectedDay, |cells|);
    assert cells[..|cells|] == cells;
  }

  /**
    A cell is marked selected exactly when `selectedDay` is a day of the
    month, and then exactly one cell is: the one at `first + selectedDay - 1`.
   */
  lemma SelectedCell(first: nat, daysInMonth: nat, selectedDay: int)
    ensures (exists i :: 0 <= i < TotalCells(first, daysInMonth) && IsSelected(DayCells(first, daysInMonth, selectedDay)[i]))
            <==> 1 <= selectedDay <= daysInMonth
    ensures forall i :: 0 <= i < TotalCells(first, daysInMonth) && IsSelected(DayCells(first, daysInMonth, selectedDay)[i])
              ==> (i == first + selectedDay - 1 && DayCells(first, daysInMonth, selectedDay)[i].day == selectedDay)
  {
    var cells := DayCells(first, daysInMonth, selectedDay);
    if 1 <= selectedDay <= daysInMonth {
      var i := first + selectedDay - 1;
      assert IsSelected(cells[i]);
    }
  }

  /** The grid starts with the seven weekday cells, Sunday to Saturday. */
  lemma GridHeader(first: nat, daysInMonth: nat, selectedDay: int)
    ensures (WeekdayCells() + DayCells(first, daysInMonth, selectedDay))[..7] == WeekdayCells()
    ensures forall i :: 0 <= i < 7 ==> TextContent(WeekdayCells()[i]) == WeekdayLabels[i]
  {
  }

  /**
    The page's own month: January 2026 starts on a Thursday (`getDay()` 4)
    and has 31 days, so the grid has five weeks and its last cell is the
    circled 31st.
   */
  lemma January2026()
    ensures TotalCells(4, 31) == 35
    ensures DayCells(4, 31, SelectedDay)[34] == DayCell(31, true)
    ensures TextContent(DayCells(4, 31, SelectedDay)[34]) == "31"
  {
    assert NatToString(31) == NatToString(3) + [Digit(1)];
  }
}

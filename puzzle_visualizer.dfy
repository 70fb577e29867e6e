/** `puzzle_visualizer.py`: draws a crime scene as a grid of box-drawing
    strings. The board has a slot between every two neighbouring cells and
    an intersection at every cell corner: for an n-row floor plan, entry
    (2r+1, 2c) is the vertical boundary of row r to the left of column c,
    entry (2b, 2c+1) the horizontal boundary above row b in column c, and
    entry (2b, 2c) the corner where they meet. Walls go around the outside
    and between cells of different rooms, corners are looked up from the
    walls that reach them, and windows are drawn over single boundaries. */
module Visualizer {
  import opened Wrappers
  import opened Puzzle

  /** The crime scene as this file reads it: the floor plan row by row
      (`floor_plan[r].values`) and the windows. */
  datatype GridScene = GridScene(floorPlan: seq<seq<int>>, windows: seq<Window>)

  /** Which of the four walls meet at a corner. */
  datatype WallIntersection = WallIntersection(up: bool, down: bool, left: bool, right: bool)

  /** `WALL_INTERSECTION_VALUES`: the box-drawing character for each
      combination of walls. */
  const WallIntersectionValues: map<WallIntersection, string> := map[
    WallIntersection(false, false, false, false) := " ",
    WallIntersection(false, false, true, true) := "\U{2500}",
    WallIntersection(true, true, false, false) := "\U{2502}",
    WallIntersection(false, true, false, true) := "\U{250C}",
    WallIntersection(false, true, true, false) := "\U{2510}",
    WallIntersection(true, false, false, true) := "\U{2514}",
    WallIntersection(true, false, true, false) := "\U{2518}",
    WallIntersection(true, true, false, true) := "\U{251C}",
    WallIntersection(true, true, true, false) := "\U{2524}",
    WallIntersection(false, true, true, true) := "\U{252C}",
    WallIntersection(true, false, true, true) := "\U{2534}",
    WallIntersection(true, true, true, true) := "\U{253C}",
    WallIntersection(false, false, true, false) := "\U{2574}",
    WallIntersection(true, false, false, false) := "\U{2575}",
    WallIntersection(false, false, false, true) := "\U{2576}",
    WallIntersection(false, true, false, false) := "\U{2577}"]

  /** Every combination of walls has an entry, so the lookup in
      `_add_wall_intersections` never fails; each entry is one character,
      no two combinations share it, and none is a line break. */
  lemma WallIntersectionTable()
    ensures forall wi :: wi in WallIntersectionValues
    ensures forall wi :: |WallIntersectionValues[wi]| == 1 && WallIntersectionValues[wi][0] != '\n'
    ensures forall a, b :: WallIntersectionValues[a] == WallIntersectionValues[b] ==> a == b
  {
    forall wi ensures wi in WallIntersectionValues && |WallIntersectionValues[wi]| == 1 &&
      WallIntersectionValues[wi][0] != '\n'
    {
      WallIntersectionDecodes(wi);
    }
    forall a, b | WallIntersectionValues[a] == WallIntersectionValues[b] ensures a == b {
      WallIntersectionDecodes(a);
      WallIntersectionDecodes(b);
    }
  }

  /** The table read backwards: the walls a character of it stands for. */
  function WallIntersectionOf(ch: char): WallIntersection {
    match ch
    case '\U{2500}' => WallIntersection(false, false, true, true)
    case '\U{2502}' => WallIntersection(true, true, false, false)
    case '\U{250C}' => WallIntersection(false, true, false, true)
    case '\U{2510}' => WallIntersection(false, true, true, false)
    case '\U{2514}' => WallIntersection(true, false, false, true)
    case '\U{2518}' => WallIntersection(true, false, true, false)
    case '\U{251C}' => WallIntersection(true, true, false, true)
    case '\U{2524}' => WallIntersection(true, true, true, false)
    case '\U{252C}' => WallIntersection(false, true, true, true)
    case '\U{2534}' => WallIntersection(true, false, true, true)
    case '\U{253C}' => WallIntersection(true, true, true, true)
    case '\U{2574}' => WallIntersection(false, false, true, false)
    case '\U{2575}' => WallIntersection(true, false, false, false)
    case '\U{2576}' => WallIntersection(false, false, false, true)
    case '\U{2577}' => WallIntersection(false, true, false, false)
    case _ => WallIntersection(false, false, false, false)
  }

  lemma WallIntersectionDecodes(wi: WallIntersection)
    ensures wi in WallIntersectionValues && |WallIntersectionValues[wi]| == 1
    ensures WallIntersectionValues[wi][0] != '\n' && WallIntersectionOf(WallIntersectionValues[wi][0]) == wi
  {
    var WallIntersection(u, d, l, r) := wi;
  }

  lemma WallIntersectionListed(wi: WallIntersection)
    ensures wi in WallIntersectionValues
  {
    var WallIntersection(u, d, l, r) := wi;
  }

  /** Python's `k * s`: k copies of s, and none when k is not positive. */
  function Repeat(k: int, s: string): (r: string)
    ensures k <= 0 ==> r == ""
    ensures k >= 1 ==> |r| >= |s| && r[..|s|] == s
    ensures forall i :: 0 <= i < |r| ==> r[i] in s
  {
    if k <= 0 then "" else s + Repeat(k - 1, s)
  }

  /** The character of a vertical wall, `WALL_INTERSECTION_VALUES` at up
      and down. */
  const VerticalLine: string := "\U{2502}"

  /** The character of a horizontal wall, `WALL_INTERSECTION_VALUES` at
      left and right. */
  const HorizontalLine: string := "\U{2500}"

  /** The two wall characters are the table's entries for a straight wall,
      and the blank is its entry for no wall. */
  lemma WallCharacters()
    ensures VerticalLine == WallIntersectionValues[WallIntersection(true, true, false, false)]
    ensures HorizontalLine == WallIntersectionValues[WallIntersection(false, false, true, true)]
    ensures " " == WallIntersectionValues[WallIntersection(false, false, false, false)]
  {
  }

  /** `_vertical_wall_value`. */
  function VerticalWallValue(): string {
    VerticalLine
  }

  /** `_horizontal_wall_value`: w horizontal lines. */
  function HorizontalWallValue(w: int): string {
    Repeat(w, HorizontalLine)
  }

  /** `_horizontal_empty_value`: w blanks. */
  function HorizontalEmptyValue(w: int): string {
    Repeat(w, " ")
  }

  /** `_vertical_window_value`. */
  const VerticalWindowValue: string := "\U{2551}"

  /** `_horizontal_window_value`: w double lines. */
  function HorizontalWindowValue(w: int): string {
    Repeat(w, "\U{2550}")
  }

  /** The board's number of rows: one more than twice the floor plan's,
      except that an empty floor plan still gets its top and bottom rows. */
  function Rows(n: int): int {
    if n == 0 then 2 else 2 * n + 1
  }

  /** The board's number of columns (the width of `ROW`). */
  function Columns(n: int): int {
    2 * n + 1
  }

  /** Entry c of `ROW(n, value)`: the value in odd columns, a blank in
      even ones. */
  function RowEntry(value: string, c: int): string {
    if c % 2 == 1 then value else " "
  }

  /** Row r of the floor plan has different rooms left and right of its
      interior boundary c, as `_add_vertical_interior_walls` compares them. */
  predicate VerticalInterior(floorPlan: seq<seq<int>>, r: int, c: int) {
    0 <= r < |floorPlan| && 1 <= c < |floorPlan| && c < |floorPlan[r]| &&
    floorPlan[r][c - 1] != floorPlan[r][c]
  }

  /** Rows b-1 and b of the floor plan have different rooms in column c, as
      `_add_horizontal_interior_walls` compares them. */
  predicate HorizontalInterior(floorPlan: seq<seq<int>>, b: int, c: int) {
    1 <= b < |floorPlan| && 0 <= c < |floorPlan| && c < |floorPlan[b - 1]| && c < |floorPlan[b]| &&
    floorPlan[b - 1][c] != floorPlan[b][c]
  }

  /** The vertical boundary of row r to the left of column c is a wall: the
      outside, or a change of room. */
  predicate VerticalWall(floorPlan: seq<seq<int>>, r: int, c: int) {
    c == 0 || c == |floorPlan| || VerticalInterior(floorPlan, r, c)
  }

  /** The horizontal boundary above row b in column c is a wall. */
  predicate HorizontalWall(floorPlan: seq<seq<int>>, b: int, c: int) {
    b == 0 || b == |floorPlan| || HorizontalInterior(floorPlan, b, c)
  }

  /** Boundary (r, c) comes strictly before boundary (r', c') in the order
      the nested loops visit them. */
  predicate Before(r: int, c: int, r': int, c': int) {
    r < r' || (r == r' && c < c')
  }

  /** Entry (i, j) after `_add_exterior_walls`. */
  function Exterior(n: int, w: int, i: int, j: int): string {
    if i == 0 || i == Rows(n) - 1 then RowEntry(HorizontalWallValue(w), j)
    else if j % 2 == 1 then HorizontalEmptyValue(w)
    else if i % 2 == 1 && (j == 0 || j == 2 * n) then VerticalWallValue()
    else " "
  }

  /** Entry (i, j) once the interior vertical walls of the boundaries
      before (r, c) are drawn. */
  function VerticalStage(floorPlan: seq<seq<int>>, w: int, r: int, c: int, i: int, j: int): string {
    if 0 <= i && 0 <= j && i % 2 == 1 && j % 2 == 0 && Before((i - 1) / 2, j / 2, r, c) &&
       VerticalInterior(floorPlan, (i - 1) / 2, j / 2)
    then VerticalWallValue()
    else Exterior(|floorPlan|, w, i, j)
  }

  lemma VerticalStageStep(floorPlan: seq<seq<int>>, w: int, r: int, c: int, i: int, j: int)
    requires 0 <= r && 1 <= c
    ensures VerticalStage(floorPlan, w, r, c + 1, i, j) ==
      if i == 2 * r + 1 && j == 2 * c && VerticalInterior(floorPlan, r, c) then VerticalWallValue()
      else VerticalStage(floorPlan, w, r, c, i, j)
  {
    if 0 <= i && 0 <= j && i % 2 == 1 && j % 2 == 0 {
      var x, y := (i - 1) / 2, j / 2;
      assert i == 2 * x + 1 && j == 2 * y;
      assert Before(x, y, r, c + 1) <==> Before(x, y, r, c) || (x == r && y == c);
    }
  }

  lemma VerticalStageRowStart(floorPlan: seq<seq<int>>, w: int, r: int, i: int, j: int)
    ensures VerticalStage(floorPlan, w, r, 1, i, j) == VerticalStage(floorPlan, w, r, 0, i, j)
  {
  }

  lemma VerticalStageRowEnd(floorPlan: seq<seq<int>>, w: int, r: int, c: int, i: int, j: int)
    requires 0 <= r < |floorPlan| && 1 <= c && (c >= |floorPlan| || c >= |floorPlan[r]|)
    ensures VerticalStage(floorPlan, w, r, c, i, j) == VerticalStage(floorPlan, w, r + 1, 0, i, j)
  {
  }

  /** Entry (i, j) after `_add_vertical_interior_walls`. */
  function AfterVertical(floorPlan: seq<seq<int>>, w: int, i: int, j: int): string {
    if 0 <= i && 0 <= j && i % 2 == 1 && j % 2 == 0 && VerticalInterior(floorPlan, (i - 1) / 2, j / 2)
    then VerticalWallValue()
    else Exterior(|floorPlan|, w, i, j)
  }

  /** Entry (i, j) once the interior horizontal walls of the boundaries
      before (b, c) are drawn as well. */
  function HorizontalStage(floorPlan: seq<seq<int>>, w: int, b: int, c: int, i: int, j: int): string {
    if 0 <= i && 0 <= j && i % 2 == 0 && j % 2 == 1 && Before(i / 2, (j - 1) / 2, b, c) &&
       HorizontalInterior(floorPlan, i / 2, (j - 1) / 2)
    then HorizontalWallValue(w)
    else AfterVertical(floorPlan, w, i, j)
  }

  lemma HorizontalStageStart(floorPlan: seq<seq<int>>, w: int, i: int, j: int)
    ensures HorizontalStage(floorPlan, w, 1, 0, i, j) == AfterVertical(floorPlan, w, i, j)
  {
  }

  lemma HorizontalStageStep(floorPlan: seq<seq<int>>, w: int, b: int, c: int, i: int, j: int)
    requires 1 <= b && 0 <= c
    ensures HorizontalStage(floorPlan, w, b, c + 1, i, j) ==
      if i == 2 * b && j == 2 * c + 1 && HorizontalInterior(floorPlan, b, c) then HorizontalWallValue(w)
      else HorizontalStage(floorPlan, w, b, c, i, j)
  {
    if 0 <= i && 0 <= j && i % 2 == 0 && j % 2 == 1 {
      var x, y := i / 2, (j - 1) / 2;
      assert i == 2 * x && j == 2 * y + 1;
      assert Before(x, y, b, c + 1) <==> Before(x, y, b, c) || (x == b && y == c);
    }
  }

  lemma HorizontalStageRowEnd(floorPlan: seq<seq<int>>, w: int, b: int, c: int, i: int, j: int)
    requires 1 <= b < |floorPlan| && 0 <= c && (c >= |floorPlan| || c >= |floorPlan[b - 1]| || c >= |floorPlan[b]|)
    ensures HorizontalStage(floorPlan, w, b, c, i, j) == HorizontalStage(floorPlan, w, b + 1, 0, i, j)
  {
    if 0 <= i && 0 <= j && i % 2 == 0 && j % 2 == 1 {
      var x, y := i / 2, (j - 1) / 2;
      assert i == 2 * x && j == 2 * y + 1;
      assert x == b && y >= c ==> !HorizontalInterior(floorPlan, x, y);
    }
  }

  lemma HorizontalStageEnd(floorPlan: seq<seq<int>>, w: int, b: int, i: int, j: int)
    requires b >= |floorPlan|
    ensures HorizontalStage(floorPlan, w, b, 0, i, j) == AfterHorizontal(floorPlan, w, i, j)
  {
  }

  /** Entry (i, j) after `_add_interior_walls`. */
  function AfterHorizontal(floorPlan: seq<seq<int>>, w: int, i: int, j: int): string {
    if 0 <= i && 0 <= j && i % 2 == 0 && j % 2 == 1 && HorizontalInterior(floorPlan, i / 2, (j - 1) / 2)
    then HorizontalWallValue(w)
    else AfterVertical(floorPlan, w, i, j)
  }

  /** Vertical boundary (r, c) as the interior walls leave it. */
  function VerticalBoundary(floorPlan: seq<seq<int>>, w: int, r: int, c: int): string {
    AfterHorizontal(floorPlan, w, 2 * r + 1, 2 * c)
  }

  /** Horizontal boundary (b, c) as the interior walls leave it. */
  function HorizontalBoundary(floorPlan: seq<seq<int>>, w: int, b: int, c: int): string {
    AfterHorizontal(floorPlan, w, 2 * b, 2 * c + 1)
  }

  /** `_get_wall_intersection` read off the board as the interior walls
      leave it: a direction counts when the boundary next to the corner
      holds a wall, and directions off the edge do not count. */
  function IntersectionAt(floorPlan: seq<seq<int>>, w: int, b: int, c: int): WallIntersection {
    var n := |floorPlan|;
    WallIntersection(
      b != 0 && VerticalBoundary(floorPlan, w, b - 1, c) == VerticalWallValue(),
      b != n && VerticalBoundary(floorPlan, w, b, c) == VerticalWallValue(),
      c != 0 && HorizontalBoundary(floorPlan, w, b, c - 1) == HorizontalWallValue(w),
      c != n && HorizontalBoundary(floorPlan, w, b, c) == HorizontalWallValue(w))
  }

  /** A corner's walls are read off its four neighbouring boundaries. */
  lemma IntersectionFromNeighbours(floorPlan: seq<seq<int>>, w: int, b: int, c: int, up: bool, down: bool, left: bool, right: bool)
    requires up == (b != 0 && VerticalBoundary(floorPlan, w, b - 1, c) == VerticalWallValue())
    requires down == (b != |floorPlan| && VerticalBoundary(floorPlan, w, b, c) == VerticalWallValue())
    requires left == (c != 0 && HorizontalBoundary(floorPlan, w, b, c - 1) == HorizontalWallValue(w))
    requires right == (c != |floorPlan| && HorizontalBoundary(floorPlan, w, b, c) == HorizontalWallValue(w))
    ensures IntersectionAt(floorPlan, w, b, c) == WallIntersection(up, down, left, right)
  {
  }

  /** The character for a combination of walls. */
  function IntersectionValue(wi: WallIntersection): string {
    WallIntersectionListed(wi);
    WallIntersectionValues[wi]
  }

  /** Entry (i, j) once the corners before (b, c) are drawn as well. */
  function IntersectionStage(floorPlan: seq<seq<int>>, w: int, b: int, c: int, i: int, j: int): string {
    if 0 <= i <= 2 * |floorPlan| && 0 <= j <= 2 * |floorPlan| && i % 2 == 0 && j % 2 == 0 &&
       Before(i / 2, j / 2, b, c)
    then IntersectionValue(IntersectionAt(floorPlan, w, i / 2, j / 2))
    else AfterHorizontal(floorPlan, w, i, j)
  }

  lemma IntersectionStageOffCorners(floorPlan: seq<seq<int>>, w: int, b: int, c: int, i: int, j: int)
    requires i % 2 != j % 2
    ensures IntersectionStage(floorPlan, w, b, c, i, j) == AfterHorizontal(floorPlan, w, i, j)
  {
  }

  lemma IntersectionStageStep(floorPlan: seq<seq<int>>, w: int, b: int, c: int, i: int, j: int)
    requires 0 <= b <= |floorPlan| && 0 <= c <= |floorPlan|
    ensures IntersectionStage(floorPlan, w, b, c + 1, i, j) ==
      if i == 2 * b && j == 2 * c then IntersectionValue(IntersectionAt(floorPlan, w, b, c))
      else IntersectionStage(floorPlan, w, b, c, i, j)
  {
    if 0 <= i && 0 <= j && i % 2 == 0 && j % 2 == 0 {
      var x, y := i / 2, j / 2;
      assert i == 2 * x && j == 2 * y;
      assert Before(x, y, b, c + 1) <==> Before(x, y, b, c) || (x == b && y == c);
    }
  }

  lemma IntersectionStageRowEnd(floorPlan: seq<seq<int>>, w: int, b: int, i: int, j: int)
    ensures IntersectionStage(floorPlan, w, b, |floorPlan| + 1, i, j) ==
            IntersectionStage(floorPlan, w, b + 1, 0, i, j)
  {
  }

  lemma IntersectionStageEnd(floorPlan: seq<seq<int>>, w: int, i: int, j: int)
    ensures IntersectionStage(floorPlan, w, |floorPlan| + 1, 0, i, j) == AfterIntersections(floorPlan, w, i, j)
  {
  }

  /** Entry (i, j) after `_add_walls`. */
  function AfterIntersections(floorPlan: seq<seq<int>>, w: int, i: int, j: int): string {
    if 0 <= i <= 2 * |floorPlan| && 0 <= j <= 2 * |floorPlan| && i % 2 == 0 && j % 2 == 0
    then IntersectionValue(IntersectionAt(floorPlan, w, i / 2, j / 2))
    else AfterHorizontal(floorPlan, w, i, j)
  }

  /** The window has a vertical border at row r, right of column c - 1. */
  predicate VerticalHit(window: Window, r: int, c: int) {
    window.verticalBorder.Some? && window.verticalBorder.value.row == r && window.verticalBorder.value.right == c
  }

  /** The window has a horizontal border in column c, above row b. */
  predicate HorizontalHit(window: Window, b: int, c: int) {
    window.horizontalBorder.Some? && window.horizontalBorder.value.bottom == b &&
    window.horizontalBorder.value.column == c
  }

  /** Some window draws on vertical boundary (r, c). */
  predicate VerticalWindowAt(windows: seq<Window>, r: int, c: int) {
    if windows == [] then false
    else VerticalHit(windows[|windows| - 1], r, c) || VerticalWindowAt(windows[..|windows| - 1], r, c)
  }

  /** Some window draws on horizontal boundary (b, c). */
  predicate HorizontalWindowAt(windows: seq<Window>, b: int, c: int) {
    if windows == [] then false
    else HorizontalHit(windows[|windows| - 1], b, c) || HorizontalWindowAt(windows[..|windows| - 1], b, c)
  }

  lemma {:induction false} WindowAtMeans(windows: seq<Window>, r: int, c: int)
    ensures VerticalWindowAt(windows, r, c) <==> exists k :: 0 <= k < |windows| && VerticalHit(windows[k], r, c)
    ensures HorizontalWindowAt(windows, r, c) <==> exists k :: 0 <= k < |windows| && HorizontalHit(windows[k], r, c)
  {
    if windows != [] {
      var init := windows[..|windows| - 1];
      WindowAtMeans(init, r, c);
      assert forall k :: 0 <= k < |init| ==> init[k] == windows[k];
    }
  }

  /** Entry (i, j) of the finished board: a window's border where one was
      drawn, the walls and corners elsewhere. */
  function Drawn(floorPlan: seq<seq<int>>, windows: seq<Window>, w: int, i: int, j: int): string {
    if 0 <= i && 0 <= j && i % 2 == 1 && j % 2 == 0 && VerticalWindowAt(windows, (i - 1) / 2, j / 2)
    then VerticalWindowValue
    else if 0 <= i && 0 <= j && i % 2 == 0 && j % 2 == 1 && HorizontalWindowAt(windows, i / 2, (j - 1) / 2)
    then HorizontalWindowValue(w)
    else AfterIntersections(floorPlan, w, i, j)
  }

  /** The board between the two borders of window k: its vertical border
      drawn over what the windows before it left. */
  function VerticalBorderDrawn(floorPlan: seq<seq<int>>, windows: seq<Window>, w: int, k: int, i: int, j: int): string
    requires 0 <= k < |windows|
  {
    if windows[k].verticalBorder.Some? && i == 2 * windows[k].verticalBorder.value.row + 1 &&
       j == 2 * windows[k].verticalBorder.value.right
    then VerticalWindowValue
    else Drawn(floorPlan, windows[..k], w, i, j)
  }

  lemma DrawnStep(floorPlan: seq<seq<int>>, windows: seq<Window>, w: int, k: int, i: int, j: int)
    requires 0 <= k < |windows| && 0 <= i && 0 <= j
    ensures Drawn(floorPlan, windows[..k + 1], w, i, j) ==
      if windows[k].horizontalBorder.Some? && i == 2 * windows[k].horizontalBorder.value.bottom &&
         j == 2 * windows[k].horizontalBorder.value.column + 1
      then HorizontalWindowValue(w)
      else VerticalBorderDrawn(floorPlan, windows, w, k, i, j)
  {
    assert windows[..k + 1][..k] == windows[..k];
    assert windows[..k + 1][k] == windows[k];
    var window := windows[k];
    if window.verticalBorder.Some? {
      CornerOfOdd(i, j, window.verticalBorder.value.row, window.verticalBorder.value.right);
    }
    if window.horizontalBorder.Some? {
      CornerOfOdd(j, i, window.horizontalBorder.value.column, window.horizontalBorder.value.bottom);
    }
  }

  /** Entry (i, j) of the board, with i odd and j even, is boundary
      ((i - 1) / 2, j / 2). */
  lemma CornerOfOdd(i: int, j: int, r: int, c: int)
    requires 0 <= i && 0 <= j
    ensures (i == 2 * r + 1 && j == 2 * c) <==> (i % 2 == 1 && j % 2 == 0 && (i - 1) / 2 == r && j / 2 == c)
  {
  }

  /** The first character of k copies of s is that of s. */
  lemma {:induction false} RepeatFirst(k: int, s: string)
    requires k >= 1 && |s| >= 1
    ensures |Repeat(k, s)| >= 1 && Repeat(k, s)[0] == s[0]
  {
  }

  /** k copies of s hold only characters of s. */
  lemma {:induction false} RepeatChars(k: int, s: string)
    ensures forall i :: 0 <= i < |Repeat(k, s)| ==> Repeat(k, s)[i] in s
  {
    if k > 0 {
      RepeatChars(k - 1, s);
      assert Repeat(k, s) == s + Repeat(k - 1, s);
    }
  }

  /** With a cell at least one character wide, a corner shows a line
      towards exactly those neighbouring boundaries that are walls: the
      outside of the plan, or a boundary between two rooms. With a width
      of zero or less the horizontal wall and the horizontal blank are both
      empty, so every corner shows lines to the left and right wherever
      there is a neighbouring boundary at all. */
  lemma IntersectionMeaning(floorPlan: seq<seq<int>>, w: int, b: int, c: int)
    requires 0 <= b <= |floorPlan| && 0 <= c <= |floorPlan|
    ensures IntersectionAt(floorPlan, w, b, c).up <==> b != 0 && VerticalWall(floorPlan, b - 1, c)
    ensures IntersectionAt(floorPlan, w, b, c).down <==> b != |floorPlan| && VerticalWall(floorPlan, b, c)
    ensures w >= 1 ==>
      (IntersectionAt(floorPlan, w, b, c).left <==> c != 0 && HorizontalWall(floorPlan, b, c - 1))
    ensures w >= 1 ==>
      (IntersectionAt(floorPlan, w, b, c).right <==> c != |floorPlan| && HorizontalWall(floorPlan, b, c))
    ensures w <= 0 ==>
      (IntersectionAt(floorPlan, w, b, c).left <==> c != 0) && (IntersectionAt(floorPlan, w, b, c).right <==> c != |floorPlan|)
  {
    IntersectionUpDown(floorPlan, w, b, c);
    IntersectionLeftRight(floorPlan, w, b, c);
  }

  lemma IntersectionUpDown(floorPlan: seq<seq<int>>, w: int, b: int, c: int)
    requires 0 <= b <= |floorPlan| && 0 <= c <= |floorPlan|
    ensures IntersectionAt(floorPlan, w, b, c).up <==> b != 0 && VerticalWall(floorPlan, b - 1, c)
    ensures IntersectionAt(floorPlan, w, b, c).down <==> b != |floorPlan| && VerticalWall(floorPlan, b, c)
  {
    if b != 0 {
      VerticalBoundaryWall(floorPlan, w, b - 1, c);
    }
    if b != |floorPlan| {
      VerticalBoundaryWall(floorPlan, w, b, c);
    }
  }

  lemma IntersectionLeftRight(floorPlan: seq<seq<int>>, w: int, b: int, c: int)
    requires 0 <= b <= |floorPlan| && 0 <= c <= |floorPlan|
    ensures w >= 1 ==>
      (IntersectionAt(floorPlan, w, b, c).left <==> c != 0 && HorizontalWall(floorPlan, b, c - 1))
    ensures w >= 1 ==>
      (IntersectionAt(floorPlan, w, b, c).right <==> c != |floorPlan| && HorizontalWall(floorPlan, b, c))
    ensures w <= 0 ==>
      (IntersectionAt(floorPlan, w, b, c).left <==> c != 0) && (IntersectionAt(floorPlan, w, b, c).right <==> c != |floorPlan|)
  {
    if c != 0 {
      HorizontalBoundaryWall(floorPlan, w, b, c - 1);
    }
    if c != |floorPlan| {
      HorizontalBoundaryWall(floorPlan, w, b, c);
    }
    if w >= 1 {
      RepeatFirst(w, HorizontalLine);
      RepeatFirst(w, " ");
      assert HorizontalEmptyValue(w) != HorizontalWallValue(w) by {
        assert HorizontalEmptyValue(w)[0] != HorizontalWallValue(w)[0];
      }
    } else {
      assert HorizontalEmptyValue(w) == HorizontalWallValue(w) == "";
    }
  }

  /** Vertical boundary (r, c) after the interior walls: a wall exactly
      where it is one, a blank elsewhere. */
  lemma VerticalBoundaryWall(floorPlan: seq<seq<int>>, w: int, r: int, c: int)
    requires 0 <= r < |floorPlan| && 0 <= c <= |floorPlan|
    ensures VerticalBoundary(floorPlan, w, r, c) == if VerticalWall(floorPlan, r, c) then VerticalWallValue() else " "
  {
    var n, i, j := |floorPlan|, 2 * r + 1, 2 * c;
    assert i % 2 == 1 && j % 2 == 0 && (i - 1) / 2 == r && j / 2 == c;
    assert Exterior(n, w, i, j) == if c == 0 || c == n then VerticalWallValue() else " ";
    assert AfterHorizontal(floorPlan, w, i, j) == AfterVertical(floorPlan, w, i, j);
  }

  /** Horizontal boundary (b, c) after the interior walls: a wall exactly
      where it is one, blanks elsewhere. */
  lemma HorizontalBoundaryWall(floorPlan: seq<seq<int>>, w: int, b: int, c: int)
    requires 0 <= b <= |floorPlan| && 0 <= c < |floorPlan|
    ensures HorizontalBoundary(floorPlan, w, b, c) ==
      if HorizontalWall(floorPlan, b, c) then HorizontalWallValue(w) else HorizontalEmptyValue(w)
  {
    var n, i, j := |floorPlan|, 2 * b, 2 * c + 1;
    assert i % 2 == 0 && j % 2 == 1 && i / 2 == b && (j - 1) / 2 == c;
    assert Exterior(n, w, i, j) == if b == 0 || b == n then HorizontalWallValue(w) else HorizontalEmptyValue(w);
    assert AfterVertical(floorPlan, w, i, j) == Exterior(n, w, i, j);
  }

  /** A vertical boundary of the finished board shows a window where one
      was added, otherwise a wall exactly where it is one. */
  lemma VerticalBoundaryMeaning(floorPlan: seq<seq<int>>, windows: seq<Window>, w: int, r: int, c: int)
    requires 0 <= r < |floorPlan| && 0 <= c <= |floorPlan|
    ensures Drawn(floorPlan, windows, w, 2 * r + 1, 2 * c) ==
      if VerticalWindowAt(windows, r, c) then VerticalWindowValue
      else if VerticalWall(floorPlan, r, c) then VerticalWallValue()
      else " "
  {
    var n, i, j := |floorPlan|, 2 * r + 1, 2 * c;
    assert i % 2 == 1 && j % 2 == 0 && (i - 1) / 2 == r && j / 2 == c;
    assert Exterior(n, w, i, j) == if c == 0 || c == n then VerticalWallValue() else " ";
    assert AfterVertical(floorPlan, w, i, j) ==
      if VerticalInterior(floorPlan, r, c) then VerticalWallValue() else Exterior(n, w, i, j);
    assert AfterIntersections(floorPlan, w, i, j) == AfterVertical(floorPlan, w, i, j);
  }

  /** A horizontal boundary of the finished board shows a window where one
      was added, otherwise a wall exactly where it is one, and blanks
      elsewhere. */
  lemma HorizontalBoundaryMeaning(floorPlan: seq<seq<int>>, windows: seq<Window>, w: int, b: int, c: int)
    requires 0 <= b <= |floorPlan| && 0 <= c < |floorPlan|
    ensures Drawn(floorPlan, windows, w, 2 * b, 2 * c + 1) ==
      if HorizontalWindowAt(windows, b, c) then HorizontalWindowValue(w)
      else if HorizontalWall(floorPlan, b, c) then HorizontalWallValue(w)
      else HorizontalEmptyValue(w)
  {
    var n, i, j := |floorPlan|, 2 * b, 2 * c + 1;
    assert i % 2 == 0 && j % 2 == 1 && i / 2 == b && (j - 1) / 2 == c;
    assert Exterior(n, w, i, j) == if b == 0 || b == n then HorizontalWallValue(w) else HorizontalEmptyValue(w);
    assert AfterVertical(floorPlan, w, i, j) == Exterior(n, w, i, j);
    assert AfterHorizontal(floorPlan, w, i, j) ==
      if HorizontalInterior(floorPlan, b, c) then HorizontalWallValue(w) else Exterior(n, w, i, j);
    assert AfterIntersections(floorPlan, w, i, j) == AfterHorizontal(floorPlan, w, i, j);
  }

  /** Windows never reach a corner or the inside of a cell: corners show
      the character for their walls and cells are blank. */
  lemma CornerAndCellMeaning(floorPlan: seq<seq<int>>, windows: seq<Window>, w: int, b: int, c: int)
    requires 0 <= b <= |floorPlan| && 0 <= c <= |floorPlan|
    ensures Drawn(floorPlan, windows, w, 2 * b, 2 * c) == IntersectionValue(IntersectionAt(floorPlan, w, b, c))
    ensures b < |floorPlan| && c < |floorPlan| ==> Drawn(floorPlan, windows, w, 2 * b + 1, 2 * c + 1) == HorizontalEmptyValue(w)
  {
    CornerMeaning(floorPlan, windows, w, b, c);
    if b < |floorPlan| && c < |floorPlan| {
      CellMeaning(floorPlan, windows, w, b, c);
    }
  }

  lemma CornerMeaning(floorPlan: seq<seq<int>>, windows: seq<Window>, w: int, b: int, c: int)
    requires 0 <= b <= |floorPlan| && 0 <= c <= |floorPlan|
    ensures Drawn(floorPlan, windows, w, 2 * b, 2 * c) == IntersectionValue(IntersectionAt(floorPlan, w, b, c))
  {
    var i, j := 2 * b, 2 * c;
    assert i % 2 == 0 && j % 2 == 0 && i / 2 == b && j / 2 == c;
    assert Drawn(floorPlan, windows, w, i, j) == AfterIntersections(floorPlan, w, i, j);
  }

  lemma CellMeaning(floorPlan: seq<seq<int>>, windows: seq<Window>, w: int, b: int, c: int)
    requires 0 <= b < |floorPlan| && 0 <= c < |floorPlan|
    ensures Drawn(floorPlan, windows, w, 2 * b + 1, 2 * c + 1) == HorizontalEmptyValue(w)
  {
    var i, j := 2 * b + 1, 2 * c + 1;
    assert i % 2 == 1 && j % 2 == 1 && 0 < i < Rows(|floorPlan|) - 1;
    assert Drawn(floorPlan, windows, w, i, j) == AfterVertical(floorPlan, w, i, j);
  }

  /** The finished board of a crime scene. */
  function DrawnBoard(floorPlan: seq<seq<int>>, windows: seq<Window>, w: int): seq<seq<string>> {
    seq(Rows(|floorPlan|), i requires 0 <= i < Rows(|floorPlan|) =>
      seq(Columns(|floorPlan|), j requires 0 <= j < Columns(|floorPlan|) => Drawn(floorPlan, windows, w, i, j)))
  }

  /** Every window lies on the board, as the indexing of the boundary
      setters requires. */
  predicate WindowsOnBoard(windows: seq<Window>, n: int) {
    forall k :: 0 <= k < |windows| ==>
      && (windows[k].verticalBorder.Some? ==>
            0 <= 2 * windows[k].verticalBorder.value.row + 1 < Rows(n) &&
            0 <= 2 * windows[k].verticalBorder.value.right < Columns(n))
      && (windows[k].horizontalBorder.Some? ==>
            0 <= 2 * windows[k].horizontalBorder.value.bottom < Rows(n) &&
            0 <= 2 * windows[k].horizontalBorder.value.column + 1 < Columns(n))
  }

  /** `''.join(row)`. */
  function Concat(row: seq<string>): string {
    if row == [] then "" else Concat(row[..|row| - 1]) + row[|row| - 1]
  }

  /** `'\n'.join(lines)`. */
  function JoinLines(lines: seq<string>): string {
    if |lines| == 0 then ""
    else if |lines| == 1 then lines[0]
    else JoinLines(lines[..|lines| - 1]) + "\n" + lines[|lines| - 1]
  }

  /** The text of each row of a board. */
  function RowTexts(board: seq<seq<string>>): (texts: seq<string>)
    ensures |texts| == |board|
  {
    seq(|board|, i requires 0 <= i < |board| => Concat(board[i]))
  }

  /** `_set_visulization`'s text for a board. */
  function Render(board: seq<seq<string>>): string {
    JoinLines(RowTexts(board))
  }

  /** The number of line breaks in s. */
  function LineBreaks(s: string): nat {
    if s == [] then 0 else LineBreaks(s[..|s| - 1]) + (if s[|s| - 1] == '\n' then 1 else 0)
  }

  /** s holds no line break. */
  predicate NoLineBreak(s: string) {
    forall i :: 0 <= i < |s| ==> s[i] != '\n'
  }

  lemma {:induction false} LineBreaksAppend(a: string, b: string)
    ensures LineBreaks(a + b) == LineBreaks(a) + LineBreaks(b)
  {
    if b != [] {
      assert (a + b)[..|a + b| - 1] == a + b[..|b| - 1];
      LineBreaksAppend(a, b[..|b| - 1]);
    } else {
      assert a + b == a;
    }
  }

  lemma {:induction false} NoLineBreakCount(s: string)
    requires NoLineBreak(s)
    ensures LineBreaks(s) == 0
  {
    if s != [] {
      NoLineBreakCount(s[..|s| - 1]);
    }
  }

  /** Joining strings without line breaks gives none. */
  lemma {:induction false} ConcatNoLineBreak(row: seq<string>)
    requires forall k :: 0 <= k < |row| ==> NoLineBreak(row[k])
    ensures NoLineBreak(Concat(row))
  {
    if row != [] {
      ConcatNoLineBreak(row[..|row| - 1]);
      var init := Concat(row[..|row| - 1]);
      assert Concat(row) == init + row[|row| - 1];
      forall i | 0 <= i < |Concat(row)| ensures Concat(row)[i] != '\n' {
        if i < |init| {
          assert Concat(row)[i] == init[i];
        } else {
          assert Concat(row)[i] == row[|row| - 1][i - |init|];
        }
      }
    }
  }

  /** Lines without line breaks joined by line breaks: one break fewer
      than there are lines. */
  lemma {:induction false} JoinLinesBreaks(lines: seq<string>)
    requires forall k :: 0 <= k < |lines| ==> NoLineBreak(lines[k])
    ensures LineBreaks(JoinLines(lines)) == if lines == [] then 0 else |lines| - 1
  {
    if |lines| == 1 {
      NoLineBreakCount(lines[0]);
    } else if |lines| > 1 {
      var init := lines[..|lines| - 1];
      JoinLinesBreaks(init);
      LineBreaksAppend(JoinLines(init) + "\n", lines[|lines| - 1]);
      LineBreaksAppend(JoinLines(init), "\n");
      assert LineBreaks("\n") == 1 by {
        assert "\n"[..0] == [];
      }
      NoLineBreakCount(lines[|lines| - 1]);
    }
  }

  /** No entry of the finished board holds a line break. */
  lemma DrawnNoLineBreak(floorPlan: seq<seq<int>>, windows: seq<Window>, w: int, i: int, j: int)
    ensures NoLineBreak(Drawn(floorPlan, windows, w, i, j))
  {
    RepeatChars(w, "\U{2550}");
    RepeatChars(w, HorizontalLine);
    RepeatChars(w, " ");
    WallIntersectionTable();
  }

  /** The text of a crime scene has one line per row of its board. */
  lemma VisualizationLines(floorPlan: seq<seq<int>>, windows: seq<Window>, w: int)
    ensures LineBreaks(Render(DrawnBoard(floorPlan, windows, w))) == Rows(|floorPlan|) - 1
  {
    var board := DrawnBoard(floorPlan, windows, w);
    forall k | 0 <= k < |board| ensures NoLineBreak(RowTexts(board)[k]) {
      forall j | 0 <= j < |board[k]| ensures NoLineBreak(board[k][j]) {
        DrawnNoLineBreak(floorPlan, windows, w, k, j);
      }
      ConcatNoLineBreak(board[k]);
    }
    JoinLinesBreaks(RowTexts(board));
  }

  /** The step of `_add_horizontal_interior_walls` on the board's array:
      `_set_horizontal_boundary_value` draws a wall above row r in column c
      when the rooms there differ. */
  method DrawHorizontalInteriorWall(board: array2<string>, floorPlan: seq<seq<int>>, w: int, r: int, c: int)
    requires board.Length0 == Rows(|floorPlan|) && board.Length1 == Columns(|floorPlan|)
    requires 1 <= r < |floorPlan| && 0 <= c < |floorPlan| && c < |floorPlan[r - 1]| && c < |floorPlan[r]|
    requires forall i, j :: 0 <= i < board.Length0 && 0 <= j < board.Length1 ==>
      board[i, j] == HorizontalStage(floorPlan, w, r, c, i, j)
    modifies board
    ensures forall i, j :: 0 <= i < board.Length0 && 0 <= j < board.Length1 ==>
      board[i, j] == HorizontalStage(floorPlan, w, r, c + 1, i, j)
  {
    if floorPlan[r - 1][c] != floorPlan[r][c] {
      board[2 * r, 2 * c + 1] := HorizontalWallValue(w);
    }
    forall i, j | 0 <= i < board.Length0 && 0 <= j < board.Length1
      ensures board[i, j] == HorizontalStage(floorPlan, w, r, c + 1, i, j)
    {
      HorizontalStageStep(floorPlan, w, r, c, i, j);
    }
  }

  /** The end of a step of `_add_wall_intersections` on the board's array:
      `_set_boundary_intersection_value` puts the character of the walls
      that meet at corner (bottom, right) there. */
  method DrawWallIntersection(board: array2<string>, floorPlan: seq<seq<int>>, w: int, bottom: int, right: int, value: string)
    requires board.Length0 == Rows(|floorPlan|) && board.Length1 == Columns(|floorPlan|)
    requires 0 <= bottom <= |floorPlan| && 0 <= right <= |floorPlan|
    requires value == IntersectionValue(IntersectionAt(floorPlan, w, bottom, right))
    requires forall i, j :: 0 <= i < board.Length0 && 0 <= j < board.Length1 ==>
      board[i, j] == IntersectionStage(floorPlan, w, bottom, right, i, j)
    modifies board
    ensures forall i, j :: 0 <= i < board.Length0 && 0 <= j < board.Length1 ==>
      board[i, j] == IntersectionStage(floorPlan, w, bottom, right + 1, i, j)
  {
    board[2 * bottom, 2 * right] := value;
    forall i, j | 0 <= i < board.Length0 && 0 <= j < board.Length1
      ensures board[i, j] == IntersectionStage(floorPlan, w, bottom, right + 1, i, j)
    {
      IntersectionStageStep(floorPlan, w, bottom, right, i, j);
    }
  }

  /** While the corners are being drawn, the four boundaries around corner
      (bottom, right) still hold what the interior walls left there. */
  lemma NeighbourBoundaries(board: array2<string>, floorPlan: seq<seq<int>>, w: int, bottom: int, right: int)
    requires board.Length0 == Rows(|floorPlan|) && board.Length1 == Columns(|floorPlan|)
    requires 0 <= bottom <= |floorPlan| && 0 <= right <= |floorPlan|
    requires forall i, j :: 0 <= i < board.Length0 && 0 <= j < board.Length1 ==>
      board[i, j] == IntersectionStage(floorPlan, w, bottom, right, i, j)
    ensures bottom != 0 ==> board[2 * (bottom - 1) + 1, 2 * right] == VerticalBoundary(floorPlan, w, bottom - 1, right)
    ensures bottom != |floorPlan| ==> board[2 * bottom + 1, 2 * right] == VerticalBoundary(floorPlan, w, bottom, right)
    ensures right != 0 ==> board[2 * bottom, 2 * (right - 1) + 1] == HorizontalBoundary(floorPlan, w, bottom, right - 1)
    ensures right != |floorPlan| ==> board[2 * bottom, 2 * right + 1] == HorizontalBoundary(floorPlan, w, bottom, right)
  {
    if bottom != 0 {
      IntersectionStageOnVertical(floorPlan, w, bottom, right, bottom - 1, right);
    }
    if bottom != |floorPlan| {
      IntersectionStageOnVertical(floorPlan, w, bottom, right, bottom, right);
    }
    if right != 0 {
      IntersectionStageOnHorizontal(floorPlan, w, bottom, right, bottom, right - 1);
    }
    if right != |floorPlan| {
      IntersectionStageOnHorizontal(floorPlan, w, bottom, right, bottom, right);
    }
  }

  /** The corners leave the vertical boundaries alone. */
  lemma IntersectionStageOnVertical(floorPlan: seq<seq<int>>, w: int, b: int, c: int, r: int, col: int)
    ensures IntersectionStage(floorPlan, w, b, c, 2 * r + 1, 2 * col) == VerticalBoundary(floorPlan, w, r, col)
  {
    IntersectionStageOffCorners(floorPlan, w, b, c, 2 * r + 1, 2 * col);
  }

  /** The corners leave the horizontal boundaries alone. */
  lemma IntersectionStageOnHorizontal(floorPlan: seq<seq<int>>, w: int, b: int, c: int, row: int, col: int)
    ensures IntersectionStage(floorPlan, w, b, c, 2 * row, 2 * col + 1) == HorizontalBoundary(floorPlan, w, row, col)
  {
    IntersectionStageOffCorners(floorPlan, w, b, c, 2 * row, 2 * col + 1);
  }

  /** A board whose every entry is as `Drawn` says is `DrawnBoard`. */
  lemma DrawnGrid(v: PuzzleVisualizer)
    requires v.Shaped()
    requires forall i, j :: 0 <= i < v.board.Length0 && 0 <= j < v.board.Length1 ==>
      v.board[i, j] == Drawn(v.floorPlan, v.windows, v.w, i, j)
    ensures v.Grid() == DrawnBoard(v.floorPlan, v.windows, v.w)
  {
    assert forall i :: 0 <= i < v.board.Length0 ==> v.Grid()[i] == DrawnBoard(v.floorPlan, v.windows, v.w)[i];
  }

  class PuzzleVisualizer {
    /** Whether the puzzle has a crime scene; without one nothing is drawn. */
    const hasScene: bool
    /** `_crime_scene.floor_plan`, row by row. */
    const floorPlan: seq<seq<int>>
    /** `_crime_scene.windows`. */
    const windows: seq<Window>
    /** `_n`, the number of rows of the floor plan. */
    const n: int
    /** `_w`, the width of a cell in characters. */
    const w: int
    /** `_board`. */
    var board: array2<string>
    /** `_visualization`. */
    var visualization: string

    ghost predicate Shaped()
      reads this
    {
      n == |floorPlan| && board.Length0 == Rows(n) && board.Length1 == Columns(n)
    }

    /** The board as a sequence of rows. */
    function Grid(): (g: seq<seq<string>>)
      reads this`board, board
      ensures |g| == board.Length0
      ensures forall i :: 0 <= i < board.Length0 ==> |g[i]| == board.Length1
    {
      var b := board;
      seq(b.Length0, i requires 0 <= i < b.Length0 reads b =>
        seq(b.Length1, j requires 0 <= i < b.Length0 && 0 <= j < b.Length1 reads b => b[i, j]))
    }

    /** A puzzle with a crime scene is drawn as `DrawnBoard` says; one
        without a crime scene gives an empty board and an empty text. */
    constructor (crimeScene: Option<GridScene>, w: int)
      requires crimeScene.Some? ==> WindowsOnBoard(crimeScene.value.windows, |crimeScene.value.floorPlan|)
      ensures hasScene == crimeScene.Some?
      ensures crimeScene.None? ==> Grid() == [] && visualization == ""
      ensures crimeScene.Some? ==>
        && floorPlan == crimeScene.value.floorPlan && windows == crimeScene.value.windows && this.w == w
        && Shaped() && Grid() == DrawnBoard(floorPlan, windows, w)
      ensures visualization == Render(Grid())
    {
      hasScene := crimeScene.Some?;
      this.w := w;
      if crimeScene.Some? {
        floorPlan := crimeScene.value.floorPlan;
        windows := crimeScene.value.windows;
        n := |crimeScene.value.floorPlan|;
        board := new string[Rows(|crimeScene.value.floorPlan|), Columns(|crimeScene.value.floorPlan|)];
      } else {
        floorPlan := [];
        windows := [];
        n := 0;
        board := new string[0, 0];
      }
      new;
      if crimeScene.Some? {
        AddWalls();
        AddWindows();
        DrawnGrid(this);
      }
      SetVisualization();
    }

    /** `_get_vertical_boundary_value`. */
    function GetVerticalBoundaryValue(row: int, right: int): string
      reads this, board
      requires 0 <= 2 * row + 1 < board.Length0 && 0 <= 2 * right < board.Length1
    {
      board[2 * row + 1, 2 * right]
    }

    /** `_get_horizontal_boundary_value`. */
    function GetHorizontalBoundaryValue(bottom: int, column: int): string
      reads this, board
      requires 0 <= 2 * bottom < board.Length0 && 0 <= 2 * column + 1 < board.Length1
    {
      board[2 * bottom, 2 * column + 1]
    }

    /** `_set_vertical_boundary_value`: the next read of that boundary
        gives the value, and nothing else on the board changes. */
    method SetVerticalBoundaryValue(row: int, right: int, value: string)
      requires 0 <= 2 * row + 1 < board.Length0 && 0 <= 2 * right < board.Length1
      modifies board
      ensures GetVerticalBoundaryValue(row, right) == value
      ensures forall i, j :: 0 <= i < board.Length0 && 0 <= j < board.Length1 && (i != 2 * row + 1 || j != 2 * right) ==>
        board[i, j] == old(board[i, j])
    {
      board[2 * row + 1, 2 * right] := value;
    }

    /** `_set_horizontal_boundary_value`, likewise. */
    method SetHorizontalBoundaryValue(bottom: int, column: int, value: string)
      requires 0 <= 2 * bottom < board.Length0 && 0 <= 2 * column + 1 < board.Length1
      modifies board
      ensures GetHorizontalBoundaryValue(bottom, column) == value
      ensures forall i, j :: 0 <= i < board.Length0 && 0 <= j < board.Length1 && (i != 2 * bottom || j != 2 * column + 1) ==>
        board[i, j] == old(board[i, j])
    {
      board[2 * bottom, 2 * column + 1] := value;
    }

    /** `_set_boundary_intersection_value`: only corner (bottom, right)
        changes. */
    method SetBoundaryIntersectionValue(bottom: int, right: int, value: string)
      requires 0 <= 2 * bottom < board.Length0 && 0 <= 2 * right < board.Length1
      modifies board
      ensures board[2 * bottom, 2 * right] == value
      ensures forall i, j :: 0 <= i < board.Length0 && 0 <= j < board.Length1 && (i != 2 * bottom || j != 2 * right) ==>
        board[i, j] == old(board[i, j])
    {
      board[2 * bottom, 2 * right] := value;
    }

    /** `_add_walls`. */
    method AddWalls()
      requires Shaped()
      modifies board
      ensures forall i, j :: 0 <= i < board.Length0 && 0 <= j < board.Length1 ==>
        board[i, j] == AfterIntersections(floorPlan, w, i, j)
    {
      AddExteriorWalls();
      AddInteriorWalls();
      AddWallIntersections();
    }

    /** Row i becomes `ROW(n, value)`; the other rows keep their entries. */
    method WriteRow(i: int, value: string)
      requires Shaped() && 0 <= i < board.Length0
      modifies board
      ensures forall j :: 0 <= j < board.Length1 ==> board[i, j] == RowEntry(value, j)
      ensures forall i', j :: 0 <= i' < board.Length0 && 0 <= j < board.Length1 && i' != i ==>
        board[i', j] == old(board[i', j])
    {
      for c := 0 to board.Length1
        invariant forall j :: 0 <= j < c ==> board[i, j] == RowEntry(value, j)
        invariant forall i', j :: 0 <= i' < board.Length0 && 0 <= j < board.Length1 && i' != i ==>
          board[i', j] == old(board[i', j])
      {
        board[i, c] := if c % 2 == 1 then value else " ";
      }
    }

    /** `_add_exterior_walls`: horizontal walls along the top and bottom
        rows, vertical walls at both ends of every row of cells, and blanks
        elsewhere. */
    method AddExteriorWalls()
      requires Shaped()
      modifies board
      ensures forall i, j :: 0 <= i < board.Length0 && 0 <= j < board.Length1 ==>
        board[i, j] == Exterior(n, w, i, j)
    {
      WriteRow(0, HorizontalWallValue(w));
      for r := 1 to Rows(n) - 1
        invariant forall i, j :: 0 <= i < r && 0 <= j < board.Length1 ==> board[i, j] == Exterior(n, w, i, j)
      {
        WriteRow(r, HorizontalEmptyValue(w));
        if r % 2 == 1 {
          board[r, 0] := VerticalWallValue();
          board[r, 2 * n] := VerticalWallValue();
        }
      }
      WriteRow(Rows(n) - 1, HorizontalWallValue(w));
    }

    /** `_add_interior_walls`. */
    method AddInteriorWalls()
      requires Shaped()
      requires forall i, j :: 0 <= i < board.Length0 && 0 <= j < board.Length1 ==>
        board[i, j] == Exterior(n, w, i, j)
      modifies board
      ensures forall i, j :: 0 <= i < board.Length0 && 0 <= j < board.Length1 ==>
        board[i, j] == AfterHorizontal(floorPlan, w, i, j)
    {
      AddVerticalInteriorWalls();
      AddHorizontalInteriorWalls();
    }

    /** `_add_vertical_interior_walls`: a wall between neighbouring cells of
        a row that lie in different rooms. */
    method AddVerticalInteriorWalls()
      requires Shaped()
      requires forall i, j :: 0 <= i < board.Length0 && 0 <= j < board.Length1 ==>
        board[i, j] == Exterior(n, w, i, j)
      modifies board
      ensures forall i, j :: 0 <= i < board.Length0 && 0 <= j < board.Length1 ==>
        board[i, j] == AfterVertical(floorPlan, w, i, j)
    {
      for r := 0 to n
        invariant forall i, j :: 0 <= i < board.Length0 && 0 <= j < board.Length1 ==>
          board[i, j] == VerticalStage(floorPlan, w, r, 0, i, j)
      {
        var values := floorPlan[r];
        var c := 1;
        forall i, j | 0 <= i < board.Length0 && 0 <= j < board.Length1
          ensures board[i, j] == VerticalStage(floorPlan, w, r, 1, i, j)
        {
          VerticalStageRowStart(floorPlan, w, r, i, j);
        }
        while c < n && c < |values|
          invariant 1 <= c
          invariant forall i, j :: 0 <= i < board.Length0 && 0 <= j < board.Length1 ==>
            board[i, j] == VerticalStage(floorPlan, w, r, c, i, j)
        {
          if values[c - 1] != values[c] {
            SetVerticalBoundaryValue(r, c, VerticalWallValue());
          }
          forall i, j | 0 <= i < board.Length0 && 0 <= j < board.Length1
            ensures board[i, j] == VerticalStage(floorPlan, w, r, c + 1, i, j)
          {
            VerticalStageStep(floorPlan, w, r, c, i, j);
          }
          c := c + 1;
        }
        forall i, j | 0 <= i < board.Length0 && 0 <= j < board.Length1
          ensures board[i, j] == VerticalStage(floorPlan, w, r + 1, 0, i, j)
        {
          VerticalStageRowEnd(floorPlan, w, r, c, i, j);
        }
      }
    }

    /** `_add_horizontal_interior_walls`: a wall between vertically
        neighbouring cells that lie in different rooms. */
    method AddHorizontalInteriorWalls()
      requires Shaped()
      requires forall i, j :: 0 <= i < board.Length0 && 0 <= j < board.Length1 ==>
        board[i, j] == AfterVertical(floorPlan, w, i, j)
      modifies board
      ensures forall i, j :: 0 <= i < board.Length0 && 0 <= j < board.Length1 ==>
        board[i, j] == AfterHorizontal(floorPlan, w, i, j)
    {
      var r := 1;
      forall i, j | 0 <= i < board.Length0 && 0 <= j < board.Length1
        ensures board[i, j] == HorizontalStage(floorPlan, w, 1, 0, i, j)
      {
        HorizontalStageStart(floorPlan, w, i, j);
      }
      while r < n
        invariant 1 <= r
        invariant forall i, j :: 0 <= i < board.Length0 && 0 <= j < board.Length1 ==>
          board[i, j] == HorizontalStage(floorPlan, w, r, 0, i, j)
      {
        AddHorizontalInteriorWallsAbove(r);
        r := r + 1;
      }
      forall i, j | 0 <= i < board.Length0 && 0 <= j < board.Length1
        ensures board[i, j] == AfterHorizontal(floorPlan, w, i, j)
      {
        HorizontalStageEnd(floorPlan, w, r, i, j);
      }
    }

    /** One pass of the outer loop of `_add_horizontal_interior_walls`: the
        walls between floor-plan rows r - 1 and r. */
    method AddHorizontalInteriorWallsAbove(r: int)
      requires Shaped() && 1 <= r < n
      requires forall i, j :: 0 <= i < board.Length0 && 0 <= j < board.Length1 ==>
        board[i, j] == HorizontalStage(floorPlan, w, r, 0, i, j)
      modifies board
      ensures forall i, j :: 0 <= i < board.Length0 && 0 <= j < board.Length1 ==>
        board[i, j] == HorizontalStage(floorPlan, w, r + 1, 0, i, j)
    {
      var top := floorPlan[r - 1];
      var bottom := floorPlan[r];
      var c := 0;
      while c < n && c < |top| && c < |bottom|
        invariant 0 <= c
        invariant forall i, j :: 0 <= i < board.Length0 && 0 <= j < board.Length1 ==>
          board[i, j] == HorizontalStage(floorPlan, w, r, c, i, j)
      {
        AddHorizontalInteriorWall(r, c);
        c := c + 1;
      }
      forall i, j | 0 <= i < board.Length0 && 0 <= j < board.Length1
        ensures board[i, j] == HorizontalStage(floorPlan, w, r + 1, 0, i, j)
      {
        HorizontalStageRowEnd(floorPlan, w, r, c, i, j);
      }
    }

    /** One pass of the inner loop of `_add_horizontal_interior_walls`: a
        wall above row r in column c when the rooms there differ. */
    method AddHorizontalInteriorWall(r: int, c: int)
      requires Shaped() && 1 <= r < n && 0 <= c < n && c < |floorPlan[r - 1]| && c < |floorPlan[r]|
      requires forall i, j :: 0 <= i < board.Length0 && 0 <= j < board.Length1 ==>
        board[i, j] == HorizontalStage(floorPlan, w, r, c, i, j)
      modifies board
      ensures forall i, j :: 0 <= i < board.Length0 && 0 <= j < board.Length1 ==>
        board[i, j] == HorizontalStage(floorPlan, w, r, c + 1, i, j)
    {
      DrawHorizontalInteriorWall(board, floorPlan, w, r, c);
    }

    /** The four boundaries around corner (bottom, right), as opposed to
        the corners and the cells, hold what the interior walls left there. */
    ghost predicate NeighboursDrawn(bottom: int, right: int)
      reads this, board
      requires Shaped() && 0 <= bottom <= n && 0 <= right <= n
    {
      && (bottom != 0 ==> GetVerticalBoundaryValue(bottom - 1, right) == VerticalBoundary(floorPlan, w, bottom - 1, right))
      && (bottom != n ==> GetVerticalBoundaryValue(bottom, right) == VerticalBoundary(floorPlan, w, bottom, right))
      && (right != 0 ==> GetHorizontalBoundaryValue(bottom, right - 1) == HorizontalBoundary(floorPlan, w, bottom, right - 1))
      && (right != n ==> GetHorizontalBoundaryValue(bottom, right) == HorizontalBoundary(floorPlan, w, bottom, right))
    }

    /** `_get_wall_intersection`: which of the boundaries around corner
        (bottom, right) hold a wall. */
    function GetWallIntersection(bottom: int, right: int): (wi: WallIntersection)
      reads this, board
      requires Shaped() && 0 <= bottom <= n && 0 <= right <= n && NeighboursDrawn(bottom, right)
      ensures wi == IntersectionAt(floorPlan, w, bottom, right)
    {
      var top := bottom - 1;
      var left := right - 1;
      var upWall := if bottom == 0 then false else GetVerticalBoundaryValue(top, right) == VerticalWallValue();
      var downWall := if bottom == n then false else GetVerticalBoundaryValue(bottom, right) == VerticalWallValue();
      var leftWall := if right == 0 then false else GetHorizontalBoundaryValue(bottom, left) == HorizontalWallValue(w);
      var rightWall := if right == n then false else GetHorizontalBoundaryValue(bottom, right) == HorizontalWallValue(w);
      IntersectionFromNeighbours(floorPlan, w, bottom, right, upWall, downWall, leftWall, rightWall);
      WallIntersection(upWall, downWall, leftWall, rightWall)
    }

    /** `_add_wall_intersections`: every corner gets the character for the
        walls that meet there. */
    method AddWallIntersections()
      requires Shaped()
      requires forall i, j :: 0 <= i < board.Length0 && 0 <= j < board.Length1 ==>
        board[i, j] == AfterHorizontal(floorPlan, w, i, j)
      modifies board
      ensures forall i, j :: 0 <= i < board.Length0 && 0 <= j < board.Length1 ==>
        board[i, j] == AfterIntersections(floorPlan, w, i, j)
    {
      for bottom := 0 to n + 1
        invariant forall i, j :: 0 <= i < board.Length0 && 0 <= j < board.Length1 ==>
          board[i, j] == IntersectionStage(floorPlan, w, bottom, 0, i, j)
      {
        for right := 0 to n + 1
          invariant forall i, j :: 0 <= i < board.Length0 && 0 <= j < board.Length1 ==>
            board[i, j] == IntersectionStage(floorPlan, w, bottom, right, i, j)
        {
          AddWallIntersection(bottom, right);
        }
        forall i, j | 0 <= i < board.Length0 && 0 <= j < board.Length1
          ensures board[i, j] == IntersectionStage(floorPlan, w, bottom + 1, 0, i, j)
        {
          IntersectionStageRowEnd(floorPlan, w, bottom, i, j);
        }
      }
      forall i, j | 0 <= i < board.Length0 && 0 <= j < board.Length1
        ensures board[i, j] == AfterIntersections(floorPlan, w, i, j)
      {
        IntersectionStageEnd(floorPlan, w, i, j);
      }
    }

    /** One pass of the inner loop of `_add_wall_intersections`: corner
        (bottom, right) gets its character. */
    method AddWallIntersection(bottom: int, right: int)
      requires Shaped() && 0 <= bottom <= n && 0 <= right <= n
      requires forall i, j :: 0 <= i < board.Length0 && 0 <= j < board.Length1 ==>
        board[i, j] == IntersectionStage(floorPlan, w, bottom, right, i, j)
      modifies board
      ensures forall i, j :: 0 <= i < board.Length0 && 0 <= j < board.Length1 ==>
        board[i, j] == IntersectionStage(floorPlan, w, bottom, right + 1, i, j)
    {
      NeighbourBoundaries(board, floorPlan, w, bottom, right);
      var wallIntersection := GetWallIntersection(bottom, right);
      WallIntersectionListed(wallIntersection);
      var value := WallIntersectionValues[wallIntersection];
      DrawWallIntersection(board, floorPlan, w, bottom, right, value);
    }

    /** `_add_windows`: each window's vertical border, then its horizontal
        border, is drawn over the boundary it names. */
    method AddWindows()
      requires Shaped() && WindowsOnBoard(windows, n)
      requires forall i, j :: 0 <= i < board.Length0 && 0 <= j < board.Length1 ==>
        board[i, j] == AfterIntersections(floorPlan, w, i, j)
      modifies board
      ensures forall i, j :: 0 <= i < board.Length0 && 0 <= j < board.Length1 ==>
        board[i, j] == Drawn(floorPlan, windows, w, i, j)
    {
      for k := 0 to |windows|
        invariant forall i, j :: 0 <= i < board.Length0 && 0 <= j < board.Length1 ==>
          board[i, j] == Drawn(floorPlan, windows[..k], w, i, j)
      {
        AddWindow(k);
      }
      assert windows[..|windows|] == windows;
    }

    /** One pass of the loop of `_add_windows`: window k's borders. */
    method AddWindow(k: int)
      requires Shaped() && WindowsOnBoard(windows, n) && 0 <= k < |windows|
      requires forall i, j :: 0 <= i < board.Length0 && 0 <= j < board.Length1 ==>
        board[i, j] == Drawn(floorPlan, windows[..k], w, i, j)
      modifies board
      ensures forall i, j :: 0 <= i < board.Length0 && 0 <= j < board.Length1 ==>
        board[i, j] == Drawn(floorPlan, windows[..k + 1], w, i, j)
    {
      var window := windows[k];
      if window.verticalBorder.Some? {
        SetVerticalBoundaryValue(window.verticalBorder.value.row, window.verticalBorder.value.right, VerticalWindowValue);
      }
      assert forall i, j :: 0 <= i < board.Length0 && 0 <= j < board.Length1 ==>
        board[i, j] == VerticalBorderDrawn(floorPlan, windows, w, k, i, j);
      if window.horizontalBorder.Some? {
        SetHorizontalBoundaryValue(window.horizontalBorder.value.bottom, window.horizontalBorder.value.column,
                                   HorizontalWindowValue(w));
      }
      forall i, j | 0 <= i < board.Length0 && 0 <= j < board.Length1
        ensures board[i, j] == Drawn(floorPlan, windows[..k + 1], w, i, j)
      {
        DrawnStep(floorPlan, windows, w, k, i, j);
      }
    }

    /** `_set_visulization`: the rows' texts joined by line breaks. */
    method SetVisualization()
      modifies this
      ensures board == old(board) && visualization == Render(Grid())
    {
      var lines: seq<string> := [];
      for i := 0 to board.Length0
        invariant lines == RowTexts(Grid())[..i]
      {
        var line := "";
        for j := 0 to board.Length1
          invariant line == Concat(Grid()[i][..j])
        {
          assert Grid()[i][..j + 1][..j] == Grid()[i][..j];
          line := line + board[i, j];
        }
        assert Grid()[i][..board.Length1] == Grid()[i];
        lines := lines + [line];
      }
      assert lines == RowTexts(Grid());
      var text := "";
      for k := 0 to |lines|
        invariant text == JoinLines(lines[..k])
      {
        assert lines[..k + 1][..k] == lines[..k];
        if k > 0 {
          text := text + "\n";
        }
        text := text + lines[k];
      }
      assert lines[..|lines|] == lines;
      visualization := text;
    }
  }
}

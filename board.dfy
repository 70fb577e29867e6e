/** The `Board` of `puzzle_solver.py` (and the same construction inlined in
    `PuzzleModeler` of `puzzle_modeler.py`): an n-by-n grid of spaces built
    from a crime scene. Each space knows its room, the furniture it is on and
    the set of things it is beside: walls, windows and furniture. Rows and
    columns also carry an index of the furniture and windows found in them,
    and the cells of furniture nobody can stand on are collected as blocked.

    The first half of the module states, as functions of the crime scene,
    what every space and index holds once the board is built; the class
    `Board` builds them in place and is proved to reach exactly that. */
module BoardModel {
  import opened Wrappers
  import opened Puzzle

  /** An entry of a space's `beside` set, or of a row or column index: the
      source uses the strings 'vertical_wall', 'horizontal_wall', 'window'
      and the furniture type numbers. */
  datatype Mark = VerticalWall | HorizontalWall | WindowMark | FurnitureMark(furnitureType: FurnitureType)

  datatype Space = Space(roomId: int, on: Option<FurnitureType>, beside: set<Mark>)

  /** The two marks a corner space is beside. */
  const Corner: set<Mark> := {VerticalWall, HorizontalWall}

  predicate InGrid(n: int, r: int, c: int) {
    0 <= r < n && 0 <= c < n
  }

  predicate CellInGrid(n: int, q: Coordinate) {
    InGrid(n, q.row, q.column)
  }

  /** What the board's construction needs of its crime scene: at least one
      row, a floor plan of exactly n * n entries, and windows and furniture
      inside the grid. (The source indexes lists with these numbers: a
      shorter plan or a number past the edge raises, a negative one wraps
      around, and entries past n * n are never read.) */
  predicate ValidScene(n: int, scene: CrimeScene) {
    && n > 0
    && |scene.floorPlan| == n * n
    && (forall i :: 0 <= i < |scene.windows| ==> WindowInGrid(n, scene.windows[i]))
    && (forall i :: 0 <= i < |scene.furniture| ==> PieceInGrid(n, scene.furniture[i]))
  }

  predicate WindowInGrid(n: int, w: Window) {
    && (w.verticalBorder.Some? ==>
          var b := w.verticalBorder.value;
          InGrid(n, b.row, b.left) && InGrid(n, b.row, b.right))
    && (w.horizontalBorder.Some? ==>
          var b := w.horizontalBorder.value;
          InGrid(n, b.top, b.column) && InGrid(n, b.bottom, b.column))
  }

  predicate PieceInGrid(n: int, f: Furniture) {
    forall k :: 0 <= k < |f.coordinates| ==> CellInGrid(n, f.coordinates[k])
  }

  /** Multiplying by a non-negative factor keeps the order. */
  lemma {:induction false} MulMonotone(n: int, a: int, b: int)
    requires 0 <= n && a <= b
    ensures n * a <= n * b
    decreases b - a
  {
    if a < b {
      MulMonotone(n, a, b - 1);
      assert n * b == n * (b - 1) + n;
    }
  }

  lemma FlatIndexInRange(n: int, r: int, c: int)
    requires InGrid(n, r, c)
    ensures 0 <= n * r + c < n * n
  {
    MulMonotone(n, 0, r);
    MulMonotone(n, r + 1, n);
    assert n * (r + 1) == n * r + n;
  }

  /** `_get_room_id`: the floor plan entry of cell (r, c). */
  function RoomAt(scene: CrimeScene, n: int, r: int, c: int): int
    requires |scene.floorPlan| == n * n && InGrid(n, r, c)
  {
    FlatIndexInRange(n, r, c);
    scene.floorPlan[n * r + c]
  }

  /** Cells a and b share a side. */
  predicate Adjacent(a: Coordinate, b: Coordinate) {
    (a.row == b.row && (a.column == b.column + 1 || a.column + 1 == b.column)) ||
    (a.column == b.column && (a.row == b.row + 1 || a.row + 1 == b.row))
  }

  /** `_get_neighbors`: the cells above, left, below and right of (r, c), in
      that order, that lie in the grid and in the same room. */
  function Neighbors(scene: CrimeScene, n: int, r: int, c: int): (nb: seq<Coordinate>)
    requires |scene.floorPlan| == n * n && InGrid(n, r, c)
    ensures |nb| <= 4
    ensures forall q :: q in nb <==>
      CellInGrid(n, q) && Adjacent(q, Coordinate(r, c)) && RoomAt(scene, n, q.row, q.column) == RoomAt(scene, n, r, c)
  {
    var room := RoomAt(scene, n, r, c);
    (if r > 0 && RoomAt(scene, n, r - 1, c) == room then [Coordinate(r - 1, c)] else []) +
    (if c > 0 && RoomAt(scene, n, r, c - 1) == room then [Coordinate(r, c - 1)] else []) +
    (if r < n - 1 && RoomAt(scene, n, r + 1, c) == room then [Coordinate(r + 1, c)] else []) +
    (if c < n - 1 && RoomAt(scene, n, r, c + 1) == room then [Coordinate(r, c + 1)] else [])
  }

  /** A space is beside a vertical wall when it is in the first or last
      column or when its left or right neighbour is in another room. */
  predicate VerticalWallAt(scene: CrimeScene, n: int, r: int, c: int)
    requires |scene.floorPlan| == n * n && InGrid(n, r, c)
  {
    || c == 0
    || c == n - 1
    || (c > 0 && RoomAt(scene, n, r, c - 1) != RoomAt(scene, n, r, c))
    || (c < n - 1 && RoomAt(scene, n, r, c) != RoomAt(scene, n, r, c + 1))
  }

  /** Likewise for horizontal walls: first or last row, or the space above
      or below is in another room. */
  predicate HorizontalWallAt(scene: CrimeScene, n: int, r: int, c: int)
    requires |scene.floorPlan| == n * n && InGrid(n, r, c)
  {
    || r == 0
    || r == n - 1
    || (r > 0 && RoomAt(scene, n, r - 1, c) != RoomAt(scene, n, r, c))
    || (r < n - 1 && RoomAt(scene, n, r, c) != RoomAt(scene, n, r + 1, c))
  }

  /** Window w is in a border of cell (r, c). */
  predicate WindowTouches(w: Window, r: int, c: int) {
    || (w.verticalBorder.Some? && w.verticalBorder.value.row == r &&
        (w.verticalBorder.value.left == c || w.verticalBorder.value.right == c))
    || (w.horizontalBorder.Some? && w.horizontalBorder.value.column == c &&
        (w.horizontalBorder.value.top == r || w.horizontalBorder.value.bottom == r))
  }

  /** Some window of ws touches (r, c). */
  predicate AnyWindowAt(ws: seq<Window>, r: int, c: int) {
    ws != [] && (AnyWindowAt(ws[..|ws| - 1], r, c) || WindowTouches(ws[|ws| - 1], r, c))
  }

  /** Some window of ws is in a vertical border of row r. */
  predicate AnyWindowInRow(ws: seq<Window>, r: int) {
    ws != [] && (AnyWindowInRow(ws[..|ws| - 1], r) ||
                 (ws[|ws| - 1].verticalBorder.Some? && ws[|ws| - 1].verticalBorder.value.row == r))
  }

  /** Some window of ws is in a horizontal border of column c. */
  predicate AnyWindowInColumn(ws: seq<Window>, c: int) {
    ws != [] && (AnyWindowInColumn(ws[..|ws| - 1], c) ||
                 (ws[|ws| - 1].horizontalBorder.Some? && ws[|ws| - 1].horizontalBorder.value.column == c))
  }

  /** The rows and the columns that the cells of cs lie in. */
  function Rows(cs: seq<Coordinate>): set<int> {
    set k | 0 <= k < |cs| :: cs[k].row
  }

  function Columns(cs: seq<Coordinate>): set<int> {
    set k | 0 <= k < |cs| :: cs[k].column
  }

  /** The same-room neighbours of the cells cs that are not cells of piece. */
  function OutsideNeighbors(scene: CrimeScene, n: int, cs: seq<Coordinate>, piece: seq<Coordinate>): set<Coordinate>
    requires |scene.floorPlan| == n * n
    requires forall k :: 0 <= k < |cs| ==> CellInGrid(n, cs[k])
  {
    set k, m | 0 <= k < |cs| && CellInGrid(n, cs[k]) && m in Neighbors(scene, n, cs[k].row, cs[k].column) && m !in piece :: m
  }

  /** How the prefix functions over cells grow by one cell. */
  lemma OutsideNeighborsStep(scene: CrimeScene, n: int, cs: seq<Coordinate>, k: int, piece: seq<Coordinate>, p: Coordinate)
    requires |scene.floorPlan| == n * n && 0 <= k < |cs|
    requires forall i :: 0 <= i < |cs| ==> CellInGrid(n, cs[i])
    ensures CellInGrid(n, cs[k])
    ensures p in OutsideNeighbors(scene, n, cs[..k + 1], piece) <==>
      p in OutsideNeighbors(scene, n, cs[..k], piece) || (p in Neighbors(scene, n, cs[k].row, cs[k].column) && p !in piece)
  {
    assert CellInGrid(n, cs[k]);
    var next := cs[..k + 1];
    if p in OutsideNeighbors(scene, n, next, piece) {
      var i :| 0 <= i < k + 1 && p in Neighbors(scene, n, next[i].row, next[i].column) && p !in piece;
      if i < k {
        assert cs[..k][i] == next[i];
      }
    }
    if p in OutsideNeighbors(scene, n, cs[..k], piece) {
      var i :| 0 <= i < k && p in Neighbors(scene, n, cs[..k][i].row, cs[..k][i].column) && p !in piece;
      assert next[i] == cs[..k][i];
    }
    if p in Neighbors(scene, n, cs[k].row, cs[k].column) && p !in piece {
      assert next[k] == cs[k];
    }
  }

  lemma RowsColumnsStep(cs: seq<Coordinate>, k: int)
    requires 0 <= k < |cs|
    ensures Rows(cs[..k + 1]) == Rows(cs[..k]) + {cs[k].row}
    ensures Columns(cs[..k + 1]) == Columns(cs[..k]) + {cs[k].column}
    ensures forall p :: p in cs[..k + 1] <==> p in cs[..k] || p == cs[k]
  {
    assert cs[..k + 1] == cs[..k] + [cs[k]];
    assert cs[..k + 1][k] == cs[k];
    forall r | r in Rows(cs[..k + 1]) ensures r in Rows(cs[..k]) || r == cs[k].row {
      var i :| 0 <= i < k + 1 && cs[..k + 1][i].row == r;
      if i < k { assert cs[..k][i].row == r; }
    }
    forall r | r in Rows(cs[..k]) ensures r in Rows(cs[..k + 1]) {
      var i :| 0 <= i < k && cs[..k][i].row == r;
      assert cs[..k + 1][i].row == r;
    }
    forall c | c in Columns(cs[..k + 1]) ensures c in Columns(cs[..k]) || c == cs[k].column {
      var i :| 0 <= i < k + 1 && cs[..k + 1][i].column == c;
      if i < k { assert cs[..k][i].column == c; }
    }
    forall c | c in Columns(cs[..k]) ensures c in Columns(cs[..k + 1]) {
      var i :| 0 <= i < k && cs[..k][i].column == c;
      assert cs[..k + 1][i].column == c;
    }
  }

  /** A space is beside a piece of furniture when it is a same-room
      neighbour of one of its cells without being one of them. */
  predicate BesidePiece(scene: CrimeScene, n: int, f: Furniture, r: int, c: int)
    requires |scene.floorPlan| == n * n && PieceInGrid(n, f)
  {
    Coordinate(r, c) in OutsideNeighbors(scene, n, f.coordinates, f.coordinates)
  }

  /** The furniture marks the pieces fs leave on (r, c). */
  function FurnitureMarks(scene: CrimeScene, n: int, fs: seq<Furniture>, r: int, c: int): set<Mark>
    requires |scene.floorPlan| == n * n
    requires forall i :: 0 <= i < |fs| ==> PieceInGrid(n, fs[i])
  {
    if fs == [] then {}
    else
      var f := fs[|fs| - 1];
      FurnitureMarks(scene, n, fs[..|fs| - 1], r, c) +
      (if BesidePiece(scene, n, f, r, c) then {FurnitureMark(f.furnitureType)} else {})
  }

  /** What (r, c) is on after the pieces fs are placed over `before`: the
      last piece covering it wins. */
  function OnAfter(fs: seq<Furniture>, before: Option<FurnitureType>, r: int, c: int): Option<FurnitureType> {
    if fs == [] then before
    else if Coordinate(r, c) in fs[|fs| - 1].coordinates then Some(fs[|fs| - 1].furnitureType)
    else OnAfter(fs[..|fs| - 1], before, r, c)
  }

  /** The furniture marks the pieces fs add to the index of row r. */
  function RowMarks(fs: seq<Furniture>, r: int): set<Mark> {
    if fs == [] then {}
    else
      var f := fs[|fs| - 1];
      RowMarks(fs[..|fs| - 1], r) + (if r in Rows(f.coordinates) then {FurnitureMark(f.furnitureType)} else {})
  }

  function ColumnMarks(fs: seq<Furniture>, c: int): set<Mark> {
    if fs == [] then {}
    else
      var f := fs[|fs| - 1];
      ColumnMarks(fs[..|fs| - 1], c) + (if c in Columns(f.coordinates) then {FurnitureMark(f.furnitureType)} else {})
  }

  /** The cells of the pieces of fs that are not occupiable, piece by piece. */
  function BlockedCells(fs: seq<Furniture>): seq<Coordinate> {
    if fs == [] then []
    else
      var f := fs[|fs| - 1];
      BlockedCells(fs[..|fs| - 1]) + (if f.occupiable then [] else f.coordinates)
  }

  function WallMarks(scene: CrimeScene, n: int, r: int, c: int): set<Mark>
    requires |scene.floorPlan| == n * n && InGrid(n, r, c)
  {
    (if VerticalWallAt(scene, n, r, c) then {VerticalWall} else {}) +
    (if HorizontalWallAt(scene, n, r, c) then {HorizontalWall} else {})
  }

  /** The space at (r, c) of the built board. */
  function ExpectedSpace(scene: CrimeScene, n: int, r: int, c: int): Space
    requires ValidScene(n, scene) && InGrid(n, r, c)
  {
    Space(
      RoomAt(scene, n, r, c),
      OnAfter(scene.furniture, None, r, c),
      WallMarks(scene, n, r, c) +
      (if AnyWindowAt(scene.windows, r, c) then {WindowMark} else {}) +
      FurnitureMarks(scene, n, scene.furniture, r, c))
  }

  /** The index of row r of the built board. */
  function ExpectedRowIndex(scene: CrimeScene, r: int): set<Mark> {
    (if AnyWindowInRow(scene.windows, r) then {WindowMark} else {}) + RowMarks(scene.furniture, r)
  }

  function ExpectedColumnIndex(scene: CrimeScene, c: int): set<Mark> {
    (if AnyWindowInColumn(scene.windows, c) then {WindowMark} else {}) + ColumnMarks(scene.furniture, c)
  }

  /** A space is beside a window exactly when some window of the scene lies
      in one of its borders. */
  lemma {:induction false} AnyWindowAtMeans(ws: seq<Window>, r: int, c: int)
    ensures AnyWindowAt(ws, r, c) <==> exists i :: 0 <= i < |ws| && WindowTouches(ws[i], r, c)
  {
    if ws != [] {
      var init := ws[..|ws| - 1];
      AnyWindowAtMeans(init, r, c);
      if AnyWindowAt(init, r, c) {
        var i :| 0 <= i < |init| && WindowTouches(init[i], r, c);
        assert ws[i] == init[i];
      }
      if i :| 0 <= i < |ws| && WindowTouches(ws[i], r, c) {
        if i < |init| {
          assert init[i] == ws[i];
        }
      }
    }
  }

  /** A row's index holds the window mark exactly when some window lies in
      a vertical border of that row; likewise for columns and horizontal
      borders. */
  lemma {:induction false} WindowIndexMeans(ws: seq<Window>, r: int, c: int)
    ensures AnyWindowInRow(ws, r) <==>
      exists i :: 0 <= i < |ws| && ws[i].verticalBorder.Some? && ws[i].verticalBorder.value.row == r
    ensures AnyWindowInColumn(ws, c) <==>
      exists i :: 0 <= i < |ws| && ws[i].horizontalBorder.Some? && ws[i].horizontalBorder.value.column == c
  {
    if ws != [] {
      var init := ws[..|ws| - 1];
      WindowIndexMeans(init, r, c);
      assert forall i :: 0 <= i < |init| ==> init[i] == ws[i];
    }
  }

  /** A space is beside a piece exactly when it is outside the piece,
      shares a side with one of its cells and is in that cell's room. */
  lemma BesidePieceMeans(scene: CrimeScene, n: int, f: Furniture, r: int, c: int)
    requires |scene.floorPlan| == n * n && PieceInGrid(n, f)
    ensures BesidePiece(scene, n, f, r, c) <==>
      && InGrid(n, r, c)
      && Coordinate(r, c) !in f.coordinates
      && exists k :: 0 <= k < |f.coordinates| && Adjacent(Coordinate(r, c), f.coordinates[k]) &&
                     RoomAt(scene, n, r, c) == RoomAt(scene, n, f.coordinates[k].row, f.coordinates[k].column)
  {
    var p := Coordinate(r, c);
    var cs := f.coordinates;
    if BesidePiece(scene, n, f, r, c) {
      var k, m :| 0 <= k < |cs| && CellInGrid(n, cs[k]) && m in Neighbors(scene, n, cs[k].row, cs[k].column) && m !in cs && m == p;
      assert Adjacent(p, cs[k]);
    }
    if InGrid(n, r, c) && p !in cs &&
       exists k :: 0 <= k < |cs| && Adjacent(p, cs[k]) && RoomAt(scene, n, r, c) == RoomAt(scene, n, cs[k].row, cs[k].column) {
      var k :| 0 <= k < |cs| && Adjacent(p, cs[k]) && RoomAt(scene, n, r, c) == RoomAt(scene, n, cs[k].row, cs[k].column);
      assert CellInGrid(n, cs[k]);
      assert p in Neighbors(scene, n, cs[k].row, cs[k].column);
    }
  }

  /** The furniture marks of a space are exactly the types of the pieces it
      is beside. */
  lemma {:induction false} FurnitureMarksMeans(scene: CrimeScene, n: int, fs: seq<Furniture>, r: int, c: int, m: Mark)
    requires |scene.floorPlan| == n * n
    requires forall i :: 0 <= i < |fs| ==> PieceInGrid(n, fs[i])
    ensures m in FurnitureMarks(scene, n, fs, r, c) <==>
      exists i :: 0 <= i < |fs| && m == FurnitureMark(fs[i].furnitureType) && BesidePiece(scene, n, fs[i], r, c)
  {
    if fs != [] {
      var init := fs[..|fs| - 1];
      assert forall i :: 0 <= i < |init| ==> init[i] == fs[i];
      FurnitureMarksMeans(scene, n, init, r, c, m);
    }
  }

  /** A space is on the last piece, in scene order, that covers it, and on
      what it was before when no piece covers it. */
  lemma {:induction false} OnAfterMeans(fs: seq<Furniture>, before: Option<FurnitureType>, r: int, c: int)
    ensures (forall i :: 0 <= i < |fs| ==> Coordinate(r, c) !in fs[i].coordinates) ==> OnAfter(fs, before, r, c) == before
    ensures forall i :: 0 <= i < |fs| && Coordinate(r, c) in fs[i].coordinates &&
                        (forall j :: i < j < |fs| ==> Coordinate(r, c) !in fs[j].coordinates) ==>
                        OnAfter(fs, before, r, c) == Some(fs[i].furnitureType)
  {
    if fs != [] {
      var init := fs[..|fs| - 1];
      var p := Coordinate(r, c);
      OnAfterMeans(init, before, r, c);
      if forall i :: 0 <= i < |fs| ==> p !in fs[i].coordinates {
        assert p !in fs[|fs| - 1].coordinates;
        assert forall i :: 0 <= i < |init| ==> p !in init[i].coordinates;
      }
      forall i | 0 <= i < |fs| && p in fs[i].coordinates && (forall j :: i < j < |fs| ==> p !in fs[j].coordinates)
        ensures OnAfter(fs, before, r, c) == Some(fs[i].furnitureType)
      {
        if i < |fs| - 1 {
          assert p !in fs[|fs| - 1].coordinates;
          assert init[i] == fs[i];
          assert forall j :: i < j < |init| ==> init[j] == fs[j];
        }
      }
    }
  }

  /** A row's index holds a furniture mark exactly when a piece of that type
      has a cell in the row; likewise for columns. */
  lemma {:induction false} RowColumnMarksMeans(fs: seq<Furniture>, r: int, c: int, m: Mark)
    ensures m in RowMarks(fs, r) <==>
      exists i, k :: 0 <= i < |fs| && 0 <= k < |fs[i].coordinates| &&
                     m == FurnitureMark(fs[i].furnitureType) && fs[i].coordinates[k].row == r
    ensures m in ColumnMarks(fs, c) <==>
      exists i, k :: 0 <= i < |fs| && 0 <= k < |fs[i].coordinates| &&
                     m == FurnitureMark(fs[i].furnitureType) && fs[i].coordinates[k].column == c
  {
    if fs != [] {
      var init := fs[..|fs| - 1];
      assert forall i :: 0 <= i < |init| ==> init[i] == fs[i];
      RowColumnMarksMeans(init, r, c, m);
    }
  }

  /** The blocked cells are exactly the cells of the pieces nobody can
      stand on. */
  lemma {:induction false} BlockedCellsMeans(fs: seq<Furniture>, q: Coordinate)
    ensures q in BlockedCells(fs) <==> exists i :: 0 <= i < |fs| && !fs[i].occupiable && q in fs[i].coordinates
  {
    if fs != [] {
      var init := fs[..|fs| - 1];
      assert forall i :: 0 <= i < |init| ==> init[i] == fs[i];
      BlockedCellsMeans(init, q);
    }
  }

  /** Only walls put wall marks on a space: a built space is beside a
      vertical (horizontal) wall exactly when the wall rule says so. */
  lemma WallMarksExact(scene: CrimeScene, n: int, r: int, c: int)
    requires ValidScene(n, scene) && InGrid(n, r, c)
    ensures VerticalWall in ExpectedSpace(scene, n, r, c).beside <==> VerticalWallAt(scene, n, r, c)
    ensures HorizontalWall in ExpectedSpace(scene, n, r, c).beside <==> HorizontalWallAt(scene, n, r, c)
  {
    FurnitureMarksMeans(scene, n, scene.furniture, r, c, VerticalWall);
    FurnitureMarksMeans(scene, n, scene.furniture, r, c, HorizontalWall);
  }

  /** In a crime scene that is one room, the corner clue holds exactly at
      the four corners of the grid. */
  lemma SingleRoomCorners(scene: CrimeScene, n: int, r: int, c: int)
    requires ValidScene(n, scene) && InGrid(n, r, c)
    requires forall i :: 0 <= i < |scene.floorPlan| ==> scene.floorPlan[i] == scene.floorPlan[0]
    ensures Corner <= ExpectedSpace(scene, n, r, c).beside <==> (r == 0 || r == n - 1) && (c == 0 || c == n - 1)
  {
    WallMarksExact(scene, n, r, c);
    forall i, j | InGrid(n, i, j)
      ensures RoomAt(scene, n, i, j) == scene.floorPlan[0]
    {
      FlatIndexInRange(n, i, j);
    }
  }

  /** s with m added to what it is beside, when b holds. */
  function AddMark(s: Space, m: Mark, b: bool): Space {
    if b then s.(beside := s.beside + {m}) else s
  }

  lemma AddMarkTwice(s: Space, m: Mark, a: bool, b: bool)
    ensures AddMark(AddMark(s, m, a), m, b) == AddMark(s, m, a || b)
  {
    if a && b {
      assert s.beside + {m} + {m} == s.beside + {m};
    }
  }

  lemma MarkedTwice(a: set<Mark>, m: Mark, b1: bool, b2: bool)
    ensures a + (if b1 then {m} else {}) + (if b2 then {m} else {}) == a + (if b1 || b2 then {m} else {})
  {
  }

  /** Two placements of one piece compose into one. */
  lemma PieceCellStep(o: Space, mid: Space, now: Space, ft: FurnitureType, on1: bool, on2: bool, near1: bool, near2: bool)
    requires mid == Space(o.roomId, if on1 then Some(ft) else o.on, o.beside + (if near1 then {FurnitureMark(ft)} else {}))
    requires now == Space(mid.roomId, if on2 then Some(ft) else mid.on, mid.beside + (if near2 then {FurnitureMark(ft)} else {}))
    ensures now == Space(o.roomId, if on1 || on2 then Some(ft) else o.on,
                         o.beside + (if near1 || near2 then {FurnitureMark(ft)} else {}))
  {
    MarkedTwice(o.beside, FurnitureMark(ft), near1, near2);
  }

  /** Adding mark t to entry x of an index that already holds t exactly at
      the entries S gives an index holding t at S and x. */
  lemma IndexStep(o: seq<set<Mark>>, mid: seq<set<Mark>>, now: seq<set<Mark>>, s: set<int>, x: int, t: Mark)
    requires |mid| == |o| && 0 <= x < |mid|
    requires forall r :: 0 <= r < |o| ==> mid[r] == o[r] + (if r in s then {t} else {})
    requires now == mid[x := mid[x] + {t}]
    ensures forall r :: 0 <= r < |o| ==> now[r] == o[r] + (if r in s + {x} then {t} else {})
  {
    forall r | 0 <= r < |o|
      ensures now[r] == o[r] + (if r in s + {x} then {t} else {})
    {
      MarkedTwice(o[r], t, r in s, r == x);
    }
  }

  /** Placing cell k of piece f over a grid that holds the first k cells
      placed gives a grid that holds the first k + 1. */
  lemma SpacesStep(scene: CrimeScene, n: int, f: Furniture, k: int, grid: seq<seq<Space>>, mid: seq<seq<Space>>, now: seq<seq<Space>>)
    requires |scene.floorPlan| == n * n && PieceInGrid(n, f) && 0 <= k < |f.coordinates|
    requires |grid| == n && (forall r :: 0 <= r < n ==> |grid[r]| == n)
    requires |mid| == n && (forall r :: 0 <= r < n ==> |mid[r]| == n)
    requires |now| == n && (forall r :: 0 <= r < n ==> |now[r]| == n)
    requires forall r, c :: InGrid(n, r, c) ==>
      mid[r][c] == Space(grid[r][c].roomId,
                         if Coordinate(r, c) in f.coordinates[..k] then Some(f.furnitureType) else grid[r][c].on,
                         grid[r][c].beside +
                         (if Coordinate(r, c) in OutsideNeighbors(scene, n, f.coordinates[..k], f.coordinates)
                          then {FurnitureMark(f.furnitureType)} else {}))
    requires CellInGrid(n, f.coordinates[k])
    requires forall r, c :: InGrid(n, r, c) ==>
      now[r][c] == Space(mid[r][c].roomId,
                         if Coordinate(r, c) == f.coordinates[k] then Some(f.furnitureType) else mid[r][c].on,
                         mid[r][c].beside +
                         (if Coordinate(r, c) in Neighbors(scene, n, f.coordinates[k].row, f.coordinates[k].column) &&
                             Coordinate(r, c) !in f.coordinates
                          then {FurnitureMark(f.furnitureType)} else {}))
    ensures forall r, c :: InGrid(n, r, c) ==>
      now[r][c] == Space(grid[r][c].roomId,
                         if Coordinate(r, c) in f.coordinates[..k + 1] then Some(f.furnitureType) else grid[r][c].on,
                         grid[r][c].beside +
                         (if Coordinate(r, c) in OutsideNeighbors(scene, n, f.coordinates[..k + 1], f.coordinates)
                          then {FurnitureMark(f.furnitureType)} else {}))
  {
    var cs := f.coordinates;
    var q := cs[k];
    RowsColumnsStep(cs, k);
    forall r, c | InGrid(n, r, c)
      ensures now[r][c] == Space(grid[r][c].roomId,
                                 if Coordinate(r, c) in cs[..k + 1] then Some(f.furnitureType) else grid[r][c].on,
                                 grid[r][c].beside +
                                 (if Coordinate(r, c) in OutsideNeighbors(scene, n, cs[..k + 1], cs)
                                  then {FurnitureMark(f.furnitureType)} else {}))
    {
      var p := Coordinate(r, c);
      var near := p in Neighbors(scene, n, q.row, q.column) && p !in cs;
      var before := p in OutsideNeighbors(scene, n, cs[..k], cs);
      OutsideNeighborsStep(scene, n, cs, k, cs, p);
      PieceCellStep(grid[r][c], mid[r][c], now[r][c], f.furnitureType, p in cs[..k], p == q, before, near);
    }
  }

  /** How the prefix functions over pieces grow by one piece. */
  lemma PiecesStep(scene: CrimeScene, n: int, fs: seq<Furniture>, i: int)
    requires |scene.floorPlan| == n * n && 0 <= i < |fs|
    requires forall j :: 0 <= j < |fs| ==> PieceInGrid(n, fs[j])
    ensures PieceInGrid(n, fs[i])
    ensures forall r :: RowMarks(fs[..i + 1], r) ==
                        RowMarks(fs[..i], r) + (if r in Rows(fs[i].coordinates) then {FurnitureMark(fs[i].furnitureType)} else {})
    ensures forall c :: ColumnMarks(fs[..i + 1], c) ==
                        ColumnMarks(fs[..i], c) + (if c in Columns(fs[i].coordinates) then {FurnitureMark(fs[i].furnitureType)} else {})
    ensures BlockedCells(fs[..i + 1]) == BlockedCells(fs[..i]) + (if fs[i].occupiable then [] else fs[i].coordinates)
  {
    assert fs[..i + 1][..i] == fs[..i];
  }

  /** Placing piece i of fs over a grid holding the first i pieces gives a
      grid holding the first i + 1. */
  lemma FurnitureSpacesStep(scene: CrimeScene, n: int, fs: seq<Furniture>, i: int,
                            grid: seq<seq<Space>>, mid: seq<seq<Space>>, now: seq<seq<Space>>)
    requires |scene.floorPlan| == n * n && 0 <= i < |fs|
    requires forall j :: 0 <= j < |fs| ==> PieceInGrid(n, fs[j])
    requires |grid| == n && (forall r :: 0 <= r < n ==> |grid[r]| == n)
    requires |mid| == n && (forall r :: 0 <= r < n ==> |mid[r]| == n)
    requires |now| == n && (forall r :: 0 <= r < n ==> |now[r]| == n)
    requires forall r, c :: InGrid(n, r, c) ==>
      mid[r][c] == Space(grid[r][c].roomId, OnAfter(fs[..i], grid[r][c].on, r, c),
                         grid[r][c].beside + FurnitureMarks(scene, n, fs[..i], r, c))
    requires forall r, c :: InGrid(n, r, c) ==>
      now[r][c] == Space(mid[r][c].roomId,
                         if Coordinate(r, c) in fs[i].coordinates then Some(fs[i].furnitureType) else mid[r][c].on,
                         mid[r][c].beside +
                         (if BesidePiece(scene, n, fs[i], r, c) then {FurnitureMark(fs[i].furnitureType)} else {}))
    ensures forall r, c :: InGrid(n, r, c) ==>
      now[r][c] == Space(grid[r][c].roomId, OnAfter(fs[..i + 1], grid[r][c].on, r, c),
                         grid[r][c].beside + FurnitureMarks(scene, n, fs[..i + 1], r, c))
  {
    assert fs[..i + 1][..i] == fs[..i];
    assert fs[..i + 1][i] == fs[i];
    forall r, c | InGrid(n, r, c)
      ensures now[r][c] == Space(grid[r][c].roomId, OnAfter(fs[..i + 1], grid[r][c].on, r, c),
                                 grid[r][c].beside + FurnitureMarks(scene, n, fs[..i + 1], r, c))
    {
      var b := grid[r][c].beside;
      var a := FurnitureMarks(scene, n, fs[..i], r, c);
      var x := if BesidePiece(scene, n, fs[i], r, c) then {FurnitureMark(fs[i].furnitureType)} else {};
      assert FurnitureMarks(scene, n, fs[..i + 1], r, c) == a + x;
      assert b + a + x == b + (a + x);
    }
  }

  /** Cells appended to a list that extends `start` by `prior` extend it
      by `prior + added`. */
  lemma BlockedStep(start: seq<Coordinate>, prior: seq<Coordinate>, added: seq<Coordinate>,
                    before: seq<Coordinate>, after: seq<Coordinate>)
    requires before == start + prior && after == before + added
    ensures after == start + (prior + added)
  {
  }

  /** Two rounds of additions to an index compose into one. */
  lemma MarksStep(o: seq<set<Mark>>, mid: seq<set<Mark>>, now: seq<set<Mark>>, a: seq<set<Mark>>, b: seq<set<Mark>>)
    requires |mid| == |o| && |now| == |o| && |a| == |o| && |b| == |o|
    requires forall r :: 0 <= r < |o| ==> mid[r] == o[r] + a[r]
    requires forall r :: 0 <= r < |o| ==> now[r] == mid[r] + b[r]
    ensures forall r :: 0 <= r < |o| ==> now[r] == o[r] + (a[r] + b[r])
  {
  }

  /** Python's reading of index i of a list of length n: a negative index
      counts from the end. */
  function Wrap(n: int, i: int): (j: int)
    requires -n <= i < n
    ensures 0 <= j < n
    ensures j == i || j == i + n
  {
    if i < 0 then n + i else i
  }

  /** The vertical-wall marks of row r once the first j column pairs of it
      have been compared. */
  predicate VerticalWallSoFar(scene: CrimeScene, n: int, r: int, c: int, j: int)
    requires |scene.floorPlan| == n * n && InGrid(n, r, c) && 0 <= j <= n - 1
  {
    || c == 0
    || c == n - 1
    || (0 < c <= j && RoomAt(scene, n, r, c - 1) != RoomAt(scene, n, r, c))
    || (c < j && RoomAt(scene, n, r, c) != RoomAt(scene, n, r, c + 1))
  }

  /** The horizontal-wall marks once the row pairs above row `row` have
      been compared. */
  predicate HorizontalWallSoFar(scene: CrimeScene, n: int, r: int, c: int, row: int)
    requires |scene.floorPlan| == n * n && InGrid(n, r, c) && 1 <= row <= n
  {
    || r == 0
    || r == n - 1
    || (0 < r < row && RoomAt(scene, n, r - 1, c) != RoomAt(scene, n, r, c))
    || (r + 1 < row && RoomAt(scene, n, r, c) != RoomAt(scene, n, r + 1, c))
  }

  /** One pass of the outer loop of `_add_vertical_walls` on the board's
      spaces: both ends of row r, and both spaces of each horizontally
      adjacent pair of the row in different rooms, get a vertical wall. */
  method AddVerticalWallsInRowOn(spaces: array2<Space>, scene: CrimeScene, n: int, r: int)
    requires ValidScene(n, scene) && spaces.Length0 == n && spaces.Length1 == n && 0 <= r < n
    requires forall i, c :: InGrid(n, i, c) ==> spaces[i, c].roomId == RoomAt(scene, n, i, c)
    modifies spaces
    ensures forall i, c :: InGrid(n, i, c) ==>
      spaces[i, c] == AddMark(old(spaces[i, c]), VerticalWall, i == r && VerticalWallAt(scene, n, i, c))
  {
    spaces[r, 0] := AddMark(spaces[r, 0], VerticalWall, true);
    spaces[r, n - 1] := AddMark(spaces[r, n - 1], VerticalWall, true);
    var j := 0;
    while j < n - 1
      invariant 0 <= j <= n - 1
      invariant forall i, c :: InGrid(n, i, c) && i != r ==> spaces[i, c] == old(spaces[i, c])
      invariant forall c :: 0 <= c < n ==>
        spaces[r, c] == AddMark(old(spaces[r, c]), VerticalWall, VerticalWallSoFar(scene, n, r, c, j))
    {
      MarkRoomChange(spaces, scene, n, r, j);
      forall c | 0 <= c < n
        ensures spaces[r, c] == AddMark(old(spaces[r, c]), VerticalWall, VerticalWallSoFar(scene, n, r, c, j + 1))
      {
        var change := (c == j || c == j + 1) && RoomAt(scene, n, r, j) != RoomAt(scene, n, r, j + 1);
        assert VerticalWallSoFar(scene, n, r, c, j + 1) == (VerticalWallSoFar(scene, n, r, c, j) || change);
        AddMarkTwice(old(spaces[r, c]), VerticalWall, VerticalWallSoFar(scene, n, r, c, j), change);
      }
      j := j + 1;
    }
    assert forall c :: 0 <= c < n ==> VerticalWallSoFar(scene, n, r, c, j) == VerticalWallAt(scene, n, r, c);
  }

  /** The body of the inner loop of `_add_vertical_walls`: spaces j and
      j + 1 of row r get a vertical wall when their rooms differ. */
  method MarkRoomChange(spaces: array2<Space>, scene: CrimeScene, n: int, r: int, j: int)
    requires ValidScene(n, scene) && spaces.Length0 == n && spaces.Length1 == n && 0 <= r < n && 0 <= j < n - 1
    requires spaces[r, j].roomId == RoomAt(scene, n, r, j) && spaces[r, j + 1].roomId == RoomAt(scene, n, r, j + 1)
    modifies spaces
    ensures forall i, c :: 0 <= i < n && 0 <= c < n && (i != r || (c != j && c != j + 1)) ==>
      spaces[i, c] == old(spaces[i, c])
    ensures forall c :: j <= c <= j + 1 ==>
      spaces[r, c] == AddMark(old(spaces[r, c]), VerticalWall, RoomAt(scene, n, r, j) != RoomAt(scene, n, r, j + 1))
  {
    if spaces[r, j].roomId != spaces[r, j + 1].roomId {
      spaces[r, j] := AddMark(spaces[r, j], VerticalWall, true);
      spaces[r, j + 1] := AddMark(spaces[r, j + 1], VerticalWall, true);
    }
  }

  /** The loop of `_add_furniture` over a cell's neighbours nb, on the
      board's spaces: those that are not cells of the piece get mark t. */
  method MarkCellsOutside(spaces: array2<Space>, n: int, nb: seq<Coordinate>, piece: seq<Coordinate>, t: Mark)
    requires spaces.Length0 == n && spaces.Length1 == n
    requires forall k :: 0 <= k < |nb| ==> CellInGrid(n, nb[k])
    modifies spaces
    ensures forall r, c :: InGrid(n, r, c) ==>
      spaces[r, c] == AddMark(old(spaces[r, c]), t, Coordinate(r, c) in nb && Coordinate(r, c) !in piece)
  {
    var j := 0;
    while j < |nb|
      invariant 0 <= j <= |nb|
      invariant forall r, c :: InGrid(n, r, c) ==>
        spaces[r, c] == AddMark(old(spaces[r, c]), t, Coordinate(r, c) in nb[..j] && Coordinate(r, c) !in piece)
    {
      assert nb[..j + 1] == nb[..j] + [nb[j]];
      var m := nb[j];
      if m !in piece {
        spaces[m.row, m.column] := AddMark(spaces[m.row, m.column], t, true);
      }
      forall r, c | InGrid(n, r, c)
        ensures spaces[r, c] == AddMark(old(spaces[r, c]), t, Coordinate(r, c) in nb[..j + 1] && Coordinate(r, c) !in piece)
      {
        AddMarkTwice(old(spaces[r, c]), t, Coordinate(r, c) in nb[..j] && Coordinate(r, c) !in piece,
                     Coordinate(r, c) == m && m !in piece);
      }
      j := j + 1;
    }
    assert nb[..|nb|] == nb;
  }

  /** `_add_horizontal_walls` on the board's spaces: each space in the
      first or last row, and both spaces of each vertically adjacent pair in
      different rooms, get a horizontal wall. */
  method AddHorizontalWallsOn(spaces: array2<Space>, scene: CrimeScene, n: int)
    requires ValidScene(n, scene) && spaces.Length0 == n && spaces.Length1 == n
    requires forall i, j :: InGrid(n, i, j) ==> spaces[i, j].roomId == RoomAt(scene, n, i, j)
    modifies spaces
    ensures forall i, j :: InGrid(n, i, j) ==>
      spaces[i, j] == AddMark(old(spaces[i, j]), HorizontalWall, HorizontalWallAt(scene, n, i, j))
  {
    AddOuterHorizontalWallsOn(spaces, n);
    var row := 1;
    while row < n
      invariant 1 <= row <= n
      invariant forall i, j :: InGrid(n, i, j) ==>
        spaces[i, j] == AddMark(old(spaces[i, j]), HorizontalWall, HorizontalWallSoFar(scene, n, i, j, row))
    {
      AddHorizontalWallsBetweenOn(spaces, scene, n, row);
      forall i, j | InGrid(n, i, j)
        ensures spaces[i, j] == AddMark(old(spaces[i, j]), HorizontalWall, HorizontalWallSoFar(scene, n, i, j, row + 1))
      {
        var change := (i == row - 1 || i == row) && RoomAt(scene, n, row - 1, j) != RoomAt(scene, n, row, j);
        assert HorizontalWallSoFar(scene, n, i, j, row + 1) == (HorizontalWallSoFar(scene, n, i, j, row) || change);
        AddMarkTwice(old(spaces[i, j]), HorizontalWall, HorizontalWallSoFar(scene, n, i, j, row), change);
      }
      row := row + 1;
    }
    assert forall i, j :: InGrid(n, i, j) ==> HorizontalWallSoFar(scene, n, i, j, row) == HorizontalWallAt(scene, n, i, j);
  }

  /** The first two loops of `_add_horizontal_walls`: every space of the
      first row, then of the last row, gets a horizontal wall. */
  method AddOuterHorizontalWallsOn(spaces: array2<Space>, n: int)
    requires spaces.Length0 == n && spaces.Length1 == n
    modifies spaces
    ensures forall i, j :: InGrid(n, i, j) ==>
      spaces[i, j] == AddMark(old(spaces[i, j]), HorizontalWall, i == 0 || i == n - 1)
  {
    var c := 0;
    while c < n
      invariant 0 <= c <= n
      invariant forall i, j :: InGrid(n, i, j) ==>
        spaces[i, j] == AddMark(old(spaces[i, j]), HorizontalWall, i == 0 && j < c)
    {
      spaces[0, c] := AddMark(spaces[0, c], HorizontalWall, true);
      c := c + 1;
    }
    c := 0;
    while c < n
      invariant 0 <= c <= n
      invariant forall i, j :: InGrid(n, i, j) ==>
        spaces[i, j] == AddMark(old(spaces[i, j]), HorizontalWall, i == 0 || (i == n - 1 && j < c))
    {
      spaces[n - 1, c] := AddMark(spaces[n - 1, c], HorizontalWall, true);
      c := c + 1;
    }
  }

  /** The body of the last loop of `_add_horizontal_walls`: the pairs of
      rows row - 1 and row. */
  method AddHorizontalWallsBetweenOn(spaces: array2<Space>, scene: CrimeScene, n: int, row: int)
    requires ValidScene(n, scene) && spaces.Length0 == n && spaces.Length1 == n && 1 <= row < n
    requires forall j :: 0 <= j < n ==>
      spaces[row - 1, j].roomId == RoomAt(scene, n, row - 1, j) && spaces[row, j].roomId == RoomAt(scene, n, row, j)
    modifies spaces
    ensures forall i, j :: InGrid(n, i, j) ==>
      spaces[i, j] == AddMark(old(spaces[i, j]), HorizontalWall,
                              (i == row - 1 || i == row) && RoomAt(scene, n, row - 1, j) != RoomAt(scene, n, row, j))
  {
    var c := 0;
    while c < n
      invariant 0 <= c <= n
      invariant forall i, j :: InGrid(n, i, j) ==>
        spaces[i, j] == AddMark(old(spaces[i, j]), HorizontalWall,
                                (i == row - 1 || i == row) && j < c && RoomAt(scene, n, row - 1, j) != RoomAt(scene, n, row, j))
    {
      if spaces[row - 1, c].roomId != spaces[row, c].roomId {
        spaces[row - 1, c] := AddMark(spaces[row - 1, c], HorizontalWall, true);
        spaces[row, c] := AddMark(spaces[row, c], HorizontalWall, true);
      }
      c := c + 1;
    }
  }

  /** The four stages of `Board.__init__` applied to a space of the laid-out
      board give the space the crime scene describes. */
  lemma BuiltSpace(scene: CrimeScene, n: int, r: int, c: int, laid: Space, walled: Space, closed: Space,
                   windowed: Space, furnished: Space)
    requires ValidScene(n, scene) && InGrid(n, r, c)
    requires laid == Space(RoomAt(scene, n, r, c), None, {})
    requires walled == AddMark(laid, VerticalWall, VerticalWallAt(scene, n, r, c))
    requires closed == AddMark(walled, HorizontalWall, HorizontalWallAt(scene, n, r, c))
    requires windowed == AddMark(closed, WindowMark, AnyWindowAt(scene.windows, r, c))
    requires furnished == Space(windowed.roomId, OnAfter(scene.furniture, windowed.on, r, c),
                                windowed.beside + FurnitureMarks(scene, n, scene.furniture, r, c))
    ensures furnished == ExpectedSpace(scene, n, r, c)
  {
  }

  /** A list that starts empty and has `added` appended is `added`. */
  lemma EmptyPrefix(start: seq<Coordinate>, added: seq<Coordinate>, after: seq<Coordinate>)
    requires start == [] && after == start + added
    ensures after == added
  {
  }

  class Board {
    const n: nat
    const scene: CrimeScene
    /** `_spaces`, indexed [row, column]. */
    const spaces: array2<Space>
    /** `_rowwise_furniture` and `_columwise_furniture`. */
    var rowIndex: seq<set<Mark>>
    var columnIndex: seq<set<Mark>>
    /** `_blocked_coordinates`. */
    var blocked: seq<Coordinate>

    predicate Shaped()
      reads this
    {
      && ValidScene(n, scene)
      && spaces.Length0 == n && spaces.Length1 == n
      && |rowIndex| == n && |columnIndex| == n
    }

    /** Every space is in the room the floor plan gives it. */
    ghost predicate RoomsLaid()
      reads this, spaces
      requires Shaped()
    {
      forall r, c :: InGrid(n, r, c) ==> spaces[r, c].roomId == RoomAt(scene, n, r, c)
    }

    /** The board holds exactly what its crime scene describes. */
    ghost predicate Built()
      reads this, spaces
    {
      && Shaped()
      && (forall r, c :: InGrid(n, r, c) ==> spaces[r, c] == ExpectedSpace(scene, n, r, c))
      && (forall r :: 0 <= r < n ==> rowIndex[r] == ExpectedRowIndex(scene, r))
      && (forall c :: 0 <= c < n ==> columnIndex[c] == ExpectedColumnIndex(scene, c))
      && blocked == BlockedCells(scene.furniture)
    }

    /** `Board.__init__`: lay out the rooms, then add walls, windows and
        furniture. */
    constructor (n: nat, scene: CrimeScene)
      requires ValidScene(n, scene)
      ensures this.n == n && this.scene == scene && fresh(spaces)
      ensures Built()
    {
      this.n := n;
      this.scene := scene;
      blocked := [];
      spaces := new Space[n, n]((r: int, c: int) requires InGrid(n, r, c) => Space(RoomAt(scene, n, r, c), None, {}));
      rowIndex := seq(n, _ => {});
      columnIndex := seq(n, _ => {});
      new;
      ghost var laid := Grid();
      AddVerticalWalls();
      ghost var walled := Grid();
      AddHorizontalWalls();
      ghost var closed := Grid();
      AddWindows();
      ghost var windowed := Grid();
      ghost var unblocked := blocked;
      AddFurniture();
      forall r, c | InGrid(n, r, c)
        ensures spaces[r, c] == ExpectedSpace(scene, n, r, c)
      {
        BuiltSpace(scene, n, r, c, laid[r][c], walled[r][c], closed[r][c], windowed[r][c], spaces[r, c]);
      }
      EmptyPrefix(unblocked, BlockedCells(scene.furniture), blocked);
    }

    /** `get_room_of_coordinate`: the room of a cell, read from the built
        board with Python's indexing, so that a negative row or column
        counts from the far edge. */
    function RoomOfCoordinate(q: Coordinate): (room: int)
      reads this, spaces
      requires Built()
      requires -(n as int) <= q.row < n && -(n as int) <= q.column < n
      ensures room == RoomAt(scene, n, Wrap(n, q.row), Wrap(n, q.column))
    {
      spaces[Wrap(n, q.row), Wrap(n, q.column)].roomId
    }

    /** `_add_vertical_walls`: each space in the first or last column, and
        both spaces of each horizontally adjacent pair in different rooms,
        get a vertical wall. */
    method AddVerticalWalls()
      requires Shaped() && RoomsLaid()
      modifies spaces
      ensures RoomsLaid()
      ensures forall r, c :: InGrid(n, r, c) ==>
        spaces[r, c] == AddMark(old(spaces[r, c]), VerticalWall, VerticalWallAt(scene, n, r, c))
    {
      var r := 0;
      while r < n
        invariant 0 <= r <= n
        invariant forall i, c :: InGrid(n, i, c) ==>
          spaces[i, c] == AddMark(old(spaces[i, c]), VerticalWall, i < r && VerticalWallAt(scene, n, i, c))
      {
        AddVerticalWallsInRow(r);
        r := r + 1;
      }
    }

    method AddVerticalWallsInRow(r: int)
      requires Shaped() && RoomsLaid() && 0 <= r < n
      modifies spaces
      ensures RoomsLaid()
      ensures forall i, c :: InGrid(n, i, c) ==>
        spaces[i, c] == AddMark(old(spaces[i, c]), VerticalWall, i == r && VerticalWallAt(scene, n, i, c))
    {
      AddVerticalWallsInRowOn(spaces, scene, n, r);
    }

    /** `_add_horizontal_walls`: each space in the first or last row, and
        both spaces of each vertically adjacent pair in different rooms, get
        a horizontal wall. */
    method AddHorizontalWalls()
      requires Shaped() && RoomsLaid()
      modifies spaces
      ensures RoomsLaid()
      ensures forall r, c :: InGrid(n, r, c) ==>
        spaces[r, c] == AddMark(old(spaces[r, c]), HorizontalWall, HorizontalWallAt(scene, n, r, c))
    {
      AddHorizontalWallsOn(spaces, scene, n);
    }

    /** `_add_windows`: each window marks the spaces on both sides of its
        border and indexes its row (vertical border) or column (horizontal
        border). */
    method AddWindows()
      requires Shaped() && RoomsLaid()
      modifies this, spaces
      ensures Shaped() && RoomsLaid()
      ensures forall r, c :: InGrid(n, r, c) ==>
        spaces[r, c] == AddMark(old(spaces[r, c]), WindowMark, AnyWindowAt(scene.windows, r, c))
      ensures forall r :: 0 <= r < n ==>
        rowIndex[r] == old(rowIndex[r]) + (if AnyWindowInRow(scene.windows, r) then {WindowMark} else {})
      ensures forall c :: 0 <= c < n ==>
        columnIndex[c] == old(columnIndex[c]) + (if AnyWindowInColumn(scene.windows, c) then {WindowMark} else {})
      ensures blocked == old(blocked)
    {
      var ws := scene.windows;
      var i := 0;
      while i < |ws|
        invariant 0 <= i <= |ws|
        invariant Shaped() && RoomsLaid()
        invariant forall r, c :: InGrid(n, r, c) ==>
          spaces[r, c] == AddMark(old(spaces[r, c]), WindowMark, AnyWindowAt(ws[..i], r, c))
        invariant forall r :: 0 <= r < n ==>
          rowIndex[r] == old(rowIndex[r]) + (if AnyWindowInRow(ws[..i], r) then {WindowMark} else {})
        invariant forall c :: 0 <= c < n ==>
          columnIndex[c] == old(columnIndex[c]) + (if AnyWindowInColumn(ws[..i], c) then {WindowMark} else {})
        invariant blocked == old(blocked)
      {
        assert ws[..i + 1][..i] == ws[..i];
        assert WindowInGrid(n, ws[i]);
        AddWindow(ws[i]);
        forall r, c | InGrid(n, r, c)
          ensures spaces[r, c] == AddMark(old(spaces[r, c]), WindowMark, AnyWindowAt(ws[..i + 1], r, c))
        {
          AddMarkTwice(old(spaces[r, c]), WindowMark, AnyWindowAt(ws[..i], r, c), WindowTouches(ws[i], r, c));
        }
        i := i + 1;
      }
      assert ws[..|ws|] == ws;
    }

    /** One iteration of `_add_windows`: a window with a vertical border,
        a horizontal border, or both. */
    method AddWindow(w: Window)
      requires Shaped() && RoomsLaid() && WindowInGrid(n, w)
      modifies this, spaces
      ensures Shaped() && RoomsLaid()
      ensures forall r, c :: InGrid(n, r, c) ==>
        spaces[r, c] == AddMark(old(spaces[r, c]), WindowMark, WindowTouches(w, r, c))
      ensures forall r :: 0 <= r < n ==>
        rowIndex[r] == old(rowIndex[r]) +
                       (if w.verticalBorder.Some? && w.verticalBorder.value.row == r then {WindowMark} else {})
      ensures forall c :: 0 <= c < n ==>
        columnIndex[c] == old(columnIndex[c]) +
                          (if w.horizontalBorder.Some? && w.horizontalBorder.value.column == c then {WindowMark} else {})
      ensures blocked == old(blocked)
    {
      label Start:
      if w.verticalBorder.Some? {
        AddVerticalWindow(w.verticalBorder.value);
      }
      label Between:
      if w.horizontalBorder.Some? {
        AddHorizontalWindow(w.horizontalBorder.value);
      }
      forall r, c | InGrid(n, r, c)
        ensures spaces[r, c] == AddMark(old(spaces[r, c]), WindowMark, WindowTouches(w, r, c))
      {
        var v := w.verticalBorder.Some? && w.verticalBorder.value.row == r &&
                 (w.verticalBorder.value.left == c || w.verticalBorder.value.right == c);
        var h := w.horizontalBorder.Some? && w.horizontalBorder.value.column == c &&
                 (w.horizontalBorder.value.top == r || w.horizontalBorder.value.bottom == r);
        assert old@Between(spaces[r, c]) == AddMark(old@Start(spaces[r, c]), WindowMark, v);
        assert spaces[r, c] == AddMark(old@Between(spaces[r, c]), WindowMark, h);
        AddMarkTwice(old(spaces[r, c]), WindowMark, v, h);
      }
    }

    /** `_add_vertical_window`. The source's `is not None` tests on `left`
        and `right` always pass: protobuf integers read 0 when unset. */
    method AddVerticalWindow(b: VerticalBorder)
      requires Shaped() && RoomsLaid()
      requires InGrid(n, b.row, b.left) && InGrid(n, b.row, b.right)
      modifies this, spaces
      ensures Shaped() && RoomsLaid()
      ensures forall r, c :: InGrid(n, r, c) ==>
        spaces[r, c] == AddMark(old(spaces[r, c]), WindowMark, r == b.row && (c == b.left || c == b.right))
      ensures rowIndex == old(rowIndex)[b.row := old(rowIndex[b.row]) + {WindowMark}]
      ensures columnIndex == old(columnIndex) && blocked == old(blocked)
    {
      rowIndex := rowIndex[b.row := rowIndex[b.row] + {WindowMark}];
      spaces[b.row, b.left] := AddMark(spaces[b.row, b.left], WindowMark, true);
      spaces[b.row, b.right] := AddMark(spaces[b.row, b.right], WindowMark, true);
    }

    /** `_add_horizontal_window`, likewise for `top` and `bottom`. */
    method AddHorizontalWindow(b: HorizontalBorder)
      requires Shaped() && RoomsLaid()
      requires InGrid(n, b.top, b.column) && InGrid(n, b.bottom, b.column)
      modifies this, spaces
      ensures Shaped() && RoomsLaid()
      ensures forall r, c :: InGrid(n, r, c) ==>
        spaces[r, c] == AddMark(old(spaces[r, c]), WindowMark, c == b.column && (r == b.top || r == b.bottom))
      ensures columnIndex == old(columnIndex)[b.column := old(columnIndex[b.column]) + {WindowMark}]
      ensures rowIndex == old(rowIndex) && blocked == old(blocked)
    {
      columnIndex := columnIndex[b.column := columnIndex[b.column] + {WindowMark}];
      spaces[b.top, b.column] := AddMark(spaces[b.top, b.column], WindowMark, true);
      spaces[b.bottom, b.column] := AddMark(spaces[b.bottom, b.column], WindowMark, true);
    }

    /** `_add_furniture`: piece by piece, in order. */
    method AddFurniture()
      requires Shaped() && RoomsLaid()
      modifies this, spaces
      ensures Shaped() && RoomsLaid()
      ensures forall r, c :: InGrid(n, r, c) ==>
        spaces[r, c] == Space(old(spaces[r, c]).roomId,
                              OnAfter(scene.furniture, old(spaces[r, c]).on, r, c),
                              old(spaces[r, c]).beside + FurnitureMarks(scene, n, scene.furniture, r, c))
      ensures forall r :: 0 <= r < n ==> rowIndex[r] == old(rowIndex[r]) + RowMarks(scene.furniture, r)
      ensures forall c :: 0 <= c < n ==> columnIndex[c] == old(columnIndex[c]) + ColumnMarks(scene.furniture, c)
      ensures blocked == old(blocked) + BlockedCells(scene.furniture)
    {
      var fs := scene.furniture;
      ghost var grid: seq<seq<Space>> := Grid();
      ghost var rows: seq<set<Mark>> := rowIndex;
      ghost var columns: seq<set<Mark>> := columnIndex;
      assert fs[..0] == [];
      var i := 0;
      while i < |fs|
        invariant 0 <= i <= |fs|
        invariant Furnished(i, grid, rows, columns, old(blocked))
      {
        PlaceNextPiece(i, grid, rows, columns, old(blocked));
        i := i + 1;
      }
      assert fs[..i] == fs;
    }

    /** The board holds the first i pieces of the scene over the spaces
        `grid`, the indices `rows` and `columns` and the blocked cells
        `blocked0` it started from. */
    ghost predicate Furnished(i: int, grid: seq<seq<Space>>, rows: seq<set<Mark>>, columns: seq<set<Mark>>,
                              blocked0: seq<Coordinate>)
      reads this, spaces
    {
      && Shaped() && RoomsLaid() && 0 <= i <= |scene.furniture|
      && |grid| == n && (forall r :: 0 <= r < n ==> |grid[r]| == n) && |rows| == n && |columns| == n
      && (forall r, c :: InGrid(n, r, c) ==>
            spaces[r, c] == Space(grid[r][c].roomId,
                                  OnAfter(scene.furniture[..i], grid[r][c].on, r, c),
                                  grid[r][c].beside + FurnitureMarks(scene, n, scene.furniture[..i], r, c)))
      && (forall r :: 0 <= r < n ==> rowIndex[r] == rows[r] + RowMarks(scene.furniture[..i], r))
      && (forall c :: 0 <= c < n ==> columnIndex[c] == columns[c] + ColumnMarks(scene.furniture[..i], c))
      && blocked == blocked0 + BlockedCells(scene.furniture[..i])
    }

    /** The body of the loop of `_add_furniture`, for piece i, over the
        board `grid`, indices `rows` and `columns` and blocked cells
        `blocked0` it started from. */
    method PlaceNextPiece(i: int, ghost grid: seq<seq<Space>>, ghost rows: seq<set<Mark>>, ghost columns: seq<set<Mark>>,
                          ghost blocked0: seq<Coordinate>)
      requires i < |scene.furniture| && Furnished(i, grid, rows, columns, blocked0)
      modifies this, spaces
      ensures Furnished(i + 1, grid, rows, columns, blocked0)
    {
      var fs := scene.furniture;
      PiecesStep(scene, n, fs, i);
      ghost var mid := Grid();
      AddPiece(fs[i]);
      ghost var now := Grid();
      FurnitureSpacesStep(scene, n, fs, i, grid, mid, now);
      MarksStep(rows, old(rowIndex), rowIndex,
                seq(n, r => RowMarks(fs[..i], r)),
                seq(n, r => if r in Rows(fs[i].coordinates) then {FurnitureMark(fs[i].furnitureType)} else {}));
      MarksStep(columns, old(columnIndex), columnIndex,
                seq(n, c => ColumnMarks(fs[..i], c)),
                seq(n, c => if c in Columns(fs[i].coordinates) then {FurnitureMark(fs[i].furnitureType)} else {}));
      BlockedStep(blocked0, BlockedCells(fs[..i]), if fs[i].occupiable then [] else fs[i].coordinates,
                  old(blocked), blocked);
    }

    /** One iteration of `_add_furniture`: the piece's cells are on it, its
        rows and columns index it, the same-room neighbours outside it are
        beside it, and its cells are blocked when it is not occupiable. */
    method AddPiece(f: Furniture)
      requires Shaped() && RoomsLaid() && PieceInGrid(n, f)
      modifies this, spaces
      ensures Shaped() && RoomsLaid()
      ensures forall r, c :: InGrid(n, r, c) ==>
        spaces[r, c] == Space(old(spaces[r, c]).roomId,
                              if Coordinate(r, c) in f.coordinates then Some(f.furnitureType) else old(spaces[r, c]).on,
                              old(spaces[r, c]).beside +
                              (if BesidePiece(scene, n, f, r, c) then {FurnitureMark(f.furnitureType)} else {}))
      ensures forall r :: 0 <= r < n ==>
        rowIndex[r] == old(rowIndex[r]) + (if r in Rows(f.coordinates) then {FurnitureMark(f.furnitureType)} else {})
      ensures forall c :: 0 <= c < n ==>
        columnIndex[c] == old(columnIndex[c]) + (if c in Columns(f.coordinates) then {FurnitureMark(f.furnitureType)} else {})
      ensures blocked == old(blocked) + (if f.occupiable then [] else f.coordinates)
    {
      ghost var grid: seq<seq<Space>> := Grid();
      ghost var rows: seq<set<Mark>> := rowIndex;
      ghost var columns: seq<set<Mark>> := columnIndex;
      var cs := f.coordinates;
      var k := 0;
      while k < |cs|
        invariant 0 <= k <= |cs|
        invariant Shaped() && RoomsLaid()
        invariant forall r, c :: InGrid(n, r, c) ==>
          spaces[r, c] == Space(grid[r][c].roomId,
                                if Coordinate(r, c) in cs[..k] then Some(f.furnitureType) else grid[r][c].on,
                                grid[r][c].beside +
                                (if Coordinate(r, c) in OutsideNeighbors(scene, n, cs[..k], cs) then {FurnitureMark(f.furnitureType)} else {}))
        invariant forall r :: 0 <= r < n ==> rowIndex[r] == rows[r] + (if r in Rows(cs[..k]) then {FurnitureMark(f.furnitureType)} else {})
        invariant forall c :: 0 <= c < n ==> columnIndex[c] == columns[c] + (if c in Columns(cs[..k]) then {FurnitureMark(f.furnitureType)} else {})
        invariant blocked == old(blocked)
      {
        PlaceNextCell(f, k, grid, rows, columns);
        k := k + 1;
      }
      assert cs[..|cs|] == cs;
      if !f.occupiable {
        blocked := blocked + cs;
      }
    }

    /** The spaces, as a value. */
    ghost function Grid(): (g: seq<seq<Space>>)
      reads this, spaces
      requires Shaped()
      ensures |g| == n && forall r :: 0 <= r < n ==> |g[r]| == n
      ensures forall r, c :: InGrid(n, r, c) ==> g[r][c] == spaces[r, c]
    {
      seq(n, (r: int) reads spaces requires 0 <= r < n => seq(n, (c: int) reads spaces requires 0 <= c < n => spaces[r, c]))
    }

    /** The body of the cell loop of `_add_furniture`, for cell k of f,
        over the board `grid` and indices `rows` and `columns` the piece
        started from. */
    method PlaceNextCell(f: Furniture, k: int, ghost grid: seq<seq<Space>>, ghost rows: seq<set<Mark>>, ghost columns: seq<set<Mark>>)
      requires Shaped() && RoomsLaid() && PieceInGrid(n, f) && 0 <= k < |f.coordinates|
      requires |grid| == n && (forall r :: 0 <= r < n ==> |grid[r]| == n)
      requires |rows| == n && |columns| == n
      requires forall r :: 0 <= r < n ==> rowIndex[r] == rows[r] + (if r in Rows(f.coordinates[..k]) then {FurnitureMark(f.furnitureType)} else {})
      requires forall c :: 0 <= c < n ==> columnIndex[c] == columns[c] + (if c in Columns(f.coordinates[..k]) then {FurnitureMark(f.furnitureType)} else {})
      requires forall r, c :: InGrid(n, r, c) ==>
            spaces[r, c] == Space(grid[r][c].roomId,
                                  if Coordinate(r, c) in f.coordinates[..k] then Some(f.furnitureType) else grid[r][c].on,
                                  grid[r][c].beside +
                                  (if Coordinate(r, c) in OutsideNeighbors(scene, n, f.coordinates[..k], f.coordinates) then {FurnitureMark(f.furnitureType)} else {}))
      modifies this, spaces
      ensures Shaped() && RoomsLaid()
      ensures forall r, c :: InGrid(n, r, c) ==>
            spaces[r, c] == Space(grid[r][c].roomId,
                                  if Coordinate(r, c) in f.coordinates[..k+1] then Some(f.furnitureType) else grid[r][c].on,
                                  grid[r][c].beside +
                                  (if Coordinate(r, c) in OutsideNeighbors(scene, n, f.coordinates[..k+1], f.coordinates) then {FurnitureMark(f.furnitureType)} else {}))
      ensures forall r :: 0 <= r < n ==> rowIndex[r] == rows[r] + (if r in Rows(f.coordinates[..k+1]) then {FurnitureMark(f.furnitureType)} else {})
      ensures forall c :: 0 <= c < n ==> columnIndex[c] == columns[c] + (if c in Columns(f.coordinates[..k+1]) then {FurnitureMark(f.furnitureType)} else {})
      ensures blocked == old(blocked)
    {
      var cs := f.coordinates;
      var t := FurnitureMark(f.furnitureType);
      var q := cs[k];
      assert CellInGrid(n, q);
      RowsColumnsStep(cs, k);
      ghost var mid := Grid();
      PlacePieceCell(q, cs, f.furnitureType);
      IndexStep(rows, old(rowIndex), rowIndex, Rows(cs[..k]), q.row, t);
      IndexStep(columns, old(columnIndex), columnIndex, Columns(cs[..k]), q.column, t);
      ghost var now := Grid();
      SpacesStep(scene, n, f, k, grid, mid, now);
    }

    /** One cell q of a piece with cells `piece`: q is on the piece, its row
        and column index it, and its same-room neighbours outside the piece
        are beside it. */
    method PlacePieceCell(q: Coordinate, piece: seq<Coordinate>, ft: FurnitureType)
      requires Shaped() && RoomsLaid() && CellInGrid(n, q) && q in piece
      modifies this, spaces
      ensures Shaped() && RoomsLaid()
      ensures forall r, c :: InGrid(n, r, c) ==>
        spaces[r, c] == Space(old(spaces[r, c]).roomId,
                              if Coordinate(r, c) == q then Some(ft) else old(spaces[r, c]).on,
                              old(spaces[r, c]).beside +
                              (if Coordinate(r, c) in Neighbors(scene, n, q.row, q.column) && Coordinate(r, c) !in piece
                               then {FurnitureMark(ft)} else {}))
      ensures rowIndex == old(rowIndex)[q.row := old(rowIndex[q.row]) + {FurnitureMark(ft)}]
      ensures columnIndex == old(columnIndex)[q.column := old(columnIndex[q.column]) + {FurnitureMark(ft)}]
      ensures blocked == old(blocked)
    {
      spaces[q.row, q.column] := spaces[q.row, q.column].(on := Some(ft));
      rowIndex := rowIndex[q.row := rowIndex[q.row] + {FurnitureMark(ft)}];
      columnIndex := columnIndex[q.column := columnIndex[q.column] + {FurnitureMark(ft)}];
      MarkOutsideNeighbors(q, piece, FurnitureMark(ft));
    }

    /** The inner neighbour loop of `_add_furniture`: the same-room
        neighbours of q that are not cells of the piece get mark t. */
    method MarkOutsideNeighbors(q: Coordinate, piece: seq<Coordinate>, t: Mark)
      requires Shaped() && RoomsLaid() && CellInGrid(n, q)
      modifies spaces
      ensures RoomsLaid()
      ensures forall r, c :: InGrid(n, r, c) ==>
        spaces[r, c] == AddMark(old(spaces[r, c]), t,
                                Coordinate(r, c) in Neighbors(scene, n, q.row, q.column) && Coordinate(r, c) !in piece)
    {
      var nb := Neighbors(scene, n, q.row, q.column);
      MarkCellsOutside(spaces, n, nb, piece, t);
    }
  }
}

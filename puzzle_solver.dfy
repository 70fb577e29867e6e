/** `puzzle_solver.py`: the `PuzzleSolver` that turns a puzzle into a
    constraint program over who stands where, and reads the murderer off a
    solution. The board it builds is `BoardModel.Board`; the program is
    `Constraints.CpModel`; the CP-SAT solver is replaced by an assignment of
    the program's Boolean variables. */
module Solver {
  import opened Wrappers
  import opened Puzzle
  import opened BoardModel
  import opened Constraints

  /** What `_evaluate_space_for_clue` and `_get_clue_coordinates` are given:
      a room clue, a person clue, or (as `_get_unoccupied_room_coordinates`
      passes it) the whole `Puzzle.Clue` message. */
  datatype Query = RoomQuery(roomClue: RoomClue) | PersonQuery(personClue: PersonClue) | MessageQuery(clue: Clue)

  datatype SolverError =
    /** `HasField` on a field the message does not have raises ValueError. */
    | NoSuchField(field: string)
    /** `_get_victim_id` found no victim, so indexing the positions with
        `None` raises TypeError. */
    | NoVictim

  /** `_evaluate_space_for_clue`. A person clue whose target is a row, a
      column or nothing falls through every branch and returns None, which
      the caller reads as false. */
  function EvaluateSpace(space: Space, q: Query): Result<bool, SolverError> {
    match q
    case RoomQuery(rc) => Ok(rc.roomId == space.roomId)
    case PersonQuery(pc) =>
      Ok(match pc.target
         case InRoom(id) => id == space.roomId
         case BesideWindow(b) => b == (WindowMark in space.beside)
         case Beside(t) => FurnitureMark(t) in space.beside
         case On(t) => Some(t) == space.on
         case InCorner(b) => b == (Corner <= space.beside)
         case _ => false)
    case MessageQuery(_) => Err(NoSuchField("room_id"))
  }

  /** Cell (r, c) of the built board passes the query. */
  predicate Selected(scene: CrimeScene, n: int, q: Query, r: int, c: int)
    requires ValidScene(n, scene) && InGrid(n, r, c)
  {
    EvaluateSpace(ExpectedSpace(scene, n, r, c), q) == Ok(true)
  }

  /** The cells of row r before column k that pass the query, left to right. */
  function SelectedInRow(scene: CrimeScene, n: int, q: Query, r: int, k: int): seq<Coordinate>
    requires ValidScene(n, scene) && 0 <= r < n && 0 <= k <= n
  {
    if k == 0 then []
    else SelectedInRow(scene, n, q, r, k - 1) + (if Selected(scene, n, q, r, k - 1) then [Coordinate(r, k - 1)] else [])
  }

  /** The cells of the rows before r that pass the query, row by row. */
  function SelectedRows(scene: CrimeScene, n: int, q: Query, r: int): seq<Coordinate>
    requires ValidScene(n, scene) && 0 <= r <= n
  {
    if r == 0 then []
    else SelectedRows(scene, n, q, r - 1) + SelectedInRow(scene, n, q, r - 1, n)
  }

  /** What `_get_clue_coordinates` returns for a query that does not raise. */
  function ClueCells(scene: CrimeScene, n: int, q: Query): seq<Coordinate>
    requires ValidScene(n, scene)
  {
    SelectedRows(scene, n, q, n)
  }

  /** a comes before b when the board is read row by row. */
  predicate RowMajorBefore(a: Coordinate, b: Coordinate) {
    a.row < b.row || (a.row == b.row && a.column < b.column)
  }

  ghost predicate RowMajorSorted(s: seq<Coordinate>) {
    forall i, j :: 0 <= i < j < |s| ==> RowMajorBefore(s[i], s[j])
  }

  lemma SortedAppend(s: seq<Coordinate>, t: seq<Coordinate>)
    requires RowMajorSorted(s) && RowMajorSorted(t)
    requires forall x, y :: x in s && y in t ==> RowMajorBefore(x, y)
    ensures RowMajorSorted(s + t)
  {
    forall i, j | 0 <= i < j < |s + t|
      ensures RowMajorBefore((s + t)[i], (s + t)[j])
    {
      if i < |s| && j >= |s| {
        assert (s + t)[i] in s && (s + t)[j] in t;
      } else if i >= |s| {
        assert (s + t)[i] == t[i - |s|] && (s + t)[j] == t[j - |s|];
      }
    }
  }

  lemma SortedNoDup(s: seq<Coordinate>)
    requires RowMajorSorted(s)
    ensures NoDup(s)
  {
  }

  lemma {:induction false} SelectedInRowMeans(scene: CrimeScene, n: int, q: Query, r: int, k: int)
    requires ValidScene(n, scene) && 0 <= r < n && 0 <= k <= n
    ensures forall p :: p in SelectedInRow(scene, n, q, r, k) <==>
      p.row == r && 0 <= p.column < k && Selected(scene, n, q, r, p.column)
    ensures RowMajorSorted(SelectedInRow(scene, n, q, r, k))
  {
    if k > 0 {
      SelectedInRowMeans(scene, n, q, r, k - 1);
      var prev := SelectedInRow(scene, n, q, r, k - 1);
      var last: seq<Coordinate> := if Selected(scene, n, q, r, k - 1) then [Coordinate(r, k - 1)] else [];
      SortedAppend(prev, last);
    }
  }

  lemma {:induction false} SelectedRowsMeans(scene: CrimeScene, n: int, q: Query, r: int)
    requires ValidScene(n, scene) && 0 <= r <= n
    ensures forall p :: p in SelectedRows(scene, n, q, r) <==>
      0 <= p.row < r && 0 <= p.column < n && Selected(scene, n, q, p.row, p.column)
    ensures RowMajorSorted(SelectedRows(scene, n, q, r))
  {
    if r > 0 {
      SelectedRowsMeans(scene, n, q, r - 1);
      SelectedInRowMeans(scene, n, q, r - 1, n);
      SortedAppend(SelectedRows(scene, n, q, r - 1), SelectedInRow(scene, n, q, r - 1, n));
    }
  }

  /** `_get_clue_coordinates` lists exactly the cells of the board that pass
      the query, each once, in row-major order. */
  lemma ClueCellsMeans(scene: CrimeScene, n: int, q: Query)
    requires ValidScene(n, scene)
    ensures forall p :: p in ClueCells(scene, n, q) <==> CellInGrid(n, p) && Selected(scene, n, q, p.row, p.column)
    ensures RowMajorSorted(ClueCells(scene, n, q))
    ensures NoDup(ClueCells(scene, n, q))
  {
    SelectedRowsMeans(scene, n, q, n);
    SortedNoDup(ClueCells(scene, n, q));
  }

  /** Piece i is the last piece of fs to cover (r, c). */
  predicate LastCover(fs: seq<Furniture>, i: int, r: int, c: int) {
    && 0 <= i < |fs|
    && Coordinate(r, c) in fs[i].coordinates
    && forall j :: i < j < |fs| ==> Coordinate(r, c) !in fs[j].coordinates
  }

  lemma {:induction false} LastCoverExists(fs: seq<Furniture>, i: int, r: int, c: int)
    requires 0 <= i < |fs| && Coordinate(r, c) in fs[i].coordinates
    ensures exists k :: LastCover(fs, k, r, c)
    decreases |fs| - i
  {
    if !LastCover(fs, i, r, c) {
      var j :| i < j < |fs| && Coordinate(r, c) in fs[j].coordinates;
      LastCoverExists(fs, j, r, c);
    }
  }

  /** The marks and the furniture a built space holds, in terms of the
      crime scene. */
  lemma WindowMarkMeans(scene: CrimeScene, n: int, r: int, c: int)
    requires ValidScene(n, scene) && InGrid(n, r, c)
    ensures WindowMark in ExpectedSpace(scene, n, r, c).beside <==>
      exists i :: 0 <= i < |scene.windows| && WindowTouches(scene.windows[i], r, c)
  {
    FurnitureMarksMeans(scene, n, scene.furniture, r, c, WindowMark);
    AnyWindowAtMeans(scene.windows, r, c);
  }

  lemma FurnitureMarkMeans(scene: CrimeScene, n: int, r: int, c: int, t: FurnitureType)
    requires ValidScene(n, scene) && InGrid(n, r, c)
    ensures FurnitureMark(t) in ExpectedSpace(scene, n, r, c).beside <==>
      exists i :: 0 <= i < |scene.furniture| && scene.furniture[i].furnitureType == t &&
                  BesidePiece(scene, n, scene.furniture[i], r, c)
  {
    FurnitureMarksMeans(scene, n, scene.furniture, r, c, FurnitureMark(t));
  }

  lemma CornerMeans(scene: CrimeScene, n: int, r: int, c: int)
    requires ValidScene(n, scene) && InGrid(n, r, c)
    ensures Corner <= ExpectedSpace(scene, n, r, c).beside <==>
      VerticalWallAt(scene, n, r, c) && HorizontalWallAt(scene, n, r, c)
  {
    WallMarksExact(scene, n, r, c);
  }

  lemma OnMeans(scene: CrimeScene, n: int, r: int, c: int, t: FurnitureType)
    requires ValidScene(n, scene) && InGrid(n, r, c)
    ensures ExpectedSpace(scene, n, r, c).on == Some(t) <==>
      exists i :: LastCover(scene.furniture, i, r, c) && scene.furniture[i].furnitureType == t
  {
    var fs := scene.furniture;
    OnAfterMeans(fs, None, r, c);
    if ExpectedSpace(scene, n, r, c).on == Some(t) {
      if exists i :: 0 <= i < |fs| && Coordinate(r, c) in fs[i].coordinates {
        var i :| 0 <= i < |fs| && Coordinate(r, c) in fs[i].coordinates;
        LastCoverExists(fs, i, r, c);
      }
    }
  }

  /** What each query asks of a cell, in terms of the crime scene rather
      than the built board. */
  lemma SelectedMeans(scene: CrimeScene, n: int, q: Query, r: int, c: int)
    requires ValidScene(n, scene) && InGrid(n, r, c)
    ensures q.RoomQuery? ==> (Selected(scene, n, q, r, c) <==> RoomAt(scene, n, r, c) == q.roomClue.roomId)
    ensures q.MessageQuery? ==> !Selected(scene, n, q, r, c)
    ensures q.PersonQuery? ==>
      var t := q.personClue.target;
      && (t.InRoom? ==> (Selected(scene, n, q, r, c) <==> RoomAt(scene, n, r, c) == t.roomId))
      && (t.BesideWindow? ==>
            (Selected(scene, n, q, r, c) <==>
             (t.besideWindow <==> exists i :: 0 <= i < |scene.windows| && WindowTouches(scene.windows[i], r, c))))
      && (t.Beside? ==>
            (Selected(scene, n, q, r, c) <==>
             exists i :: 0 <= i < |scene.furniture| && scene.furniture[i].furnitureType == t.besideFeature &&
                         BesidePiece(scene, n, scene.furniture[i], r, c)))
      && (t.On? ==>
            (Selected(scene, n, q, r, c) <==>
             exists i :: LastCover(scene.furniture, i, r, c) && scene.furniture[i].furnitureType == t.onFeature))
      && (t.InCorner? ==>
            (Selected(scene, n, q, r, c) <==>
             (t.inCorner <==> VerticalWallAt(scene, n, r, c) && HorizontalWallAt(scene, n, r, c))))
      && (t.SameRow? || t.SameColumn? || t.NoTarget? ==> !Selected(scene, n, q, r, c))
  {
    if q.PersonQuery? {
      match q.personClue.target
      case BesideWindow(_) => WindowMarkMeans(scene, n, r, c);
      case Beside(t) => FurnitureMarkMeans(scene, n, r, c, t);
      case On(t) => OnMeans(scene, n, r, c, t);
      case InCorner(_) => CornerMeans(scene, n, r, c);
      case _ =>
    }
  }

  /** The two kinds of line `_set_person_clue` walks for a same-row or a
      same-column clue. */
  datatype Line = RowLine | ColumnLine

  /** The line of a variable. */
  function LineOf(line: Line, v: Var): int {
    if line == RowLine then v.row else v.column
  }

  /** The furniture index of line k: `_rowwise_furniture[k]` or
      `_columwise_furniture[k]`. */
  function LineIndex(scene: CrimeScene, line: Line, k: int): set<Mark> {
    if line == RowLine then ExpectedRowIndex(scene, k) else ExpectedColumnIndex(scene, k)
  }

  /** Person p's variables along line k. */
  function LineTerms(n: nat, p: int, line: Line, k: int): (terms: seq<Var>)
    ensures 0 <= k < n ==> forall v: Var :: v in terms <==> v.person == p && LineOf(line, v) == k && InGrid(n, v.row, v.column)
  {
    if line == RowLine then
      var terms := seq(n, c => Var(p, k, c));
      assert forall v: Var :: v.person == p && v.row == k && InGrid(n, v.row, v.column) ==> v == terms[v.column];
      terms
    else
      var terms := seq(n, r => Var(p, r, k));
      assert forall i :: 0 <= i < n ==> terms[i] == Var(p, i, k);
      assert forall v: Var :: v.person == p && v.column == k && InGrid(n, v.row, v.column) ==> v == terms[v.row];
      terms
  }

  /** The `== 0` constraints a same-row or same-column clue adds for the
      lines before k whose index lacks the mark. */
  function LineConstraints(scene: CrimeScene, n: nat, p: int, m: Mark, line: Line, k: nat): seq<LinearConstraint> {
    if k == 0 then []
    else
      LineConstraints(scene, n, p, m, line, k - 1) +
      (if m !in LineIndex(scene, line, k - 1) then [LinearConstraint(LineTerms(n, p, line, k - 1), Equal, 0)] else [])
  }

  /** One step of `_set_person_clue`'s same-row (same-column) loop: line k
      adds its constraint, if its index lacks the mark, after those of the
      lines before it. */
  lemma LineConstraintsAppend(scene: CrimeScene, n: nat, p: int, m: Mark, line: Line, k: nat,
                              start: seq<LinearConstraint>, before: seq<LinearConstraint>, after: seq<LinearConstraint>, lacks: bool)
    requires before == start + LineConstraints(scene, n, p, m, line, k)
    requires lacks == (m !in LineIndex(scene, line, k))
    requires after == before + (if lacks then [LinearConstraint(LineTerms(n, p, line, k), Equal, 0)] else [])
    ensures after == start + LineConstraints(scene, n, p, m, line, k + 1)
  {
  }

  /** Every person's variables on the cells, people outer and cells inner. */
  function RoomClueTerms(n: nat, cells: seq<Coordinate>): (terms: seq<Var>)
    ensures forall v :: v in terms <==> 0 <= v.person < n && Coordinate(v.row, v.column) in cells
  {
    var ss := seq(n, p => seq(|cells|, k requires 0 <= k < |cells| => Var(p, cells[k].row, cells[k].column)));
    forall v ensures v in Concat(ss) <==> 0 <= v.person < n && Coordinate(v.row, v.column) in cells {
      ConcatMembership(ss, v);
      if 0 <= v.person < n && Coordinate(v.row, v.column) in cells {
        var k :| 0 <= k < |cells| && cells[k] == Coordinate(v.row, v.column);
        assert ss[v.person][k] == v;
      }
    }
    Concat(ss)
  }

  /** Person p's variables on the cells, in the cells' order. */
  function PersonCellTerms(p: int, cells: seq<Coordinate>): (terms: seq<Var>)
    ensures forall v :: v in terms <==> v.person == p && Coordinate(v.row, v.column) in cells
    ensures NoDup(cells) ==> NoDup(terms)
  {
    var terms := seq(|cells|, k requires 0 <= k < |cells| => Var(p, cells[k].row, cells[k].column));
    assert forall k :: 0 <= k < |cells| ==> cells[k] == Coordinate(terms[k].row, terms[k].column);
    terms
  }

  /** The constraint an occupied room clue adds: someone is on one of the
      room's cells. */
  function RoomClueConstraints(scene: CrimeScene, n: nat, rc: RoomClue): seq<LinearConstraint>
    requires ValidScene(n, scene)
  {
    if rc.isOccupied then [LinearConstraint(RoomClueTerms(n, ClueCells(scene, n, RoomQuery(rc))), AtLeast, 1)] else []
  }

  /** The constraints `_set_person_clue` adds. */
  function PersonClueConstraints(scene: CrimeScene, n: nat, pc: PersonClue): seq<LinearConstraint>
    requires ValidScene(n, scene)
  {
    match pc.target
    case SameRow(t) => LineConstraints(scene, n, pc.personId, FurnitureMark(t), RowLine, n)
    case SameColumn(t) => LineConstraints(scene, n, pc.personId, FurnitureMark(t), ColumnLine, n)
    case _ =>
      [LinearConstraint(PersonCellTerms(pc.personId, ClueCells(scene, n, PersonQuery(pc))), Equal, if pc.negate then 0 else 1)]
  }

  function ConstraintsOfClue(scene: CrimeScene, n: nat, clue: Clue): seq<LinearConstraint>
    requires ValidScene(n, scene)
  {
    match clue
    case RoomClueOf(rc) => RoomClueConstraints(scene, n, rc)
    case PersonClueOf(pc) => PersonClueConstraints(scene, n, pc)
    case EmptyClue => []
  }

  /** The constraints `_set_clues` adds for the clues, in order. */
  function ClueConstraints(scene: CrimeScene, n: nat, clues: seq<Clue>): seq<LinearConstraint>
    requires ValidScene(n, scene)
  {
    if clues == [] then []
    else ClueConstraints(scene, n, clues[..|clues| - 1]) + ConstraintsOfClue(scene, n, clues[|clues| - 1])
  }

  /** Appending clue i's constraints to those of the clues before it, after
      any earlier constraints, gives those of the first i + 1 clues. */
  lemma ClueConstraintsStep(scene: CrimeScene, n: nat, clues: seq<Clue>, i: int,
                            start: seq<LinearConstraint>, before: seq<LinearConstraint>, after: seq<LinearConstraint>)
    requires ValidScene(n, scene) && 0 <= i < |clues|
    requires before == start + ClueConstraints(scene, n, clues[..i])
    requires after == before + ConstraintsOfClue(scene, n, clues[i])
    ensures after == start + ClueConstraints(scene, n, clues[..i + 1])
  {
    assert clues[..i + 1][..i] == clues[..i];
  }

  /** What `_get_unoccupied_room_coordinates` should return: the cells of
      each unoccupied room clue's room, clue by clue. */
  function UnoccupiedCells(scene: CrimeScene, n: nat, clues: seq<Clue>): seq<Coordinate>
    requires ValidScene(n, scene)
  {
    if clues == [] then []
    else UnoccupiedCells(scene, n, clues[..|clues| - 1]) + EmptyRoomCells(scene, n, clues[|clues| - 1])
  }

  /** Clue i says room k is unoccupied. */
  predicate EmptyRoomClue(clues: seq<Clue>, i: int, k: int) {
    0 <= i < |clues| && clues[i].RoomClueOf? && !clues[i].roomClue.isOccupied && clues[i].roomClue.roomId == k
  }

  /** The cells one clue makes unavailable. */
  function EmptyRoomCells(scene: CrimeScene, n: nat, clue: Clue): (cells: seq<Coordinate>)
    requires ValidScene(n, scene)
    ensures forall q :: q in cells <==>
      CellInGrid(n, q) && clue.RoomClueOf? && !clue.roomClue.isOccupied && RoomAt(scene, n, q.row, q.column) == clue.roomClue.roomId
  {
    if clue.RoomClueOf? && !clue.roomClue.isOccupied then
      var query := RoomQuery(clue.roomClue);
      ClueCellsMeans(scene, n, query);
      assert forall q :: CellInGrid(n, q) ==> (Selected(scene, n, query, q.row, q.column) <==> RoomAt(scene, n, q.row, q.column) == clue.roomClue.roomId) by {
        forall q | CellInGrid(n, q) {
          SelectedMeans(scene, n, query, q.row, q.column);
        }
      }
      ClueCells(scene, n, query)
    else []
  }

  /** The unoccupied cells are exactly the cells of the rooms some clue
      says are unoccupied. */
  lemma {:induction false} UnoccupiedCellsMeans(scene: CrimeScene, n: nat, clues: seq<Clue>, q: Coordinate)
    requires ValidScene(n, scene)
    ensures q in UnoccupiedCells(scene, n, clues) <==>
      CellInGrid(n, q) && exists i :: EmptyRoomClue(clues, i, RoomAt(scene, n, q.row, q.column))
  {
    if clues != [] {
      var init := clues[..|clues| - 1];
      var clue := clues[|clues| - 1];
      UnoccupiedCellsMeans(scene, n, init, q);
      assert UnoccupiedCells(scene, n, clues) == UnoccupiedCells(scene, n, init) + EmptyRoomCells(scene, n, clue);
      if CellInGrid(n, q) {
        EmptyRoomClueLast(clues, init, RoomAt(scene, n, q.row, q.column));
      }
    }
  }

  /** Some clue says room k is unoccupied exactly when one before the last
      does, or the last does. */
  lemma EmptyRoomClueLast(clues: seq<Clue>, init: seq<Clue>, k: int)
    requires clues != [] && init == clues[..|clues| - 1]
    ensures (exists i :: EmptyRoomClue(clues, i, k)) <==>
      (exists i :: EmptyRoomClue(init, i, k)) || EmptyRoomClue(clues, |init|, k)
  {
    assert forall i :: 0 <= i < |init| ==> (EmptyRoomClue(init, i, k) <==> EmptyRoomClue(clues, i, k));
  }

  /** An occupied room clue's constraint holds exactly when someone stands
      in a cell of the room. */
  lemma RoomClueHolds(a: Assignment, unavailable: set<Coordinate>, n: nat, cells: seq<Coordinate>)
    ensures Holds(a, unavailable, LinearConstraint(RoomClueTerms(n, cells), AtLeast, 1)) <==>
      exists v: Var :: 0 <= v.person < n && Coordinate(v.row, v.column) in cells && Occupied(a, unavailable, v)
  {
    SumPositiveMeans(a, unavailable, RoomClueTerms(n, cells));
  }

  /** For a person standing on exactly one cell pos, the constraint of a
      cell-set clue holds exactly when pos is among the cells, or, for a
      negated clue, exactly when it is not. */
  lemma PersonCellsHold(a: Assignment, unavailable: set<Coordinate>, n: nat, p: int, cells: seq<Coordinate>, negate: bool, pos: Coordinate)
    requires NoDup(cells) && forall k :: 0 <= k < |cells| ==> CellInGrid(n, cells[k])
    requires Occupied(a, unavailable, Var(p, pos.row, pos.column))
    requires forall v: Var :: v.person == p && InGrid(n, v.row, v.column) && Occupied(a, unavailable, v) ==> v == Var(p, pos.row, pos.column)
    ensures Holds(a, unavailable, LinearConstraint(PersonCellTerms(p, cells), Equal, if negate then 0 else 1)) <==>
      (pos in cells) != negate
  {
    var terms := PersonCellTerms(p, cells);
    SumZeroMeans(a, unavailable, terms);
    SumOneMeans(a, unavailable, terms);
    if pos in cells {
      assert Var(p, pos.row, pos.column) in terms;
    }
  }

  /** Person p stands on no cell, in lines 0 to k - 1, whose line's index
      lacks the mark m. */
  ghost predicate LinesAllowed(a: Assignment, unavailable: set<Coordinate>, scene: CrimeScene, n: nat, p: int, m: Mark, line: Line, k: int) {
    forall v: Var :: v.person == p && InGrid(n, v.row, v.column) && LineOf(line, v) < k && Occupied(a, unavailable, v) ==>
      m in LineIndex(scene, line, LineOf(line, v))
  }

  lemma {:induction false} LineConstraintsMean(a: Assignment, unavailable: set<Coordinate>, scene: CrimeScene, n: nat, p: int, m: Mark, line: Line, k: nat)
    requires k <= n
    ensures Satisfies(a, unavailable, LineConstraints(scene, n, p, m, line, k)) <==> LinesAllowed(a, unavailable, scene, n, p, m, line, k)
    decreases k
  {
    if k > 0 {
      LineConstraintsMean(a, unavailable, scene, n, p, m, line, k - 1);
      LineConstraintsMeanStep(a, unavailable, scene, n, p, m, line, k);
    }
  }

  lemma LineConstraintsMeanStep(a: Assignment, unavailable: set<Coordinate>, scene: CrimeScene, n: nat, p: int, m: Mark, line: Line, k: nat)
    requires 0 < k <= n
    requires Satisfies(a, unavailable, LineConstraints(scene, n, p, m, line, k - 1)) <==> LinesAllowed(a, unavailable, scene, n, p, m, line, k - 1)
    ensures Satisfies(a, unavailable, LineConstraints(scene, n, p, m, line, k)) <==> LinesAllowed(a, unavailable, scene, n, p, m, line, k)
  {
    LineConstraintsStep(a, unavailable, scene, n, p, m, line, k);
    LinesAllowedStep(a, unavailable, scene, n, p, m, line, k);
  }

  /** The constraints of lines 0 to k - 1 hold exactly when those of lines
      0 to k - 2 hold and line k - 1 is allowed. */
  lemma LineConstraintsStep(a: Assignment, unavailable: set<Coordinate>, scene: CrimeScene, n: nat, p: int, m: Mark, line: Line, k: nat)
    requires 0 < k <= n
    ensures Satisfies(a, unavailable, LineConstraints(scene, n, p, m, line, k)) <==>
      Satisfies(a, unavailable, LineConstraints(scene, n, p, m, line, k - 1)) && LineAllowed(a, unavailable, n, p, line, k - 1, m in LineIndex(scene, line, k - 1))
  {
    var has := m in LineIndex(scene, line, k - 1);
    var extra: seq<LinearConstraint> := if !has then [LinearConstraint(LineTerms(n, p, line, k - 1), Equal, 0)] else [];
    LineStepMeans(a, unavailable, n, p, line, k - 1, has);
    SatisfiesAppend(a, unavailable, LineConstraints(scene, n, p, m, line, k - 1), extra);
  }

  /** Lines 0 to k - 1 are allowed exactly when lines 0 to k - 2 are and
      line k - 1 is. */
  lemma LinesAllowedStep(a: Assignment, unavailable: set<Coordinate>, scene: CrimeScene, n: nat, p: int, m: Mark, line: Line, k: int)
    requires 0 < k
    ensures LinesAllowed(a, unavailable, scene, n, p, m, line, k) <==>
      LinesAllowed(a, unavailable, scene, n, p, m, line, k - 1) && LineAllowed(a, unavailable, n, p, line, k - 1, m in LineIndex(scene, line, k - 1))
  {
  }

  /** Person p stands on no cell of line k, unless the line is allowed. */
  ghost predicate LineAllowed(a: Assignment, unavailable: set<Coordinate>, n: nat, p: int, line: Line, k: int, allowed: bool) {
    forall v: Var :: v.person == p && InGrid(n, v.row, v.column) && LineOf(line, v) == k && Occupied(a, unavailable, v) ==> allowed
  }

  /** The constraint line k adds, if its index lacks the mark, holds exactly
      when person p stands nowhere on line k. */
  lemma LineStepMeans(a: Assignment, unavailable: set<Coordinate>, n: nat, p: int, line: Line, k: int, has: bool)
    requires 0 <= k < n
    ensures Satisfies(a, unavailable, if !has then [LinearConstraint(LineTerms(n, p, line, k), Equal, 0)] else []) <==>
      LineAllowed(a, unavailable, n, p, line, k, has)
  {
    if !has {
      var c := LinearConstraint(LineTerms(n, p, line, k), Equal, 0);
      SatisfiesSingle(a, unavailable, c);
      SumZeroMeans(a, unavailable, LineTerms(n, p, line, k));
    }
  }

  /** For a person standing on exactly one cell pos, the constraints of a
      same-row (same-column) clue hold exactly when pos's row (column)
      holds the feature. */
  lemma SameLineHolds(a: Assignment, unavailable: set<Coordinate>, scene: CrimeScene, n: nat, p: int, m: Mark, line: Line, pos: Coordinate)
    requires CellInGrid(n, pos)
    requires Occupied(a, unavailable, Var(p, pos.row, pos.column))
    requires forall v: Var :: v.person == p && InGrid(n, v.row, v.column) && Occupied(a, unavailable, v) ==> v == Var(p, pos.row, pos.column)
    ensures Satisfies(a, unavailable, LineConstraints(scene, n, p, m, line, n)) <==>
      m in LineIndex(scene, line, LineOf(line, Var(p, pos.row, pos.column)))
  {
    LineConstraintsMean(a, unavailable, scene, n, p, m, line, n);
  }

  /** Every person clue names one of the n people. (`_occupancies` is
      indexed with the id; anything outside raises or wraps around.) */
  predicate PersonIdsInRange(n: nat, clues: seq<Clue>) {
    forall i :: 0 <= i < |clues| && clues[i].PersonClueOf? ==> 0 <= clues[i].personClue.personId < n
  }

  function Elements(s: seq<Coordinate>): (e: set<Coordinate>)
    ensures forall q :: q in e <==> q in s
  {
    set q | q in s
  }

  /** The cells `_create_model` fills with the constant 0: the cells of
      furniture no one may stand on and the cells of the rooms a clue says
      are empty. */
  function Unavailable(scene: CrimeScene, n: nat, clues: seq<Clue>): set<Coordinate>
    requires ValidScene(n, scene)
  {
    Elements(BlockedCells(scene.furniture) + UnoccupiedCells(scene, n, clues))
  }

  /** The statuses `CpSolver.Solve` reports. */
  datatype SolveStatus = Optimal | Feasible | Infeasible | ModelInvalid | Unknown

  /** pos is what `_get_position` returns for person p: the first occupied
      cell of p in row-major order, or (-1, -1) when p occupies none. */
  ghost predicate FirstOccupied(a: Assignment, unavailable: set<Coordinate>, n: nat, p: int, pos: Coordinate) {
    if Filled(a, unavailable, n, PersonAxis, p) then
      && CellInGrid(n, pos)
      && Occupied(a, unavailable, Var(p, pos.row, pos.column))
      && forall r, c :: InGrid(n, r, c) && RowMajorBefore(Coordinate(r, c), pos) ==> !Occupied(a, unavailable, Var(p, r, c))
    else
      pos == Coordinate(-1, -1)
  }

  /** A coordinate Python can index the board with: in the grid or counted
      from the far edge. */
  predicate Indexable(n: int, q: Coordinate) {
    -n <= q.row < n && -n <= q.column < n
  }

  /** `_get_room_of_person`: the room of person pid's recorded position. */
  function RoomOfPosition(scene: CrimeScene, n: nat, positions: seq<Position>, pid: int): int
    requires ValidScene(n, scene) && 0 <= pid < |positions| && Indexable(n, positions[pid].coordinate)
  {
    var q := positions[pid].coordinate;
    RoomAt(scene, n, Wrap(n, q.row), Wrap(n, q.column))
  }

  /** Person i is the first victim of the list. */
  predicate FirstVictim(people: seq<Person>, i: int) {
    && 0 <= i < |people|
    && people[i].personType == Victim
    && forall j :: 0 <= j < i ==> people[j].personType != Victim
  }

  /** The recorded positions can be looked up by every person's id. */
  predicate PositionsReadable(n: nat, people: seq<Person>, positions: seq<Position>) {
    forall i :: 0 <= i < |people| ==>
      0 <= people[i].id < |positions| && Indexable(n, positions[people[i].id].coordinate)
  }

  /** Every person's id can index the n recorded positions. */
  predicate PeopleIdsInRange(n: nat, people: seq<Person>) {
    forall i :: 0 <= i < |people| ==> 0 <= people[i].id < n
  }

  /** Person i is a suspect whose position is in the room of person vid's. */
  predicate InMurderRoom(scene: CrimeScene, n: nat, people: seq<Person>, positions: seq<Position>, vid: int, i: int)
    requires ValidScene(n, scene) && PositionsReadable(n, people, positions)
    requires 0 <= vid < |positions| && Indexable(n, positions[vid].coordinate)
  {
    && 0 <= i < |people|
    && people[i].personType == Suspect
    && RoomOfPosition(scene, n, positions, people[i].id) == RoomOfPosition(scene, n, positions, vid)
  }

  /** What `_set_murderer` does to the solution: the positions stay, and
      the murderer becomes the first suspect in the room of the victim vid,
      if there is one; otherwise nothing changes. */
  ghost predicate MurdererRule(scene: CrimeScene, n: nat, people: seq<Person>, before: Solution, after: Solution, vid: int)
    requires ValidScene(n, scene) && PositionsReadable(n, people, before.positions)
    requires 0 <= vid < |before.positions| && Indexable(n, before.positions[vid].coordinate)
  {
    && after.positions == before.positions
    && if exists i :: InMurderRoom(scene, n, people, before.positions, vid, i) then
        exists i :: && InMurderRoom(scene, n, people, before.positions, vid, i)
                    && (forall j :: 0 <= j < i ==> !InMurderRoom(scene, n, people, before.positions, vid, j))
                    && after.murdererId == people[i].id
      else
        after == before
  }

  /** Person p stands on cell q and on no other cell of the board. */
  ghost predicate Alone(a: Assignment, unavailable: set<Coordinate>, n: nat, p: int, q: Coordinate) {
    && CellInGrid(n, q)
    && Occupied(a, unavailable, Var(p, q.row, q.column))
    && forall v: Var :: v.person == p && InGrid(n, v.row, v.column) && Occupied(a, unavailable, v) ==> v == Var(p, q.row, q.column)
  }

  /** Under the uniqueness constraints, the cell `_get_position` reads for
      person p is the one cell of the board p stands on. */
  lemma PlacedAt(a: Assignment, unavailable: set<Coordinate>, n: nat, p: int, pos: Coordinate)
    requires Placement(a, unavailable, n) && 0 <= p < n && FirstOccupied(a, unavailable, n, p, pos)
    ensures Alone(a, unavailable, n, p, pos)
  {
    assert Filled(a, unavailable, n, PersonAxis, p);
    assert Apart(a, unavailable, n, PersonAxis);
  }

  /** `_get_position` is a function of the assignment: two first occupied
      cells of the same person are the same cell. */
  lemma FirstOccupiedUnique(a: Assignment, unavailable: set<Coordinate>, n: nat, p: int, pos: Coordinate, pos': Coordinate)
    requires FirstOccupied(a, unavailable, n, p, pos) && FirstOccupied(a, unavailable, n, p, pos')
    ensures pos == pos'
  {
  }

  /** Each person p stands on exactly one cell of the board, the recorded
      positions[p]. */
  ghost predicate StandsOn(a: Assignment, unavailable: set<Coordinate>, n: nat, positions: seq<Position>) {
    |positions| == n && forall p :: 0 <= p < n ==> Alone(a, unavailable, n, p, positions[p].coordinate)
  }

  /** What a room clue says: someone is in the room when it is occupied,
      and no one when it is not. */
  ghost predicate RoomClueMet(scene: CrimeScene, n: nat, rc: RoomClue, positions: seq<Position>)
    requires ValidScene(n, scene) && |positions| == n
    requires forall p :: 0 <= p < n ==> InGrid(n, positions[p].coordinate.row, positions[p].coordinate.column)
  {
    (exists p :: 0 <= p < n && RoomAt(scene, n, positions[p].coordinate.row, positions[p].coordinate.column) == rc.roomId)
      == rc.isOccupied
  }

  /** What a person clue says of the person's cell q: for a same-row
      (same-column) clue that q's row (column) holds the furniture; for
      any other that q passes the clue, or for a negated clue that it does
      not. */
  ghost predicate PersonClueMet(scene: CrimeScene, n: nat, pc: PersonClue, q: Coordinate)
    requires ValidScene(n, scene) && CellInGrid(n, q)
  {
    match pc.target
    case SameRow(t) => FurnitureMark(t) in ExpectedRowIndex(scene, q.row)
    case SameColumn(t) => FurnitureMark(t) in ExpectedColumnIndex(scene, q.column)
    case _ => Selected(scene, n, PersonQuery(pc), q.row, q.column) != pc.negate
  }

  /** What a clue says of where the people stand. */
  ghost predicate ClueMet(scene: CrimeScene, n: nat, clue: Clue, positions: seq<Position>)
    requires ValidScene(n, scene) && |positions| == n
    requires forall p :: 0 <= p < n ==> InGrid(n, positions[p].coordinate.row, positions[p].coordinate.column)
  {
    match clue
    case RoomClueOf(rc) => RoomClueMet(scene, n, rc, positions)
    case PersonClueOf(pc) => 0 <= pc.personId < n && PersonClueMet(scene, n, pc, positions[pc.personId].coordinate)
    case EmptyClue => true
  }

  /** An occupied room clue's constraint holds of the positions. */
  lemma OccupiedRoomMet(a: Assignment, unavailable: set<Coordinate>, scene: CrimeScene, n: nat, rc: RoomClue, positions: seq<Position>)
    requires ValidScene(n, scene) && StandsOn(a, unavailable, n, positions) && rc.isOccupied
    requires Holds(a, unavailable, LinearConstraint(RoomClueTerms(n, ClueCells(scene, n, RoomQuery(rc))), AtLeast, 1))
    ensures RoomClueMet(scene, n, rc, positions)
  {
    var query := RoomQuery(rc);
    var cells := ClueCells(scene, n, query);
    ClueCellsMeans(scene, n, query);
    RoomClueHolds(a, unavailable, n, cells);
    var v: Var :| 0 <= v.person < n && Coordinate(v.row, v.column) in cells && Occupied(a, unavailable, v);
    var q := positions[v.person].coordinate;
    assert Alone(a, unavailable, n, v.person, q);
    assert v == Var(v.person, q.row, q.column);
    SelectedMeans(scene, n, query, q.row, q.column);
  }

  /** With the cells of its room unavailable, an unoccupied room clue holds
      of the positions. */
  lemma UnoccupiedRoomMet(a: Assignment, unavailable: set<Coordinate>, scene: CrimeScene, n: nat, rc: RoomClue, positions: seq<Position>)
    requires ValidScene(n, scene) && StandsOn(a, unavailable, n, positions) && !rc.isOccupied
    requires forall q :: CellInGrid(n, q) && RoomAt(scene, n, q.row, q.column) == rc.roomId ==> q in unavailable
    ensures RoomClueMet(scene, n, rc, positions)
  {
    forall p | 0 <= p < n
      ensures RoomAt(scene, n, positions[p].coordinate.row, positions[p].coordinate.column) != rc.roomId
    {
      var q := positions[p].coordinate;
      assert Alone(a, unavailable, n, p, q);
    }
  }

  /** A person clue's constraints hold of the person's only cell q. */
  lemma PersonClueHolds(a: Assignment, unavailable: set<Coordinate>, scene: CrimeScene, n: nat, pc: PersonClue, q: Coordinate)
    requires ValidScene(n, scene) && Alone(a, unavailable, n, pc.personId, q)
    requires Satisfies(a, unavailable, PersonClueConstraints(scene, n, pc))
    ensures PersonClueMet(scene, n, pc, q)
  {
    var p := pc.personId;
    match pc.target {
      case SameRow(t) =>
        SameLineHolds(a, unavailable, scene, n, p, FurnitureMark(t), RowLine, q);
      case SameColumn(t) =>
        SameLineHolds(a, unavailable, scene, n, p, FurnitureMark(t), ColumnLine, q);
      case _ =>
        assert Holds(a, unavailable, PersonClueConstraints(scene, n, pc)[0]);
        PersonCellsMet(a, unavailable, scene, n, pc, q);
    }
  }

  lemma PersonCellsMet(a: Assignment, unavailable: set<Coordinate>, scene: CrimeScene, n: nat, pc: PersonClue, q: Coordinate)
    requires ValidScene(n, scene) && Alone(a, unavailable, n, pc.personId, q)
    requires Holds(a, unavailable, LinearConstraint(PersonCellTerms(pc.personId, ClueCells(scene, n, PersonQuery(pc))), Equal, if pc.negate then 0 else 1))
    ensures Selected(scene, n, PersonQuery(pc), q.row, q.column) != pc.negate
  {
    var cells := ClueCells(scene, n, PersonQuery(pc));
    ClueCellsMeans(scene, n, PersonQuery(pc));
    PersonCellsHold(a, unavailable, n, pc.personId, cells, pc.negate, q);
  }

  /** The clues' constraints are satisfied exactly when each clue's are. */
  lemma {:induction false} ClueConstraintsMean(a: Assignment, unavailable: set<Coordinate>, scene: CrimeScene, n: nat, clues: seq<Clue>)
    requires ValidScene(n, scene)
    ensures Satisfies(a, unavailable, ClueConstraints(scene, n, clues)) <==>
      forall i :: 0 <= i < |clues| ==> Satisfies(a, unavailable, ConstraintsOfClue(scene, n, clues[i]))
  {
    if clues != [] {
      var init, last := clues[..|clues| - 1], clues[|clues| - 1];
      ClueConstraintsMean(a, unavailable, scene, n, init);
      SatisfiesAppend(a, unavailable, ClueConstraints(scene, n, init), ConstraintsOfClue(scene, n, last));
      assert ClueConstraints(scene, n, clues) == ClueConstraints(scene, n, init) + ConstraintsOfClue(scene, n, last);
      if forall i :: 0 <= i < |clues| ==> Satisfies(a, unavailable, ConstraintsOfClue(scene, n, clues[i])) {
        forall i | 0 <= i < |init|
          ensures Satisfies(a, unavailable, ConstraintsOfClue(scene, n, init[i]))
        {
          assert init[i] == clues[i];
        }
      }
      if forall i :: 0 <= i < |init| ==> Satisfies(a, unavailable, ConstraintsOfClue(scene, n, init[i])) {
        forall i | 0 <= i < |clues| - 1
          ensures Satisfies(a, unavailable, ConstraintsOfClue(scene, n, clues[i]))
        {
          assert init[i] == clues[i];
        }
      }
    }
  }

  /** Under the uniqueness constraints no two people share a row or a
      column. */
  lemma PositionsApart(a: Assignment, unavailable: set<Coordinate>, n: nat, positions: seq<Position>)
    requires Placement(a, unavailable, n) && StandsOn(a, unavailable, n, positions)
    ensures forall p, p' :: 0 <= p < p' < n ==>
      positions[p].coordinate.row != positions[p'].coordinate.row &&
      positions[p].coordinate.column != positions[p'].coordinate.column
  {
    forall p, p' | 0 <= p < p' < n
      ensures positions[p].coordinate.row != positions[p'].coordinate.row
      ensures positions[p].coordinate.column != positions[p'].coordinate.column
    {
      var q, q' := positions[p].coordinate, positions[p'].coordinate;
      assert Alone(a, unavailable, n, p, q) && Alone(a, unavailable, n, p', q');
      assert Apart(a, unavailable, n, RowAxis) && Apart(a, unavailable, n, ColumnAxis);
    }
  }

  /** Clue i's constraints, with the unavailable cells `_create_model`
      fixes, hold of the positions. */
  lemma ClueMetAt(a: Assignment, scene: CrimeScene, n: nat, clues: seq<Clue>, i: int, positions: seq<Position>)
    requires ValidScene(n, scene) && PersonIdsInRange(n, clues) && 0 <= i < |clues|
    requires StandsOn(a, Unavailable(scene, n, clues), n, positions)
    requires Satisfies(a, Unavailable(scene, n, clues), ConstraintsOfClue(scene, n, clues[i]))
    ensures ClueMet(scene, n, clues[i], positions)
  {
    var u := Unavailable(scene, n, clues);
    match clues[i] {
      case RoomClueOf(rc) =>
        if rc.isOccupied {
          assert Holds(a, u, RoomClueConstraints(scene, n, rc)[0]);
          OccupiedRoomMet(a, u, scene, n, rc, positions);
        } else {
          forall q | CellInGrid(n, q) && RoomAt(scene, n, q.row, q.column) == rc.roomId
            ensures q in u
          {
            assert EmptyRoomClue(clues, i, RoomAt(scene, n, q.row, q.column));
            UnoccupiedCellsMeans(scene, n, clues, q);
          }
          UnoccupiedRoomMet(a, u, scene, n, rc, positions);
        }
      case PersonClueOf(pc) =>
        assert Alone(a, u, n, pc.personId, positions[pc.personId].coordinate);
        PersonClueHolds(a, u, scene, n, pc, positions[pc.personId].coordinate);
      case EmptyClue =>
    }
  }

  /** The correctness of the whole solver: when the assignment satisfies the
      program `_create_model` builds (with the unavailable cells fixed to
      0), the positions `_set_positions` reads off it put every person on a
      cell of the board no piece of furniture blocks, in distinct rows and
      distinct columns, and meet every clue. */
  lemma SolutionMeetsClues(a: Assignment, scene: CrimeScene, n: nat, clues: seq<Clue>, positions: seq<Position>)
    requires ValidScene(n, scene) && PersonIdsInRange(n, clues)
    requires Satisfies(a, Unavailable(scene, n, clues), UniquenessConstraints(n) + ClueConstraints(scene, n, clues))
    requires |positions| == n
    requires forall p :: 0 <= p < n ==> FirstOccupied(a, Unavailable(scene, n, clues), n, p, positions[p].coordinate)
    ensures forall p :: 0 <= p < n ==>
      CellInGrid(n, positions[p].coordinate) && positions[p].coordinate !in BlockedCells(scene.furniture)
    ensures forall p, p' :: 0 <= p < p' < n ==>
      positions[p].coordinate.row != positions[p'].coordinate.row &&
      positions[p].coordinate.column != positions[p'].coordinate.column
    ensures forall i :: 0 <= i < |clues| ==> ClueMet(scene, n, clues[i], positions)
  {
    var u := Unavailable(scene, n, clues);
    SatisfiesAppend(a, u, UniquenessConstraints(n), ClueConstraints(scene, n, clues));
    UniquenessMeans(a, u, n);
    forall p | 0 <= p < n
      ensures Alone(a, u, n, p, positions[p].coordinate)
    {
      PlacedAt(a, u, n, p, positions[p].coordinate);
    }
    PositionsApart(a, u, n, positions);
    ClueConstraintsMean(a, u, scene, n, clues);
    forall i | 0 <= i < |clues|
      ensures ClueMet(scene, n, clues[i], positions)
    {
      ClueMetAt(a, scene, n, clues, i, positions);
    }
  }

  /** The loops of `_get_clue_coordinates` over the spaces of a built
      board: every space, row by row, is tested against the query. */
  method ClueCoordinatesOn(spaces: array2<Space>, scene: CrimeScene, n: nat, q: Query) returns (r: Result<seq<Coordinate>, SolverError>)
    requires ValidScene(n, scene) && spaces.Length0 == n && spaces.Length1 == n
    requires forall r, c :: InGrid(n, r, c) ==> spaces[r, c] == ExpectedSpace(scene, n, r, c)
    ensures q.MessageQuery? ==> r == Err(NoSuchField("room_id"))
    ensures !q.MessageQuery? ==> r == Ok(ClueCells(scene, n, q))
  {
    var coordinates := [];
    var row := 0;
    while row < n
      invariant 0 <= row <= n
      invariant coordinates == SelectedRows(scene, n, q, row)
      invariant q.MessageQuery? ==> row == 0
    {
      var cells := RowCoordinatesOn(spaces, scene, n, q, row);
      if cells.Err? {
        return Err(cells.error);
      }
      coordinates := coordinates + cells.value;
      row := row + 1;
    }
    return Ok(coordinates);
  }

  /** The inner loop of `_get_clue_coordinates`: the spaces of one row, left
      to right; the first one raises on a query it cannot read. */
  method RowCoordinatesOn(spaces: array2<Space>, scene: CrimeScene, n: nat, q: Query, row: int) returns (r: Result<seq<Coordinate>, SolverError>)
    requires ValidScene(n, scene) && spaces.Length0 == n && spaces.Length1 == n && 0 <= row < n
    requires forall c :: 0 <= c < n ==> spaces[row, c] == ExpectedSpace(scene, n, row, c)
    ensures q.MessageQuery? ==> r == Err(NoSuchField("room_id"))
    ensures !q.MessageQuery? ==> r == Ok(SelectedInRow(scene, n, q, row, n))
  {
    var coordinates := [];
    var column := 0;
    while column < n
      invariant 0 <= column <= n
      invariant coordinates == SelectedInRow(scene, n, q, row, column)
      invariant q.MessageQuery? ==> column == 0
    {
      var e := EvaluateSpace(spaces[row, column], q);
      if e.Err? {
        return Err(e.error);
      }
      if e.value {
        coordinates := coordinates + [Coordinate(row, column)];
      }
      column := column + 1;
    }
    return Ok(coordinates);
  }

  /** The loop of `_set_person_clue`'s same-row (same-column) branch, over
      the furniture index of every line: line k gets its `== 0`
      constraint when its index lacks the mark. */
  method AddLineConstraintsFrom(model: CpModel, scene: CrimeScene, n: nat, p: int, m: Mark, line: Line, index: seq<set<Mark>>)
    requires |index| == n && forall k :: 0 <= k < n ==> index[k] == LineIndex(scene, line, k)
    modifies model
    ensures model.constraints == old(model.constraints) + LineConstraints(scene, n, p, m, line, n)
  {
    var k := 0;
    while k < n
      invariant 0 <= k <= n
      invariant model.constraints == old(model.constraints) + LineConstraints(scene, n, p, m, line, k)
    {
      AddLineConstraint(model, scene, n, p, m, line, k, m !in index[k], old(model.constraints));
      k := k + 1;
    }
  }

  /** One pass of that loop: the `== 0` constraint for line k, when its
      index lacks the mark. */
  method AddLineConstraint(model: CpModel, scene: CrimeScene, n: nat, p: int, m: Mark, line: Line, k: nat, lacks: bool,
                           ghost start: seq<LinearConstraint>)
    requires lacks == (m !in LineIndex(scene, line, k))
    requires model.constraints == start + LineConstraints(scene, n, p, m, line, k)
    modifies model
    ensures model.constraints == start + LineConstraints(scene, n, p, m, line, k + 1)
  {
    ghost var before := model.constraints;
    if lacks {
      model.Add(LinearConstraint(LineTerms(n, p, line, k), Equal, 0));
    }
    LineConstraintsAppend(scene, n, p, m, line, k, start, before, model.constraints, lacks);
  }

  class PuzzleSolver {
    const people: seq<Person>
    const scene: CrimeScene
    const clues: seq<Clue>
    /** `_n`: the number of people, and the side of the board. */
    const n: nat
    /** `_board`. */
    const board: Board
    /** `_model`. */
    const model: CpModel
    /** The cells whose `_occupancies` variables are the constant 0. */
    var unavailable: set<Coordinate>
    /** `_puzzle.solution`. */
    var solution: Solution

    ghost predicate Valid()
      reads this, board, board.spaces
    {
      && n == |people|
      && ValidScene(n, scene)
      && board.n == n && board.scene == scene && board.Built()
      && PersonIdsInRange(n, clues)
    }

    /** `PuzzleSolver.__init__`: build the board, then the model. */
    constructor (puzzle: PuzzleMessage)
      requires ValidScene(|puzzle.people|, puzzle.crimeScene)
      requires PersonIdsInRange(|puzzle.people|, puzzle.clues)
      ensures Valid() && fresh(model)
      ensures people == puzzle.people && scene == puzzle.crimeScene && clues == puzzle.clues
      ensures solution == puzzle.solution
      ensures unavailable == Unavailable(scene, n, clues)
      ensures model.constraints == UniquenessConstraints(n) + ClueConstraints(scene, n, clues)
    {
      people := puzzle.people;
      scene := puzzle.crimeScene;
      clues := puzzle.clues;
      solution := puzzle.solution;
      n := |puzzle.people|;
      board := new Board(|puzzle.people|, puzzle.crimeScene);
      model := new CpModel();
      unavailable := {};
      new;
      CreateModel();
    }

    /** `_create_model`: the constant-0 cells, then the uniqueness
        constraints, then the clues' constraints. */
    method CreateModel()
      requires Valid() && model.constraints == []
      modifies this, model
      ensures unavailable == Unavailable(scene, n, clues)
      ensures model.constraints == UniquenessConstraints(n) + ClueConstraints(scene, n, clues)
      ensures solution == old(solution)
    {
      var unoccupied := GetUnoccupiedRoomCoordinates();
      unavailable := Elements(board.blocked + unoccupied);
      model.AddUniquenessConstraints(n);
      ghost var uniqueness := model.constraints;
      SetClues();
      FromEmpty(old(model.constraints), UniquenessConstraints(n), uniqueness, ClueConstraints(scene, n, clues), model.constraints);
    }

    /** `_get_clue_coordinates`: the cells of the board, row by row, that
        `_evaluate_space_for_clue` accepts; the whole `Puzzle.Clue` message
        makes the first evaluation raise. */
    method GetClueCoordinates(q: Query) returns (r: Result<seq<Coordinate>, SolverError>)
      requires Valid()
      ensures q.MessageQuery? ==> r == Err(NoSuchField("room_id"))
      ensures !q.MessageQuery? ==> r == Ok(ClueCells(scene, n, q))
    {
      r := ClueCoordinatesOn(board.spaces, scene, n, q);
    }

    /** `_get_unoccupied_room_coordinates` as it should be: the cells of the
        room of every unoccupied room clue, clue by clue. */
    method GetUnoccupiedRoomCoordinates() returns (cells: seq<Coordinate>)
      requires Valid()
      ensures cells == UnoccupiedCells(scene, n, clues)
    {
      cells := [];
      var i := 0;
      while i < |clues|
        invariant 0 <= i <= |clues|
        invariant cells == UnoccupiedCells(scene, n, clues[..i])
      {
        assert clues[..i + 1][..i] == clues[..i];
        if clues[i].RoomClueOf? && !clues[i].roomClue.isOccupied {
          var r := GetClueCoordinates(RoomQuery(clues[i].roomClue));
          cells := cells + r.value;
        }
        i := i + 1;
      }
      assert clues[..|clues|] == clues;
    }

    /** `_get_unoccupied_room_coordinates` as written: it hands the whole
        clue message to `_get_clue_coordinates`, so any unoccupied room clue
        raises, and otherwise the list is empty. */
    method GetUnoccupiedRoomCoordinatesAsWritten() returns (r: Result<seq<Coordinate>, SolverError>)
      requires Valid()
      ensures r.Err? <==> exists i :: 0 <= i < |clues| && clues[i].RoomClueOf? && !clues[i].roomClue.isOccupied
      ensures r.Ok? ==> r.value == []
    {
      var cells := [];
      var i := 0;
      while i < |clues|
        invariant 0 <= i <= |clues|
        invariant cells == []
        invariant forall j :: 0 <= j < i ==> !(clues[j].RoomClueOf? && !clues[j].roomClue.isOccupied)
      {
        if clues[i].RoomClueOf? && !clues[i].roomClue.isOccupied {
          var e := GetClueCoordinates(MessageQuery(clues[i]));
          return Err(e.error);
        }
        i := i + 1;
      }
      return Ok(cells);
    }

    /** `_set_clues`: each room clue and each person clue adds its
        constraints, in order. */
    method SetClues()
      requires Valid()
      modifies model
      ensures model.constraints == old(model.constraints) + ClueConstraints(scene, n, clues)
    {
      var i := 0;
      while i < |clues|
        invariant 0 <= i <= |clues|
        invariant model.constraints == old(model.constraints) + ClueConstraints(scene, n, clues[..i])
      {
        ghost var before := model.constraints;
        SetClue(clues[i]);
        ClueConstraintsStep(scene, n, clues, i, old(model.constraints), before, model.constraints);
        i := i + 1;
      }
      assert clues[..|clues|] == clues;
    }

    /** One step of `_set_clues`: a room clue or a person clue adds its
        constraints; a clue with neither adds none. */
    method SetClue(clue: Clue)
      requires Valid()
      modifies model
      ensures model.constraints == old(model.constraints) + ConstraintsOfClue(scene, n, clue)
    {
      match clue {
        case RoomClueOf(rc) => SetRoomClue(rc);
        case PersonClueOf(pc) => SetPersonClue(pc);
        case EmptyClue =>
      }
    }

    /** `_set_room_clue`: an occupied room has someone on one of its cells. */
    method SetRoomClue(rc: RoomClue)
      requires Valid()
      modifies model
      ensures model.constraints == old(model.constraints) + RoomClueConstraints(scene, n, rc)
    {
      if rc.isOccupied {
        var coordinates := GetClueCoordinates(RoomQuery(rc));
        model.Add(LinearConstraint(RoomClueTerms(n, coordinates.value), AtLeast, 1));
      }
    }

    /** `_set_person_clue`. */
    method SetPersonClue(pc: PersonClue)
      requires Valid()
      modifies model
      ensures model.constraints == old(model.constraints) + PersonClueConstraints(scene, n, pc)
    {
      match pc.target
      case SameRow(t) => AddLineConstraints(pc.personId, FurnitureMark(t), RowLine);
      case SameColumn(t) => AddLineConstraints(pc.personId, FurnitureMark(t), ColumnLine);
      case _ =>
        var coordinates := GetClueCoordinates(PersonQuery(pc));
        var value := if pc.negate then 0 else 1;
        model.Add(LinearConstraint(PersonCellTerms(pc.personId, coordinates.value), Equal, value));
    }

    /** The same-row (same-column) branch of `_set_person_clue`: person p
        is on no row (column) whose furniture index lacks the mark. */
    method AddLineConstraints(p: int, m: Mark, line: Line)
      requires Valid()
      modifies model
      ensures model.constraints == old(model.constraints) + LineConstraints(scene, n, p, m, line, n)
    {
      var index := if line == RowLine then board.rowIndex else board.columnIndex;
      AddLineConstraintsFrom(model, scene, n, p, m, line, index);
    }

    /** `_get_position`: the first cell, row by row, on which the solution
        puts person p, or (-1, -1) when there is none. */
    method GetPosition(a: Assignment, p: int) returns (pos: Coordinate)
      requires 0 <= p < n
      ensures FirstOccupied(a, unavailable, n, p, pos)
    {
      var row := 0;
      while row < n
        invariant 0 <= row <= n
        invariant forall r, c :: 0 <= r < row && 0 <= c < n ==> !Occupied(a, unavailable, Var(p, r, c))
      {
        var col := 0;
        while col < n
          invariant 0 <= col <= n
          invariant forall c :: 0 <= c < col ==> !Occupied(a, unavailable, Var(p, row, c))
        {
          if Value(a, unavailable, Var(p, row, col)) != 0 {
            return Coordinate(row, col);
          }
          col := col + 1;
        }
        row := row + 1;
      }
      return Coordinate(-1, -1);
    }

    /** `_set_positions`: the recorded positions are replaced by one per
        person, in id order. */
    method SetPositions(a: Assignment)
      modifies this
      ensures |solution.positions| == n
      ensures forall p :: 0 <= p < n ==>
        solution.positions[p].personId == p && FirstOccupied(a, unavailable, n, p, solution.positions[p].coordinate)
      ensures solution.murdererId == old(solution.murdererId)
      ensures unavailable == old(unavailable)
    {
      solution := solution.(positions := []);
      var p := 0;
      while p < n
        invariant 0 <= p <= n
        invariant unavailable == old(unavailable)
        invariant solution.murdererId == old(solution.murdererId)
        invariant |solution.positions| == p
        invariant forall q :: 0 <= q < p ==>
          solution.positions[q].personId == q && FirstOccupied(a, unavailable, n, q, solution.positions[q].coordinate)
      {
        var pos := GetPosition(a, p);
        solution := solution.(positions := solution.positions + [Position(p, pos)]);
        p := p + 1;
      }
    }

    /** `_get_victim_id`: the id of the first victim among the people;
        `None` when there is no victim. */
    method GetVictimId() returns (vid: Option<int>)
      ensures vid.None? <==> forall i :: 0 <= i < |people| ==> people[i].personType != Victim
      ensures vid.Some? ==> exists i :: FirstVictim(people, i) && people[i].id == vid.value
    {
      var i := 0;
      while i < |people|
        invariant 0 <= i <= |people|
        invariant forall j :: 0 <= j < i ==> people[j].personType != Victim
      {
        if people[i].personType == Victim {
          return Some(people[i].id);
        }
        i := i + 1;
      }
      return None;
    }

    /** `_get_room_of_person`: the room of the board space at person pid's
        recorded position. */
    function RoomOfPerson(pid: int): (room: int)
      reads this, board, board.spaces
      requires Valid() && 0 <= pid < |solution.positions| && Indexable(n, solution.positions[pid].coordinate)
      ensures room == RoomOfPosition(scene, n, solution.positions, pid)
    {
      board.RoomOfCoordinate(solution.positions[pid].coordinate)
    }

    /** `_set_murderer`: the first suspect standing in the victim's room
        becomes the murderer; with no such suspect the murderer is left as
        it was. Without a victim, the room lookup on `None` raises. */
    method SetMurderer() returns (r: Result<(), SolverError>)
      requires Valid() && PositionsReadable(n, people, solution.positions)
      modifies this
      ensures unavailable == old(unavailable)
      ensures r.Err? <==> forall i :: 0 <= i < |people| ==> people[i].personType != Victim
      ensures r.Err? ==> r.error == NoVictim && solution == old(solution)
      ensures r.Ok? ==> exists v :: FirstVictim(people, v) && MurdererRule(scene, n, people, old(solution), solution, people[v].id)
    {
      var victim := GetVictimId();
      if victim.None? {
        return Err(NoVictim);
      }
      var vid := victim.value;
      ghost var v :| FirstVictim(people, v) && people[v].id == vid;
      var murderRoom := RoomOfPerson(vid);
      var i := 0;
      while i < |people|
        invariant 0 <= i <= |people|
        invariant solution == old(solution) && unavailable == old(unavailable)
        invariant forall j :: 0 <= j < i ==> !InMurderRoom(scene, n, people, solution.positions, vid, j)
      {
        if people[i].personType == Suspect && RoomOfPerson(people[i].id) == murderRoom {
          solution := solution.(murdererId := people[i].id);
          assert InMurderRoom(scene, n, people, old(solution).positions, vid, i);
          return Ok(());
        }
        i := i + 1;
      }
      return Ok(());
    }

    /** What `_set_solution` leaves behind for an assignment a, given the
        murderer recorded before: one position per person, each the first
        cell the assignment gives that person, and the murderer chosen by
        `_set_murderer` from those positions; r is an error exactly when
        there is no victim. */
    ghost predicate SolutionRead(a: Assignment, oldMurdererId: int, r: Result<(), SolverError>)
      reads this, board, board.spaces
      requires Valid()
    {
      && |solution.positions| == n
      && (forall p :: 0 <= p < n ==>
            solution.positions[p].personId == p && FirstOccupied(a, unavailable, n, p, solution.positions[p].coordinate))
      && PositionsReadable(n, people, solution.positions)
      && (r.Err? <==> forall i :: 0 <= i < |people| ==> people[i].personType != Victim)
      && (r.Err? ==> r.error == NoVictim && solution.murdererId == oldMurdererId)
      && (r.Ok? ==>
            exists v :: FirstVictim(people, v) &&
                        MurdererRule(scene, n, people, Solution(solution.positions, oldMurdererId), solution, people[v].id))
    }

    /** `_set_solution`: the positions, then the murderer. */
    method SetSolution(a: Assignment) returns (r: Result<(), SolverError>)
      requires Valid() && PeopleIdsInRange(n, people)
      modifies this
      ensures Valid() && unavailable == old(unavailable)
      ensures SolutionRead(a, old(solution.murdererId), r)
    {
      SetPositions(a);
      assert forall p :: 0 <= p < n ==> Indexable(n, solution.positions[p].coordinate);
      r := SetMurderer();
    }

    /** `solve`, for the status and the assignment the CP-SAT solver
        returns: only an optimal status is read back into the solution. */
    method Solve(status: SolveStatus, a: Assignment) returns (r: Result<(), SolverError>)
      requires Valid() && PeopleIdsInRange(n, people)
      modifies this
      ensures Valid() && unavailable == old(unavailable)
      ensures status != Optimal ==> r == Ok(()) && solution == old(solution)
      ensures status == Optimal ==> SolutionRead(a, old(solution.murdererId), r)
    {
      r := Ok(());
      if status == Optimal {
        r := SetSolution(a);
      }
    }
  }
}

/** `puzzle_modeler.py`: the `PuzzleModeler`, which builds the same board
    as `PuzzleSolver` (here the shared `BoardModel.Board`), also keeps each
    room's list of cells, and emits the constraint program from those
    lists. The program it emits is the solver's program. */
module Modeler {
  import opened Wrappers
  import opened Puzzle
  import opened BoardModel
  import opened Constraints
  import opened Solver

  datatype ModelerError =
    /** `_set_person_clue` reads `self._columnwise_furniture`, which is
        never assigned: AttributeError. */
    | MissingAttribute(name: string)
    /** `_evaluate_space_for_clue` found none of its fields set and raised
        AttributeError. */
    | NoClueField

  /** Entry i of the flat floor plan is cell `(i // n, i % n)`. */
  function CellOfIndex(n: nat, i: nat): Coordinate
    requires n > 0
  {
    Coordinate(i / n, i % n)
  }

  /** A positive multiple keeps the sign of the factor and is at least
      as large as the multiplier. */
  lemma {:induction false} MulSign(n: int, k: int)
    requires n > 0
    ensures k >= 1 ==> n * k >= n
    ensures k <= -1 ==> n * k <= -n
    decreases if k < 0 then -k else k
  {
    if k > 1 {
      MulSign(n, k - 1);
      assert n * k == n * (k - 1) + n;
    } else if k < -1 {
      MulSign(n, k + 1);
      assert n * k == n * (k + 1) - n;
    }
  }

  lemma CellOfIndexInGrid(n: nat, i: nat)
    requires 0 < n && i < n * n
    ensures CellInGrid(n, CellOfIndex(n, i))
    ensures n * CellOfIndex(n, i).row + CellOfIndex(n, i).column == i
  {
    var r, c := i / n, i % n;
    assert i == n * r + c;
    MulSign(n, r - n + 1);
    assert n * (r - n + 1) == n * r - n * n + n;
  }

  lemma IndexOfCell(n: nat, r: int, c: int)
    requires InGrid(n, r, c)
    ensures CellOfIndex(n, n * r + c) == Coordinate(r, c)
  {
    FlatIndexInRange(n, r, c);
    var i := n * r + c;
    var r', c' := i / n, i % n;
    assert n * r' + c' == n * r + c;
    MulSign(n, r' - r);
    assert n * (r' - r) == n * r' - n * r;
  }

  /** Cells of a grid come in row-major order of their flat indices. */
  lemma FlatOrder(n: nat, a: Coordinate, b: Coordinate)
    requires CellInGrid(n, a) && CellInGrid(n, b) && n * a.row + a.column < n * b.row + b.column
    ensures RowMajorBefore(a, b)
  {
    MulSign(n, a.row - b.row);
    assert n * (a.row - b.row) == n * a.row - n * b.row;
  }

  /** The cells of room k among the first i entries of the floor plan, in
      the order `_get_room_coordinates` appends them. */
  function RoomCellsBefore(scene: CrimeScene, n: nat, k: int, i: nat): seq<Coordinate>
    requires n > 0 && i <= |scene.floorPlan|
  {
    if i == 0 then []
    else RoomCellsBefore(scene, n, k, i - 1) + (if scene.floorPlan[i - 1] == k then [CellOfIndex(n, i - 1)] else [])
  }

  /** `_room_coordinates[k]`. */
  function RoomCells(scene: CrimeScene, n: nat, k: int): seq<Coordinate>
    requires ValidScene(n, scene)
  {
    RoomCellsBefore(scene, n, k, n * n)
  }

  lemma {:induction false} RoomCellsBeforeMeans(scene: CrimeScene, n: nat, k: int, i: nat)
    requires ValidScene(n, scene) && i <= n * n
    ensures forall q :: q in RoomCellsBefore(scene, n, k, i) <==>
      CellInGrid(n, q) && n * q.row + q.column < i && RoomAt(scene, n, q.row, q.column) == k
    ensures RowMajorSorted(RoomCellsBefore(scene, n, k, i))
  {
    if i > 0 {
      RoomCellsBeforeMeans(scene, n, k, i - 1);
      var prev := RoomCellsBefore(scene, n, k, i - 1);
      var cell := CellOfIndex(n, i - 1);
      CellOfIndexInGrid(n, i - 1);
      var last: seq<Coordinate> := if scene.floorPlan[i - 1] == k then [cell] else [];
      forall x, y | x in prev && y in last
        ensures RowMajorBefore(x, y)
      {
        FlatOrder(n, x, y);
      }
      SortedAppend(prev, last);
      forall q | CellInGrid(n, q) && n * q.row + q.column == i - 1
        ensures q == cell
      {
        IndexOfCell(n, q.row, q.column);
      }
    }
  }

  /** `_get_room_coordinates` puts each cell in the list of its own room,
      and nowhere else, in row-major order. */
  lemma RoomCellsMeans(scene: CrimeScene, n: nat, k: int)
    requires ValidScene(n, scene)
    ensures forall q :: q in RoomCells(scene, n, k) <==> CellInGrid(n, q) && RoomAt(scene, n, q.row, q.column) == k
    ensures RowMajorSorted(RoomCells(scene, n, k))
  {
    RoomCellsBeforeMeans(scene, n, k, n * n);
    forall q | CellInGrid(n, q)
      ensures n * q.row + q.column < n * n
    {
      FlatIndexInRange(n, q.row, q.column);
    }
  }

  /** Two row-major sorted lists of the same cells are the same list. */
  lemma {:induction false} SortedSameCells(s: seq<Coordinate>, t: seq<Coordinate>)
    requires RowMajorSorted(s) && RowMajorSorted(t)
    requires forall q :: q in s <==> q in t
    ensures s == t
  {
    if s != [] || t != [] {
      assert s != [] ==> s[0] in t;
      assert t != [] ==> t[0] in s;
      var i :| 0 <= i < |s| && s[i] == t[0];
      var j :| 0 <= j < |t| && t[j] == s[0];
      assert s[0] == t[0];
      forall q | q in s[1..]
        ensures q in t[1..]
      {
        var a :| 1 <= a < |s| && s[a] == q;
        assert RowMajorBefore(s[0], s[a]) && q in t;
        var b :| 0 <= b < |t| && t[b] == q;
        assert t[1..][b - 1] == q;
      }
      forall q | q in t[1..]
        ensures q in s[1..]
      {
        var b :| 1 <= b < |t| && t[b] == q;
        assert RowMajorBefore(t[0], t[b]) && q in s;
        var a :| 0 <= a < |s| && s[a] == q;
        assert s[1..][a - 1] == q;
      }
      SortedSameCells(s[1..], t[1..]);
      assert s == [s[0]] + s[1..] && t == [t[0]] + t[1..];
    }
  }

  /** A query that selects exactly the cells of room k selects them in the
      order of `_room_coordinates[k]`. */
  lemma RoomCellsAreClueCells(scene: CrimeScene, n: nat, k: int, q: Query)
    requires ValidScene(n, scene)
    requires forall r, c :: InGrid(n, r, c) ==> (Selected(scene, n, q, r, c) <==> RoomAt(scene, n, r, c) == k)
    ensures RoomCells(scene, n, k) == ClueCells(scene, n, q)
  {
    RoomCellsMeans(scene, n, k);
    ClueCellsMeans(scene, n, q);
    SortedSameCells(RoomCells(scene, n, k), ClueCells(scene, n, q));
  }

  /** The room clue's room, as `_get_coordinates_of_room` lists it, is
      the solver's cell list for the clue. */
  lemma RoomClueCells(scene: CrimeScene, n: nat, rc: RoomClue)
    requires ValidScene(n, scene)
    ensures RoomCells(scene, n, rc.roomId) == ClueCells(scene, n, RoomQuery(rc))
  {
    forall r, c | InGrid(n, r, c)
      ensures Selected(scene, n, RoomQuery(rc), r, c) <==> RoomAt(scene, n, r, c) == rc.roomId
    {
      SelectedMeans(scene, n, RoomQuery(rc), r, c);
    }
    RoomCellsAreClueCells(scene, n, rc.roomId, RoomQuery(rc));
  }

  /** Likewise for a person clue that names a room. */
  lemma InRoomClueCells(scene: CrimeScene, n: nat, pc: PersonClue)
    requires ValidScene(n, scene) && pc.target.InRoom?
    ensures RoomCells(scene, n, pc.target.roomId) == ClueCells(scene, n, PersonQuery(pc))
  {
    forall r, c | InGrid(n, r, c)
      ensures Selected(scene, n, PersonQuery(pc), r, c) <==> RoomAt(scene, n, r, c) == pc.target.roomId
    {
      SelectedMeans(scene, n, PersonQuery(pc), r, c);
    }
    RoomCellsAreClueCells(scene, n, pc.target.roomId, PersonQuery(pc));
  }

  /** The targets `PuzzleModeler._evaluate_space_for_clue` has a branch for. */
  predicate Evaluated(t: PersonTarget) {
    t.BesideWindow? || t.Beside? || t.On? || t.InCorner?
  }

  /** `PuzzleModeler._evaluate_space_for_clue`: the solver's test without
      the room branch (the caller looks rooms up in `_room_coordinates`),
      raising when the clue has none of its fields. */
  function EvaluateSpaceForClue(space: Space, pc: PersonClue): Result<bool, ModelerError> {
    match pc.target
    case BesideWindow(b) => Ok(b == (WindowMark in space.beside))
    case Beside(t) => Ok(FurnitureMark(t) in space.beside)
    case On(t) => Ok(Some(t) == space.on)
    case InCorner(b) => Ok(b == (Corner <= space.beside))
    case _ => Err(NoClueField)
  }

  /** The modeler's cell test agrees with the solver's wherever it does not
      raise, and raises exactly on the targets it has no branch for. */
  lemma EvaluateSpaceAgrees(space: Space, pc: PersonClue)
    ensures Evaluated(pc.target) ==>
      EvaluateSpaceForClue(space, pc).Ok? && EvaluateSpace(space, PersonQuery(pc)) == Ok(EvaluateSpaceForClue(space, pc).value)
    ensures !Evaluated(pc.target) <==> EvaluateSpaceForClue(space, pc) == Err(NoClueField)
  {
  }

  /** Every floor-plan entry names one of the rooms (`_room_coordinates`
      is indexed with it; anything outside raises or wraps around). */
  predicate FloorPlanInRooms(scene: CrimeScene) {
    forall i :: 0 <= i < |scene.floorPlan| ==> 0 <= scene.floorPlan[i] < |scene.rooms|
  }

  /** Every room id a clue gives names one of the rooms. */
  predicate ClueRoomIdsInRange(rooms: int, clues: seq<Clue>) {
    forall i :: 0 <= i < |clues| ==>
      && (clues[i].RoomClueOf? ==> 0 <= clues[i].roomClue.roomId < rooms)
      && (clues[i].PersonClueOf? && clues[i].personClue.target.InRoom? ==>
            0 <= clues[i].personClue.target.roomId < rooms)
  }

  /** A person clue with no target, on which `_evaluate_space_for_clue`
      raises. */
  predicate Unresolved(clue: Clue) {
    clue.PersonClueOf? && clue.personClue.target.NoTarget?
  }

  /** The loops of `_get_person_clue_coordinates` over the spaces of a
      built board, for a target other than a room: every space, row by row,
      is tested against the clue. */
  method PersonClueCoordinatesOn(spaces: array2<Space>, scene: CrimeScene, n: nat, pc: PersonClue) returns (r: Result<seq<Coordinate>, ModelerError>)
    requires ValidScene(n, scene) && spaces.Length0 == n && spaces.Length1 == n
    requires forall r, c :: InGrid(n, r, c) ==> spaces[r, c] == ExpectedSpace(scene, n, r, c)
    ensures Evaluated(pc.target) ==> r == Ok(ClueCells(scene, n, PersonQuery(pc)))
    ensures !Evaluated(pc.target) ==> r == Err(NoClueField)
  {
    var coordinates := [];
    var row := 0;
    while row < n
      invariant 0 <= row <= n
      invariant coordinates == SelectedRows(scene, n, PersonQuery(pc), row)
      invariant !Evaluated(pc.target) ==> row == 0
    {
      var cells := PersonRowCoordinatesOn(spaces, scene, n, pc, row);
      if cells.Err? {
        return Err(cells.error);
      }
      coordinates := coordinates + cells.value;
      row := row + 1;
    }
    return Ok(coordinates);
  }

  /** The inner loop of `_get_person_clue_coordinates`: the spaces of one
      row, left to right; the first one raises on a clue with no field. */
  method PersonRowCoordinatesOn(spaces: array2<Space>, scene: CrimeScene, n: nat, pc: PersonClue, row: int) returns (r: Result<seq<Coordinate>, ModelerError>)
    requires ValidScene(n, scene) && spaces.Length0 == n && spaces.Length1 == n && 0 <= row < n
    requires forall c :: 0 <= c < n ==> spaces[row, c] == ExpectedSpace(scene, n, row, c)
    ensures Evaluated(pc.target) ==> r == Ok(SelectedInRow(scene, n, PersonQuery(pc), row, n))
    ensures !Evaluated(pc.target) ==> r == Err(NoClueField)
  {
    var coordinates := [];
    var column := 0;
    while column < n
      invariant 0 <= column <= n
      invariant coordinates == SelectedInRow(scene, n, PersonQuery(pc), row, column)
      invariant !Evaluated(pc.target) ==> column == 0
    {
      EvaluateSpaceAgrees(spaces[row, column], pc);
      var e := EvaluateSpaceForClue(spaces[row, column], pc);
      if e.Err? {
        return Err(e.error);
      }
      if e.value {
        coordinates := coordinates + [Coordinate(row, column)];
      }
      column := column + 1;
    }
    return Ok(coordinates);
  }

  class PuzzleModeler {
    const people: seq<Person>
    const scene: CrimeScene
    const clues: seq<Clue>
    /** `_n`: the number of people, and the side of the board. */
    const n: nat
    /** `_spaces`, `_rowwise_furniture`, `_columwise_furniture` and
        `_blocked_coordinates`, built exactly as `Board` builds them. */
    const board: Board
    /** `_model`. */
    const model: CpModel
    /** `_room_coordinates`: the cells of each room. */
    var roomCoordinates: seq<seq<Coordinate>>
    /** The cells whose `_occupancies` variables are the constant 0. */
    var unavailable: set<Coordinate>

    ghost predicate RoomsListed()
      reads this
      requires ValidScene(n, scene)
    {
      && |roomCoordinates| == |scene.rooms|
      && forall k :: 0 <= k < |scene.rooms| ==> roomCoordinates[k] == RoomCells(scene, n, k)
    }

    ghost predicate Valid()
      reads this, board, board.spaces
    {
      && n == |people|
      && ValidScene(n, scene)
      && board.n == n && board.scene == scene && board.Built()
      && PersonIdsInRange(n, clues)
      && ClueRoomIdsInRange(|scene.rooms|, clues)
      && RoomsListed()
    }

    /** `__init__` up to `_init_board`: the room lists, then the board. */
    constructor Init(puzzle: PuzzleMessage)
      requires ValidScene(|puzzle.people|, puzzle.crimeScene) && FloorPlanInRooms(puzzle.crimeScene)
      requires PersonIdsInRange(|puzzle.people|, puzzle.clues)
      requires ClueRoomIdsInRange(|puzzle.crimeScene.rooms|, puzzle.clues)
      ensures Valid() && fresh(model) && model.constraints == []
      ensures people == puzzle.people && scene == puzzle.crimeScene && clues == puzzle.clues
    {
      people := puzzle.people;
      scene := puzzle.crimeScene;
      clues := puzzle.clues;
      n := |puzzle.people|;
      board := new Board(|puzzle.people|, puzzle.crimeScene);
      model := new CpModel();
      roomCoordinates := [];
      unavailable := {};
      new;
      GetRoomCoordinates();
    }

    /** `__init__`: build the board, then the model; a clue
        `_evaluate_space_for_clue` cannot read makes it raise. */
    static method Create(puzzle: PuzzleMessage) returns (r: Result<PuzzleModeler, ModelerError>)
      requires ValidScene(|puzzle.people|, puzzle.crimeScene) && FloorPlanInRooms(puzzle.crimeScene)
      requires PersonIdsInRange(|puzzle.people|, puzzle.clues)
      requires ClueRoomIdsInRange(|puzzle.crimeScene.rooms|, puzzle.clues)
      ensures r.Err? <==> exists i :: 0 <= i < |puzzle.clues| && Unresolved(puzzle.clues[i])
      ensures r.Err? ==> r.error == NoClueField
      ensures r.Ok? ==>
        && fresh(r.value) && r.value.Valid()
        && r.value.people == puzzle.people && r.value.scene == puzzle.crimeScene && r.value.clues == puzzle.clues
        && r.value.unavailable == Unavailable(puzzle.crimeScene, |puzzle.people|, puzzle.clues)
        && r.value.model.constraints ==
             UniquenessConstraints(|puzzle.people|) + ClueConstraints(puzzle.crimeScene, |puzzle.people|, puzzle.clues)
    {
      var modeler := new PuzzleModeler.Init(puzzle);
      var e := modeler.CreateModel();
      if e.Err? {
        return Err(e.error);
      }
      return Ok(modeler);
    }

    /** `_get_room_coordinates`: entry i of the floor plan puts cell
        `(i // n, i % n)` at the end of its room's list. */
    method GetRoomCoordinates()
      requires ValidScene(n, scene) && FloorPlanInRooms(scene)
      modifies this
      ensures RoomsListed()
      ensures unavailable == old(unavailable)
    {
      roomCoordinates := seq(|scene.rooms|, _ => []);
      var index := 0;
      while index < |scene.floorPlan|
        invariant 0 <= index <= n * n
        invariant unavailable == old(unavailable)
        invariant |roomCoordinates| == |scene.rooms|
        invariant forall k :: 0 <= k < |scene.rooms| ==> roomCoordinates[k] == RoomCellsBefore(scene, n, k, index)
      {
        var roomId := scene.floorPlan[index];
        var row := index / n;
        var col := index % n;
        roomCoordinates := roomCoordinates[roomId := roomCoordinates[roomId] + [Coordinate(row, col)]];
        index := index + 1;
      }
    }

    /** `get_room_of_coordinate`. */
    function RoomOfCoordinate(q: Coordinate): (room: int)
      reads this, board, board.spaces
      requires Valid() && Indexable(n, q)
      ensures room == RoomAt(scene, n, Wrap(n, q.row), Wrap(n, q.column))
    {
      board.RoomOfCoordinate(q)
    }

    /** `_create_model`: the constant-0 cells, then the uniqueness
        constraints, then the clues' constraints. */
    method CreateModel() returns (r: Result<(), ModelerError>)
      requires Valid() && model.constraints == []
      modifies this, model
      ensures Valid()
      ensures unavailable == Unavailable(scene, n, clues)
      ensures r.Err? <==> exists i :: 0 <= i < |clues| && Unresolved(clues[i])
      ensures r.Err? ==> r.error == NoClueField
      ensures r.Ok? ==> model.constraints == UniquenessConstraints(n) + ClueConstraints(scene, n, clues)
    {
      var unoccupied := GetUnoccupiedRoomCoordinates();
      unavailable := Elements(board.blocked + unoccupied);
      model.AddUniquenessConstraints(n);
      ghost var uniqueness := model.constraints;
      r := SetClues();
      if r.Ok? {
        FromEmpty(old(model.constraints), UniquenessConstraints(n), uniqueness, ClueConstraints(scene, n, clues), model.constraints);
      }
    }

    /** `_get_unoccupied_room_coordinates`: the cells of the room of every
        unoccupied room clue, clue by clue. */
    method GetUnoccupiedRoomCoordinates() returns (cells: seq<Coordinate>)
      requires Valid()
      ensures cells == UnoccupiedCells(scene, n, clues)
    {
      cells := [];
      var i := 0;
      while i < |clues|
        invariant 0 <= i <= |clues|
        invariant cells == UnoccupiedCells(scene, n, clues[..i])
      {
        assert clues[..i + 1][..i] == clues[..i];
        if clues[i].RoomClueOf? && !clues[i].roomClue.isOccupied {
          RoomClueCells(scene, n, clues[i].roomClue);
          cells := cells + roomCoordinates[clues[i].roomClue.roomId];
        }
        i := i + 1;
      }
      assert clues[..|clues|] == clues;
    }

    /** `_set_clues`: each room clue and each person clue adds its
        constraints, in order, until a clue raises. */
    method SetClues() returns (r: Result<(), ModelerError>)
      requires Valid()
      modifies model
      ensures r.Err? <==> exists i :: 0 <= i < |clues| && Unresolved(clues[i])
      ensures r.Err? ==> r.error == NoClueField
      ensures r.Ok? ==> model.constraints == old(model.constraints) + ClueConstraints(scene, n, clues)
    {
      var i := 0;
      while i < |clues|
        invariant 0 <= i <= |clues|
        invariant forall j :: 0 <= j < i ==> !Unresolved(clues[j])
        invariant model.constraints == old(model.constraints) + ClueConstraints(scene, n, clues[..i])
      {
        var e := SetClue(i, old(model.constraints));
        if e.Err? {
          assert Unresolved(clues[i]);
          return e;
        }
        assert forall j :: 0 <= j < i + 1 ==> !Unresolved(clues[j]);
        i := i + 1;
      }
      assert clues[..|clues|] == clues;
      return Ok(());
    }

    /** One step of `_set_clues`, for clue i. */
    method SetClue(i: int, ghost start: seq<LinearConstraint>) returns (r: Result<(), ModelerError>)
      requires Valid() && 0 <= i < |clues|
      requires model.constraints == start + ClueConstraints(scene, n, clues[..i])
      modifies model
      ensures r.Err? <==> Unresolved(clues[i])
      ensures r.Err? ==> r.error == NoClueField
      ensures r.Ok? ==> model.constraints == start + ClueConstraints(scene, n, clues[..i + 1])
    {
      ghost var before := model.constraints;
      match clues[i] {
        case RoomClueOf(rc) =>
          SetRoomClue(rc);
          r := Ok(());
        case PersonClueOf(pc) =>
          r := SetPersonClue(pc);
        case EmptyClue =>
          r := Ok(());
      }
      if r.Ok? {
        ClueConstraintsStep(scene, n, clues, i, start, before, model.constraints);
      }
    }

    /** `_set_room_clue`: an occupied room has someone on one of its cells. */
    method SetRoomClue(rc: RoomClue)
      requires Valid() && 0 <= rc.roomId < |scene.rooms|
      modifies model
      ensures model.constraints == old(model.constraints) + RoomClueConstraints(scene, n, rc)
    {
      if rc.isOccupied {
        RoomClueCells(scene, n, rc);
        var roomCells := roomCoordinates[rc.roomId];
        model.Add(LinearConstraint(RoomClueTerms(n, roomCells), AtLeast, 1));
      }
    }

    /** `_set_person_clue` as it should read: a same-column clue walks the
        column index. */
    method SetPersonClue(pc: PersonClue) returns (r: Result<(), ModelerError>)
      requires Valid() && (pc.target.InRoom? ==> 0 <= pc.target.roomId < |scene.rooms|)
      modifies model
      ensures r.Err? <==> pc.target.NoTarget?
      ensures r.Err? ==> r.error == NoClueField
      ensures r.Ok? ==> model.constraints == old(model.constraints) + PersonClueConstraints(scene, n, pc)
    {
      if pc.target.SameRow? {
        AddLineConstraints(pc.personId, FurnitureMark(pc.target.rowFeature), RowLine);
        r := Ok(());
      } else if pc.target.SameColumn? {
        AddLineConstraints(pc.personId, FurnitureMark(pc.target.columnFeature), ColumnLine);
        r := Ok(());
      } else {
        var coordinates := GetPersonClueCoordinates(pc);
        if coordinates.Err? {
          return Err(coordinates.error);
        }
        var value := if pc.negate then 0 else 1;
        model.Add(LinearConstraint(PersonCellTerms(pc.personId, coordinates.value), Equal, value));
        r := Ok(());
      }
    }

    /** `_set_person_clue` as written: the same-column branch reads the
        misspelt `_columnwise_furniture` and raises before adding anything. */
    method SetPersonClueAsWritten(pc: PersonClue) returns (r: Result<(), ModelerError>)
      requires Valid() && (pc.target.InRoom? ==> 0 <= pc.target.roomId < |scene.rooms|)
      modifies model
      ensures pc.target.SameColumn? ==>
        r == Err(MissingAttribute("_columnwise_furniture")) && model.constraints == old(model.constraints)
      ensures !pc.target.SameColumn? ==>
        && (r.Err? <==> pc.target.NoTarget?)
        && (r.Ok? ==> model.constraints == old(model.constraints) + PersonClueConstraints(scene, n, pc))
    {
      if pc.target.SameColumn? {
        return Err(MissingAttribute("_columnwise_furniture"));
      }
      r := SetPersonClue(pc);
    }

    /** `_get_person_clue_coordinates`: a room's cells from its list, any
        other target's cells by testing every space, row by row. */
    method GetPersonClueCoordinates(pc: PersonClue) returns (r: Result<seq<Coordinate>, ModelerError>)
      requires Valid() && (pc.target.InRoom? ==> 0 <= pc.target.roomId < |scene.rooms|)
      ensures pc.target.InRoom? || Evaluated(pc.target) ==> r == Ok(ClueCells(scene, n, PersonQuery(pc)))
      ensures !(pc.target.InRoom? || Evaluated(pc.target)) ==> r == Err(NoClueField)
    {
      if pc.target.InRoom? {
        InRoomClueCells(scene, n, pc);
        return Ok(roomCoordinates[pc.target.roomId]);
      }
      r := PersonClueCoordinatesOn(board.spaces, scene, n, pc);
    }

    /** The same-row (same-column) branch of `_set_person_clue`: person p
        is on no row (column) whose furniture index lacks the mark. */
    method AddLineConstraints(p: int, m: Mark, line: Line)
      requires Valid()
      modifies model
      ensures model.constraints == old(model.constraints) + LineConstraints(scene, n, p, m, line, n)
    {
      var index := if line == RowLine then board.rowIndex else board.columnIndex;
      AddLineConstraintsFrom(model, scene, n, p, m, line, index);
    }
  }
}

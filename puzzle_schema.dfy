/** The protobuf `Puzzle` message that `puzzle_encoder.py` builds and that
    `puzzle_modeler.py` and `puzzle_solver.py` read, as Dafny values. Scalar
    protobuf fields are never absent: an unset integer reads 0. A message-typed
    field that can be absent (`HasField`) is an `Option`. The clue's
    `person_clue` target fields are taken to form a `oneof`, so a person clue
    carries exactly one of them, or none. */
module Puzzle {
  import opened Wrappers

  datatype Coordinate = Coordinate(row: int, column: int)

  datatype Room = Room(id: int, name: string)

  /** `Puzzle.Person.Type`. */
  datatype PersonType = Suspect | Victim

  datatype Person = Person(id: int, name: string, personType: PersonType)

  /** A window in the wall between cells (row, left) and (row, right). */
  datatype VerticalBorder = VerticalBorder(row: int, left: int, right: int)

  /** A window in the wall between cells (top, column) and (bottom, column). */
  datatype HorizontalBorder = HorizontalBorder(column: int, top: int, bottom: int)

  datatype Window = Window(verticalBorder: Option<VerticalBorder>, horizontalBorder: Option<HorizontalBorder>)

  /** `Puzzle.CrimeScene.Furniture.Type`. */
  datatype FurnitureType = Chair | Bed | Carpet | Plant | Tv | Table

  datatype Furniture = Furniture(furnitureType: FurnitureType, occupiable: bool, coordinates: seq<Coordinate>)

  /** The floor plan is flat: cell (row, column) of an n-by-n grid is entry
      `n * row + column`, holding a room id. */
  datatype CrimeScene = CrimeScene(rooms: seq<Room>, floorPlan: seq<int>, windows: seq<Window>, furniture: seq<Furniture>)

  datatype RoomClue = RoomClue(roomId: int, isOccupied: bool)

  /** The one target field a person clue sets, if any. */
  datatype PersonTarget =
    | SameRow(rowFeature: FurnitureType)
    | SameColumn(columnFeature: FurnitureType)
    | InRoom(roomId: int)
    | BesideWindow(besideWindow: bool)
    | Beside(besideFeature: FurnitureType)
    | On(onFeature: FurnitureType)
    | InCorner(inCorner: bool)
    | NoTarget

  datatype PersonClue = PersonClue(personId: int, negate: bool, target: PersonTarget)

  /** `Puzzle.Clue`: a room clue, a person clue, or neither. */
  datatype Clue = RoomClueOf(roomClue: RoomClue) | PersonClueOf(personClue: PersonClue) | EmptyClue

  /** Where one person stands in a solution. */
  datatype Position = Position(personId: int, coordinate: Coordinate)

  /** `Puzzle.Solution`; an unset murderer id reads 0. */
  datatype Solution = Solution(positions: seq<Position>, murdererId: int)

  /** The `Puzzle` message itself. */
  datatype PuzzleMessage = PuzzleMessage(name: string, people: seq<Person>, crimeScene: CrimeScene, clues: seq<Clue>, solution: Solution)
}

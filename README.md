# Murder mystery puzzles, modelled in Dafny

The system turns a murder-mystery logic puzzle into a constraint program and
reads the murderer off a solution. It has the following parts:

- **The puzzle itself.** It names the people (suspects and one victim), a
  square crime scene and a list of clues. The scene has a floor plan of room
  ids, windows set in the borders between cells, and furniture on cells.
- **An encoder** that builds such a puzzle step by step.
- **A clue encoder.** It turns English sentences ("Alice was alone beside
  the bed", "There was no empty room.") into structured clues: subject
  selectors, position selectors and a count.
- **A board.** It records, for each cell, its room, the furniture it is on
  and the features it is beside: walls, corners, windows and furniture
  types. It also keeps a furniture and window index per row and per column,
  and the cells blocked by furniture nobody may stand on.
- **A solver and a modeler.** They emit one 0/1 variable per person and
  cell, plus linear constraints:
  - every person on exactly one cell;
  - one person per row and per column;
  - one or more constraints per clue.
  The solver then reads each person's position back from a solution, and
  the murderer is the first suspect standing in the victim's room.
- **A visualizer** that draws the crime scene with box-drawing characters.

The model is one Dafny module per source file, plus shared modules:

| module | models |
|---|---|
| `Wrappers` | `Option` and `Result` |
| `Text` | ASCII lower-casing |
| `Dicts` | a Python dict as an insertion-ordered list of pairs |
| `Puzzle` | the protobuf messages, as datatypes |
| `Constraints` | the variables, the linear constraints, what an assignment satisfies, and the `CpModel` the constraints are added to |

Other choices:

- The board is defined once, in `BoardModel.Board`. The solver's `Board`
  and the modeler's inlined copy of it are built the same way.
- The CP-SAT search is replaced by a given assignment. The proofs state
  what holds of every assignment that satisfies the emitted constraints.
- Objects whose fields the source updates are classes with those fields,
  proved against specification functions of their inputs:
  - the encoder, the solver, the modeler and the visualizer;
  - the board, whose spaces are an `array2`;
  - the visualizer's drawing, also an `array2`.
- The clue encoder's pure helpers are functions.

The central results are:

- `Solver.SolutionMeetsClues`: every solution of the emitted program places
  the people one per row and per column and meets every clue.
- `BoardModel.Board.constructor`: the board is exactly what its crime scene
  describes.
- `Visualizer.PuzzleVisualizer.constructor`: the drawing is exactly the
  board the crime scene describes. The lemmas `Visualizer.*Meaning` say
  what each entry of that board shows.

## Model

| member | source | states |
|---|---|---|
| PuzzleUtils.GetNumberValue | puzzle_utils.py:68-73 | a name has a value exactly when it is a digit string or a key of `NUMBER_VALUES`, and a digit string is read as its decimal value |
| PuzzleUtils.DigitsValueOfNatToString | puzzle_utils.py:68-70 | reading back the decimal text of i gives i |
| PuzzleUtils.NumberValueOfDecimal | puzzle_utils.py:68-70 | the decimal text of every non-negative integer is read as that integer |
| PuzzleUtils.NumberWordValues | puzzle_utils.py:49-62 | "zero" .. "nine" are read as 0 .. 9, so `NUMBER_VALUES` inverts `NUMBERS_NAMES` |
| PuzzleUtils.NumberWordsInvert | puzzle_utils.py:49-62 | conversely, every number word other than an article names the value it is read as |
| PuzzleUtils.ArticleValues | puzzle_utils.py:63-65 | "a", "an" and "another" count as one |
| PuzzleUtils.UnknownWordsHaveNoValue | puzzle_utils.py:71-73 | the lookup is case-sensitive: "Two", "An" and the empty string have no value |
| PuzzleUtils.GenderAndRoleWords | puzzle_utils.py:6-19 | the gender words map to female exactly for female/woman/women, and the role words map to their roles |
| PuzzleUtils.FeatureTable | puzzle_utils.py:21-47 | each feature is named by its key; wall, corner and window have no position type; chair, bed and carpet can be stood on; plant, tv and table block their cell |
| Dicts.Get | puzzle_encoder.py:26-29 | a lookup finds nothing exactly when no entry has the key, and otherwise returns an entry's value |
| Dicts.FromPairsGet | puzzle_encoder.py:26-29 | in a dict built by a comprehension, each key holds the value of its last pair |
| Dicts.LastValueMeans | puzzle_encoder.py:26-29 | a key's last pair exists exactly when some pair has the key, and no later pair has it |
| Encoder.FurnitureTable | puzzle_encoder.py:6-15 | the six furniture kinds are named by their keys; chair, bed and carpet are exactly the occupiable ones; and the table agrees with the feature table of the utilities |
| Encoder.PuzzleEncoder.constructor | puzzle_encoder.py:19-20 | a new encoder holds a puzzle with only its name set |
| Encoder.NumberedRooms | puzzle_encoder.py:22-25 | room i has id i and the i-th name |
| Encoder.Suspects | puzzle_encoder.py:61-63 | suspect i has id i and the i-th name |
| Encoder.NameIds | puzzle_encoder.py:26-29 | the comprehension pairs each lower-cased name with its index |
| Encoder.PuzzleEncoder.NameIdDict | puzzle_encoder.py:26-29 | the loop builds the dict of the comprehension |
| Encoder.PuzzleEncoder.SetRooms | puzzle_encoder.py:22-29 | the rooms are replaced by the numbered rooms, the room dict is the name comprehension, and nothing else changes |
| Encoder.NameIdsLookup | puzzle_encoder.py:22-29 | a lower-cased name maps to the index of the last name that lower-cases to it, and a key no name lower-cases to is missing |
| Encoder.PuzzleEncoder.SetFloorPlan | puzzle_encoder.py:31-32 | only the floor plan changes, and it becomes the given one |
| Encoder.PuzzleEncoder.AddWindow | puzzle_encoder.py:34-48 | exactly one window is appended; it has a vertical border exactly when a row is given and a horizontal one exactly when a column is given; borders take the given sides, and a side not given reads 0 |
| Encoder.PuzzleEncoder.AddFurniture | puzzle_encoder.py:50-57 | an unknown name (after lower-casing) raises `KeyError` and changes nothing; a known one appends one piece of that kind and occupiability, with the cells in the given order |
| Encoder.PuzzleEncoder.SetPeople | puzzle_encoder.py:59-69 | the people become the suspects followed by the victim, and the people dict maps each lower-cased name to its id |
| Encoder.EncodedPeopleShape | puzzle_encoder.py:59-69 | the ids are 0, 1, ... in order; only the last person is a victim, and that person carries the victim's name; so the solver can index positions by id and finds that victim |
| ClueRegexEncoder.Split | puzzle_clue_regex_encoder.py:36-41 | splitting never yields an empty list |
| ClueRegexEncoder.SplitJoin | puzzle_clue_regex_encoder.py:36-41 | splitting a `'|'.join` gives back the parts when none contains the separator |
| ClueRegexEncoder.StringifyParts | puzzle_clue_regex_encoder.py:36-37 | `stringify` joins the lower-cased names, one per message |
| ClueRegexEncoder.NumberPairs | puzzle_clue_regex_encoder.py:40-41 | pair i is the decimal text of i with its number word, for i from 0 to n |
| ClueRegexEncoder.StringifyNumbers | puzzle_clue_regex_encoder.py:40-41 | `stringify_numbers(n)` raises `KeyError(10)` exactly when n is 10 or more |
| ClueRegexEncoder.NumbersGroupAlternatives | puzzle_clue_regex_encoder.py:40-41 | below ten, the numbers group is exactly "0", "zero", ... up to n; each alternative is read as a number no larger than n; and every number up to n appears in both spellings |
| ClueRegexEncoder.PatternFieldsFor | puzzle_clue_regex_encoder.py:83-89 | the pattern can be built exactly when there are fewer than ten people; people and rooms are the dict keys joined with '|', the features the lower-cased feature names, and the numbers the alternation whose alternatives `NumbersGroupAlternatives` describes |
| ClueRegexEncoder.EncodeNoEmptyRoom | puzzle_clue_regex_encoder.py:61-70 | one clue per room, in the dict's order, saying that at least one person of any kind is in that room |
| ClueRegexEncoder.NoEmptyRoomSentences | puzzle_clue_regex_encoder.py:54-55 | the sentence is recognised with a capital letter, a final period and a trailing newline |
| ClueRegexEncoder.NoEmptyRoomForms | puzzle_clue_regex_encoder.py:54-55 | a text is taken as the sentence exactly when it is the words in any letter case followed by nothing, a period, a newline, or a period and a newline |
| ClueRegexEncoder.UpdateSubjectSelector | puzzle_clue_regex_encoder.py:11-15 | a key of the role table sets the role to its entry, a key of the gender table sets the gender to its entry, nothing else changes, and a missing group changes nothing |
| ClueRegexEncoder.Singular | puzzle_clue_regex_encoder.py:96-97 | a noun ending in 's' loses exactly that one 's'; any other noun is unchanged |
| ClueRegexEncoder.ParsePersonClue | puzzle_clue_regex_encoder.py:72-81 | subject, preposition and object are the lower-cased groups; the clue is exclusive exactly when the exclusive group matched; it has a quantifier phrase exactly when that group matched, and then it is that group parsed |
| ClueRegexEncoder.SubjectNounSelectors | puzzle_clue_regex_encoder.py:91-99 | man/men and woman/women select a gender, suspect/suspects the suspect role, person/people nobody in particular, and the "suspect" adjective adds the role |
| ClueRegexEncoder.CaseSensitiveQuantifier | puzzle_clue_regex_encoder.py:91-99 | the number and the noun are looked up as written: "Two" has no value and "Men" selects no gender |
| ClueRegexEncoder.PrepositionalPhrase | puzzle_clue_regex_encoder.py:131-161 | at most one position selector is added |
| ClueRegexEncoder.PrepositionTable | puzzle_clue_regex_encoder.py:131-161 | each preposition yields its selector: on, beside, same row, column or room with the feature; "in the corner of" is beside a corner; "in" names the room's id; beside a non-feature adds nothing |
| ClueRegexEncoder.ExclusiveExpansion | puzzle_clue_regex_encoder.py:101-112 | an exclusive clue becomes two clues at the same position: the subject exactly once, and everyone but the subject zero times; a quantifier phrase is ignored |
| ClueRegexEncoder.PersonClueCount | puzzle_clue_regex_encoder.py:114-129 | without a quantifier the subject is counted exactly once; with one, its selector is added and the count is one more than its number, or at least one when the word has no value |
| ClueRegexEncoder.EncodeClue | puzzle_clue_regex_encoder.py:46-59 | the no-empty-room sentence gives one clue per room; otherwise ten or more people raise `KeyError(10)`, a clue the pattern does not match fails, and a match is encoded as an exclusive or an ordinary person clue |
| BoardModel.Neighbors | puzzle_solver.py:111-123 | a cell is listed exactly when it is in the grid, shares a side with the given cell and is in the same room |
| BoardModel.AnyWindowAtMeans | puzzle_solver.py:69-95 | a space gets the window mark exactly when some window lies in one of its borders |
| BoardModel.WindowIndexMeans | puzzle_solver.py:69-95 | a row's (column's) index gets the window mark exactly when some window lies in a vertical (horizontal) border of it |
| BoardModel.BesidePieceMeans | puzzle_solver.py:97-109 | a space is beside a piece exactly when it is outside the piece, in the grid, and shares a side and a room with one of its cells |
| BoardModel.FurnitureMarksMeans | puzzle_solver.py:97-109 | a space's furniture marks are exactly the types of the pieces it is beside |
| BoardModel.OnAfterMeans | puzzle_solver.py:101-102 | a space is on the last piece, in scene order, that covers it, and on nothing when none does |
| BoardModel.RowColumnMarksMeans | puzzle_solver.py:103-104 | a row's (column's) index holds a furniture type exactly when a piece of that type has a cell in it |
| BoardModel.BlockedCellsMeans | puzzle_solver.py:108-109 | the blocked cells are exactly the cells of pieces that cannot be stood on |
| BoardModel.WallMarksExact | puzzle_solver.py:47-67 | a built space is beside a vertical (horizontal) wall exactly when it is on the board's edge or next to a cell of another room along its row (column) |
| BoardModel.SingleRoomCorners | puzzle_solver.py:47-67 | in a one-room scene, exactly the four corner cells are in a corner |
| BoardModel.Board.constructor | puzzle_solver.py:27-45 | the built board's spaces, row and column indices and blocked cells are exactly what the crime scene describes |
| BoardModel.Board.RoomOfCoordinate | puzzle_solver.py:139-141 | the room of a cell, with Python's reading of negative indices |
| BoardModel.Board.AddVerticalWalls | puzzle_solver.py:51-58 | exactly the first and last column, and both cells of each horizontal room change, get a vertical wall; nothing else changes |
| BoardModel.Board.AddHorizontalWalls | puzzle_solver.py:60-67 | exactly the first and last row, and both cells of each vertical room change, get a horizontal wall; nothing else changes |
| BoardModel.Board.AddWindows | puzzle_solver.py:69-74 | each space gets the window mark exactly when a window touches it, and each line index exactly when a window lies along it |
| BoardModel.Board.AddVerticalWindow | puzzle_solver.py:76-84 | both sides of the border are marked, and the row's index gets the window mark |
| BoardModel.Board.AddHorizontalWindow | puzzle_solver.py:86-95 | both sides of the border are marked, and the column's index gets the window mark |
| BoardModel.Board.AddFurniture | puzzle_solver.py:97-109 | each space is on the last piece covering it and beside the pieces next to it; the indices gain the pieces' types; non-occupiable pieces' cells are appended to the blocked list |
| BoardModel.Board.AddPiece | puzzle_solver.py:98-109 | one piece: its cells are on it, its same-room outside neighbours are beside it, its rows and columns gain its type, and its cells are blocked when it cannot be stood on |
| Constraints.CpModel.Add | puzzle_solver.py:173-194 | a constraint is appended to the model |
| Constraints.CpModel.AddUniquenessConstraints | puzzle_solver.py:173-194 | one `== 1` sum per person, per row and per column, in the source's order |
| Constraints.SumZeroMeans | puzzle_solver.py:213-239 | a sum is 0 exactly when none of its variables is set |
| Constraints.SumPositiveMeans | puzzle_solver.py:203-211 | a sum is at least 1 exactly when some variable is set |
| Constraints.SumOneMeans | puzzle_solver.py:173-194 | over distinct variables, a sum is 1 exactly when exactly one is set |
| Constraints.PersonTerms | puzzle_solver.py:175-180 | person p's sum covers exactly p's variables on the board, each once |
| Constraints.RowTerms | puzzle_solver.py:181-187 | row r's sum covers exactly the variables of every person in row r, each once |
| Constraints.ColumnTerms | puzzle_solver.py:188-194 | column c's sum covers exactly the variables of every person in column c, each once |
| Constraints.UniquenessMeans | puzzle_solver.py:173-194 | an assignment meets the uniqueness constraints exactly when it puts each person on one cell and no two people on a row or a column |
| Solver.SelectedMeans | puzzle_solver.py:249-259 | in terms of the scene: a room query selects its room's cells; the whole clue message selects none; a person query selects cells by window, feature, furniture or corner, and a row or column target selects none |
| Solver.ClueCellsMeans | puzzle_solver.py:241-247 | the listed cells are exactly the board cells that pass the query, each once, in row-major order |
| Solver.WindowMarkMeans | puzzle_solver.py:69-95 | a space is beside a window exactly when a window touches it |
| Solver.FurnitureMarkMeans | puzzle_solver.py:97-109 | a space is beside a furniture type exactly when it is beside a piece of that type |
| Solver.CornerMeans | puzzle_solver.py:249-259 | the corner test holds exactly where a vertical and a horizontal wall meet |
| Solver.OnMeans | puzzle_solver.py:101-102 | a space is on a type exactly when the last piece covering it has that type |
| Solver.PuzzleSolver.constructor | puzzle_solver.py:145-163 | corrected: the board is built, the unavailable cells are fixed, and the model holds the uniqueness constraints followed by the clues' constraints |
| Solver.PuzzleSolver.CreateModel | puzzle_solver.py:151-163 | corrected: the unavailable cells are the blocked cells plus the cells of the rooms said to be empty, then the uniqueness constraints and the clues' constraints are added |
| Solver.PuzzleSolver.GetClueCoordinates | puzzle_solver.py:241-259 | a room or person query lists exactly the cells that pass it; the whole clue message raises |
| Solver.PuzzleSolver.GetUnoccupiedRoomCoordinates | puzzle_solver.py:165-171 | corrected: the cells of the room of every unoccupied room clue, clue by clue |
| Solver.UnoccupiedCellsMeans | puzzle_solver.py:165-171 | a cell is listed exactly when it lies in the room of some unoccupied room clue |
| Solver.PuzzleSolver.GetUnoccupiedRoomCoordinatesAsWritten | puzzle_solver.py:165-171 | as written: it raises exactly when some room clue says its room is unoccupied, and otherwise returns nothing |
| Solver.PuzzleSolver.SetClues | puzzle_solver.py:196-201 | each clue's constraints are appended in clue order |
| Solver.PuzzleSolver.SetRoomClue | puzzle_solver.py:203-211 | an occupied room clue adds one constraint: someone is in the room |
| Solver.RoomClueHolds | puzzle_solver.py:203-211 | that constraint holds exactly when someone stands on a cell of the room |
| Solver.PuzzleSolver.SetPersonClue | puzzle_solver.py:213-239 | a same-row or same-column clue bars the lines whose index lacks the feature; any other clue requires the person on (or, negated, off) the selected cells |
| Solver.PuzzleSolver.AddLineConstraints | puzzle_solver.py:215-232 | one `== 0` constraint for each line whose index lacks the mark |
| Solver.PersonCellTerms | puzzle_solver.py:233-239 | the sum covers exactly the person's variables on the selected cells, each once |
| Solver.LineTerms | puzzle_solver.py:215-232 | the sum covers exactly the person's variables along the line |
| Solver.PersonCellsHold | puzzle_solver.py:233-239 | for a person on one cell, the constraint holds exactly when that cell is selected (not selected, when negated) |
| Solver.SameLineHolds | puzzle_solver.py:215-232 | for a person on one cell, the line constraints hold exactly when that cell's row (column) index has the feature |
| Solver.ClueConstraintsMean | puzzle_solver.py:196-201 | the clues' constraints hold exactly when each clue's do |
| Solver.SolutionMeetsClues | puzzle_solver.py:151-239 | every assignment that satisfies the program puts each person on one available cell, no two people in a row or column, and meets every clue |
| Solver.PositionsApart | puzzle_solver.py:173-194 | under the uniqueness constraints, no two people share a row or a column |
| Solver.PlacedAt | puzzle_solver.py:281-286 | the cell read for a person is the only cell the person stands on |
| Solver.FirstOccupiedUnique | puzzle_solver.py:281-286 | the position read off an assignment is unique |
| Solver.PuzzleSolver.GetPosition | puzzle_solver.py:281-286 | the first occupied cell in row-major order, or (-1, -1) when there is none |
| Solver.PuzzleSolver.SetPositions | puzzle_solver.py:273-279 | the positions become one per person, in id order, each the person's first occupied cell |
| Solver.PuzzleSolver.GetVictimId | puzzle_solver.py:297-300 | the id of the first victim, and none exactly when there is no victim |
| Solver.PuzzleSolver.RoomOfPerson | puzzle_solver.py:302-305 | the room of the board space at the person's recorded position |
| Solver.PuzzleSolver.SetMurderer | puzzle_solver.py:288-295 | the first suspect in the victim's room becomes the murderer, otherwise the murderer is unchanged; with no victim it raises and changes nothing |
| Solver.PuzzleSolver.SetSolution | puzzle_solver.py:269-271 | the positions are read, then the murderer |
| Solver.PuzzleSolver.Solve | puzzle_solver.py:261-267 | the solution is read back only when the status is optimal, and is left unchanged otherwise |
| Modeler.CellOfIndexInGrid | puzzle_modeler.py:46-53 | entry i of the flat floor plan is a cell of the grid whose flat index is i |
| Modeler.IndexOfCell | puzzle_modeler.py:46-53 | a cell's flat index leads back to that cell |
| Modeler.RoomCellsMeans | puzzle_modeler.py:46-53 | each room's list holds exactly that room's cells, in row-major order |
| Modeler.RoomClueCells | puzzle_modeler.py:167-168 | the room's listed cells are the cells the solver's scan would select for the room clue |
| Modeler.InRoomClueCells | puzzle_modeler.py:236-240 | likewise for a person clue that names a room |
| Modeler.SortedSameCells | puzzle_modeler.py:46-53 | two row-major sorted lists of the same cells are equal |
| Modeler.EvaluateSpaceAgrees | puzzle_modeler.py:248-257 | the modeler's cell test agrees with the solver's wherever it does not raise, and raises exactly on targets it has no branch for |
| Modeler.PuzzleModeler.Init | puzzle_modeler.py:22-25 | the room lists are built, then the board, and the model is empty |
| Modeler.PuzzleModeler.Create | puzzle_modeler.py:22-27 | corrected: construction raises exactly when some clue has no branch; otherwise the model holds the uniqueness constraints followed by the clues' constraints |
| Modeler.PuzzleModeler.GetRoomCoordinates | puzzle_modeler.py:46-53 | the room lists are exactly the rooms' cells in row-major order |
| Modeler.PuzzleModeler.RoomOfCoordinate | puzzle_modeler.py:36-37 | the room of a cell, with Python's reading of negative indices |
| Modeler.PuzzleModeler.CreateModel | puzzle_modeler.py:145-157 | corrected: the unavailable cells, then the uniqueness and clue constraints; raises exactly when some clue has no branch |
| Modeler.PuzzleModeler.GetUnoccupiedRoomCoordinates | puzzle_modeler.py:159-165 | the cells of the room of every unoccupied room clue, clue by clue |
| Modeler.PuzzleModeler.SetClues | puzzle_modeler.py:193-198 | corrected: the clues' constraints in order, raising exactly when some clue has no branch |
| Modeler.PuzzleModeler.SetClue | puzzle_modeler.py:193-198 | corrected: one clue's constraints, raising exactly when that clue has no branch |
| Modeler.PuzzleModeler.SetRoomClue | puzzle_modeler.py:200-208 | an occupied room clue adds one constraint: someone is on the room's listed cells |
| Modeler.PuzzleModeler.SetPersonClue | puzzle_modeler.py:210-234 | corrected: the solver's constraints for the clue, raising exactly when the clue has no target |
| Modeler.PuzzleModeler.SetPersonClueAsWritten | puzzle_modeler.py:219-220 | as written: every same-column clue raises before adding anything; other clues behave as corrected |
| Modeler.PuzzleModeler.GetPersonClueCoordinates | puzzle_modeler.py:236-246 | a room's listed cells, or the scanned cells for a readable target, equal the solver's cells; any other target raises |
| Modeler.PuzzleModeler.AddLineConstraints | puzzle_modeler.py:211-226 | one `== 0` constraint for each line whose index lacks the mark |
| Visualizer.WallIntersectionTable | puzzle_visualizer.py:10-27 | every combination of walls has an entry; each entry is one character other than a line break; and no two combinations share a character |
| Visualizer.WallIntersectionListed | puzzle_visualizer.py:90-95 | the lookup of a corner's combination never fails |
| Visualizer.WallCharacters | puzzle_visualizer.py:48-54 | the wall and blank characters are the table's entries for a straight vertical wall, a straight horizontal wall and no wall |
| Visualizer.Repeat | puzzle_visualizer.py:51-54 | k copies of s: empty for k below one, beginning with s otherwise, made only of the characters of s |
| Visualizer.RepeatFirst | puzzle_visualizer.py:51-54 | a positive number of copies starts with the first character of s |
| Visualizer.RepeatChars | puzzle_visualizer.py:51-54 | copies of s hold only characters of s |
| Visualizer.IntersectionMeaning | puzzle_visualizer.py:97-112 | a corner points up or down exactly where the boundary on that side is a vertical wall; for a cell width of at least one, left or right exactly where that boundary is a horizontal wall; for a width of zero or less, left and right wherever a boundary exists |
| Visualizer.VerticalBoundaryMeaning | puzzle_visualizer.py:59-126 | a vertical boundary shows a window where one was drawn, otherwise a wall exactly where it is an edge or a room change, and a blank elsewhere |
| Visualizer.HorizontalBoundaryMeaning | puzzle_visualizer.py:59-126 | likewise for horizontal boundaries, with w-wide lines |
| Visualizer.CornerAndCellMeaning | puzzle_visualizer.py:90-126 | windows never reach a corner or a cell: corners show the character for their walls, and cells are w blanks |
| Visualizer.WindowAtMeans | puzzle_visualizer.py:114-126 | a boundary shows a window exactly when some window names it |
| Visualizer.VisualizationLines | puzzle_visualizer.py:146-147 | the text has one line per row of the board: 2n + 1 lines, and two for an empty floor plan |
| Visualizer.JoinLinesBreaks | puzzle_visualizer.py:146-147 | lines without breaks, joined by breaks, give one break fewer than there are lines |
| Visualizer.PuzzleVisualizer.constructor | puzzle_visualizer.py:34-42 | with a crime scene the board is the drawn board; without one the board and the text are empty; the text is always the rendered board |
| Visualizer.PuzzleVisualizer.SetVerticalBoundaryValue | puzzle_visualizer.py:128-133 | the next read of that boundary gives the value, and nothing else changes |
| Visualizer.PuzzleVisualizer.SetHorizontalBoundaryValue | puzzle_visualizer.py:135-140 | the next read of that boundary gives the value, and nothing else changes |
| Visualizer.PuzzleVisualizer.SetBoundaryIntersectionValue | puzzle_visualizer.py:142-144 | only that corner changes |
| Visualizer.PuzzleVisualizer.AddWalls | puzzle_visualizer.py:48-57 | the board is the plan's walls and corners |
| Visualizer.PuzzleVisualizer.WriteRow | puzzle_visualizer.py:29 | the row holds the value in odd columns and a blank in even ones, and the other rows are kept |
| Visualizer.PuzzleVisualizer.AddExteriorWalls | puzzle_visualizer.py:59-66 | lines along the top and bottom, walls at both ends of each row of cells, and blanks elsewhere |
| Visualizer.PuzzleVisualizer.AddInteriorWalls | puzzle_visualizer.py:68-70 | the vertical interior walls, then the horizontal ones |
| Visualizer.PuzzleVisualizer.AddVerticalInteriorWalls | puzzle_visualizer.py:72-78 | a wall between row neighbours in different rooms, within the cells the truncating `zip` visits |
| Visualizer.PuzzleVisualizer.AddHorizontalInteriorWalls | puzzle_visualizer.py:80-88 | a wall between column neighbours in different rooms, within the cells the truncating `zip` visits |
| Visualizer.PuzzleVisualizer.GetWallIntersection | puzzle_visualizer.py:97-112 | the combination of walls around the corner as the interior walls leave it |
| Visualizer.PuzzleVisualizer.AddWallIntersections | puzzle_visualizer.py:90-95 | every corner gets the character for the walls that meet there |
| Visualizer.PuzzleVisualizer.AddWindows | puzzle_visualizer.py:114-126 | each window's vertical border, then its horizontal one, is drawn in window order |
| Visualizer.PuzzleVisualizer.SetVisualization | puzzle_visualizer.py:146-147 | the text is the board's rows, each joined, separated by line breaks, and the board is unchanged |

## Left out

- The regular-expression match of a person clue against its pattern. `ClueRegexEncoder.EncodeClue` takes the groups as an input; the pattern's text is `PersonCluePattern`.
- The CP-SAT search, `CpSolver` and status names. `Solver.PuzzleSolver.Solve` takes the status and the assignment as inputs.
- Printing in `solve`, `verdict` and `get_name`. This is console output.
- `puzzle_clue_encoder.py` is not part of this model: it only declares the abstract `encode_clue` interface that `ClueRegexEncoder.EncodeClue` implements.
- `get_puzzle`, `get_solution`, the modeler's `model` and `occupancies` properties, and the visualizer's `visualization` property are plain getters. They are the classes' fields.
- `Text.Lower` folds only ASCII letters. Python's `str.lower` also folds other scripts.
- Python's `str.isdigit` also accepts non-ASCII digits. `PuzzleUtils.GetNumberValue` accepts only '0' to '9'.
- BoardModel.Board.constructor: requires at least one person, a floor plan of exactly n by n entries, and furniture and windows inside the grid. The source raises `IndexError` on a shorter floor plan or on a piece or window past the edge, and wraps round on negative indices. It also accepts a longer floor plan and ignores the entries past n*n, since `_get_room_id` reads only those. With no people it raises `IndexError` in `_add_horizontal_walls`, which reads the first row of an empty list of rows. The model treats a floor plan whose size is not n*n as malformed.
- Solver.PuzzleSolver.constructor, Solver.PuzzleSolver.CreateModel: use the corrected listing of unoccupied rooms (see Findings). The source as written raises `ValueError` on any room clue whose room is unoccupied, which `Solver.PuzzleSolver.GetUnoccupiedRoomCoordinatesAsWritten` shows. The rest of the solver is modelled on the corrected behaviour.
- Modeler.PuzzleModeler.Create, Modeler.PuzzleModeler.CreateModel, Modeler.PuzzleModeler.SetClues, Modeler.PuzzleModeler.SetClue: use the corrected same-column branch (see Findings). The source as written raises `AttributeError` on any same-column person clue, which `Modeler.PuzzleModeler.SetPersonClueAsWritten` shows. So their promise to raise exactly when a clue has no branch holds for the corrected code, not for the source as written.
- Solver.PuzzleSolver.constructor: requires every person clue to name one of the n people. An id outside that range raises or wraps round in `_occupancies`.
- Solver.PuzzleSolver.SetSolution: requires the people's ids to be 0 .. n-1. `_get_room_of_person` indexes the positions by id.
- Modeler.PuzzleModeler.Init: requires every floor-plan entry and every clue's room id to name a room. `_room_coordinates` is indexed by them.
- Visualizer.PuzzleVisualizer.constructor: requires each window to name a boundary of the board. Otherwise the source raises `IndexError` on an index past the end of its lists, and wraps round on a negative one.
- The source's `is not None` tests on protobuf integer fields always pass, because an unset field reads 0. The model reads such fields as plain integers.
- Setting a field of a submessage marks the submessage present. The encoder's windows rely on this, and the model takes it as given.
- The visualizer reads the floor plan row by row, as its source does. The board and the encoder use the flat list of the puzzle message.
- The box-drawing characters are Unicode constants. No encoding is modelled.

## Findings

| source | as written | input that shows it | evidently intended | confidence | as-written member | corrected member |
|---|---|---|---|---|---|---|
| puzzle_modeler.py:219-220 | the same-column branch reads `self._columnwise_furniture`, but the index is stored as `_columwise_furniture` (line 60), so it raises `AttributeError` | any person clue with a `same_column` target | walk the column index, as the same-row branch walks the row index | high, not executed | Modeler.PuzzleModeler.SetPersonClueAsWritten | Modeler.PuzzleModeler.SetPersonClue |
| puzzle_solver.py:165-171 | `_get_unoccupied_room_coordinates` passes the whole `Clue` to `_get_clue_coordinates`; `HasField('room_id')` on a `Clue` raises `ValueError` | any puzzle with a room clue whose `is_occupied` is false | pass `clue.room_clue`, listing the cells of that room | high, not executed | Solver.PuzzleSolver.GetUnoccupiedRoomCoordinatesAsWritten | Solver.PuzzleSolver.GetUnoccupiedRoomCoordinates |

/** `puzzle_encoder.py`: the `PuzzleEncoder` with which a puzzle's author
    builds the `Puzzle` message step by step: rooms and people get dense
    ids in the order given, the last person is the one victim, and each
    piece of furniture takes its type and occupiability from a fixed
    table. */
module Encoder {
  import opened Wrappers
  import opened Dicts
  import opened Text
  import opened Puzzle
  import PuzzleUtils
  import Solver

  /** An entry of `FURNITURE_DATA_DICT`. */
  datatype FurnitureData = FurnitureData(name: string, furnitureType: FurnitureType, occupiable: bool)

  /** `FURNITURE_DATA_DICT`. */
  const FurnitureDataDict: map<string, FurnitureData> := map[
    "chair" := FurnitureData("chair", Chair, true),
    "bed" := FurnitureData("bed", Bed, true),
    "carpet" := FurnitureData("carpet", Carpet, true),
    "plant" := FurnitureData("plant", Plant, false),
    "tv" := FurnitureData("tv", Tv, false),
    "table" := FurnitureData("table", Table, false)]

  /** Looking up a name the table lacks raises KeyError. */
  datatype EncoderError = KeyError(key: string)

  /** Every entry is named by its key; chairs, beds and carpets are the
      pieces one may stand on; and the table agrees with the feature table
      of `puzzle_utils.py`, which calls exactly those pieces occupiable
      spaces and the others blocked spaces. */
  lemma FurnitureTable()
    ensures FurnitureDataDict.Keys == {"chair", "bed", "carpet", "plant", "tv", "table"}
    ensures forall k :: k in FurnitureDataDict ==> FurnitureDataDict[k].name == k
    ensures forall k :: k in FurnitureDataDict ==>
      (FurnitureDataDict[k].occupiable <==> FurnitureDataDict[k].furnitureType in {Chair, Bed, Carpet})
    ensures forall k :: k in FurnitureDataDict ==>
      && k in PuzzleUtils.FeatureDataDict
      && (FurnitureDataDict[k].occupiable <==>
          PuzzleUtils.FeatureDataDict[k].positionType == Some(PuzzleUtils.OccupiableSpace))
      && (!FurnitureDataDict[k].occupiable <==>
          PuzzleUtils.FeatureDataDict[k].positionType == Some(PuzzleUtils.BlockedSpace))
  {
    PuzzleUtils.FeatureTable();
  }

  /** `Puzzle(name=name)`: every field empty or zero. */
  function EmptyPuzzle(name: string): PuzzleMessage {
    PuzzleMessage(name, [], CrimeScene([], [], [], []), [], Solution([], 0))
  }

  /** The rooms `set_rooms` creates: room i is named names[i]. */
  function NumberedRooms(names: seq<string>): (rooms: seq<Room>)
    ensures |rooms| == |names| && forall i :: 0 <= i < |names| ==> rooms[i] == Room(i, names[i])
  {
    seq(|names|, i requires 0 <= i < |names| => Room(i, names[i]))
  }

  /** The people `set_people` creates: suspect i has id i, and the victim
      comes last. */
  function EncodedPeople(suspectNames: seq<string>, victimName: string): seq<Person> {
    Suspects(suspectNames) + [Person(|suspectNames|, victimName, Victim)]
  }

  function Suspects(suspectNames: seq<string>): (people: seq<Person>)
    ensures |people| == |suspectNames|
    ensures forall i :: 0 <= i < |suspectNames| ==> people[i] == Person(i, suspectNames[i], Suspect)
  {
    seq(|suspectNames|, i requires 0 <= i < |suspectNames| => Person(i, suspectNames[i], Suspect))
  }

  /** The pairs of a `{name.lower(): i for i, name in enumerate(names)}`
      comprehension. */
  function NameIds(names: seq<string>): (pairs: seq<(string, int)>)
    ensures |pairs| == |names| && forall i :: 0 <= i < |names| ==> pairs[i] == (Lower(names[i]), i)
  {
    seq(|names|, i requires 0 <= i < |names| => (Lower(names[i]), i))
  }

  /** In `_room_ids` and `_people_ids` a lower-cased name maps to the index
      of the last name that lower-cases to it, and a key no name
      lower-cases to is missing. */
  lemma NameIdsLookup(names: seq<string>, key: string)
    ensures Get(FromPairs(NameIds(names)), key).None? <==> forall j :: 0 <= j < |names| ==> Lower(names[j]) != key
    ensures Get(FromPairs(NameIds(names)), key).Some? ==>
      var id := Get(FromPairs(NameIds(names)), key).value;
      && 0 <= id < |names| && Lower(names[id]) == key
      && forall j :: id < j < |names| ==> Lower(names[j]) != key
  {
    FromPairsGet(NameIds(names), key);
    LastValueMeans(NameIds(names), key);
  }

  /** The people `set_people` creates have ids 0, 1, ... in list order,
      and exactly one of them, the last, is the victim; so the solver can
      index its positions with every id and finds that victim. */
  lemma EncodedPeopleShape(suspectNames: seq<string>, victimName: string)
    ensures var people := EncodedPeople(suspectNames, victimName);
      && |people| == |suspectNames| + 1
      && (forall i :: 0 <= i < |people| ==> people[i].id == i)
      && (forall i :: 0 <= i < |people| ==> (people[i].personType == Victim <==> i == |suspectNames|))
      && people[|suspectNames|].name == victimName
      && Solver.PeopleIdsInRange(|people|, people)
      && Solver.FirstVictim(people, |suspectNames|)
  {
    var people := EncodedPeople(suspectNames, victimName);
    assert forall i :: 0 <= i < |suspectNames| ==> people[i] == Person(i, suspectNames[i], Suspect);
  }

  class PuzzleEncoder {
    /** `_puzzle`. */
    var puzzle: PuzzleMessage
    /** `_room_ids`, which exists once `set_rooms` has run. */
    var roomIds: Option<Dict<string, int>>
    /** `_people_ids`, which exists once `set_people` has run. */
    var peopleIds: Option<Dict<string, int>>

    constructor (name: string)
      ensures puzzle == EmptyPuzzle(name) && roomIds == None && peopleIds == None
    {
      puzzle := EmptyPuzzle(name);
      roomIds := None;
      peopleIds := None;
    }

    /** The dict a `{name.lower(): i for i, name in enumerate(names)}`
        comprehension builds. */
    static method NameIdDict(names: seq<string>) returns (d: Dict<string, int>)
      ensures d == FromPairs(NameIds(names))
    {
      d := [];
      for i := 0 to |names|
        invariant d == FromPairs(NameIds(names)[..i])
      {
        assert NameIds(names)[..i + 1][..i] == NameIds(names)[..i];
        assert NameIds(names)[..i + 1][i] == (Lower(names[i]), i);
        d := Put(d, Lower(names[i]), i);
      }
      assert NameIds(names)[..|names|] == NameIds(names);
    }

    /** `set_rooms`: the rooms are replaced by the named ones, room i with
        id i, and `_room_ids` maps each lower-cased name to its id. */
    method SetRooms(roomNames: seq<string>)
      modifies this
      ensures puzzle == old(puzzle).(crimeScene := old(puzzle).crimeScene.(rooms := NumberedRooms(roomNames)))
      ensures roomIds == Some(FromPairs(NameIds(roomNames)))
      ensures peopleIds == old(peopleIds)
    {
      puzzle := puzzle.(crimeScene := puzzle.crimeScene.(rooms := []));
      for roomId := 0 to |roomNames|
        invariant puzzle == old(puzzle).(crimeScene := old(puzzle).crimeScene.(rooms := NumberedRooms(roomNames[..roomId])))
        invariant peopleIds == old(peopleIds)
      {
        assert NumberedRooms(roomNames[..roomId + 1]) == NumberedRooms(roomNames[..roomId]) + [Room(roomId, roomNames[roomId])];
        puzzle := puzzle.(crimeScene := puzzle.crimeScene.(rooms := puzzle.crimeScene.rooms + [Room(roomId, roomNames[roomId])]));
      }
      assert roomNames[..|roomNames|] == roomNames;
      var ids := NameIdDict(roomNames);
      roomIds := Some(ids);
    }

    /** `set_floor_plan`: the floor plan is replaced wholesale. */
    method SetFloorPlan(floorPlan: seq<int>)
      modifies this
      ensures puzzle == old(puzzle).(crimeScene := old(puzzle).crimeScene.(floorPlan := floorPlan))
      ensures roomIds == old(roomIds) && peopleIds == old(peopleIds)
    {
      puzzle := puzzle.(crimeScene := puzzle.crimeScene.(floorPlan := floorPlan));
    }

    /** `add_window`: one window is appended. It has a vertical border
        exactly when a row is given, whose left and right are those given
        (an unset field reads 0), and a horizontal border exactly when a
        column is given, likewise with top and bottom. */
    method AddWindow(row: Option<int>, column: Option<int>, top: Option<int>, bottom: Option<int>,
                     left: Option<int>, right: Option<int>)
      modifies this
      ensures var windows := puzzle.crimeScene.windows;
        && puzzle == old(puzzle).(crimeScene := old(puzzle).crimeScene.(windows := windows))
        && |windows| == |old(puzzle).crimeScene.windows| + 1
        && windows[..|windows| - 1] == old(puzzle).crimeScene.windows
        && var w := windows[|windows| - 1];
          && (w.verticalBorder.Some? <==> row.Some?)
          && (row.Some? ==> w.verticalBorder.value == VerticalBorder(row.value, left.GetOr(0), right.GetOr(0)))
          && (w.horizontalBorder.Some? <==> column.Some?)
          && (column.Some? ==> w.horizontalBorder.value == HorizontalBorder(column.value, top.GetOr(0), bottom.GetOr(0)))
      ensures roomIds == old(roomIds) && peopleIds == old(peopleIds)
    {
      var window := Window(None, None);
      if row.Some? {
        window := window.(verticalBorder := Some(VerticalBorder(row.value, 0, 0)));
        if left.Some? {
          window := window.(verticalBorder := Some(window.verticalBorder.value.(left := left.value)));
        }
        if right.Some? {
          window := window.(verticalBorder := Some(window.verticalBorder.value.(right := right.value)));
        }
      }
      if column.Some? {
        window := window.(horizontalBorder := Some(HorizontalBorder(column.value, 0, 0)));
        if top.Some? {
          window := window.(horizontalBorder := Some(window.horizontalBorder.value.(top := top.value)));
        }
        if bottom.Some? {
          window := window.(horizontalBorder := Some(window.horizontalBorder.value.(bottom := bottom.value)));
        }
      }
      var windows := puzzle.crimeScene.windows + [window];
      puzzle := puzzle.(crimeScene := puzzle.crimeScene.(windows := windows));
    }

    /** `add_furniture`: a piece of the named kind, looked up without
        regard to case, on the given cells in the given order. */
    method AddFurniture(name: string, coordinates: seq<(int, int)>) returns (r: Result<(), EncoderError>)
      modifies this
      ensures Lower(name) !in FurnitureDataDict ==> r == Err(KeyError(Lower(name))) && puzzle == old(puzzle)
      ensures Lower(name) in FurnitureDataDict ==>
        var data := FurnitureDataDict[Lower(name)];
        var furniture := puzzle.crimeScene.furniture;
        && r == Ok(())
        && puzzle == old(puzzle).(crimeScene := old(puzzle).crimeScene.(furniture := furniture))
        && |furniture| == |old(puzzle).crimeScene.furniture| + 1
        && furniture[..|furniture| - 1] == old(puzzle).crimeScene.furniture
        && furniture[|furniture| - 1].furnitureType == data.furnitureType
        && furniture[|furniture| - 1].occupiable == data.occupiable
        && |furniture[|furniture| - 1].coordinates| == |coordinates|
        && forall i :: 0 <= i < |coordinates| ==>
             furniture[|furniture| - 1].coordinates[i] == Coordinate(coordinates[i].0, coordinates[i].1)
      ensures roomIds == old(roomIds) && peopleIds == old(peopleIds)
    {
      var key := Lower(name);
      if key !in FurnitureDataDict {
        return Err(KeyError(key));
      }
      var data := FurnitureDataDict[key];
      var piece := Furniture(data.furnitureType, data.occupiable, []);
      for i := 0 to |coordinates|
        invariant |piece.coordinates| == i
        invariant piece.furnitureType == data.furnitureType && piece.occupiable == data.occupiable
        invariant forall j :: 0 <= j < i ==> piece.coordinates[j] == Coordinate(coordinates[j].0, coordinates[j].1)
      {
        piece := piece.(coordinates := piece.coordinates + [Coordinate(coordinates[i].0, coordinates[i].1)]);
      }
      var furniture := puzzle.crimeScene.furniture + [piece];
      puzzle := puzzle.(crimeScene := puzzle.crimeScene.(furniture := furniture));
      return Ok(());
    }

    /** `set_people`: the people are replaced by the suspects, with ids
        0, 1, ... in order, then the victim; `_people_ids` maps each
        lower-cased name to its id. */
    method SetPeople(suspectNames: seq<string>, victimName: string)
      modifies this
      ensures puzzle == old(puzzle).(people := EncodedPeople(suspectNames, victimName))
      ensures peopleIds == Some(FromPairs(NameIds(suspectNames + [victimName])))
      ensures roomIds == old(roomIds)
    {
      puzzle := puzzle.(people := []);
      for suspectId := 0 to |suspectNames|
        invariant puzzle == old(puzzle).(people := Suspects(suspectNames[..suspectId]))
        invariant roomIds == old(roomIds)
      {
        assert Suspects(suspectNames[..suspectId + 1]) ==
          Suspects(suspectNames[..suspectId]) + [Person(suspectId, suspectNames[suspectId], Suspect)];
        puzzle := puzzle.(people := puzzle.people + [Person(suspectId, suspectNames[suspectId], Suspect)]);
      }
      assert suspectNames[..|suspectNames|] == suspectNames;
      puzzle := puzzle.(people := puzzle.people + [Person(|suspectNames|, victimName, Victim)]);
      var ids := NameIdDict(suspectNames + [victimName]);
      peopleIds := Some(ids);
    }
  }
}

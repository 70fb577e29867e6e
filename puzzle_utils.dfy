/** The fixed vocabulary tables of the clue language and the number-word lexicon
    (`puzzle_utils.py`). */
module PuzzleUtils {
  import opened Wrappers

  datatype Gender = Female | Male
  datatype Role = Suspect | Victim | Murderer

  /** `CrimeSceneFeatureType`: the implicit features (wall, corner, window) and the furniture. */
  datatype FeatureType = Wall | Corner | Window | Chair | Bed | Carpet | Plant | Tv | Table

  datatype PositionType = OccupiableSpace | BlockedSpace

  /** `FeatureData(name, type, position_type)`; `None` stands for Python's `None`. */
  datatype FeatureData = FeatureData(name: string, featureType: FeatureType, positionType: Option<PositionType>)

  const GenderDict: map<string, Gender> := map[
    "female" := Female, "woman" := Female, "women" := Female,
    "male" := Male, "man" := Male, "men" := Male]

  const RoleDict: map<string, Role> := map[
    "suspect" := Suspect, "victim" := Victim, "murderer" := Murderer]

  /** The keys of `FEATURE_DATA_DICT` in insertion order (the order `.values()` yields). */
  const FeatureKeys: seq<string> := ["wall", "corner", "window", "chair", "bed", "carpet", "plant", "tv", "table"]

  const FeatureDataDict: map<string, FeatureData> := map[
    "wall" := FeatureData("wall", Wall, None),
    "corner" := FeatureData("corner", Corner, None),
    "window" := FeatureData("window", Window, None),
    "chair" := FeatureData("chair", Chair, Some(OccupiableSpace)),
    "bed" := FeatureData("bed", Bed, Some(OccupiableSpace)),
    "carpet" := FeatureData("carpet", Carpet, Some(OccupiableSpace)),
    "plant" := FeatureData("plant", Plant, Some(BlockedSpace)),
    "tv" := FeatureData("tv", Tv, Some(BlockedSpace)),
    "table" := FeatureData("table", Table, Some(BlockedSpace))]

  /** `NUMBERS_NAMES`: index i holds the English word for i. */
  const NumbersNames: seq<string> := ["zero", "one", "two", "three", "four", "five", "six", "seven", "eight", "nine"]

  /** `NUMBER_VALUES`: the inverse of `NUMBERS_NAMES`, plus the three articles that count as one. */
  const NumberValues: map<string, nat> := map[
    "zero" := 0, "one" := 1, "two" := 2, "three" := 3, "four" := 4,
    "five" := 5, "six" := 6, "seven" := 7, "eight" := 8, "nine" := 9,
    "a" := 1, "an" := 1, "another" := 1]

  predicate IsDigitChar(ch: char) { '0' <= ch <= '9' }

  /** Python's `str.isdigit()` on ASCII text: non-empty and every character a digit. */
  predicate IsDigitString(s: string) {
    |s| > 0 && forall i :: 0 <= i < |s| ==> IsDigitChar(s[i])
  }

  /** Python's `int(s)` on a string of ASCII digits (leading zeros allowed). */
  function DigitsValue(s: string): nat
    requires forall i :: 0 <= i < |s| ==> IsDigitChar(s[i])
  {
    if |s| == 0 then 0
    else DigitsValue(s[..|s| - 1]) * 10 + DigitValue(s[|s| - 1])
  }

  function DigitValue(ch: char): (d: nat)
    requires IsDigitChar(ch)
    ensures d < 10
  {
    ch as int - '0' as int
  }

  function DigitChar(d: nat): (ch: char)
    requires d < 10
    ensures IsDigitChar(ch) && DigitValue(ch) == d
  {
    ('0' as int + d) as char
  }

  /** Python's `str(i)` for a non-negative integer: decimal, no leading zeros. */
  function NatToString(i: nat): (s: string)
    ensures IsDigitString(s)
  {
    if i < 10 then [DigitChar(i)] else NatToString(i / 10) + [DigitChar(i % 10)]
  }

  /** `get_number_value`: a digit string is read as a decimal integer, a key of
      `NUMBER_VALUES` gives its value, and anything else gives `None`. The lookup is
      case-sensitive: the caller passes the word as it was written. */
  function GetNumberValue(name: string): (r: Option<nat>)
    ensures r.Some? <==> IsDigitString(name) || name in NumberValues
    ensures IsDigitString(name) ==> r == Some(DigitsValue(name))
  {
    if IsDigitString(name) then Some(DigitsValue(name))
    else if name in NumberValues then Some(NumberValues[name])
    else None
  }

  /** Reading back what `str(i)` wrote gives i. */
  lemma {:induction false} DigitsValueOfNatToString(i: nat)
    ensures DigitsValue(NatToString(i)) == i
  {
    if i >= 10 {
      var s := NatToString(i / 10);
      DigitsValueOfNatToString(i / 10);
      assert (s + [DigitChar(i % 10)])[..|s|] == s;
    }
  }

  /** Every decimal rendering of a non-negative integer is read back as that integer. */
  lemma NumberValueOfDecimal(i: nat)
    ensures GetNumberValue(NatToString(i)) == Some(i)
  {
    DigitsValueOfNatToString(i);
  }

  /** "zero" .. "nine" read as 0 .. 9: `NUMBER_VALUES` inverts `NUMBERS_NAMES`. */
  lemma NumberWordValues(i: nat)
    requires i < 10
    ensures GetNumberValue(NumbersNames[i]) == Some(i)
  {
    assert !IsDigitChar(NumbersNames[i][0]);
  }

  /** Conversely, a number word other than an article names exactly the value it is read as. */
  lemma NumberWordsInvert(name: string)
    requires name in NumberValues && name != "a" && name != "an" && name != "another"
    ensures NumberValues[name] < 10 && NumbersNames[NumberValues[name]] == name
  {
  }

  /** "a", "an" and "another" each count as one. */
  lemma ArticleValues()
    ensures GetNumberValue("a") == Some(1)
    ensures GetNumberValue("an") == Some(1)
    ensures GetNumberValue("another") == Some(1)
  {
    assert !IsDigitChar("a"[0]);
    assert !IsDigitChar("an"[0]);
    assert !IsDigitChar("another"[0]);
  }

  /** The lookup is case-sensitive: a capitalised number word, and the empty
      string, are not numbers. */
  lemma UnknownWordsHaveNoValue()
    ensures GetNumberValue("Two") == None
    ensures GetNumberValue("An") == None
    ensures GetNumberValue("") == None
  {
    assert !IsDigitChar("Two"[0]);
    assert !IsDigitChar("An"[0]);
  }

  /** The gender and role words map to the matching enumeration values. */
  lemma GenderAndRoleWords()
    ensures forall w :: w in GenderDict ==> (GenderDict[w] == Female <==> w in {"female", "woman", "women"})
    ensures GenderDict.Keys == {"female", "woman", "women", "male", "man", "men"}
    ensures RoleDict.Keys == {"suspect", "victim", "murderer"}
    ensures RoleDict["suspect"] == Suspect && RoleDict["victim"] == Victim && RoleDict["murderer"] == Murderer
  {
  }

  /** Every feature entry is named by its own key; the implicit features have no
      position type, chair/bed/carpet can be stood on and plant/tv/table block the cell. */
  lemma FeatureTable()
    ensures FeatureDataDict.Keys == set k | k in FeatureKeys
    ensures forall k :: k in FeatureDataDict ==> FeatureDataDict[k].name == k
    ensures forall k :: k in FeatureDataDict ==>
      (FeatureDataDict[k].positionType == None <==> k in {"wall", "corner", "window"})
    ensures forall k :: k in FeatureDataDict ==>
      (FeatureDataDict[k].positionType == Some(OccupiableSpace) <==> k in {"chair", "bed", "carpet"})
    ensures forall k :: k in FeatureDataDict ==>
      (FeatureDataDict[k].positionType == Some(BlockedSpace) <==> k in {"plant", "tv", "table"})
  {
  }
}

/** The clue encoder of `puzzle_clue_regex_encoder.py`, after the regular
    expression has matched: the groups the match produced are the input
    (`PersonClueMatch`), and the encoder turns them into `Clue` records. The
    "There was no empty room" sentence, which is matched by a fixed pattern, is
    recognised here too, and so is the text of the dynamically built pattern's
    alternations. */
module ClueRegexEncoder {
  import opened Wrappers
  import opened PuzzleUtils
  import opened Dicts
  import opened Text

  datatype Preposition = On | Beside | In | InSameRowAs | InSameColumnAs | InSameRoomAs

  /** A protobuf `SubjectSelector`: an unset `person_id` reads 0 (any person); an
      unset role or gender is `None`. */
  datatype SubjectSelector = SubjectSelector(personId: int, role: Option<Role>, gender: Option<Gender>, negate: bool)

  /** What `subject_selectors.add()` with no arguments creates. */
  const AnySubject := SubjectSelector(0, None, None, false)

  datatype PositionSelector = PositionSelector(preposition: Preposition, feature: Option<FeatureType>, roomId: Option<int>)

  /** `exact_count` or `min_count`, whichever the encoder set. */
  datatype Count = ExactCount(k: int) | MinCount(k: int)

  datatype Clue = Clue(subjectSelectors: seq<SubjectSelector>, positionSelectors: seq<PositionSelector>, count: Count)

  /** The failures the encoder raises: `re.match` returned `None` (so `.group`
      fails), a dict lookup missed (`KeyError` on a name, or on a number in
      `NUMBERS_NAMES`). */
  datatype EncodeError = NoMatch | KeyError(key: string) | NumberKeyError(number: int)

  /** The groups of a successful match of the quantifier phrase, as written in the
      clue (not lower-cased). */
  datatype SubjPhraseMatch = SubjPhraseMatch(subjNum: string, subjAdj: Option<string>, subjNoun: string)

  /** The groups of a successful match of the person-clue pattern, as written. */
  datatype PersonClueMatch = PersonClueMatch(
    subject: string, exclusive: Option<string>, preposition: string, objectName: string,
    subjPhrase: Option<SubjPhraseMatch>)

  datatype ParsedSubjPhrase = ParsedSubjPhrase(number: Option<nat>, selector: SubjectSelector)

  datatype ParsedPersonClue = ParsedPersonClue(
    subject: string, exclusive: bool, preposition: string, objectName: string,
    subjPhrase: Option<ParsedSubjPhrase>)

  // ---------------------------------------------------------------------------
  // Text helpers

  /** `sep.join(parts)`. */
  function Join(parts: seq<string>, sep: char): string {
    if |parts| == 0 then ""
    else if |parts| == 1 then parts[0]
    else parts[0] + [sep] + Join(parts[1..], sep)
  }

  /** `s.split(sep)`: the pieces between separators, the inverse of `Join`. */
  function Split(s: string, sep: char): (parts: seq<string>)
    ensures |parts| > 0
  {
    if |s| == 0 then [""]
    else
      var rest := Split(s[1..], sep);
      if s[0] == sep then [""] + rest else [[s[0]] + rest[0]] + rest[1..]
  }

  predicate Unseparated(parts: seq<string>, sep: char) {
    forall i :: 0 <= i < |parts| ==> sep !in parts[i]
  }

  lemma {:induction false} SplitPrepend(p: string, tail: string, sep: char)
    requires sep !in p
    ensures Split(p + [sep] + tail, sep) == [p] + Split(tail, sep)
    ensures Split(p, sep) == [p]
  {
    if p == [] {
      assert p + [sep] + tail == [sep] + tail;
      assert ([sep] + tail)[1..] == tail;
    } else {
      SplitPrepend(p[1..], tail, sep);
      assert (p + [sep] + tail)[1..] == p[1..] + [sep] + tail;
      assert [p[0]] + p[1..] == p;
    }
  }

  /** Splitting a join at the separator gives the parts back, when no part
      contains the separator. */
  lemma {:induction false} SplitJoin(parts: seq<string>, sep: char)
    requires |parts| > 0 && Unseparated(parts, sep)
    ensures Split(Join(parts, sep), sep) == parts
  {
    if |parts| == 1 {
      SplitPrepend(parts[0], "", sep);
    } else {
      SplitJoin(parts[1..], sep);
      SplitPrepend(parts[0], Join(parts[1..], sep), sep);
      assert [parts[0]] + parts[1..] == parts;
    }
  }

  // ---------------------------------------------------------------------------
  // The pattern's alternations

  /** `stringify(messages)`: the lower-cased names joined with '|'. */
  function Stringify(names: seq<string>): string {
    Join(StringifyParts(names), '|')
  }

  function StringifyParts(names: seq<string>): (r: seq<string>)
    ensures |r| == |names| && forall i :: 0 <= i < |names| ==> r[i] == Lower(names[i])
  {
    if names == [] then [] else [Lower(names[0])] + StringifyParts(names[1..])
  }

  /** The pairs (`str(i)`, `NUMBERS_NAMES[i]`) for i in 0 .. n. */
  function NumberPairs(n: nat): (ps: seq<(string, string)>)
    requires n < 10
    ensures |ps| == n + 1 && forall i :: 0 <= i <= n ==> ps[i] == (NatToString(i), NumbersNames[i])
  {
    seq(n + 1, i requires 0 <= i <= n => (NatToString(i), NumbersNames[i]))
  }

  /** Each pair written as one item `a + '|' + b`. */
  function PairItems(ps: seq<(string, string)>): (r: seq<string>)
    ensures |r| == |ps|
  {
    if ps == [] then [] else [ps[0].0 + "|" + ps[0].1] + PairItems(ps[1..])
  }

  /** Each pair written as two items, `a` then `b`. */
  function Flatten(ps: seq<(string, string)>): (r: seq<string>)
    ensures |r| == 2 * |ps|
    ensures forall k :: 0 <= k < |ps| ==> r[2 * k] == ps[k].0 && r[2 * k + 1] == ps[k].1
  {
    if ps == [] then []
    else
      var rest := Flatten(ps[1..]);
      assert forall k :: 1 <= k < |ps| ==> rest[2 * (k - 1)] == ps[k].0 && rest[2 * (k - 1) + 1] == ps[k].1;
      [ps[0].0, ps[0].1] + rest
  }

  /** `stringify_numbers(n)`. `NUMBERS_NAMES` has no entry 10, so for ten or more
      people the comprehension raises `KeyError(10)`. */
  function StringifyNumbers(n: nat): (r: Result<string, EncodeError>)
    ensures r.Err? <==> n >= 10
    ensures r.Err? ==> r.error == NumberKeyError(10)
  {
    if n >= 10 then Err(NumberKeyError(10)) else Ok(Join(PairItems(NumberPairs(n)), '|'))
  }

  /** The alternatives of the numbers group, one spelling after the other:
      "0", "zero", "1", "one", ... up to n. */
  function NumberAlternatives(n: nat): (r: seq<string>)
    requires n < 10
  {
    Flatten(NumberPairs(n))
  }

  /** Joining the items "a|b" with '|' is joining a and b separately. */
  lemma {:induction false} JoinPairItems(ps: seq<(string, string)>, sep: char)
    requires sep == '|'
    ensures Join(PairItems(ps), sep) == Join(Flatten(ps), sep)
  {
    if |ps| == 1 {
      assert Flatten(ps)[1..] == [ps[0].1];
    } else if |ps| > 1 {
      JoinPairItems(ps[1..], sep);
      var f := Flatten(ps);
      assert f[1..][1..] == Flatten(ps[1..]);
      assert Join(f, sep) == ps[0].0 + [sep] + (ps[0].1 + [sep] + Join(Flatten(ps[1..]), sep));
    }
  }

  lemma {:induction false} FlattenUnseparated(ps: seq<(string, string)>, sep: char)
    requires forall i :: 0 <= i < |ps| ==> sep !in ps[i].0 && sep !in ps[i].1
    ensures Unseparated(Flatten(ps), sep)
  {
    if ps != [] {
      FlattenUnseparated(ps[1..], sep);
      assert Flatten(ps) == [ps[0].0, ps[0].1] + Flatten(ps[1..]);
    }
  }

  lemma {:induction false} FlattenMembers(ps: seq<(string, string)>, w: string)
    ensures w in Flatten(ps) <==> exists i :: 0 <= i < |ps| && (ps[i].0 == w || ps[i].1 == w)
  {
    if ps != [] {
      FlattenMembers(ps[1..], w);
      assert Flatten(ps) == [ps[0].0, ps[0].1] + Flatten(ps[1..]);
      if exists i :: 0 <= i < |ps| && (ps[i].0 == w || ps[i].1 == w) {
        var i :| 0 <= i < |ps| && (ps[i].0 == w || ps[i].1 == w);
        if i > 0 {
          assert ps[1..][i - 1] == ps[i];
        }
      }
      if exists i :: 0 <= i < |ps[1..]| && (ps[1..][i].0 == w || ps[1..][i].1 == w) {
        var i :| 0 <= i < |ps[1..]| && (ps[1..][i].0 == w || ps[1..][i].1 == w);
        assert ps[i + 1] == ps[1..][i];
      }
    }
  }

  lemma NumberSpellingsUnseparated(i: nat)
    requires i < 10
    ensures '|' !in NatToString(i) && '|' !in NumbersNames[i]
  {
    var s := NatToString(i);
    assert forall j :: 0 <= j < |s| ==> IsDigitChar(s[j]);
  }

  /** The numbers group of the pattern built for n people (n below ten) consists
      of exactly the alternatives "0", "zero", ..., str(n), the word for n; each of
      them is read by `get_number_value` as a count no larger than n, and every
      count 0 .. n is spelled both ways. */
  lemma NumbersGroupAlternatives(n: nat)
    requires n < 10
    ensures StringifyNumbers(n).Ok?
    ensures Split(StringifyNumbers(n).value, '|') == NumberAlternatives(n)
    ensures forall w :: w in NumberAlternatives(n) ==> GetNumberValue(w).Some? && GetNumberValue(w).value <= n
    ensures forall i :: 0 <= i <= n ==> NatToString(i) in NumberAlternatives(n) && NumbersNames[i] in NumberAlternatives(n)
  {
    var ps := NumberPairs(n);
    var alts := NumberAlternatives(n);
    JoinPairItems(ps, '|');
    forall i | 0 <= i < |ps| ensures '|' !in ps[i].0 && '|' !in ps[i].1 {
      NumberSpellingsUnseparated(i);
    }
    FlattenUnseparated(ps, '|');
    SplitJoin(alts, '|');
    forall w | w in alts ensures GetNumberValue(w).Some? && GetNumberValue(w).value <= n {
      FlattenMembers(ps, w);
      var i :| 0 <= i < |ps| && (ps[i].0 == w || ps[i].1 == w);
      if ps[i].0 == w {
        NumberValueOfDecimal(i);
      } else {
        NumberWordValues(i);
      }
    }
    forall i | 0 <= i <= n ensures NatToString(i) in alts && NumbersNames[i] in alts {
      FlattenMembers(ps, NatToString(i));
      FlattenMembers(ps, NumbersNames[i]);
    }
  }

  /** The four alternations `_generate_person_clue_pattern` substitutes into
      `PERSON_CLUE_PATTERN`. */
  datatype PatternFields = PatternFields(people: string, feature: string, rooms: string, numbers: string)

  function FeatureNames(): seq<string> {
    seq(|FeatureKeys|, i requires 0 <= i < |FeatureKeys| => FeatureDataDict[FeatureKeys[i]].name)
  }

  /** `_generate_person_clue_pattern`'s arguments to `format`: people and rooms
      are the dict keys as stored, features the lower-cased feature names, numbers
      the numbers alternation for as many people as the dict holds. */
  function PatternFieldsFor(roomIds: Dict<string, int>, peopleIds: Dict<string, int>): (r: Result<PatternFields, EncodeError>)
    ensures r.Ok? <==> |peopleIds| < 10
    ensures r.Ok? ==> r.value.people == Join(Keys(peopleIds), '|') && r.value.rooms == Join(Keys(roomIds), '|')
    ensures r.Ok? ==> r.value.numbers == StringifyNumbers(|peopleIds|).value && r.value.feature == Stringify(FeatureNames())
  {
    match StringifyNumbers(|peopleIds|)
    case Err(e) => Err(e)
    case Ok(numbers) =>
      Ok(PatternFields(Join(Keys(peopleIds), '|'), Stringify(FeatureNames()), Join(Keys(roomIds), '|'), numbers))
  }

  /** `PERSON_CLUE_PATTERN.format(...)`: the text of the regular expression. */
  function PersonCluePattern(f: PatternFields): string {
    "^(?P<subject>" + f.people + ") (is |was )?"
    + "(?P<exclusive>the only person (in the house )?|alone )?"
    + "(that was )?(standing |sitting )?"
    + "(?P<preposition>on|beside|next to|in"
    + "( the (same (row|column|room) as|corner of))?) (a |the )?"
    + "(?P<object>" + f.feature + "|window|" + f.rooms + "|room)"
    + "(?P<subj_phrase> with (?P<subj_num>a|an|another|" + f.numbers + ") (other )?"
    + "((?P<subj_adj>suspect) )?"
    + "(?P<subj_noun>man|men|woman|women|person|people|suspect|suspects))?\\.?$"
  }

  lemma {:induction false} LowerOfLowercase(s: string)
    requires forall j :: 0 <= j < |s| ==> 'a' <= s[j] <= 'z'
    ensures Lower(s) == s
  {
  }

  // ---------------------------------------------------------------------------
  // "There was no empty room."

  const NoEmptyRoomText := "there was no empty room"

  /** `re.match('^There was no empty room\.?$', raw, re.IGNORECASE)`: the sentence
      in any letter case, an optional period, and (as `$` allows) an optional
      final newline. */
  predicate IsNoEmptyRoomSentence(raw: string) {
    var body := if |raw| > 0 && raw[|raw| - 1] == '\n' then raw[..|raw| - 1] else raw;
    Lower(body) == NoEmptyRoomText || Lower(body) == NoEmptyRoomText + "."
  }

  /** `_encode_no_empty_room`: one clue per room id, in the dict's order, each
      saying that at least one person of any kind is in that room. */
  method EncodeNoEmptyRoom(roomIds: Dict<string, int>) returns (clues: seq<Clue>)
    ensures |clues| == |Values(roomIds)|
    ensures forall i :: 0 <= i < |clues| ==>
      clues[i] == Clue([AnySubject], [PositionSelector(In, None, Some(Values(roomIds)[i]))], MinCount(1))
  {
    var roomIdValues := Values(roomIds);
    clues := [];
    var k := 0;
    while k < |roomIdValues|
      invariant 0 <= k <= |roomIdValues|
      invariant |clues| == k
      invariant forall i :: 0 <= i < k ==>
        clues[i] == Clue([AnySubject], [PositionSelector(In, None, Some(roomIdValues[i]))], MinCount(1))
    {
      var clue := Clue([AnySubject], [PositionSelector(In, None, Some(roomIdValues[k]))], MinCount(1));
      clues := clues + [clue];
      k := k + 1;
    }
  }

  // ---------------------------------------------------------------------------
  // Parsing the match groups

  /** `update_subject_selector`: a key of `ROLE_DICT` sets the role, a key of
      `GENDER_DICT` sets the gender; the key is looked up as given. A missing
      group (`None`) is in neither dict. */
  function UpdateSubjectSelector(selector: SubjectSelector, key: Option<string>): (r: SubjectSelector)
    ensures r.personId == selector.personId && r.negate == selector.negate
    ensures r.role == if key.Some? && key.value in RoleDict then Some(RoleDict[key.value]) else selector.role
    ensures r.gender == if key.Some? && key.value in GenderDict then Some(GenderDict[key.value]) else selector.gender
    ensures key.None? ==> r == selector
  {
    var withRole := if key.Some? && key.value in RoleDict then selector.(role := Some(RoleDict[key.value])) else selector;
    if key.Some? && key.value in GenderDict then withRole.(gender := Some(GenderDict[key.value])) else withRole
  }

  /** The subject noun with one trailing 's' removed. */
  function Singular(noun: string): (r: string)
    requires |noun| > 0
    ensures noun[|noun| - 1] == 's' ==> r == noun[..|noun| - 1] && noun == r + "s"
    ensures noun[|noun| - 1] != 's' ==> r == noun
  {
    if noun[|noun| - 1] == 's' then noun[..|noun| - 1] else noun
  }

  /** `_parse_subj_phrase`. The noun group is never empty (the pattern only
      matches one of eight nouns). */
  function ParseSubjPhrase(m: SubjPhraseMatch): ParsedSubjPhrase
    requires |m.subjNoun| > 0
  {
    var selector := UpdateSubjectSelector(AnySubject, m.subjAdj);
    ParsedSubjPhrase(GetNumberValue(m.subjNum), UpdateSubjectSelector(selector, Some(Singular(m.subjNoun))))
  }

  predicate WellFormedMatch(m: PersonClueMatch) {
    m.subjPhrase.Some? ==> |m.subjPhrase.value.subjNoun| > 0
  }

  /** `_parse_person_clue` once the match succeeded: subject, preposition and
      object are lower-cased, the quantifier phrase is parsed as written. */
  function ParsePersonClue(m: PersonClueMatch): (p: ParsedPersonClue)
    requires WellFormedMatch(m)
    ensures p.subject == Lower(m.subject) && p.preposition == Lower(m.preposition) && p.objectName == Lower(m.objectName)
    ensures p.exclusive <==> m.exclusive.Some?
    ensures p.subjPhrase.Some? <==> m.subjPhrase.Some?
    ensures m.subjPhrase.Some? ==> p.subjPhrase == Some(ParseSubjPhrase(m.subjPhrase.value))
  {
    ParsedPersonClue(
      Lower(m.subject), m.exclusive.Some?, Lower(m.preposition), Lower(m.objectName),
      if m.subjPhrase.None? then None else Some(ParseSubjPhrase(m.subjPhrase.value)))
  }

  // ---------------------------------------------------------------------------
  // Encoding

  /** `_add_prepositional_phrase`: the position selectors appended to the clue
      (none or one). */
  function PrepositionalPhrase(p: ParsedPersonClue, roomIds: Dict<string, int>): (r: Result<seq<PositionSelector>, EncodeError>)
    ensures r.Ok? ==> |r.value| <= 1
  {
    if p.preposition == "on" then
      if p.objectName in FeatureDataDict then Ok([PositionSelector(On, Some(FeatureDataDict[p.objectName].featureType), None)])
      else Err(KeyError(p.objectName))
    else if p.preposition == "beside" || p.preposition == "next to" then
      if p.objectName in FeatureDataDict then Ok([PositionSelector(Beside, Some(FeatureDataDict[p.objectName].featureType), None)])
      else Ok([])
    else if p.preposition == "in the same row as" then
      if p.objectName in FeatureDataDict then Ok([PositionSelector(InSameRowAs, Some(FeatureDataDict[p.objectName].featureType), None)])
      else Err(KeyError(p.objectName))
    else if p.preposition == "in the same column as" then
      if p.objectName in FeatureDataDict then Ok([PositionSelector(InSameColumnAs, Some(FeatureDataDict[p.objectName].featureType), None)])
      else Err(KeyError(p.objectName))
    else if p.preposition == "in the same room as" then
      if p.objectName in FeatureDataDict then Ok([PositionSelector(InSameRoomAs, Some(FeatureDataDict[p.objectName].featureType), None)])
      else Err(KeyError(p.objectName))
    else if p.preposition == "in the corner of" then
      Ok([PositionSelector(Beside, Some(FeatureDataDict["corner"].featureType), None)])
    else if p.preposition == "in" then
      match Get(roomIds, p.objectName)
      case Some(id) => Ok([PositionSelector(In, None, Some(id))])
      case None => Err(KeyError(p.objectName))
    else Ok([])
  }

  /** `_encode_exclusive_person_clue`: the subject alone is there, and nobody else. */
  function EncodeExclusivePersonClue(p: ParsedPersonClue, roomIds: Dict<string, int>, peopleIds: Dict<string, int>): Result<seq<Clue>, EncodeError>
  {
    match Get(peopleIds, p.subject)
    case None => Err(KeyError(p.subject))
    case Some(personId) =>
      match PrepositionalPhrase(p, roomIds)
      case Err(e) => Err(e)
      case Ok(position) =>
        Ok([Clue([SubjectSelector(personId, None, None, false)], position, ExactCount(1)),
            Clue([SubjectSelector(personId, None, None, true)], position, ExactCount(0))])
  }

  /** `_encode_person_clue`: the subject is there; with a quantifier phrase, so are
      as many people of the named kind. */
  function EncodePersonClue(p: ParsedPersonClue, roomIds: Dict<string, int>, peopleIds: Dict<string, int>): Result<seq<Clue>, EncodeError>
  {
    match Get(peopleIds, p.subject)
    case None => Err(KeyError(p.subject))
    case Some(personId) =>
      var subject := SubjectSelector(personId, None, None, false);
      var subjects := if p.subjPhrase.None? then [subject] else [subject, p.subjPhrase.value.selector];
      var count :=
        if p.subjPhrase.None? then ExactCount(1)
        else if p.subjPhrase.value.number.None? then MinCount(1)
        else ExactCount(1 + p.subjPhrase.value.number.value);
      match PrepositionalPhrase(p, roomIds)
      case Err(e) => Err(e)
      case Ok(position) => Ok([Clue(subjects, position, count)])
  }

  /** `encode_clue`. `personMatch` is what matching the raw clue against the
      person-clue pattern (`PersonCluePattern`) yields; it is consulted only when
      the clue is not the no-empty-room sentence and the pattern could be built. */
  method EncodeClue(rawClue: string, personMatch: Option<PersonClueMatch>, roomIds: Dict<string, int>, peopleIds: Dict<string, int>)
    returns (r: Result<seq<Clue>, EncodeError>)
    requires personMatch.Some? ==> WellFormedMatch(personMatch.value)
    ensures IsNoEmptyRoomSentence(rawClue) ==>
      r.Ok? && |r.value| == |roomIds| &&
      forall i :: 0 <= i < |roomIds| ==>
        r.value[i] == Clue([AnySubject], [PositionSelector(In, None, Some(roomIds[i].1))], MinCount(1))
    ensures !IsNoEmptyRoomSentence(rawClue) && |peopleIds| >= 10 ==> r == Err(NumberKeyError(10))
    ensures !IsNoEmptyRoomSentence(rawClue) && |peopleIds| < 10 && personMatch.None? ==> r == Err(NoMatch)
    ensures !IsNoEmptyRoomSentence(rawClue) && |peopleIds| < 10 && personMatch.Some? ==>
      var p := ParsePersonClue(personMatch.value);
      r == if p.exclusive then EncodeExclusivePersonClue(p, roomIds, peopleIds) else EncodePersonClue(p, roomIds, peopleIds)
  {
    if IsNoEmptyRoomSentence(rawClue) {
      var clues := EncodeNoEmptyRoom(roomIds);
      return Ok(clues);
    }
    var fields := PatternFieldsFor(roomIds, peopleIds);
    if fields.Err? {
      return Err(fields.error);
    }
    if personMatch.None? {
      return Err(NoMatch);
    }
    var parsed := ParsePersonClue(personMatch.value);
    if parsed.exclusive {
      r := EncodeExclusivePersonClue(parsed, roomIds, peopleIds);
    } else {
      r := EncodePersonClue(parsed, roomIds, peopleIds);
    }
  }

  // ---------------------------------------------------------------------------
  // Properties

  /** An exclusive clue expands into exactly two clues with the same position:
      the subject exactly once, and everyone but the subject exactly zero times.
      Any quantifier phrase is ignored. */
  lemma ExclusiveExpansion(p: ParsedPersonClue, roomIds: Dict<string, int>, peopleIds: Dict<string, int>)
    requires Get(peopleIds, p.subject).Some? && PrepositionalPhrase(p, roomIds).Ok?
    ensures var r := EncodeExclusivePersonClue(p, roomIds, peopleIds);
      var id := Get(peopleIds, p.subject).value;
      r.Ok? && |r.value| == 2
      && r.value[0].subjectSelectors == [SubjectSelector(id, None, None, false)]
      && r.value[0].count == ExactCount(1)
      && r.value[1].subjectSelectors == [SubjectSelector(id, None, None, true)]
      && r.value[1].count == ExactCount(0)
      && r.value[0].positionSelectors == r.value[1].positionSelectors == PrepositionalPhrase(p, roomIds).value
    ensures EncodeExclusivePersonClue(p, roomIds, peopleIds) == EncodeExclusivePersonClue(p.(subjPhrase := None), roomIds, peopleIds)
  {
    assert PrepositionalPhrase(p, roomIds) == PrepositionalPhrase(p.(subjPhrase := None), roomIds);
  }

  /** The count rule: without a quantifier phrase the subject alone is counted
      exactly once; with one, a second selector is added and the count is one
      more than the phrase's number, or at least one when the word has no value. */
  lemma PersonClueCount(p: ParsedPersonClue, roomIds: Dict<string, int>, peopleIds: Dict<string, int>)
    requires Get(peopleIds, p.subject).Some? && PrepositionalPhrase(p, roomIds).Ok?
    ensures var r := EncodePersonClue(p, roomIds, peopleIds);
      var subject := SubjectSelector(Get(peopleIds, p.subject).value, None, None, false);
      r.Ok? && |r.value| == 1 && r.value[0].positionSelectors == PrepositionalPhrase(p, roomIds).value
      && (p.subjPhrase.None? ==> r.value[0].subjectSelectors == [subject] && r.value[0].count == ExactCount(1))
      && (p.subjPhrase.Some? ==> r.value[0].subjectSelectors == [subject, p.subjPhrase.value.selector])
      && (p.subjPhrase.Some? && p.subjPhrase.value.number.Some? ==> r.value[0].count == ExactCount(1 + p.subjPhrase.value.number.value))
      && (p.subjPhrase.Some? && p.subjPhrase.value.number.None? ==> r.value[0].count == MinCount(1))
  {
  }

  /** The eight nouns of the quantifier phrase, after one trailing 's' is dropped,
      select: a gender for man/men/woman/women, the suspect role for
      suspect/suspects, and nothing for person/people. */
  lemma SubjectNounSelectors()
    ensures ParseSubjPhrase(SubjPhraseMatch("two", None, "men")).selector == SubjectSelector(0, None, Some(Male), false)
    ensures ParseSubjPhrase(SubjPhraseMatch("a", None, "man")).selector == SubjectSelector(0, None, Some(Male), false)
    ensures ParseSubjPhrase(SubjPhraseMatch("a", None, "woman")).selector == SubjectSelector(0, None, Some(Female), false)
    ensures ParseSubjPhrase(SubjPhraseMatch("two", None, "women")).selector == SubjectSelector(0, None, Some(Female), false)
    ensures ParseSubjPhrase(SubjPhraseMatch("a", None, "person")).selector == AnySubject
    ensures ParseSubjPhrase(SubjPhraseMatch("two", None, "people")).selector == AnySubject
    ensures ParseSubjPhrase(SubjPhraseMatch("a", None, "suspect")).selector == SubjectSelector(0, Some(Suspect), None, false)
    ensures ParseSubjPhrase(SubjPhraseMatch("two", None, "suspects")).selector == SubjectSelector(0, Some(Suspect), None, false)
    ensures ParseSubjPhrase(SubjPhraseMatch("a", Some("suspect"), "woman")).selector == SubjectSelector(0, Some(Suspect), Some(Female), false)
  {
    GenderNounSelectors();
    PersonNounSelectors();
    SuspectNounSelectors();
  }

  /** The gender nouns, singular or plural. */
  lemma GenderNounSelectors()
    ensures ParseSubjPhrase(SubjPhraseMatch("two", None, "men")).selector == SubjectSelector(0, None, Some(Male), false)
    ensures ParseSubjPhrase(SubjPhraseMatch("a", None, "man")).selector == SubjectSelector(0, None, Some(Male), false)
    ensures ParseSubjPhrase(SubjPhraseMatch("a", None, "woman")).selector == SubjectSelector(0, None, Some(Female), false)
    ensures ParseSubjPhrase(SubjPhraseMatch("two", None, "women")).selector == SubjectSelector(0, None, Some(Female), false)
  {
    assert Singular("men") == "men";
    assert Singular("women") == "women";
  }

  /** The nouns that select nobody in particular. */
  lemma PersonNounSelectors()
    ensures ParseSubjPhrase(SubjPhraseMatch("a", None, "person")).selector == AnySubject
    ensures ParseSubjPhrase(SubjPhraseMatch("two", None, "people")).selector == AnySubject
  {
    assert Singular("people") == "people";
    assert "people" !in RoleDict && "people" !in GenderDict;
    assert "person" !in RoleDict && "person" !in GenderDict;
  }

  /** The role noun, alone or after the adjective "suspect". */
  lemma SuspectNounSelectors()
    ensures ParseSubjPhrase(SubjPhraseMatch("a", None, "suspect")).selector == SubjectSelector(0, Some(Suspect), None, false)
    ensures ParseSubjPhrase(SubjPhraseMatch("two", None, "suspects")).selector == SubjectSelector(0, Some(Suspect), None, false)
    ensures ParseSubjPhrase(SubjPhraseMatch("a", Some("suspect"), "woman")).selector == SubjectSelector(0, Some(Suspect), Some(Female), false)
  {
    assert Singular("suspects") == "suspect";
  }

  /** Neither the number word nor the nouns are lower-cased before the lookups: a
      capitalised "Two" has no value, so "with Two other men" only requires at
      least one person, while "with two other men" counts exactly three; and a
      capitalised "Men" selects nobody's gender. */
  lemma CaseSensitiveQuantifier(personId: int, position: seq<PositionSelector>)
    ensures ParseSubjPhrase(SubjPhraseMatch("Two", None, "men")).number == None
    ensures ParseSubjPhrase(SubjPhraseMatch("two", None, "men")).number == Some(2)
    ensures ParseSubjPhrase(SubjPhraseMatch("two", None, "Men")).selector == AnySubject
  {
    UnknownWordsHaveNoValue();
    NumberWordValues(2);
    assert Singular("Men") == "Men";
    assert "Men" !in GenderDict && "Men" !in RoleDict;
  }

  /** The preposition table. */
  lemma PrepositionTable(p: ParsedPersonClue, roomIds: Dict<string, int>)
    ensures p.preposition == "on" && p.objectName in FeatureDataDict ==>
      PrepositionalPhrase(p, roomIds) == Ok([PositionSelector(On, Some(FeatureDataDict[p.objectName].featureType), None)])
    ensures (p.preposition == "beside" || p.preposition == "next to") ==>
      PrepositionalPhrase(p, roomIds) ==
        if p.objectName in FeatureDataDict then Ok([PositionSelector(Beside, Some(FeatureDataDict[p.objectName].featureType), None)])
        else Ok([])
    ensures p.preposition == "in the corner of" ==>
      PrepositionalPhrase(p, roomIds) == Ok([PositionSelector(Beside, Some(Corner), None)])
    ensures p.preposition == "in the same row as" && p.objectName in FeatureDataDict ==>
      PrepositionalPhrase(p, roomIds) == Ok([PositionSelector(InSameRowAs, Some(FeatureDataDict[p.objectName].featureType), None)])
    ensures p.preposition == "in the same column as" && p.objectName in FeatureDataDict ==>
      PrepositionalPhrase(p, roomIds) == Ok([PositionSelector(InSameColumnAs, Some(FeatureDataDict[p.objectName].featureType), None)])
    ensures p.preposition == "in the same room as" && p.objectName in FeatureDataDict ==>
      PrepositionalPhrase(p, roomIds) == Ok([PositionSelector(InSameRoomAs, Some(FeatureDataDict[p.objectName].featureType), None)])
    ensures p.preposition == "in" ==>
      PrepositionalPhrase(p, roomIds) ==
        if Get(roomIds, p.objectName).Some? then Ok([PositionSelector(In, None, Some(Get(roomIds, p.objectName).value))])
        else Err(KeyError(p.objectName))
  {
  }

  /** The sentence is recognised with a capital letter, a period and a final
      newline. */
  lemma NoEmptyRoomSentences()
    ensures IsNoEmptyRoomSentence("There was no empty room.\n")
  {
    var raw := "There was no empty room.\n";
    var body := raw[..|raw| - 1];
    assert body == "There was no empty room.";
    var t := NoEmptyRoomText + ".";
    forall i | 0 <= i < |body| ensures LowerChar(body[i]) == t[i] {
      if i == 0 {
        assert body[0] == 'T';
      } else {
        assert body[i] == t[i] && !('A' <= t[i] <= 'Z');
      }
    }
    assert Lower(body) == t;
  }

  /** Every form of the sentence the pattern admits: the 23 letters in any
      letter case, then nothing, a period, a newline, or a period and a
      newline. */
  lemma NoEmptyRoomForms(raw: string)
    ensures IsNoEmptyRoomSentence(raw) <==> exists k :: NoEmptyRoomSplitAt(raw, k)
  {
    if IsNoEmptyRoomSentence(raw) {
      NoEmptyRoomSplits(raw);
      assert NoEmptyRoomSplitAt(raw, 23);
    }
    if exists k :: NoEmptyRoomSplitAt(raw, k) {
      var k :| NoEmptyRoomSplitAt(raw, k);
      assert raw == raw[..k] + raw[k..];
      NoEmptyRoomJoins(raw[..k], raw[k..]);
    }
  }

  /** The first k characters are the words and the rest an ending. */
  predicate NoEmptyRoomSplitAt(raw: string, k: int) {
    0 <= k <= |raw| && Lower(raw[..k]) == NoEmptyRoomText && SentenceEnd(raw[k..])
  }

  /** What may follow the words: `\.?` and the newline `$` admits. */
  predicate SentenceEnd(tail: string) {
    tail == "" || tail == "." || tail == "\n" || tail == ".\n"
  }

  lemma LowerAppend(a: string, b: string)
    ensures Lower(a + b) == Lower(a) + Lower(b)
  {
    assert forall i :: 0 <= i < |a + b| ==> Lower(a + b)[i] == (Lower(a) + Lower(b))[i];
  }

  lemma NoEmptyRoomJoins(s: string, tail: string)
    requires Lower(s) == NoEmptyRoomText && SentenceEnd(tail)
    ensures IsNoEmptyRoomSentence(s + tail)
  {
    assert |s| == 23 && Lower(s)[22] == 'm';
    SentenceBody(s, tail);
    LowerAppend(s, ".");
  }

  /** Dropping the final newline from the words and an ending leaves the
      words, followed by the period if there is one. */
  lemma SentenceBody(s: string, tail: string)
    requires |s| > 0 && s[|s| - 1] != '\n' && SentenceEnd(tail)
    ensures var raw := s + tail;
      (if |raw| > 0 && raw[|raw| - 1] == '\n' then raw[..|raw| - 1] else raw)
        == s + (if tail == "." || tail == ".\n" then "." else "")
  {
    var raw := s + tail;
    if tail == "" {
      assert raw == s;
    } else if tail == "\n" {
      assert raw[..|raw| - 1] == s;
    } else if tail == ".\n" {
      assert raw[..|raw| - 1] == s + ".";
    }
  }

  lemma NoEmptyRoomSplits(raw: string)
    requires IsNoEmptyRoomSentence(raw)
    ensures NoEmptyRoomSplitAt(raw, 23)
  {
    var body := if |raw| > 0 && raw[|raw| - 1] == '\n' then raw[..|raw| - 1] else raw;
    SentenceSplits(raw, body, NoEmptyRoomText);
  }

  /** A text whose body, once any final newline is dropped, reads as the
      words t, or t and a period, is t's letters in some case and then an
      ending. */
  lemma SentenceSplits(raw: string, body: string, t: string)
    requires body == if |raw| > 0 && raw[|raw| - 1] == '\n' then raw[..|raw| - 1] else raw
    requires Lower(body) == t || Lower(body) == t + "."
    ensures |t| <= |raw| && Lower(raw[..|t|]) == t && SentenceEnd(raw[|t|..])
  {
    var n := |t|;
    assert raw[..n] == body[..n];
    assert body == body[..n] + body[n..];
    LowerAppend(body[..n], body[n..]);
    var rest := body[n..];
    if |rest| == 1 {
      assert Lower(rest)[0] == '.';
      assert rest == ".";
    } else {
      assert rest == "";
    }
    if |raw| > 0 && raw[|raw| - 1] == '\n' {
      assert raw[n..] == rest + "\n";
    } else {
      assert raw[n..] == rest;
    }
  }
}

/** The add-Pokémon form (components/add-pokemon-form.tsx): the schema its values
    must satisfy before they are submitted, and `parseRawData`, which copies what
    the patterns of `StatBlock` find in the pasted text into the form fields. */
module AddPokemonForm {
  import opened Common
  import opened StatBlock

  /** The values held by the form (react-hook-form state). */
  datatype FormValues = FormValues(
    player: string,
    pokemonName: string,
    species: string,
    gender: string,
    level: int,
    ability: string,
    nature: string,
    moves: string,
    rawData: string)

  /** The form's `defaultValues`. */
  function DefaultValues(): FormValues {
    FormValues("", "", "", "", 1, "", "", "", "")
  }

  /** `formSchema`: the name, species, ability, nature and moves must be non-empty
      and the level lies in 1..100. `player` and `gender` only have to be strings,
      which the empty string is; `rawData` is optional. */
  predicate SchemaAccepts(v: FormValues) {
    && |v.pokemonName| >= 1
    && |v.species| >= 1
    && 1 <= v.level <= 100
    && |v.ability| >= 1
    && |v.nature| >= 1
    && |v.moves| >= 1
  }

  /** The schema does not look at the player, gender or pasted text; it refuses
      the default values, and the default level 1 is within its bounds, so the
      defaults pass exactly once the five required texts are filled in. */
  lemma SchemaBounds(v: FormValues, player: string, gender: string, rawData: string)
    ensures SchemaAccepts(v) <==> SchemaAccepts(v.(player := player, gender := gender, rawData := rawData))
    ensures !SchemaAccepts(DefaultValues())
    ensures SchemaAccepts(DefaultValues().(pokemonName := v.pokemonName, species := v.species,
                                           ability := v.ability, nature := v.nature, moves := v.moves))
      <==> v.pokemonName != "" && v.species != "" && v.ability != "" && v.nature != "" && v.moves != ""
  {
  }

  /** The field value after `if (match) form.setValue(field, match[1])`. */
  function SetIfMatched(m: Option<string>, current: string): (r: string)
    ensures m.None? ==> r == current
    ensures m.Some? ==> r == m.value
  {
    match m
    case Some(g) => g
    case None => current
  }

  /** What the patterns of lines 78-87 capture in one text, before any field is written. */
  datatype Extraction = Extraction(
    name: Option<string>,
    species: Option<string>,
    gender: Option<string>,
    level: Option<nat>,
    ability: Option<string>,
    nature: Option<string>,
    moves: string)

  /** `Number.parseInt(levelMatch[1])` when the level pattern matched. */
  function LevelValue(text: string): (r: Option<nat>)
    ensures r.None? <==> LevelMatch(text).None?
  {
    LevelMatchIsDigits(text);
    match LevelMatch(text)
    case Some(d) => Some(DecimalValue(d))
    case None => None
  }

  /** Runs every pattern of `parseRawData` on `text`. The species and gender
      patterns never capture anything. */
  function Extract(text: string): (e: Extraction)
    ensures e.species.None? && e.gender.None?
    ensures e.moves == MovesText(text)
  {
    SpeciesNeverMatches(text);
    GenderNeverMatches(text);
    Extraction(NameMatch(text), SpeciesMatch(text), GenderMatch(text), LevelValue(text),
               AbilityMatch(text), NatureMatch(text), MovesText(text))
  }

  /** The writes of lines 89-95: a field changes only when its pattern captured
      something; the moves are always written. */
  function Apply(v: FormValues, e: Extraction): (r: FormValues)
    ensures r.player == v.player && r.rawData == v.rawData && r.moves == e.moves
  {
    v.(pokemonName := SetIfMatched(e.name, v.pokemonName),
       species := SetIfMatched(e.species, v.species),
       gender := SetIfMatched(e.gender, v.gender),
       level := (match e.level case Some(n) => n case None => v.level),
       ability := SetIfMatched(e.ability, v.ability),
       nature := SetIfMatched(e.nature, v.nature),
       moves := e.moves)
  }

  /** The form values after `parseRawData`. An empty text leaves everything as it is;
      otherwise every field whose pattern matched is overwritten with the capture,
      every other field keeps its value, and the moves are always overwritten.
      Species and gender are never written: their patterns cannot match. */
  function Parsed(v: FormValues): (r: FormValues)
    ensures v.rawData == "" ==> r == v
    ensures r.player == v.player && r.rawData == v.rawData
    ensures r.species == v.species && r.gender == v.gender
    ensures v.rawData != "" ==> r.moves == MovesText(v.rawData)
  {
    if v.rawData == "" then v else Apply(v, Extract(v.rawData))
  }

  /** Field by field, what `Parsed` writes for a non-empty text. */
  lemma ParsedFields(v: FormValues)
    requires v.rawData != ""
    ensures var t := v.rawData;
      var r := Parsed(v);
      && r.pokemonName == SetIfMatched(NameMatch(t), v.pokemonName)
      && (LevelMatch(t).None? ==> r.level == v.level)
      && (LevelMatch(t).Some? ==> AllDigits(LevelMatch(t).value) && r.level == DecimalValue(LevelMatch(t).value))
      && r.ability == SetIfMatched(AbilityMatch(t), v.ability)
      && r.nature == SetIfMatched(NatureMatch(t), v.nature)
  {
    LevelMatchIsDigits(v.rawData);
  }

  /** The nickname becomes the maximal run of non-space characters at the start
      of the text; a text that starts with white space leaves it unchanged. */
  lemma ParsedNickname(v: FormValues)
    requires v.rawData != ""
    ensures var t := v.rawData;
      var name := Parsed(v).pokemonName;
      if IsJsSpace(t[0]) then name == v.pokemonName
      else (0 < |name| <= |t| && name == t[..|name|]
        && (forall k :: 0 <= k < |name| ==> !IsJsSpace(name[k]))
        && (|name| == |t| || IsJsSpace(t[|name|])))
  {
    NameMatchMeaning(v.rawData);
  }

  /** The level becomes the decimal value of the digits after the first "Level: "
      that is followed by a digit; with no such label it is unchanged. */
  lemma ParsedLevel(v: FormValues)
    requires v.rawData != ""
    ensures var t := v.rawData;
      (forall i :: 0 <= i <= |t| ==> !(LiteralAt(t, i, "Level: ") && i + 7 < |t| && IsDigit(t[i + 7])))
        ==> Parsed(v).level == v.level
    ensures var t := v.rawData;
      LevelMatch(t).Some? ==>
        exists i :: 0 <= i <= |t| && LiteralAt(t, i, "Level: ")
          && ClassRun(t, i + 7, IsDigit) == LevelMatch(t)
          && Parsed(v).level == DecimalValue(LevelMatch(t).value)
  {
    LevelMatchMeaning(v.rawData);
    LevelMatchIsDigits(v.rawData);
  }

  /** The ability becomes the rest of the line (a non-empty run without newlines)
      after the first "Ability: " that is followed by a character other than a
      newline; with no such label it is unchanged. */
  lemma ParsedAbility(v: FormValues)
    requires v.rawData != ""
    ensures var t := v.rawData;
      (forall i :: 0 <= i <= |t| ==> !(LiteralAt(t, i, "Ability: ") && i + 9 < |t| && t[i + 9] != '\n'))
        ==> Parsed(v).ability == v.ability
    ensures var t := v.rawData;
      AbilityMatch(t).Some? ==>
        exists i :: 0 <= i <= |t| && LiteralAt(t, i, "Ability: ")
          && ClassRun(t, i + 9, NotNewline) == Some(Parsed(v).ability)
  {
    AbilityMatchMeaning(v.rawData);
    ParsedFields(v);
  }

  /** With no letter directly before a " Nature" label the nature is unchanged;
      otherwise it becomes the whole run of ASCII letters that ends at the first
      such label. */
  lemma ParsedNature(v: FormValues)
    requires v.rawData != ""
    ensures !HasNatureLabel(v.rawData) ==> Parsed(v).nature == v.nature
    ensures HasNatureLabel(v.rawData) ==> FirstNatureRun(v.rawData, Parsed(v).nature)
  {
    ParsedFields(v);
    NatureMatchMeaning(v.rawData);
  }

  /** Pasting a one-line text sets the moves field to that line. */
  lemma ParsedMovesOfOneLine(v: FormValues)
    requires v.rawData != "" && '\n' !in v.rawData
    ensures Parsed(v).moves == v.rawData
  {
    MovesOfOneLine(v.rawData);
  }

  /** Parsing never fills in the species, so a form whose species is still empty
      is not submittable after parsing, whatever was pasted. */
  lemma ParsingNeverCompletesSpecies(v: FormValues)
    requires v.species == ""
    ensures !SchemaAccepts(Parsed(v))
  {
  }

  /** The state of the form component: the form fields and the `isParsingData` flag. */
  class PokemonForm {
    var player: string
    var pokemonName: string
    var species: string
    var gender: string
    var level: int
    var ability: string
    var nature: string
    var moves: string
    var rawData: string
    var isParsingData: bool

    function Values(): FormValues
      reads this
    {
      FormValues(player, pokemonName, species, gender, level, ability, nature, moves, rawData)
    }

    constructor ()
      ensures Values() == DefaultValues() && !isParsingData
    {
      player, pokemonName, species, gender := "", "", "", "";
      level := 1;
      ability, nature, moves, rawData := "", "", "", "";
      isParsingData := false;
    }

    /** `parseRawData`: returns at once on an empty text; otherwise raises the
        parsing flag, runs the six patterns and the moves heuristic, writes each
        field whose pattern matched and the moves, and lowers the flag again. */
    method ParseRawData()
      modifies this
      ensures Values() == Parsed(old(Values()))
      ensures isParsingData == (if old(rawData) == "" then old(isParsingData) else false)
    {
      var text := rawData;
      if text == "" {
        return;
      }
      isParsingData := true;
      var found := Extract(text);
      WriteExtraction(found);
      isParsingData := false;
    }

    /** The `form.setValue` calls of `parseRawData` for what the patterns captured. */
    method WriteExtraction(found: Extraction)
      modifies this
      ensures Values() == Apply(old(Values()), found)
      ensures isParsingData == old(isParsingData)
    {
      ghost var target := Apply(Values(), found);
      WriteNames(found);
      if found.level.Some? { level := found.level.value; }
      if found.ability.Some? { ability := found.ability.value; }
      if found.nature.Some? { nature := found.nature.value; }
      moves := found.moves;
      assert Values() == target;
    }

    /** The nickname, species and gender writes of `WriteExtraction`. */
    method WriteNames(found: Extraction)
      modifies this
      ensures pokemonName == SetIfMatched(found.name, old(pokemonName))
      ensures species == SetIfMatched(found.species, old(species))
      ensures gender == SetIfMatched(found.gender, old(gender))
      ensures player == old(player) && level == old(level) && ability == old(ability)
      ensures nature == old(nature) && moves == old(moves) && rawData == old(rawData)
      ensures isParsingData == old(isParsingData)
    {
      if found.name.Some? { pokemonName := found.name.value; }
      if found.species.Some? { species := found.species.value; }
      if found.gender.Some? { gender := found.gender.value; }
    }
  }
}

# pokemon-nuzlocke: a verified model of the form logic and the server actions

The application tracks Pokémon "nuzlocke" challenges played by several players:
a nuzlocke has players (each with lives), Pokémon that can die, rules grouped by
type, and battles whose casualties are marked dead. This Dafny project models the
parts of it that compute something, with the Supabase tables replaced by
in-memory values and the React state by classes:

- `StatBlock` and `AddPokemonForm` (components/add-pokemon-form.tsx): the zod
  schema of the add-Pokémon form as a predicate, each regular expression of
  `parseRawData` as a "match at position i" function plus a leftmost search,
  and the form state as the class `PokemonForm`, whose `ParseRawData` writes a
  field only when its pattern matched.
- `NuzlockeActions` (lib/actions/nuzlocke.ts): the reduce of `getNuzlockes`
  that groups rows by nuzlocke (as a function `Grouped` and as the loop
  `GroupNuzlockes`), the player projection of `getNuzlockeById`, and the class
  `NuzlockeStore` with `createNuzlocke`'s find-or-create loop over a player table
  keyed by name, `updateNuzlocke`'s partial payload and `archiveNuzlocke`.
- `RuleActions` (lib/actions/rules.ts): the three-way partition of the rules.
- `PokemonActions` (lib/actions/pokemon.ts): the row `createPokemon` inserts
  (the `|| null` and `|| 0` coercions), `markPokemonAsDead` on the class
  `PokemonTable`, and the filter of `getPokemonByPlayer`.
- `BattleActions` (lib/actions/battles.ts): the battle row and the casualty
  rows of `createBattle`, the loop that marks the casualties dead and stops at
  the first failing update, and the casualty projection of
  `getBattlesByNuzlocke`.
- `BattleHistory` (components/battle-history.tsx): the dialog state as the class
  `BattleForm`: exclusive player selection, the casualty toggle list, submit
  validation and reset.
- `CreateNuzlockeForm` (components/create-nuzlocke-button.tsx): the three player
  slots, the ordered submit checks and the blank-slot filter.
- `NuzlockeList` (components/nuzlocke-list.tsx): the status colour, label and
  badge mappings and the description preview.
- `Common`: `Option`, `Result`, JavaScript white space, `trim`, `split` and `join`.

Modelling choices:

- Database ids and timestamps (`new Date().toISOString()`) are parameters. Player
  ids created by `createNuzlocke` are serial numbers taken from the player table.
- Backend failures that the table contents do not decide are parameters. These
  are: the failing association insert in `createNuzlocke` (`failAt`), the
  casualty insert and the per-Pokémon updates in `createBattle`, the casualty
  query of `getBattlesByNuzlocke`, and the outcome of the server call in both
  dialogs. An insert whose id is already taken fails. An update or read that
  ends in `.single()` fails on a missing id. Other updates of a missing id
  change nothing. The per-Pokémon `.update().eq()` of `createBattle` is such
  an update (`MarkIfPresent`).
- A thrown `Error` is a `Result.Err` carrying its message.
- The species pattern `/$$([^)]+)$$/` and the gender pattern `/$$([MF])$$/` are
  modelled as written. Without the multiline flag, `$` only holds at the end of
  the input, so neither pattern can ever match (`SpeciesNeverMatches`,
  `GenderNeverMatches`). Parsing therefore never sets the species or the gender.
- The code reads only `nuzlocke_players[0]` of each row in `getNuzlockes`. A row
  without players throws a TypeError there, modelled as `Err`.
- The parser extracts no IVs or EVs, and no such code exists, so none is modelled.
- `Number.parseInt` is only applied to digit runs, modelled as `DecimalValue`.

## Model

| member | source | states |
|---|---|---|
| Common.Trim | lib/actions/nuzlocke.ts:143 | `trim` removes only white space, at both ends, and leaves none at either end of the result |
| Common.SpaceEnd | lib/actions/nuzlocke.ts:143 | the leading white space ends at the first non-space character, or at the end |
| Common.SpaceStart | lib/actions/nuzlocke.ts:143 | the trailing white space starts after the last non-space character, never before the given bound |
| Common.BlankIffTrimEmpty | components/create-nuzlocke-button.tsx:67 | `!s.trim()` holds exactly when the string is nothing but white space |
| Common.TrimIdempotent | lib/actions/nuzlocke.ts:149 | trimming a trimmed name changes nothing |
| Common.Split | components/add-pokemon-form.tsx:86 | `split` yields at least one piece and no piece contains the separator |
| Common.SplitLength | components/add-pokemon-form.tsx:86 | splitting yields one more piece than there are separators |
| Common.JoinSplit | components/add-pokemon-form.tsx:86-87 | splitting on newlines and joining with ", " replaces each newline by ", " |
| Common.JoinSplitRoundTrip | components/add-pokemon-form.tsx:86-87 | joining the pieces with the separator gives back the text |
| StatBlock.ClassRun | components/add-pokemon-form.tsx:78-83 | a greedy `[cls]+` group is the maximal run of class characters at that position, and exists exactly when the first character is in the class |
| StatBlock.Leftmost | components/add-pokemon-form.tsx:78-83 | `match` returns the first position where the pattern matches; no earlier position matches, and no match means no position matches |
| StatBlock.DecimalRoundTrip | components/add-pokemon-form.tsx:92 | `parseInt` on decimal digits reads back every number written in decimal |
| StatBlock.NameMatchMeaning | components/add-pokemon-form.tsx:78 | the name pattern matches exactly when the text starts with a non-space, and captures the maximal non-space prefix |
| StatBlock.SpeciesNeverMatches | components/add-pokemon-form.tsx:79 | the end-anchored species pattern matches no text |
| StatBlock.GenderNeverMatches | components/add-pokemon-form.tsx:80 | the end-anchored gender pattern matches no text |
| StatBlock.LevelMatchMeaning | components/add-pokemon-form.tsx:81 | the level is the digit run after the first "Level: " followed by a digit; no match exactly when no "Level: " is followed by a digit |
| StatBlock.LevelMatchIsDigits | components/add-pokemon-form.tsx:81 | a level capture is a non-empty digit string |
| StatBlock.AbilityMatchMeaning | components/add-pokemon-form.tsx:82 | the ability is the rest of the line after the first "Ability: " followed by a non-newline; no match exactly when there is none |
| StatBlock.NatureMatchMeaning | components/add-pokemon-form.tsx:83 | the nature pattern fails exactly when no letter is directly followed by " Nature"; when it matches, the capture is a whole ASCII-letter run (not preceded by a letter) ending at the first such label |
| StatBlock.NatureFound | components/add-pokemon-form.tsx:83 | the leftmost nature match is a whole letter run, not preceded by a letter, directly followed by " Nature", with no such label ending earlier |
| StatBlock.NoLabelBefore | components/add-pokemon-form.tsx:83 | when the pattern matches nowhere before a letter run, no " Nature" label ends before that run's end |
| StatBlock.NatureAtLabel | components/add-pokemon-form.tsx:83 | a letter directly before " Nature" is itself a match of the nature pattern |
| StatBlock.NatureAtEarlier | components/add-pokemon-form.tsx:83 | a nature match inside a letter run implies a match at the run's previous letter, so the leftmost match starts the run |
| StatBlock.MovesOfOneLine | components/add-pokemon-form.tsx:86-87 | a one-line text is its own moves text |
| StatBlock.MovesOfFewLines | components/add-pokemon-form.tsx:86-87 | with at most four lines, the moves text is the text with each newline replaced by ", " |
| StatBlock.MovesKeepsLastLines | components/add-pokemon-form.tsx:86-87 | with five or more lines the moves text is the part after the fourth-last newline, newlines replaced by ", " |
| Common.SplitAt | components/add-pokemon-form.tsx:86 | splitting at one separator splits the two sides independently |
| AddPokemonForm.SchemaBounds | components/add-pokemon-form.tsx:16-58 | acceptance ignores player, gender and pasted text; the defaults are refused, and pass exactly once the five required texts are non-empty |
| AddPokemonForm.SetIfMatched | components/add-pokemon-form.tsx:89-94 | a field takes the capture when there is one and keeps its value otherwise |
| AddPokemonForm.LevelValue | components/add-pokemon-form.tsx:92 | a level value exists exactly when the level pattern matched |
| AddPokemonForm.Extract | components/add-pokemon-form.tsx:78-87 | running the patterns never captures a species or a gender; the moves are the last lines of the text |
| AddPokemonForm.Apply | components/add-pokemon-form.tsx:89-95 | the writes keep the player and the raw text and always overwrite the moves |
| AddPokemonForm.Parsed | components/add-pokemon-form.tsx:70-110 | an empty text changes nothing; otherwise player, raw text, species and gender are kept and the moves are the text's last lines |
| AddPokemonForm.ParsedFields | components/add-pokemon-form.tsx:89-94 | name, level, ability and nature are each overwritten with their capture when the pattern matched and kept otherwise; the level is the decimal value of its digits |
| AddPokemonForm.ParsedNickname | components/add-pokemon-form.tsx:78-89 | the nickname becomes the maximal non-space prefix, or stays when the text starts with white space |
| AddPokemonForm.ParsedLevel | components/add-pokemon-form.tsx:81-92 | with no "Level: " followed by a digit the level stays; otherwise it is the value of the digits after the first such label |
| AddPokemonForm.ParsedAbility | components/add-pokemon-form.tsx:82-93 | with no "Ability: " followed by a non-newline the ability stays; otherwise it is the rest of that line |
| AddPokemonForm.ParsedNature | components/add-pokemon-form.tsx:83-94 | the nature stays exactly when no letter precedes " Nature"; otherwise it becomes the whole letter run ending at the first such label |
| AddPokemonForm.ParsedMovesOfOneLine | components/add-pokemon-form.tsx:86-95 | pasting one line sets the moves to that line |
| AddPokemonForm.ParsingNeverCompletesSpecies | components/add-pokemon-form.tsx:79-90 | a form with an empty species fails the schema after any parse |
| AddPokemonForm.PokemonForm.constructor | components/add-pokemon-form.tsx:43-58 | the form starts at the default values with the parsing flag down |
| AddPokemonForm.PokemonForm.ParseRawData | components/add-pokemon-form.tsx:70-110 | the new field values are `Parsed` of the old ones; an empty text leaves the flag as it was, otherwise the flag ends down |
| AddPokemonForm.PokemonForm.WriteExtraction | components/add-pokemon-form.tsx:89-95 | the `setValue` calls produce `Apply` of the captures |
| AddPokemonForm.PokemonForm.WriteNames | components/add-pokemon-form.tsx:89-91 | nickname, species and gender change only when their pattern captured, and nothing else changes |
| NuzlockeActions.PlayerOf | lib/actions/nuzlocke.ts:53-55 | a row contributes the id, name and lives of its first embedded player |
| NuzlockeActions.IndexOf | lib/actions/nuzlocke.ts:48 | `acc.find` stops at the first summary with the id, and finds none exactly when no summary has it |
| NuzlockeActions.IndexOfFirst | lib/actions/nuzlocke.ts:48 | a linear search that stops at the first summary with the id finds what `acc.find` finds |
| NuzlockeActions.Step | lib/actions/nuzlocke.ts:48-71 | one reducer call throws exactly when the row has no embedded player; otherwise it adds at most one summary and keeps the first row of every existing summary |
| NuzlockeActions.Grouped | lib/actions/nuzlocke.ts:47-72 | the reduce fails only with the TypeError of a row without players, and otherwise gives at most one summary per row |
| NuzlockeActions.FirstSeenMeaning | lib/actions/nuzlocke.ts:47-72 | first-appearance order keeps every id once and only ids of the input |
| NuzlockeActions.GroupedFails | lib/actions/nuzlocke.ts:53 | the reduce throws exactly when some row has no embedded player |
| NuzlockeActions.GroupedIds | lib/actions/nuzlocke.ts:47-72 | one summary per distinct nuzlocke id, in order of first appearance |
| NuzlockeActions.StepIds | lib/actions/nuzlocke.ts:48-68 | a reducer step adds the row's id at the end when it is new and leaves the ids otherwise |
| NuzlockeActions.GroupedDistinct | lib/actions/nuzlocke.ts:48-50 | no two summaries share an id |
| NuzlockeActions.GroupedPlayers | lib/actions/nuzlocke.ts:50-67 | each summary holds the players of all rows with its id, in row order, without deduplication |
| NuzlockeActions.GroupedFirstRows | lib/actions/nuzlocke.ts:48-68 | each summary's nuzlocke columns are those of the first row with its id (the spread row is never replaced) |
| NuzlockeActions.StepKeepsFirst | lib/actions/nuzlocke.ts:48-68 | one reducer call keeps each summary's row and starts a new summary only from a row whose id no earlier row has |
| NuzlockeActions.GroupedTotal | lib/actions/nuzlocke.ts:52-65 | there are as many players in the output as rows in the input |
| NuzlockeActions.GroupedEmpty | lib/actions/nuzlocke.ts:47-72 | no rows give no nuzlockes |
| NuzlockeActions.StepExisting | lib/actions/nuzlocke.ts:50-56 | appending a row's player to its existing summary keeps every summary complete |
| NuzlockeActions.StepNew | lib/actions/nuzlocke.ts:57-68 | starting a summary for a new id keeps every summary complete |
| NuzlockeActions.GroupNuzlockes | lib/actions/nuzlocke.ts:47-72 | the mutating loop computes `Grouped` |
| NuzlockeActions.Card | lib/actions/nuzlocke.ts:106-111 | a card carries the embedded player's id, name and image and the row's lives |
| NuzlockeActions.PlayerCards | lib/actions/nuzlocke.ts:106-111 | the map gives exactly one card per row |
| NuzlockeActions.PlayerCardsMeaning | lib/actions/nuzlocke.ts:106-111 | one card per `nuzlocke_players` row, in order, carrying id, name, image and lives |
| NuzlockeActions.PlayerCardsAppend | lib/actions/nuzlocke.ts:106-111 | the projection maps each part of a concatenation separately |
| NuzlockeActions.LinksOf | lib/actions/nuzlocke.ts:88-98 | only rows of that nuzlocke are returned, all from the table |
| NuzlockeActions.LinksOfMembers | lib/actions/nuzlocke.ts:88-98 | a row is returned exactly when it is in the table and linked to the id |
| NuzlockeActions.LinksOfAppend | lib/actions/nuzlocke.ts:88-98 | the filter keeps table order: it distributes over concatenation |
| NuzlockeActions.NuzlockeById | lib/actions/nuzlocke.ts:81-116 | fails exactly when no nuzlocke has the id; otherwise that nuzlocke with the cards of its linked rows, in table order |
| NuzlockeActions.NuzlockeByIdPlayers | lib/actions/nuzlocke.ts:88-115 | every row linked to the nuzlocke gives one of its cards, and every card comes from such a row |
| NuzlockeActions.NewNuzlocke | lib/actions/nuzlocke.ts:125-132 | a new nuzlocke is "active" and its description is null exactly when absent or empty |
| NuzlockeActions.NamedPlayersAreTrimmed | lib/actions/nuzlocke.ts:143-149 | every name the loop looks up is non-empty and already trimmed |
| NuzlockeActions.EnrollOne | lib/actions/nuzlocke.ts:146-177 | one find-or-create step records exactly one more player id |
| NuzlockeActions.Enroll | lib/actions/nuzlocke.ts:143-184 | the steps record one player id per name |
| NuzlockeActions.EnrollEntries | lib/actions/nuzlocke.ts:142-190 | the loop over the raw entries records one player id per non-blank entry |
| NuzlockeActions.EnrollMeaning | lib/actions/nuzlocke.ts:142-184 | one id per name, the table's id for it; existing players keep their id, new names get fresh ids, and the table stays consistent |
| NuzlockeActions.EnrollOneMeaning | lib/actions/nuzlocke.ts:146-177 | one find-or-create records the table's id for the name, keeps every existing id, and adds at most that name with a fresh id |
| NuzlockeActions.EnrollIds | lib/actions/nuzlocke.ts:142-177 | the recorded ids are one per name, in order, each the table's id for its name |
| NuzlockeActions.EnrollTable | lib/actions/nuzlocke.ts:146-177 | existing players keep their id, only the names enter the table, and they enter with fresh ids |
| NuzlockeActions.EnrollValid | lib/actions/nuzlocke.ts:146-177 | the player table stays consistent: ids below the next fresh id, no id shared by two names |
| NuzlockeActions.RepeatedNameSamePlayer | lib/actions/nuzlocke.ts:146-184 | a repeated name is associated twice with the same player |
| NuzlockeActions.Associations | lib/actions/nuzlocke.ts:180-184 | each association links the nuzlocke and the player with 3 lives |
| NuzlockeActions.EnrollEntriesIsEnrollNamed | lib/actions/nuzlocke.ts:142-149 | looping over the raw names is find-or-create over the trimmed non-blank ones |
| NuzlockeActions.StoppedAfterStep | lib/actions/nuzlocke.ts:179-189 | the loop stops at an entry exactly when that entry's association insert fails |
| NuzlockeActions.StoppedReached | lib/actions/nuzlocke.ts:142-190 | when the loop ends it has gone through exactly the reached entries, and it failed exactly when a reached insert failed |
| NuzlockeActions.UpdatePayloadOf | lib/actions/nuzlocke.ts:202-208 | title, game and status are sent exactly when truthy, the description whenever defined, and the update time always |
| NuzlockeActions.ApplyPayload | lib/actions/nuzlocke.ts:200-211 | the update keeps the id and the start and creation dates, always writes `last_updated`, writes each title, game, description and status present in the payload, and leaves every column absent from the payload as it was |
| NuzlockeActions.UpdateIdempotent | lib/actions/nuzlocke.ts:202-208 | applying the same update twice equals applying it once |
| NuzlockeActions.EmptyFieldsIgnored | lib/actions/nuzlocke.ts:203-206 | empty title, game or status leave the row's values; an empty description is written |
| NuzlockeActions.ArchiveChangesOnlyStatus | lib/actions/nuzlocke.ts:224-229 | archiving sets the status to "archived" and the update time, and nothing else |
| NuzlockeActions.NuzlockeStore.constructor | lib/actions/nuzlocke.ts:120-190 | the tables start empty and consistent |
| NuzlockeActions.NuzlockeStore.CreateNuzlocke | lib/actions/nuzlocke.ts:120-194 | a taken id fails with no change; otherwise the nuzlocke is inserted, the names reached are found or created, one association per reached name is written, and the call fails exactly when an association insert fails |
| NuzlockeActions.NuzlockeStore.EnrollPlayers | lib/actions/nuzlocke.ts:142-190 | the loop leaves the player table and the associations as `EnrollEntries` over the reached names prescribes |
| NuzlockeActions.NuzlockeStore.AddEntry | lib/actions/nuzlocke.ts:143-189 | a blank name is skipped; otherwise one find-or-create step, then the association unless its insert fails |
| NuzlockeActions.NuzlockeStore.FindOrCreatePlayer | lib/actions/nuzlocke.ts:146-177 | reuses the id of an existing name, otherwise inserts the name with a fresh id |
| NuzlockeActions.NuzlockeStore.UpdateNuzlocke | lib/actions/nuzlocke.ts:197-221 | a missing id fails with no change; otherwise only that row receives the payload |
| NuzlockeActions.NuzlockeStore.ArchiveNuzlocke | lib/actions/nuzlocke.ts:224-229 | only the row's status and update time change |
| RuleActions.OfType | lib/actions/rules.ts:30-32 | a filter result holds only rules of its type |
| RuleActions.OfTypeMembers | lib/actions/rules.ts:30-32 | a rule is in a type's filter exactly when it is in the input with that type |
| RuleActions.OfTypeAppend | lib/actions/rules.ts:30-32 | the filter keeps input order |
| RuleActions.OfNoGroup | lib/actions/rules.ts:29-33 | the rules outside the three groups have none of the three types |
| RuleActions.GroupRulesMembers | lib/actions/rules.ts:29-33 | each group holds exactly the rules of its type |
| RuleActions.GroupRulesExclusive | lib/actions/rules.ts:29-33 | a rule of a known type lies in exactly one group, any other rule in none |
| RuleActions.GroupRulesSizes | lib/actions/rules.ts:29-33 | the three groups and the ungrouped rules account for every rule once |
| PokemonActions.StringOrNull | lib/actions/pokemon.ts:91-94 | the null coercion of an optional string gives null exactly for an absent or empty string, else the string |
| PokemonActions.NumberOrNull | lib/actions/pokemon.ts:96-107 | the null coercion of an optional number gives null exactly for an absent or zero number, else the number |
| PokemonActions.StatColumnsOf | lib/actions/pokemon.ts:96-107 | each of the six columns is null exactly when the object or its field is absent or 0, and otherwise holds that field's number |
| PokemonActions.StoredStatsUnique | lib/actions/pokemon.ts:96-107 | the per-column relation allows only the stored columns |
| PokemonActions.NewPokemonRowMeaning | lib/actions/pokemon.ts:86-109 | the new row is alive; empty optional strings are null and any other gender, ability or nature is stored as given; the moves are stored as given (null only when absent); dynamax level defaults to 0; each of the twelve `iv_*`/`ev_*` columns is null exactly when its number is absent or 0, else that number |
| PokemonActions.ZeroStatLost | lib/actions/pokemon.ts:96-107 | stat objects differing only in 0 against absent give the same columns |
| PokemonActions.AllZeroStatsLikeAbsent | lib/actions/pokemon.ts:96-107 | an object of zero or absent stats stores the same columns as no object |
| PokemonActions.NonZeroStatKept | lib/actions/pokemon.ts:96-107 | a full spread of non-zero stats is stored column by column as given |
| PokemonActions.PokemonByPlayer | lib/actions/pokemon.ts:64-69 | every returned Pokémon is alive and matches both ids |
| PokemonActions.PokemonByPlayerMembers | lib/actions/pokemon.ts:64-69 | a Pokémon is returned exactly when it is alive and matches both ids |
| PokemonActions.PokemonByPlayerAppend | lib/actions/pokemon.ts:64-69 | the filter keeps table order |
| PokemonActions.MarkDead | lib/actions/pokemon.ts:130-133 | only that row's `is_alive` becomes false; no other row changes |
| PokemonActions.MarkDeadIdempotent | lib/actions/pokemon.ts:130-133 | marking twice equals marking once |
| PokemonActions.PokemonTable.constructor | lib/actions/pokemon.ts:81-124 | the table starts as given |
| PokemonActions.PokemonTable.CreatePokemon | lib/actions/pokemon.ts:81-117 | a taken id fails with no change; otherwise the row of `NewPokemonRow` is inserted and returned |
| PokemonActions.PokemonTable.MarkPokemonAsDead | lib/actions/pokemon.ts:127-140 | a missing id fails with no change; otherwise the table becomes `MarkDead` of it |
| BattleActions.NewBattleRowMeaning | lib/actions/battles.ts:86-95 | the battle keeps the nuzlocke and both players; empty or absent winner, location and notes are null, any other value is kept |
| BattleActions.CasualtyRows | lib/actions/battles.ts:106-109 | one row per listed id, each carrying the new battle's id |
| BattleActions.CasualtyRowsIds | lib/actions/battles.ts:106-109 | the casualty rows carry exactly the listed ids in list order |
| BattleActions.MarkIfPresent | lib/actions/battles.ts:120 | an update of a listed id marks only that row dead; an id with no row changes nothing |
| BattleActions.MarkAllDead | lib/actions/battles.ts:119-126 | the updates never add or remove a row |
| BattleActions.MarkAllDeadMeaning | lib/actions/battles.ts:119-126 | after the updates, each listed Pokémon is dead with its other columns kept and every other row is untouched |
| BattleActions.FirstFailing | lib/actions/battles.ts:119-125 | the loop stops at the first id whose update fails, or runs to the end |
| BattleActions.AbortedMarking | lib/actions/battles.ts:119-125 | on a failing update the earlier casualties are dead and the failing and later ones are untouched |
| BattleActions.CreatedCasualtiesDead | lib/actions/battles.ts:119-126 | when no update fails, every listed Pokémon is dead and every other row untouched |
| BattleActions.MarkCasualtiesDead | lib/actions/battles.ts:119-126 | the loop succeeds exactly when no update fails and marks the ids before the first failing one |
| BattleActions.BattleTables.constructor | lib/actions/battles.ts:81-134 | the tables start as given |
| BattleActions.BattleTables.CreateBattle | lib/actions/battles.ts:81-134 | the battle is inserted first; without casualties nothing else is written; a failing casualty insert aborts; otherwise the rows are added and the casualties marked until the first failing update |
| BattleActions.CasualtiesOf | lib/actions/battles.ts:49-59 | the query returns only casualties of that battle |
| BattleActions.CasualtiesOfAppend | lib/actions/battles.ts:49-59 | the query keeps table order |
| BattleActions.CasualtiesOfSubset | lib/actions/battles.ts:49-59 | every returned casualty is in the table |
| BattleActions.Summaries | lib/actions/battles.ts:66-72 | a successful projection has one entry per casualty |
| BattleActions.SummariesMeaning | lib/actions/battles.ts:66-72 | the projection succeeds exactly when every casualty's Pokémon exists, and then gives id, nickname and species per casualty in order |
| BattleActions.WithCasualties | lib/actions/battles.ts:49-73 | a battle whose casualty query fails comes back unchanged without casualties; any view keeps its battle, listed casualties are one per casualty row of that battle, and the only error is the TypeError "Cannot read properties of null (reading 'id')" |
| BattleActions.BattlesWithCasualties | lib/actions/battles.ts:47-77 | a successful result has one view per battle |
| BattleActions.BattlesWithCasualtiesMeaning | lib/actions/battles.ts:47-77 | battles keep their order; a failed casualty query leaves the battle without casualties, any other battle gets the projection of its casualties |
| BattleActions.CreatedCasualtiesListed | lib/actions/battles.ts:106-111 | after a new battle's casualty rows are inserted, reading them back lists the given Pokémon in the given order |
| BattleHistory.Without | components/battle-history.tsx:73 | the filter removes every occurrence of the id and keeps every other element |
| BattleHistory.Toggle | components/battle-history.tsx:73 | toggling flips the membership of the toggled id and no other |
| BattleHistory.ToggleTwice | components/battle-history.tsx:73 | toggling an absent id twice restores the list |
| BattleHistory.ToggleNoDuplicates | components/battle-history.tsx:73 | toggling never creates duplicates in a list without them |
| BattleHistory.OrUndefined | components/battle-history.tsx:97-99 | the undefined coercion of a form field gives undefined exactly for the empty string |
| BattleHistory.BattleRequest | components/battle-history.tsx:93-101 | the request carries the dialog's nuzlocke and both players; winner, location and notes are undefined exactly when empty; the casualties are sent as checked |
| BattleHistory.BattleRequestStored | components/battle-history.tsx:93-101 | an empty winner, location or notes field ends up null in the battle row; casualties are registered exactly when a box is checked |
| BattleHistory.BattleForm.constructor | components/battle-history.tsx:36-43 | the dialog starts closed with every field empty |
| BattleHistory.BattleForm.HandlePlayerChange | components/battle-history.tsx:46-53 | only the chosen slot is set, the other is cleared when it held the same player, and the two slots never hold the same player |
| BattleHistory.BattleForm.HandleCasualtyToggle | components/battle-history.tsx:72-74 | the casualties become their toggle and stay free of duplicates; the player slots are untouched |
| BattleHistory.BattleForm.HandleSubmit | components/battle-history.tsx:76-126 | nothing is sent unless both players are set; the sent request maps empty fields to undefined; success resets every field and closes the dialog, failure keeps them; with the slots kept apart by `HandlePlayerChange` a sent request names two different players, and the slots stay apart |
| CreateNuzlockeForm.RefusedOrder | components/create-nuzlocke-button.tsx:47-75 | the checks run blank title, then empty game, then blank first slot; the first failure is reported, and the form passes exactly when all three pass |
| CreateNuzlockeForm.OnlyFirstSlotRequired | components/create-nuzlocke-button.tsx:67 | slots 1 and 2 never decide the checks |
| CreateNuzlockeForm.Filled | components/create-nuzlocke-button.tsx:78 | only non-blank slots are submitted, at most as many as there are slots |
| CreateNuzlockeForm.FilledNonBlank | components/create-nuzlocke-button.tsx:78 | a slot is submitted exactly when it is not blank |
| CreateNuzlockeForm.FilledMembers | components/create-nuzlocke-button.tsx:78 | a slot is submitted, untrimmed, exactly when its trimmed text is non-empty |
| CreateNuzlockeForm.FilledStartsWithFirst | components/create-nuzlocke-button.tsx:67-78 | a non-blank first slot is submitted first |
| CreateNuzlockeForm.SubmittedPlayerCount | components/create-nuzlocke-button.tsx:67-78 | a passing submit sends one to three players, the first slot first |
| CreateNuzlockeForm.FilledThenNamed | components/create-nuzlocke-button.tsx:78-85 | the client filter and the server's blank skip agree on the names that reach the player table |
| CreateNuzlockeForm.CreateNuzlockeDialog.constructor | components/create-nuzlocke-button.tsx:28-33 | three empty slots, closed dialog |
| CreateNuzlockeForm.CreateNuzlockeDialog.HandlePlayerChange | components/create-nuzlocke-button.tsx:35-39 | only slot `index` changes, and there are still three slots |
| CreateNuzlockeForm.CreateNuzlockeDialog.HandleSubmit | components/create-nuzlocke-button.tsx:41-107 | nothing is sent exactly when a check fails; otherwise title, game, description and the filled slots are sent, and the dialog closes on success |
| NuzlockeList.StatusColorMeaning | components/nuzlocke-list.tsx:87-100 | the header is green, blue or red exactly for active, completed or failed, and grey for archived and every other status |
| NuzlockeList.StatusTextMeaning | components/nuzlocke-list.tsx:102-115 | a named status is translated and any other is shown as it is; the label gives back the status |
| NuzlockeList.StatusTextInjectiveOnKnown | components/nuzlocke-list.tsx:102-115 | two different named statuses never share a label |
| NuzlockeList.BadgeClassMeaning | components/nuzlocke-list.tsx:37-43 | the badge is green for active, blue for completed and red for every other status, so archived gets a grey header and a red badge |
| NuzlockeList.DescriptionPreviewMeaning | components/nuzlocke-list.tsx:73 | a non-empty description shows at most its first 50 characters and always "..."; a missing or empty one shows "Sin descripción"; one of at most 50 characters can be read back |

## Left out

- Supabase client construction and configuration, `revalidatePath`, `console.error`, toasts, router navigation and `form.reset` are I/O with no effect on the modelled state.
- The server-side `order(...)` calls sort results in the backend. Table order stands in for that sort order.
- `getPokemonByNuzlocke`, `createRule` and `deleteRule` are not modelled. They pass a single query or insert straight through.
- The `last_updated` touch of the nuzlocke in `createPokemon`, `markPokemonAsDead` and `createBattle` is not modelled. Its error is never checked, and it only writes a timestamp.
- `Promise.all` in `getBattlesByNuzlocke` is modelled as a sequential map over the battles; the model does not capture the concurrency of the casualty queries.
- The asynchronous loading of the available Pokémon in the battle dialog is network I/O and is not modelled.
- NuzlockeActions.NuzlockeStore.CreateNuzlocke: only the association insert can fail. The player table is keyed by name, which assumes player names are unique, so the "Failed to check player" error that the single-row lookup raises when two players share a name is not modelled; nor is "Failed to create player", which comes from the backend and not from the table contents.
- PokemonActions.NewPokemonRow: level and stats are unbounded integers. JavaScript's floating-point numbers and `NaN` (which is also falsy under `|| null`) are not modelled.
- NuzlockeList.DescriptionPreview: `substring` counts UTF-16 code units, but the model counts characters. The two agree for text without characters beyond U+FFFF. The same applies to the regular expressions of the parser.
- BattleHistory.BattleForm.HandleSubmit: the `isSubmitting` flag is raised while the request is in flight. The model only states that it is down again when the handler returns.
- StatBlock.DecimalValue: `Number.parseInt` yields a double, exact only up to 2^53. The model reads every digit run as an exact natural number, so it agrees with the source only for runs below 2^53 (at most 15 digits always qualify).
- The zod coercion `z.coerce.number()` of the level field is not modelled. The form state holds the level as a number already.

/** The server actions on battles (lib/actions/battles.ts): the row and the
    casualty rows built by `createBattle`, the marking of the casualties as dead,
    and the casualty projection of `getBattlesByNuzlocke`. The `battles` and
    `casualties` tables are in-memory; the `pokemon` table is `PokemonTable`. */
module BattleActions {
  import opened Common
  import opened PokemonActions

  /** `CreateBattleData`. */
  datatype CreateBattleData = CreateBattleData(
    nuzlocke_id: string,
    player1_id: string,
    player2_id: string,
    winner_id: Option<string>,
    location: Option<string>,
    notes: Option<string>,
    casualties: Option<seq<string>>)

  /** A row of the `battles` table. */
  datatype BattleRow = BattleRow(
    id: string,
    nuzlocke_id: string,
    player1_id: string,
    player2_id: string,
    winner_id: Option<string>,
    location: Option<string>,
    notes: Option<string>,
    battle_date: string)

  /** A row of the `casualties` table. */
  datatype CasualtyRow = CasualtyRow(battle_id: string, pokemon_id: string)

  /** The object inserted by `createBattle` (lines 86-95); the id and the date are
      the backend's and the clock's. */
  function NewBattleRow(data: CreateBattleData, id: string, now: string): BattleRow {
    BattleRow(id, data.nuzlocke_id, data.player1_id, data.player2_id,
              StringOrNull(data.winner_id), StringOrNull(data.location), StringOrNull(data.notes), now)
  }

  /** The inserted battle keeps both players and the nuzlocke, and an empty or
      absent winner, location or notes becomes null; any other value is kept. */
  lemma NewBattleRowMeaning(data: CreateBattleData, id: string, now: string)
    ensures var b := NewBattleRow(data, id, now);
      && b.id == id && b.battle_date == now
      && b.nuzlocke_id == data.nuzlocke_id
      && b.player1_id == data.player1_id && b.player2_id == data.player2_id
      && (b.winner_id.None? <==> data.winner_id.None? || data.winner_id.value == "")
      && (b.location.None? <==> data.location.None? || data.location.value == "")
      && (b.notes.None? <==> data.notes.None? || data.notes.value == "")
      && (b.winner_id.Some? ==> b.winner_id == data.winner_id)
      && (b.location.Some? ==> b.location == data.location)
      && (b.notes.Some? ==> b.notes == data.notes)
  {
  }

  /** `data.casualties && data.casualties.length > 0` (line 105). */
  predicate HasCasualties(data: CreateBattleData) {
    data.casualties.Some? && |data.casualties.value| > 0
  }

  /** The rows of lines 106-109: one per listed Pokémon, in list order. */
  function CasualtyRows(battleId: string, ids: seq<string>): (r: seq<CasualtyRow>)
    ensures |r| == |ids|
    ensures forall k :: 0 <= k < |r| ==> r[k].battle_id == battleId
  {
    if |ids| == 0 then []
    else CasualtyRows(battleId, ids[..|ids| - 1]) + [CasualtyRow(battleId, ids[|ids| - 1])]
  }

  /** The Pokémon ids of a list of casualty rows. */
  function PokemonIds(rows: seq<CasualtyRow>): (r: seq<string>)
    ensures |r| == |rows|
  {
    if |rows| == 0 then []
    else PokemonIds(rows[..|rows| - 1]) + [rows[|rows| - 1].pokemon_id]
  }

  /** The casualty rows carry exactly the listed ids, in order. */
  lemma {:induction false} CasualtyRowsIds(battleId: string, ids: seq<string>)
    ensures PokemonIds(CasualtyRows(battleId, ids)) == ids
  {
    if |ids| > 0 {
      var pre := ids[..|ids| - 1];
      CasualtyRowsIds(battleId, pre);
      assert CasualtyRows(battleId, ids)[..|ids| - 1] == CasualtyRows(battleId, pre);
      assert ids == pre + [ids[|ids| - 1]];
    }
  }

  /** The table after `.update({ is_alive: false }).eq("id", id)`: without
      `.single()`, an id that matches no row updates nothing and is no error. */
  function MarkIfPresent(rows: map<string, PokemonRow>, id: string): (r: map<string, PokemonRow>)
    ensures r.Keys == rows.Keys
    ensures id in rows ==> r[id] == rows[id].(is_alive := false)
    ensures forall other :: other in rows && other != id ==> r[other] == rows[other]
  {
    if id in rows then MarkDead(rows, id) else rows
  }

  /** The table after the updates for `ids`, one after the other. */
  function MarkAllDead(rows: map<string, PokemonRow>, ids: seq<string>): (r: map<string, PokemonRow>)
    ensures r.Keys == rows.Keys
  {
    if |ids| == 0 then rows
    else MarkIfPresent(MarkAllDead(rows, ids[..|ids| - 1]), ids[|ids| - 1])
  }

  /** Marking one more id of the list is one more update. */
  lemma MarkAllDeadSnoc(rows: map<string, PokemonRow>, ids: seq<string>, i: nat)
    requires i < |ids|
    ensures MarkAllDead(rows, ids[..i + 1]) == MarkIfPresent(MarkAllDead(rows, ids[..i]), ids[i])
  {
    assert ids[..i + 1][..i] == ids[..i];
  }

  /** After marking `ids`, a row is dead with its other columns unchanged when
      its id is listed, and untouched when it is not. */
  lemma {:induction false} MarkAllDeadMeaning(rows: map<string, PokemonRow>, ids: seq<string>)
    ensures forall id :: id in rows ==>
      MarkAllDead(rows, ids)[id] == (if id in ids then rows[id].(is_alive := false) else rows[id])
  {
    if |ids| > 0 {
      var pre := ids[..|ids| - 1];
      MarkAllDeadMeaning(rows, pre);
      assert ids == pre + [ids[|ids| - 1]];
    }
  }

  /** The position of the first id whose update fails, or `|ids|` when none does. */
  function FirstFailing(ids: seq<string>, failing: set<string>): (r: nat)
    ensures r <= |ids|
    ensures forall k :: 0 <= k < r ==> ids[k] !in failing
    ensures r < |ids| ==> ids[r] in failing
  {
    if |ids| == 0 then 0
    else if ids[0] in failing then 0
    else 1 + FirstFailing(ids[1..], failing)
  }

  /** When the update of one casualty fails, the casualties listed before it are
      dead and every other row, that one and those after it included unless listed
      earlier, is untouched. */
  lemma AbortedMarking(rows: map<string, PokemonRow>, ids: seq<string>, failing: set<string>)
    requires FirstFailing(ids, failing) < |ids|
    ensures var stop := FirstFailing(ids, failing);
      var r := MarkAllDead(rows, ids[..stop]);
      && (forall k :: 0 <= k < stop && ids[k] in rows ==> !r[ids[k]].is_alive)
      && (forall id :: id in rows && id !in ids[..stop] ==> r[id] == rows[id])
      && (ids[stop] in rows && ids[stop] !in ids[..stop] ==> r[ids[stop]] == rows[ids[stop]])
  {
    var stop := FirstFailing(ids, failing);
    MarkAllDeadMeaning(rows, ids[..stop]);
    assert forall k :: 0 <= k < stop ==> ids[k] == ids[..stop][k];
  }

  /** The `for` loop of lines 119-126: marks the casualties dead one at a time
      and stops at the first update that fails. `failing` holds the ids whose
      update the backend rejects. */
  method MarkCasualtiesDead(pokemon: PokemonTable, ids: seq<string>, failing: set<string>) returns (ok: bool)
    modifies pokemon
    ensures ok <==> FirstFailing(ids, failing) == |ids|
    ensures pokemon.rows == MarkAllDead(old(pokemon.rows), ids[..FirstFailing(ids, failing)])
  {
    ghost var stop := FirstFailing(ids, failing);
    var i := 0;
    while i < |ids|
      invariant 0 <= i <= stop
      invariant pokemon.rows == MarkAllDead(old(pokemon.rows), ids[..i])
    {
      if ids[i] in failing {
        assert stop == i;
        return false;
      }
      MarkAllDeadSnoc(old(pokemon.rows), ids, i);
      pokemon.rows := MarkIfPresent(pokemon.rows, ids[i]);
      i := i + 1;
    }
    assert ids[..i] == ids;
    return true;
  }

  /** The `battles` and `casualties` tables. */
  class BattleTables {
    var battles: map<string, BattleRow>
    var casualties: seq<CasualtyRow>

    constructor (initialBattles: map<string, BattleRow>, initialCasualties: seq<CasualtyRow>)
      ensures battles == initialBattles && casualties == initialCasualties
    {
      battles := initialBattles;
      casualties := initialCasualties;
    }

    /** `createBattle`. The battle insert fails when its id is taken, and then
        nothing changes. Without casualties the battle is all that is written.
        Otherwise the casualty rows are inserted unless `casualtyInsertFails`,
        and the casualties are marked dead up to the first failing update, which
        makes the call fail. */
    method CreateBattle(data: CreateBattleData, battleId: string, now: string, pokemon: PokemonTable,
                        casualtyInsertFails: bool, failingUpdates: set<string>) returns (r: Result<BattleRow>)
      modifies this, pokemon
      ensures battleId in old(battles) ==>
        r == Err("Failed to create battle") && battles == old(battles)
        && casualties == old(casualties) && pokemon.rows == old(pokemon.rows)
      ensures battleId !in old(battles) ==> battles == old(battles)[battleId := NewBattleRow(data, battleId, now)]
      ensures battleId !in old(battles) && !HasCasualties(data) ==>
        r == Ok(NewBattleRow(data, battleId, now))
        && casualties == old(casualties) && pokemon.rows == old(pokemon.rows)
      ensures battleId !in old(battles) && HasCasualties(data) && casualtyInsertFails ==>
        r == Err("Failed to register casualties")
        && casualties == old(casualties) && pokemon.rows == old(pokemon.rows)
      ensures battleId !in old(battles) && HasCasualties(data) && !casualtyInsertFails ==>
        var ids := data.casualties.value;
        var stop := FirstFailing(ids, failingUpdates);
        && casualties == old(casualties) + CasualtyRows(battleId, ids)
        && pokemon.rows == MarkAllDead(old(pokemon.rows), ids[..stop])
        && r == (if stop == |ids| then Ok(NewBattleRow(data, battleId, now)) else Err("Failed to mark pokemon as dead"))
    {
      if battleId in battles {
        return Err("Failed to create battle");
      }
      var battle := NewBattleRow(data, battleId, now);
      battles := battles[battleId := battle];
      if data.casualties.Some? && |data.casualties.value| > 0 {
        var ids := data.casualties.value;
        if casualtyInsertFails {
          return Err("Failed to register casualties");
        }
        casualties := casualties + CasualtyRows(battle.id, ids);
        var ok := MarkCasualtiesDead(pokemon, ids, failingUpdates);
        if !ok {
          return Err("Failed to mark pokemon as dead");
        }
      }
      r := Ok(battle);
    }
  }

  /** After a `createBattle` whose casualty updates all succeed, every listed
      Pokémon of the table is dead and every other row is untouched. */
  lemma CreatedCasualtiesDead(rows: map<string, PokemonRow>, ids: seq<string>, failing: set<string>)
    requires FirstFailing(ids, failing) == |ids|
    ensures var r := MarkAllDead(rows, ids[..FirstFailing(ids, failing)]);
      && r.Keys == rows.Keys
      && (forall id :: id in ids && id in rows ==> !r[id].is_alive)
      && (forall id :: id in rows && id !in ids ==> r[id] == rows[id])
  {
    assert ids[..|ids|] == ids;
    MarkAllDeadMeaning(rows, ids);
  }

  /** The embedded `pokemon (id, nickname, species)` of a casualty. */
  datatype PokemonSummary = PokemonSummary(id: string, nickname: string, species: string)

  /** A battle as returned by `getBattlesByNuzlocke`: without a `casualties`
      field when its casualty query failed. */
  datatype BattleView = BattleView(battle: BattleRow, casualties: Option<seq<PokemonSummary>>)

  /** `.from("casualties").select(...).eq("battle_id", battleId)`: the casualty
      rows of that battle, in table order. */
  function CasualtiesOf(table: seq<CasualtyRow>, battleId: string): (r: seq<CasualtyRow>)
    ensures |r| <= |table|
    ensures forall k :: 0 <= k < |r| ==> r[k].battle_id == battleId
  {
    if |table| == 0 then []
    else
      var prev := CasualtiesOf(table[..|table| - 1], battleId);
      if table[|table| - 1].battle_id == battleId then prev + [table[|table| - 1]] else prev
  }

  /** The filter of a concatenation is the concatenation of the filters. */
  lemma {:induction false} CasualtiesOfAppend(a: seq<CasualtyRow>, b: seq<CasualtyRow>, battleId: string)
    ensures CasualtiesOf(a + b, battleId) == CasualtiesOf(a, battleId) + CasualtiesOf(b, battleId)
  {
    if |b| == 0 {
      assert a + b == a;
    } else {
      var pre := b[..|b| - 1];
      CasualtiesOfAppend(a, pre, battleId);
      assert (a + b)[..|a + b| - 1] == a + pre;
    }
  }

  /** A filter that keeps every row returns all of them. */
  lemma {:induction false} CasualtiesOfAll(table: seq<CasualtyRow>, battleId: string)
    requires forall k :: 0 <= k < |table| ==> table[k].battle_id == battleId
    ensures CasualtiesOf(table, battleId) == table
  {
    if |table| > 0 {
      CasualtiesOfAll(table[..|table| - 1], battleId);
    }
  }

  /** A filter that keeps no row returns nothing. */
  lemma {:induction false} CasualtiesOfNone(table: seq<CasualtyRow>, battleId: string)
    requires forall k :: 0 <= k < |table| ==> table[k].battle_id != battleId
    ensures CasualtiesOf(table, battleId) == []
  {
    if |table| > 0 {
      CasualtiesOfNone(table[..|table| - 1], battleId);
    }
  }

  /** `c.pokemon.id`, `c.pokemon.nickname`, `c.pokemon.species` for each casualty.
      When a casualty names no Pokémon of the table, the embedded object is null
      and reading its `id` throws, which the model returns as `None`. */
  function Summaries(rows: seq<CasualtyRow>, pokemon: map<string, PokemonRow>): (r: Option<seq<PokemonSummary>>)
    ensures r.Some? ==> |r.value| == |rows|
  {
    if |rows| == 0 then Some([])
    else
      var prev := Summaries(rows[..|rows| - 1], pokemon);
      var c := rows[|rows| - 1];
      if prev.None? || c.pokemon_id !in pokemon then None
      else
        var p := pokemon[c.pokemon_id];
        Some(prev.value + [PokemonSummary(p.id, p.nickname, p.species)])
  }

  /** The projection succeeds exactly when every casualty names a Pokémon of the
      table, and then its k-th entry is the nickname and species of the k-th
      casualty's Pokémon. */
  lemma {:induction false} SummariesMeaning(rows: seq<CasualtyRow>, pokemon: map<string, PokemonRow>)
    ensures Summaries(rows, pokemon).Some? <==> forall k :: 0 <= k < |rows| ==> rows[k].pokemon_id in pokemon
    ensures Summaries(rows, pokemon).Some? ==> forall k :: 0 <= k < |rows| ==>
      var p := pokemon[rows[k].pokemon_id];
      Summaries(rows, pokemon).value[k] == PokemonSummary(p.id, p.nickname, p.species)
  {
    if |rows| > 0 {
      var pre := rows[..|rows| - 1];
      SummariesMeaning(pre, pokemon);
      assert forall k :: 0 <= k < |pre| ==> pre[k] == rows[k];
    }
  }

  /** The pokemon table is keyed by the rows' own ids. */
  predicate KeyedById(pokemon: map<string, PokemonRow>) {
    forall id :: id in pokemon ==> pokemon[id].id == id
  }

  /** The processing of one battle in `getBattlesByNuzlocke` (lines 49-73):
      a failed casualty query (its battle id in `failing`) returns the battle
      as it is; otherwise its casualties are projected. */
  /** The TypeError that reading `c.pokemon.id` throws when the joined Pokémon is null. */
  const MissingPokemonError: string := "Cannot read properties of null (reading 'id')"

  function WithCasualties(battle: BattleRow, table: seq<CasualtyRow>, pokemon: map<string, PokemonRow>,
                          failing: set<string>): (r: Result<BattleView>)
    ensures battle.id in failing ==> r == Ok(BattleView(battle, None))
    ensures r.Err? ==> r == Err(MissingPokemonError)
    ensures r.Ok? ==> r.value.battle == battle
    ensures r.Ok? && r.value.casualties.Some? ==>
      battle.id !in failing && |r.value.casualties.value| == |CasualtiesOf(table, battle.id)|
  {
    if battle.id in failing then Ok(BattleView(battle, None))
    else
      match Summaries(CasualtiesOf(table, battle.id), pokemon)
      case None => Err(MissingPokemonError)
      case Some(s) => Ok(BattleView(battle, Some(s)))
  }

  /** The whole map over the battles, failing when one battle fails. */
  function BattlesWithCasualties(battles: seq<BattleRow>, table: seq<CasualtyRow>, pokemon: map<string, PokemonRow>,
                                 failing: set<string>): (r: Result<seq<BattleView>>)
    ensures r.Ok? ==> |r.value| == |battles|
  {
    if |battles| == 0 then Ok([])
    else
      match BattlesWithCasualties(battles[..|battles| - 1], table, pokemon, failing)
      case Err(e) => Err(e)
      case Ok(prev) =>
        match WithCasualties(battles[|battles| - 1], table, pokemon, failing)
        case Err(e) => Err(e)
        case Ok(v) => Ok(prev + [v])
  }

  /** The result keeps the battles in order, one view per battle; a battle whose
      casualty query failed has no casualties field, every other one has the
      projection of its own casualty rows. */
  lemma {:induction false} BattlesWithCasualtiesMeaning(battles: seq<BattleRow>, table: seq<CasualtyRow>,
                                                       pokemon: map<string, PokemonRow>, failing: set<string>)
    requires forall c :: c in table ==> c.pokemon_id in pokemon
    ensures BattlesWithCasualties(battles, table, pokemon, failing).Ok?
    ensures var views := BattlesWithCasualties(battles, table, pokemon, failing).value;
      forall k :: 0 <= k < |battles| ==>
        && views[k].battle == battles[k]
        && (views[k].casualties.None? <==> battles[k].id in failing)
        && (views[k].casualties.Some? ==>
              Some(views[k].casualties.value) == Summaries(CasualtiesOf(table, battles[k].id), pokemon))
  {
    if |battles| > 0 {
      var pre := battles[..|battles| - 1];
      BattlesWithCasualtiesMeaning(pre, table, pokemon, failing);
      var b := battles[|battles| - 1];
      var own := CasualtiesOf(table, b.id);
      SummariesMeaning(own, pokemon);
      assert forall k :: 0 <= k < |own| ==> own[k] in table by {
        CasualtiesOfSubset(table, b.id);
      }
      assert forall k :: 0 <= k < |pre| ==> pre[k] == battles[k];
    }
  }

  /** Every row the filter returns comes from the table. */
  lemma {:induction false} CasualtiesOfSubset(table: seq<CasualtyRow>, battleId: string)
    ensures forall c :: c in CasualtiesOf(table, battleId) ==> c in table
  {
    if |table| > 0 {
      var pre := table[..|table| - 1];
      CasualtiesOfSubset(pre, battleId);
      assert table == pre + [table[|table| - 1]];
    }
  }

  /** Round trip: after `createBattle` inserts the casualty rows of a new battle,
      the casualties `getBattlesByNuzlocke` lists for that battle are the listed
      Pokémon, in the order they were given. */
  lemma CreatedCasualtiesListed(table: seq<CasualtyRow>, battleId: string, ids: seq<string>,
                                pokemon: map<string, PokemonRow>)
    requires forall c :: c in table ==> c.battle_id != battleId
    requires forall id :: id in ids ==> id in pokemon
    requires KeyedById(pokemon)
    ensures var s := Summaries(CasualtiesOf(table + CasualtyRows(battleId, ids), battleId), pokemon);
      && s.Some? && |s.value| == |ids|
      && forall k :: 0 <= k < |ids| ==> s.value[k].id == ids[k]
  {
    var added := CasualtyRows(battleId, ids);
    assert CasualtiesOf(table + added, battleId) == added by {
      CasualtiesOfAppend(table, added, battleId);
      assert forall k :: 0 <= k < |table| ==> table[k].battle_id != battleId by {
        assert forall k :: 0 <= k < |table| ==> table[k] in table;
      }
      CasualtiesOfNone(table, battleId);
      CasualtiesOfAll(added, battleId);
    }
    forall k | 0 <= k < |ids|
      ensures added[k].pokemon_id == ids[k] && added[k].pokemon_id in pokemon
    {
      CasualtyRowsIds(battleId, ids);
      PokemonIdsIndex(added, k);
    }
    SummariesMeaning(added, pokemon);
  }

  /** The k-th Pokémon id is that of the k-th row. */
  lemma {:induction false} PokemonIdsIndex(rows: seq<CasualtyRow>, k: int)
    requires 0 <= k < |rows|
    ensures PokemonIds(rows)[k] == rows[k].pokemon_id
  {
    if k < |rows| - 1 {
      PokemonIdsIndex(rows[..|rows| - 1], k);
    }
  }
}

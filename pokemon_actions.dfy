/** The server actions on Pokémon (lib/actions/pokemon.ts): the row built by
    `createPokemon` from the form data, `markPokemonAsDead`, and the filter of
    `getPokemonByPlayer`. The `pokemon` table is an in-memory map from id to row. */
module PokemonActions {
  import opened Common

  /** The optional `ivs` / `evs` objects of `CreatePokemonData`. */
  datatype StatInput = StatInput(
    hp: Option<int>, atk: Option<int>, def: Option<int>,
    spa: Option<int>, spd: Option<int>, spe: Option<int>)

  /** `CreatePokemonData`. */
  datatype CreatePokemonData = CreatePokemonData(
    nuzlocke_id: string,
    player_id: string,
    nickname: string,
    species: string,
    gender: Option<string>,
    level: int,
    ability: Option<string>,
    nature: Option<string>,
    moves: Option<seq<string>>,
    ivs: Option<StatInput>,
    evs: Option<StatInput>,
    dynamax_level: Option<int>)

  /** Six nullable stat columns (`iv_hp` .. `iv_spe`, or `ev_hp` .. `ev_spe`). */
  datatype StatColumns = StatColumns(
    hp: Option<int>, atk: Option<int>, def: Option<int>,
    spa: Option<int>, spd: Option<int>, spe: Option<int>)

  /** A row of the `pokemon` table. */
  datatype PokemonRow = PokemonRow(
    id: string,
    nuzlocke_id: string,
    player_id: string,
    nickname: string,
    species: string,
    gender: Option<string>,
    level: int,
    ability: Option<string>,
    nature: Option<string>,
    moves: Option<seq<string>>,
    ivs: StatColumns,
    evs: StatColumns,
    dynamax_level: Option<int>,
    is_alive: bool,
    created_at: string)

  /** `s || null` for an optional string: the empty string is falsy. */
  function StringOrNull(s: Option<string>): (r: Option<string>)
    ensures r.None? <==> (s.None? || s.value == "")
    ensures r.Some? ==> r == s
  {
    if s.Some? && s.value != "" then s else None
  }

  /** `n || null` for an optional number: zero is falsy. */
  function NumberOrNull(n: Option<int>): (r: Option<int>)
    ensures r.None? <==> (n.None? || n.value == 0)
    ensures r.Some? ==> r == n && r.value != 0
  {
    if n.Some? && n.value != 0 then n else None
  }

  /** One stored column against the number it was given (absent also when the
      whole object is absent): null exactly when that number is absent or 0,
      otherwise the number itself. */
  predicate StoredAs(col: Option<int>, given: Option<int>) {
    && (col.None? <==> given.None? || given.value == 0)
    && (col.Some? ==> col == given)
  }

  /** Each of the six columns is stored from the matching field of `stats`. */
  predicate StoredStats(c: StatColumns, stats: Option<StatInput>) {
    && StoredAs(c.hp, if stats.None? then None else stats.value.hp)
    && StoredAs(c.atk, if stats.None? then None else stats.value.atk)
    && StoredAs(c.def, if stats.None? then None else stats.value.def)
    && StoredAs(c.spa, if stats.None? then None else stats.value.spa)
    && StoredAs(c.spd, if stats.None? then None else stats.value.spd)
    && StoredAs(c.spe, if stats.None? then None else stats.value.spe)
  }

  /** The six columns `stats?.x || null`: all null when the object is absent. */
  function StatColumnsOf(stats: Option<StatInput>): (r: StatColumns)
    ensures StoredStats(r, stats)
  {
    match stats
    case None => StatColumns(None, None, None, None, None, None)
    case Some(st) =>
      StatColumns(NumberOrNull(st.hp), NumberOrNull(st.atk), NumberOrNull(st.def),
                  NumberOrNull(st.spa), NumberOrNull(st.spd), NumberOrNull(st.spe))
  }

  /** `StoredStats` fixes the columns: the stored row is the only one it allows. */
  lemma StoredStatsUnique(c: StatColumns, stats: Option<StatInput>)
    requires StoredStats(c, stats)
    ensures c == StatColumnsOf(stats)
  {
  }

  /** The object inserted by `createPokemon` (lines 86-109); the id and the creation
      time are the backend's. */
  function NewPokemonRow(data: CreatePokemonData, id: string, now: string): PokemonRow {
    PokemonRow(
      id, data.nuzlocke_id, data.player_id, data.nickname, data.species,
      StringOrNull(data.gender), data.level, StringOrNull(data.ability), StringOrNull(data.nature),
      data.moves,
      StatColumnsOf(data.ivs), StatColumnsOf(data.evs),
      Some(if data.dynamax_level.Some? && data.dynamax_level.value != 0 then data.dynamax_level.value else 0),
      true, now)
  }

  /** What the inserted row holds: it is alive; an empty or absent gender,
      ability or nature is null; moves are null only when absent (an array is
      always truthy); any other gender, ability, nature and the moves are
      stored as given; the dynamax level is the given one, or 0 when absent or 0;
      and each of the twelve IV and EV columns is null exactly when its number
      is absent or 0, and that number otherwise. */
  lemma NewPokemonRowMeaning(data: CreatePokemonData, id: string, now: string)
    ensures var r := NewPokemonRow(data, id, now);
      && r.is_alive
      && r.id == id && r.nuzlocke_id == data.nuzlocke_id && r.player_id == data.player_id
      && r.nickname == data.nickname && r.species == data.species && r.level == data.level
      && (r.gender.None? <==> data.gender.None? || data.gender.value == "")
      && (r.gender.Some? ==> r.gender == data.gender)
      && (r.ability.None? <==> data.ability.None? || data.ability.value == "")
      && (r.ability.Some? ==> r.ability == data.ability)
      && (r.nature.None? <==> data.nature.None? || data.nature.value == "")
      && (r.nature.Some? ==> r.nature == data.nature)
      && r.moves == data.moves
      && (r.dynamax_level == Some(if data.dynamax_level.Some? then data.dynamax_level.value else 0))
      && StoredStats(r.ivs, data.ivs) && StoredStats(r.evs, data.evs)
  {
  }

  /** Two stat numbers that `||` treats alike: equal, or both absent or 0. */
  predicate SameOrFalsy(x: Option<int>, y: Option<int>) {
    x == y || ((x.None? || x.value == 0) && (y.None? || y.value == 0))
  }

  /** A zero stat is not preserved: it is stored as null, exactly like an absent
      one, so two stat objects that differ only in 0 against absent give the
      same columns. */
  lemma ZeroStatLost(a: StatInput, b: StatInput)
    requires SameOrFalsy(a.hp, b.hp) && SameOrFalsy(a.atk, b.atk) && SameOrFalsy(a.def, b.def)
    requires SameOrFalsy(a.spa, b.spa) && SameOrFalsy(a.spd, b.spd) && SameOrFalsy(a.spe, b.spe)
    ensures StatColumnsOf(Some(a)) == StatColumnsOf(Some(b))
  {
  }

  /** An object whose stats are all 0 or absent stores the same all-null columns
      as no object at all. */
  lemma AllZeroStatsLikeAbsent(a: StatInput)
    requires SameOrFalsy(a.hp, None) && SameOrFalsy(a.atk, None) && SameOrFalsy(a.def, None)
    requires SameOrFalsy(a.spa, None) && SameOrFalsy(a.spd, None) && SameOrFalsy(a.spe, None)
    ensures StatColumnsOf(Some(a)) == StatColumnsOf(None)
  {
  }

  /** A fully filled spread of non-zero stats is stored as given, column by column. */
  lemma NonZeroStatKept(a: StatInput)
    requires a.hp.Some? && a.atk.Some? && a.def.Some? && a.spa.Some? && a.spd.Some? && a.spe.Some?
    requires a.hp.value != 0 && a.atk.value != 0 && a.def.value != 0
    requires a.spa.value != 0 && a.spd.value != 0 && a.spe.value != 0
    ensures StatColumnsOf(Some(a)) == StatColumns(a.hp, a.atk, a.def, a.spa, a.spd, a.spe)
  {
  }

  /** `getPokemonByPlayer`: the alive Pokémon of that player in that nuzlocke,
      in table order. */
  function PokemonByPlayer(rows: seq<PokemonRow>, nuzlockeId: string, playerId: string): (r: seq<PokemonRow>)
    ensures |r| <= |rows|
    ensures forall k :: 0 <= k < |r| ==> r[k].nuzlocke_id == nuzlockeId && r[k].player_id == playerId && r[k].is_alive
  {
    if |rows| == 0 then []
    else
      var prev := PokemonByPlayer(rows[..|rows| - 1], nuzlockeId, playerId);
      var p := rows[|rows| - 1];
      if p.nuzlocke_id == nuzlockeId && p.player_id == playerId && p.is_alive then prev + [p] else prev
  }

  /** A row is returned exactly when it is alive and matches both ids. */
  lemma {:induction false} PokemonByPlayerMembers(rows: seq<PokemonRow>, nuzlockeId: string, playerId: string)
    ensures forall p :: p in PokemonByPlayer(rows, nuzlockeId, playerId) <==>
      p in rows && p.nuzlocke_id == nuzlockeId && p.player_id == playerId && p.is_alive
  {
    if |rows| > 0 {
      var pre := rows[..|rows| - 1];
      PokemonByPlayerMembers(pre, nuzlockeId, playerId);
      assert rows == pre + [rows[|rows| - 1]];
    }
  }

  /** The filter keeps the table order: it distributes over concatenation. */
  lemma {:induction false} PokemonByPlayerAppend(a: seq<PokemonRow>, b: seq<PokemonRow>, nuzlockeId: string, playerId: string)
    ensures PokemonByPlayer(a + b, nuzlockeId, playerId)
      == PokemonByPlayer(a, nuzlockeId, playerId) + PokemonByPlayer(b, nuzlockeId, playerId)
  {
    if |b| == 0 {
      assert a + b == a;
    } else {
      var pre := b[..|b| - 1];
      PokemonByPlayerAppend(a, pre, nuzlockeId, playerId);
      assert (a + b)[..|a + b| - 1] == a + pre;
    }
  }

  /** The table with the row `id` marked dead, every other row unchanged. */
  function MarkDead(rows: map<string, PokemonRow>, id: string): (r: map<string, PokemonRow>)
    requires id in rows
    ensures r.Keys == rows.Keys
    ensures !r[id].is_alive && r[id] == rows[id].(is_alive := false)
    ensures forall other :: other in rows && other != id ==> r[other] == rows[other]
  {
    rows[id := rows[id].(is_alive := false)]
  }

  /** Marking a Pokémon dead twice is the same as once. */
  lemma MarkDeadIdempotent(rows: map<string, PokemonRow>, id: string)
    requires id in rows
    ensures MarkDead(MarkDead(rows, id), id) == MarkDead(rows, id)
  {
  }

  /** The `pokemon` table. */
  class PokemonTable {
    var rows: map<string, PokemonRow>

    constructor (initial: map<string, PokemonRow>)
      ensures rows == initial
    {
      rows := initial;
    }

    /** `createPokemon`: inserts the row, failing when the id is taken. */
    method CreatePokemon(data: CreatePokemonData, id: string, now: string) returns (r: Result<PokemonRow>)
      modifies this
      ensures id in old(rows) ==> r.Err? && rows == old(rows)
      ensures id !in old(rows) ==> r == Ok(NewPokemonRow(data, id, now)) && rows == old(rows)[id := NewPokemonRow(data, id, now)]
    {
      if id in rows {
        return Err("Failed to create pokemon");
      }
      var row := NewPokemonRow(data, id, now);
      rows := rows[id := row];
      r := Ok(row);
    }

    /** `markPokemonAsDead`: `.single()` fails when no row has the id, and then
        nothing changes; otherwise only that row's `is_alive` becomes false. */
    method MarkPokemonAsDead(pokemonId: string) returns (r: Result<PokemonRow>)
      modifies this
      ensures pokemonId !in old(rows) ==> r.Err? && rows == old(rows)
      ensures pokemonId in old(rows) ==> rows == MarkDead(old(rows), pokemonId) && r == Ok(rows[pokemonId])
    {
      if pokemonId !in rows {
        return Err("Failed to mark pokemon as dead");
      }
      rows := rows[pokemonId := rows[pokemonId].(is_alive := false)];
      r := Ok(rows[pokemonId]);
    }
  }
}

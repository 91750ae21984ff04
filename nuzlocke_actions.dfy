/** The server actions on nuzlockes (lib/actions/nuzlocke.ts): grouping the joined
    rows of `getNuzlockes` into one summary per nuzlocke, the player projection of
    `getNuzlockeById`, the find-or-create player loop of `createNuzlocke`, and the
    partial update built by `updateNuzlocke` and used by `archiveNuzlocke`.
    The database is an in-memory store; identifiers and timestamps that the
    backend would generate are parameters. */
module NuzlockeActions {
  import opened Common

  // ---------------------------------------------------------------------------
  // Records
  // ---------------------------------------------------------------------------

  /** A row of the `nuzlockes` table. */
  datatype NuzlockeRecord = NuzlockeRecord(
    id: string,
    title: string,
    game: string,
    description: Option<string>,
    status: string,
    start_date: string,
    last_updated: string,
    created_at: string)

  /** The `players (id, name)` part embedded in a `nuzlocke_players` link. */
  datatype PlayerRef = PlayerRef(id: string, name: string)

  /** One embedded `nuzlocke_players (player_id, lives, players (...))` entry. */
  datatype PlayerLink = PlayerLink(player_id: string, lives: int, players: PlayerRef)

  /** One row returned by the joined select of `getNuzlockes`. */
  datatype NuzlockeRow = NuzlockeRow(nuzlocke: NuzlockeRecord, nuzlocke_players: seq<PlayerLink>)

  /** The `{ id, name, lives }` objects collected per nuzlocke. */
  datatype PlayerLives = PlayerLives(id: string, name: string, lives: int)

  /** `{ ...nuzlocke, players }`: the first row seen for an id, with the players
      gathered from all rows of that id. */
  datatype NuzlockeSummary = NuzlockeSummary(row: NuzlockeRow, players: seq<PlayerLives>)

  // ---------------------------------------------------------------------------
  // getNuzlockes: the reduce of lines 47-72
  // ---------------------------------------------------------------------------

  /** The message of the TypeError thrown when a row has no embedded player. */
  const MissingPlayerError: string := "Cannot read properties of undefined (reading 'players')"

  /** Every row carries at least one embedded player, so `nuzlocke_players[0]` exists. */
  predicate AllLinked(rows: seq<NuzlockeRow>) {
    forall i :: 0 <= i < |rows| ==> |rows[i].nuzlocke_players| > 0
  }

  /** The player a row contributes: only its first embedded link is read. */
  function PlayerOf(row: NuzlockeRow): (p: PlayerLives)
    requires |row.nuzlocke_players| > 0
    ensures p.id == row.nuzlocke_players[0].players.id
    ensures p.name == row.nuzlocke_players[0].players.name
    ensures p.lives == row.nuzlocke_players[0].lives
  {
    var link := row.nuzlocke_players[0];
    PlayerLives(link.players.id, link.players.name, link.lives)
  }

  /** The index `acc.find` stops at: the first summary with that id. */
  function IndexOf(acc: seq<NuzlockeSummary>, id: string): (r: Option<nat>)
    ensures r.Some? ==> r.value < |acc| && acc[r.value].row.nuzlocke.id == id
    ensures r.Some? ==> forall j :: 0 <= j < r.value ==> acc[j].row.nuzlocke.id != id
    ensures r.None? ==> forall j :: 0 <= j < |acc| ==> acc[j].row.nuzlocke.id != id
  {
    if |acc| == 0 then None
    else if acc[0].row.nuzlocke.id == id then Some(0)
    else match IndexOf(acc[1..], id)
      case Some(k) => Some(k + 1)
      case None => None
  }

  /** The first index holding `id`, found by a linear search, is `IndexOf`'s. */
  lemma IndexOfFirst(acc: seq<NuzlockeSummary>, id: string, k: nat)
    requires k <= |acc|
    requires forall j :: 0 <= j < k ==> acc[j].row.nuzlocke.id != id
    requires k == |acc| || acc[k].row.nuzlocke.id == id
    ensures IndexOf(acc, id) == if k < |acc| then Some(k) else None
  {
    match IndexOf(acc, id)
    case Some(m) =>
      assert !(m < k) && !(k < m);
    case None =>
  }

  /** One call of the reducer: append the row's player to the summary of its id,
      or start a new summary at the end. A row without players throws. */
  function Step(acc: seq<NuzlockeSummary>, row: NuzlockeRow): (r: Result<seq<NuzlockeSummary>>)
    ensures r.Err? <==> |row.nuzlocke_players| == 0
    ensures r.Ok? ==> |acc| <= |r.value| <= |acc| + 1
    ensures r.Ok? ==> forall k :: 0 <= k < |acc| ==> r.value[k].row == acc[k].row
  {
    if |row.nuzlocke_players| == 0 then Err(MissingPlayerError)
    else match IndexOf(acc, row.nuzlocke.id)
      case Some(k) => Ok(acc[k := acc[k].(players := acc[k].players + [PlayerOf(row)])])
      case None => Ok(acc + [NuzlockeSummary(row, [PlayerOf(row)])])
  }

  /** `data.reduce(reducer, [])`. */
  function Grouped(rows: seq<NuzlockeRow>): (r: Result<seq<NuzlockeSummary>>)
    ensures r.Err? ==> r == Err(MissingPlayerError)
    ensures r.Ok? ==> |r.value| <= |rows|
  {
    if |rows| == 0 then Ok([])
    else match Grouped(rows[..|rows| - 1])
      case Err(m) => Err(m)
      case Ok(acc) => Step(acc, rows[|rows| - 1])
  }

  /** The nuzlocke ids of the rows, in row order. */
  function RowIds(rows: seq<NuzlockeRow>): (r: seq<string>)
    ensures |r| == |rows|
    ensures forall i :: 0 <= i < |rows| ==> r[i] == rows[i].nuzlocke.id
  {
    if |rows| == 0 then [] else RowIds(rows[..|rows| - 1]) + [rows[|rows| - 1].nuzlocke.id]
  }

  /** The ids of the summaries, in order. */
  function SummaryIds(acc: seq<NuzlockeSummary>): (r: seq<string>)
    ensures |r| == |acc|
    ensures forall k :: 0 <= k < |acc| ==> r[k] == acc[k].row.nuzlocke.id
  {
    if |acc| == 0 then [] else SummaryIds(acc[..|acc| - 1]) + [acc[|acc| - 1].row.nuzlocke.id]
  }

  /** The distinct elements of `xs` in order of first appearance. */
  function FirstSeen(xs: seq<string>): seq<string> {
    if |xs| == 0 then []
    else
      var prev := FirstSeen(xs[..|xs| - 1]);
      if xs[|xs| - 1] in prev then prev else prev + [xs[|xs| - 1]]
  }

  predicate Distinct(xs: seq<string>) {
    forall i, j :: 0 <= i < j < |xs| ==> xs[i] != xs[j]
  }

  /** `FirstSeen` keeps exactly the elements of its input, each once. */
  lemma {:induction false} FirstSeenMeaning(xs: seq<string>)
    ensures Distinct(FirstSeen(xs))
    ensures forall x :: x in FirstSeen(xs) <==> x in xs
  {
    if |xs| > 0 {
      FirstSeenMeaning(xs[..|xs| - 1]);
      assert xs == xs[..|xs| - 1] + [xs[|xs| - 1]];
    }
  }

  /** The players of all rows with nuzlocke id `id`, in row order. */
  function PlayersOf(rows: seq<NuzlockeRow>, id: string): seq<PlayerLives>
    requires AllLinked(rows)
  {
    if |rows| == 0 then []
    else
      var prev := PlayersOf(rows[..|rows| - 1], id);
      if rows[|rows| - 1].nuzlocke.id == id then prev + [PlayerOf(rows[|rows| - 1])] else prev
  }

  /** Number of players over all summaries. */
  function TotalPlayers(acc: seq<NuzlockeSummary>): nat {
    if |acc| == 0 then 0 else TotalPlayers(acc[..|acc| - 1]) + |acc[|acc| - 1].players|
  }

  lemma {:induction false} TotalPlayersAppend(acc: seq<NuzlockeSummary>, s: NuzlockeSummary)
    ensures TotalPlayers(acc + [s]) == TotalPlayers(acc) + |s.players|
  {
    assert (acc + [s])[..|acc|] == acc;
  }

  lemma {:induction false} TotalPlayersUpdate(acc: seq<NuzlockeSummary>, k: nat, s: NuzlockeSummary)
    requires k < |acc|
    ensures TotalPlayers(acc[k := s]) == TotalPlayers(acc) - |acc[k].players| + |s.players|
  {
    var n := |acc| - 1;
    if k < n {
      TotalPlayersUpdate(acc[..n], k, s);
      assert acc[k := s][..n] == acc[..n][k := s];
    } else {
      assert acc[k := s][..n] == acc[..n];
    }
  }

  /** The reduce throws exactly when some row has no embedded player. */
  lemma {:induction false} GroupedFails(rows: seq<NuzlockeRow>)
    ensures Grouped(rows).Err? <==> !AllLinked(rows)
    ensures Grouped(rows).Err? ==> Grouped(rows) == Err(MissingPlayerError)
  {
    if |rows| > 0 {
      var pre := rows[..|rows| - 1];
      GroupedFails(pre);
      if !AllLinked(pre) {
        var i :| 0 <= i < |pre| && |pre[i].nuzlocke_players| == 0;
        assert rows[i] == pre[i];
      }
      if |rows[|rows| - 1].nuzlocke_players| > 0 && AllLinked(pre) {
        assert AllLinked(rows) by {
          forall i | 0 <= i < |rows|
            ensures |rows[i].nuzlocke_players| > 0
          {
            if i < |pre| { assert rows[i] == pre[i]; }
          }
        }
      }
    }
  }

  /** One reducer step on a row with a player adds the row's id at the end when
      it is new and leaves the ids as they are otherwise. */
  lemma StepIds(acc0: seq<NuzlockeSummary>, row: NuzlockeRow)
    requires |row.nuzlocke_players| > 0
    ensures Step(acc0, row).Ok?
    ensures var id := row.nuzlocke.id;
      SummaryIds(Step(acc0, row).value)
        == if id in SummaryIds(acc0) then SummaryIds(acc0) else SummaryIds(acc0) + [id]
  {
    var id := row.nuzlocke.id;
    match IndexOf(acc0, id)
    case Some(k) =>
      assert SummaryIds(acc0)[k] == id;
    case None =>
      var acc := acc0 + [NuzlockeSummary(row, [PlayerOf(row)])];
      assert acc[..|acc0|] == acc0;
      assert id !in SummaryIds(acc0);
  }

  /** The ids of a successful reduce: one summary per distinct nuzlocke id, in
      order of first appearance in the rows. */
  lemma {:induction false} GroupedIds(rows: seq<NuzlockeRow>)
    requires Grouped(rows).Ok?
    ensures AllLinked(rows)
    ensures SummaryIds(Grouped(rows).value) == FirstSeen(RowIds(rows))
  {
    GroupedFails(rows);
    if |rows| > 0 {
      var n := |rows| - 1;
      var pre := rows[..n];
      var row := rows[n];
      GroupedFails(pre);
      GroupedIds(pre);
      var acc0 := Grouped(pre).value;
      assert Grouped(rows) == Step(acc0, row);
      StepIds(acc0, row);
      var ids := RowIds(rows);
      assert ids == RowIds(pre) + [row.nuzlocke.id];
      assert ids[..n] == RowIds(pre);
      FirstSeenMeaning(RowIds(pre));
      assert FirstSeen(ids) == if row.nuzlocke.id in FirstSeen(RowIds(pre)) then FirstSeen(RowIds(pre))
        else FirstSeen(RowIds(pre)) + [row.nuzlocke.id];
    }
  }

  /** Every summary starts from one of the rows and holds the players of all
      rows with its id. */
  predicate Summarises(acc: seq<NuzlockeSummary>, rows: seq<NuzlockeRow>)
    requires AllLinked(rows)
  {
    forall k :: 0 <= k < |acc| ==> acc[k].players == PlayersOf(rows, acc[k].row.nuzlocke.id)
  }

  /** No two summaries share an id. */
  predicate DistinctIds(acc: seq<NuzlockeSummary>) {
    forall i, j :: 0 <= i < j < |acc| ==> acc[i].row.nuzlocke.id != acc[j].row.nuzlocke.id
  }

  lemma GroupedDistinct(rows: seq<NuzlockeRow>)
    requires Grouped(rows).Ok?
    ensures DistinctIds(Grouped(rows).value)
  {
    var acc := Grouped(rows).value;
    GroupedIds(rows);
    FirstSeenMeaning(RowIds(rows));
    forall i, j | 0 <= i < j < |acc|
      ensures acc[i].row.nuzlocke.id != acc[j].row.nuzlocke.id
    {
      assert SummaryIds(acc)[i] != SummaryIds(acc)[j];
    }
  }

  lemma PlayersOfSnoc(pre: seq<NuzlockeRow>, row: NuzlockeRow, id: string)
    requires |row.nuzlocke_players| > 0 && AllLinked(pre + [row])
    ensures AllLinked(pre)
    ensures PlayersOf(pre + [row], id)
      == if row.nuzlocke.id == id then PlayersOf(pre, id) + [PlayerOf(row)] else PlayersOf(pre, id)
  {
    assert (pre + [row])[..|pre|] == pre;
    assert forall i :: 0 <= i < |pre| ==> pre[i] == (pre + [row])[i];
  }

  /** The reducer step on a row whose id already has a summary. */
  lemma StepExisting(pre: seq<NuzlockeRow>, row: NuzlockeRow, acc0: seq<NuzlockeSummary>, k: nat)
    requires |row.nuzlocke_players| > 0 && AllLinked(pre + [row])
    requires AllLinked(pre) && Summarises(acc0, pre) && DistinctIds(acc0)
    requires k < |acc0| && acc0[k].row.nuzlocke.id == row.nuzlocke.id
    ensures Summarises(acc0[k := acc0[k].(players := acc0[k].players + [PlayerOf(row)])], pre + [row])
  {
    var acc := acc0[k := acc0[k].(players := acc0[k].players + [PlayerOf(row)])];
    forall j | 0 <= j < |acc|
      ensures acc[j].players == PlayersOf(pre + [row], acc[j].row.nuzlocke.id)
    {
      PlayersOfSnoc(pre, row, acc[j].row.nuzlocke.id);
      if j < k {
        assert acc0[j].row.nuzlocke.id != acc0[k].row.nuzlocke.id;
      } else if k < j {
        assert acc0[k].row.nuzlocke.id != acc0[j].row.nuzlocke.id;
      }
    }
  }

  /** The reducer step on a row whose id has no summary yet. */
  lemma StepNew(pre: seq<NuzlockeRow>, row: NuzlockeRow, acc0: seq<NuzlockeSummary>)
    requires |row.nuzlocke_players| > 0 && AllLinked(pre + [row])
    requires AllLinked(pre) && Summarises(acc0, pre)
    requires row.nuzlocke.id !in RowIds(pre)
    requires forall j :: 0 <= j < |acc0| ==> acc0[j].row.nuzlocke.id != row.nuzlocke.id
    ensures Summarises(acc0 + [NuzlockeSummary(row, [PlayerOf(row)])], pre + [row])
  {
    var acc := acc0 + [NuzlockeSummary(row, [PlayerOf(row)])];
    PlayersOfAbsent(pre, row.nuzlocke.id);
    forall j | 0 <= j < |acc|
      ensures acc[j].players == PlayersOf(pre + [row], acc[j].row.nuzlocke.id)
    {
      PlayersOfSnoc(pre, row, acc[j].row.nuzlocke.id);
      if j < |acc0| {
        assert acc[j] == acc0[j];
      }
    }
  }

  /** Each summary of a successful reduce starts from a row with its id, and holds
      the players of all rows with that id, in row order, without deduplication. */
  lemma {:induction false} GroupedPlayers(rows: seq<NuzlockeRow>)
    requires Grouped(rows).Ok?
    ensures AllLinked(rows)
    ensures Summarises(Grouped(rows).value, rows)
  {
    GroupedFails(rows);
    if |rows| > 0 {
      var n := |rows| - 1;
      var pre := rows[..n];
      var row := rows[n];
      GroupedFails(pre);
      GroupedPlayers(pre);
      var acc0 := Grouped(pre).value;
      assert pre + [row] == rows;
      match IndexOf(acc0, row.nuzlocke.id)
      case Some(k) =>
        GroupedDistinct(pre);
        StepExisting(pre, row, acc0, k);
      case None =>
        GroupedIds(pre);
        FirstSeenMeaning(RowIds(pre));
        assert row.nuzlocke.id !in SummaryIds(acc0);
        StepNew(pre, row, acc0);
    }
  }

  /** Row `j` is the first of `rows` with its nuzlocke id. */
  predicate FirstWithId(rows: seq<NuzlockeRow>, j: int) {
    0 <= j < |rows| && forall i :: 0 <= i < j ==> rows[i].nuzlocke.id != rows[j].nuzlocke.id
  }

  /** Every summary starts from the first row with its id. */
  ghost predicate StartsFromFirst(acc: seq<NuzlockeSummary>, rows: seq<NuzlockeRow>) {
    forall k :: 0 <= k < |acc| ==> exists j :: FirstWithId(rows, j) && acc[k].row == rows[j]
  }

  /** The nuzlocke columns of each summary are those of the first row with its
      id: the reducer spreads the row it starts the summary from and never
      replaces it. */
  lemma {:induction false} GroupedFirstRows(rows: seq<NuzlockeRow>)
    requires Grouped(rows).Ok?
    ensures StartsFromFirst(Grouped(rows).value, rows)
  {
    if |rows| > 0 {
      var n := |rows| - 1;
      var pre := rows[..n];
      var row := rows[n];
      assert pre + [row] == rows;
      GroupedFirstRows(pre);
      var acc0 := Grouped(pre).value;
      assert Grouped(rows) == Step(acc0, row);
      if IndexOf(acc0, row.nuzlocke.id).None? {
        GroupedIds(pre);
        FirstSeenMeaning(RowIds(pre));
        assert row.nuzlocke.id !in SummaryIds(acc0);
      }
      StepKeepsFirst(pre, row, acc0);
    }
  }

  /** The reducer step keeps each summary's first row and starts a new summary
      only from a row whose id no earlier row has. */
  lemma StepKeepsFirst(pre: seq<NuzlockeRow>, row: NuzlockeRow, acc0: seq<NuzlockeSummary>)
    requires Step(acc0, row).Ok? && StartsFromFirst(acc0, pre)
    requires IndexOf(acc0, row.nuzlocke.id).None? ==> row.nuzlocke.id !in RowIds(pre)
    ensures StartsFromFirst(Step(acc0, row).value, pre + [row])
  {
    var acc := Step(acc0, row).value;
    forall k | 0 <= k < |acc|
      ensures exists j :: FirstWithId(pre + [row], j) && acc[k].row == (pre + [row])[j]
    {
      if k < |acc0| {
        var j :| FirstWithId(pre, j) && acc0[k].row == pre[j];
        FirstWithIdSnoc(pre, row, j);
      } else {
        assert IndexOf(acc0, row.nuzlocke.id).None?;
        assert acc[k].row == row;
        assert forall i :: 0 <= i < |pre| ==> RowIds(pre)[i] == pre[i].nuzlocke.id;
        assert FirstWithId(pre + [row], |pre|);
      }
    }
  }

  /** Appending a row keeps an earlier first row first. */
  lemma FirstWithIdSnoc(pre: seq<NuzlockeRow>, row: NuzlockeRow, j: int)
    requires FirstWithId(pre, j)
    ensures FirstWithId(pre + [row], j) && (pre + [row])[j] == pre[j]
  {
    assert forall i :: 0 <= i <= j ==> (pre + [row])[i] == pre[i];
  }

  /** A successful reduce keeps every row's player: as many players as rows. */
  lemma {:induction false} GroupedTotal(rows: seq<NuzlockeRow>)
    requires Grouped(rows).Ok?
    ensures TotalPlayers(Grouped(rows).value) == |rows|
  {
    if |rows| > 0 {
      var n := |rows| - 1;
      var pre := rows[..n];
      var row := rows[n];
      GroupedTotal(pre);
      var acc0 := Grouped(pre).value;
      match IndexOf(acc0, row.nuzlocke.id)
      case Some(k) =>
        TotalPlayersUpdate(acc0, k, acc0[k].(players := acc0[k].players + [PlayerOf(row)]));
      case None =>
        TotalPlayersAppend(acc0, NuzlockeSummary(row, [PlayerOf(row)]));
    }
  }

  /** An id that no row carries has no players. */
  lemma {:induction false} PlayersOfAbsent(rows: seq<NuzlockeRow>, id: string)
    requires AllLinked(rows)
    requires id !in RowIds(rows)
    ensures PlayersOf(rows, id) == []
  {
    if |rows| > 0 {
      var pre := rows[..|rows| - 1];
      assert RowIds(pre) == RowIds(rows)[..|rows| - 1];
      PlayersOfAbsent(pre, id);
    }
  }

  /** Reducing no rows gives no nuzlockes. */
  lemma GroupedEmpty()
    ensures Grouped([]) == Ok([])
  {
  }

  /** The reduce as the source writes it: a loop over the rows that mutates its
      accumulator, with `acc.find` as an inner search. */
  method GroupNuzlockes(rows: seq<NuzlockeRow>) returns (r: Result<seq<NuzlockeSummary>>)
    ensures r == Grouped(rows)
  {
    var acc: seq<NuzlockeSummary> := [];
    var i := 0;
    while i < |rows|
      invariant 0 <= i <= |rows|
      invariant Grouped(rows[..i]) == Ok(acc)
    {
      var row := rows[i];
      assert rows[..i + 1][..i] == rows[..i];
      var k := 0;
      while k < |acc| && acc[k].row.nuzlocke.id != row.nuzlocke.id
        invariant 0 <= k <= |acc|
        invariant forall j :: 0 <= j < k ==> acc[j].row.nuzlocke.id != row.nuzlocke.id
      {
        k := k + 1;
      }
      IndexOfFirst(acc, row.nuzlocke.id, k);
      if |row.nuzlocke_players| == 0 {
        GroupedFails(rows);
        assert rows[i] == row;
        return Err(MissingPlayerError);
      }
      var player := PlayerOf(row);
      if k < |acc| {
        acc := acc[k := acc[k].(players := acc[k].players + [player])];
      } else {
        acc := acc + [NuzlockeSummary(row, [player])];
      }
      i := i + 1;
    }
    assert rows[..i] == rows;
    r := Ok(acc);
  }

  // ---------------------------------------------------------------------------
  // getNuzlockeById: lines 81-116
  // ---------------------------------------------------------------------------

  /** The `players (id, name, image_url)` part of a `nuzlocke_players` row. */
  datatype PlayerInfo = PlayerInfo(id: string, name: string, image_url: Option<string>)

  /** A `nuzlocke_players` row with its player embedded. */
  datatype NuzlockePlayerRow = NuzlockePlayerRow(
    id: string,
    nuzlocke_id: string,
    player_id: string,
    lives: int,
    created_at: string,
    players: PlayerInfo)

  /** The player objects of `getNuzlockeById`. */
  datatype PlayerCard = PlayerCard(id: string, name: string, image_url: Option<string>, lives: int)

  /** `{ ...nuzlocke, players }`. */
  datatype NuzlockeDetail = NuzlockeDetail(nuzlocke: NuzlockeRecord, players: seq<PlayerCard>)

  /** One player object: the embedded player's id, name and image with the row's lives. */
  function Card(np: NuzlockePlayerRow): (c: PlayerCard)
    ensures c.id == np.players.id && c.name == np.players.name
    ensures c.image_url == np.players.image_url && c.lives == np.lives
  {
    PlayerCard(np.players.id, np.players.name, np.players.image_url, np.lives)
  }

  /** `nuzlockePlayers.map(...)`. */
  function PlayerCards(nps: seq<NuzlockePlayerRow>): (r: seq<PlayerCard>)
    ensures |r| == |nps|
  {
    if |nps| == 0 then [] else PlayerCards(nps[..|nps| - 1]) + [Card(nps[|nps| - 1])]
  }

  /** The projection is one card per row, in row order, carrying the player's id,
      name and image and the row's lives. */
  lemma {:induction false} PlayerCardsMeaning(nps: seq<NuzlockePlayerRow>)
    ensures forall k :: 0 <= k < |nps| ==>
      var c := PlayerCards(nps)[k];
      c.id == nps[k].players.id && c.name == nps[k].players.name
      && c.image_url == nps[k].players.image_url && c.lives == nps[k].lives
  {
    if |nps| > 0 {
      PlayerCardsMeaning(nps[..|nps| - 1]);
    }
  }

  /** Projecting a concatenation projects each part. */
  lemma {:induction false} PlayerCardsAppend(a: seq<NuzlockePlayerRow>, b: seq<NuzlockePlayerRow>)
    ensures PlayerCards(a + b) == PlayerCards(a) + PlayerCards(b)
  {
    if |b| > 0 {
      PlayerCardsAppend(a, b[..|b| - 1]);
      assert (a + b)[..|a + b| - 1] == a + b[..|b| - 1];
    } else {
      assert a + b == a;
    }
  }

  /** The rows of `nuzlocke_players` whose `nuzlocke_id` is `id`, in table order. */
  function LinksOf(links: seq<NuzlockePlayerRow>, id: string): (r: seq<NuzlockePlayerRow>)
    ensures |r| <= |links|
    ensures forall k :: 0 <= k < |r| ==> r[k] in links && r[k].nuzlocke_id == id
  {
    if |links| == 0 then []
    else
      var prev := LinksOf(links[..|links| - 1], id);
      if links[|links| - 1].nuzlocke_id == id then prev + [links[|links| - 1]] else prev
  }

  /** A row is kept exactly when it is in the table and linked to `id`. */
  lemma {:induction false} LinksOfMembers(links: seq<NuzlockePlayerRow>, id: string)
    ensures forall l :: l in LinksOf(links, id) <==> l in links && l.nuzlocke_id == id
  {
    if |links| > 0 {
      var pre := links[..|links| - 1];
      LinksOfMembers(pre, id);
      assert links == pre + [links[|links| - 1]];
    }
  }

  /** The filter keeps table order: it distributes over concatenation. */
  lemma {:induction false} LinksOfAppend(a: seq<NuzlockePlayerRow>, b: seq<NuzlockePlayerRow>, id: string)
    ensures LinksOf(a + b, id) == LinksOf(a, id) + LinksOf(b, id)
  {
    if |b| == 0 {
      assert a + b == a;
    } else {
      LinksOfAppend(a, b[..|b| - 1], id);
      assert (a + b)[..|a + b| - 1] == a + b[..|b| - 1];
    }
  }

  /** `getNuzlockeById`: `.single()` fails when no nuzlocke has the id; otherwise
      the nuzlocke with the cards of its linked players. */
  function NuzlockeById(nuzlockes: map<string, NuzlockeRecord>, links: seq<NuzlockePlayerRow>, id: string)
    : (r: Result<NuzlockeDetail>)
    ensures r.Err? <==> id !in nuzlockes
    ensures r.Ok? ==> r.value.nuzlocke == nuzlockes[id] && r.value.players == PlayerCards(LinksOf(links, id))
  {
    if id !in nuzlockes then Err("Failed to fetch nuzlocke")
    else Ok(NuzlockeDetail(nuzlockes[id], PlayerCards(LinksOf(links, id))))
  }

  /** The players of a fetched nuzlocke are the cards of exactly the rows linked
      to it: every such row gives a card, and every card comes from such a row. */
  lemma NuzlockeByIdPlayers(nuzlockes: map<string, NuzlockeRecord>, links: seq<NuzlockePlayerRow>, id: string)
    requires id in nuzlockes
    ensures forall l :: l in links && l.nuzlocke_id == id ==> Card(l) in NuzlockeById(nuzlockes, links, id).value.players
    ensures forall c :: c in NuzlockeById(nuzlockes, links, id).value.players ==>
      exists l :: l in links && l.nuzlocke_id == id && c == Card(l)
  {
    var ls := LinksOf(links, id);
    var cards := NuzlockeById(nuzlockes, links, id).value.players;
    LinksOfMembers(links, id);
    PlayerCardsMeaning(ls);
    assert forall k :: 0 <= k < |ls| ==> cards[k] == Card(ls[k]);
    forall l | l in links && l.nuzlocke_id == id
      ensures Card(l) in cards
    {
      var k :| 0 <= k < |ls| && ls[k] == l;
      assert cards[k] == Card(l);
    }
    forall c | c in cards
      ensures exists l :: l in links && l.nuzlocke_id == id && c == Card(l)
    {
      var k :| 0 <= k < |cards| && cards[k] == c;
      assert ls[k] in ls;
    }
  }

  // ---------------------------------------------------------------------------
  // createNuzlocke: lines 125-193
  // ---------------------------------------------------------------------------

  /** `CreateNuzlockeData`. */
  datatype CreateNuzlockeData = CreateNuzlockeData(
    title: string,
    game: string,
    description: Option<string>,
    players: seq<string>)

  /** The row inserted by `createNuzlocke`: `description || null` and status
      "active"; the id and the timestamps are the backend's. */
  function NewNuzlocke(data: CreateNuzlockeData, id: string, now: string): (r: NuzlockeRecord)
    ensures r.id == id && r.title == data.title && r.game == data.game
    ensures r.status == "active"
    ensures r.description.None? <==> (data.description.None? || data.description.value == "")
    ensures r.description.Some? ==> r.description == data.description
  {
    NuzlockeRecord(id, data.title, data.game,
                   (if data.description.Some? && data.description.value != "" then data.description else None),
                   "active", now, now, now)
  }

  /** The trimmed names of the non-blank entries, in order: the names the loop
      looks up or creates. */
  function NamedPlayers(names: seq<string>): (r: seq<string>)
    ensures |r| <= |names|
  {
    if |names| == 0 then []
    else
      var prev := NamedPlayers(names[..|names| - 1]);
      var last := names[|names| - 1];
      if IsBlank(last) then prev else prev + [Trim(last)]
  }

  /** Every name that reaches the table is non-empty and already trimmed. */
  lemma {:induction false} NamedPlayersAreTrimmed(names: seq<string>)
    ensures forall k :: 0 <= k < |NamedPlayers(names)| ==>
      NamedPlayers(names)[k] != "" && Trim(NamedPlayers(names)[k]) == NamedPlayers(names)[k]
  {
    if |names| > 0 {
      var pre := names[..|names| - 1];
      var last := names[|names| - 1];
      NamedPlayersAreTrimmed(pre);
      if !IsBlank(last) {
        BlankIffTrimEmpty(last);
        TrimIdempotent(last);
        var r := NamedPlayers(names);
        assert r == NamedPlayers(pre) + [Trim(last)];
        forall k | 0 <= k < |r|
          ensures r[k] != "" && Trim(r[k]) == r[k]
        {
          if k < |NamedPlayers(pre)| {
            assert r[k] == NamedPlayers(pre)[k];
          }
        }
      }
    }
  }

  /** A `nuzlocke_players` row written by `createNuzlocke`. */
  datatype Association = Association(nuzlocke_id: string, player_id: nat, lives: int)

  /** The player table (name to id) with the next fresh id, and the ids the loop
      associated so far. */
  datatype Enrollment = Enrollment(table: map<string, nat>, next: nat, ids: seq<nat>)

  /** One find-or-create step: reuse the id of a player with that name, or
      create the player with the next fresh id; either way the id is recorded. */
  function EnrollOne(e: Enrollment, name: string): (r: Enrollment)
    ensures |r.ids| == |e.ids| + 1
  {
    if name in e.table then Enrollment(e.table, e.next, e.ids + [e.table[name]])
    else Enrollment(e.table[name := e.next], e.next + 1, e.ids + [e.next])
  }

  /** The find-or-create steps for the trimmed names `names`, in order. */
  function Enroll(e: Enrollment, names: seq<string>): (r: Enrollment)
    ensures |r.ids| == |e.ids| + |names|
  {
    if |names| == 0 then e
    else EnrollOne(Enroll(e, names[..|names| - 1]), names[|names| - 1])
  }

  /** The player table is consistent: every id is below the next fresh id and no
      two names share an id. */
  predicate TableValid(table: map<string, nat>, next: nat) {
    && (forall n :: n in table ==> table[n] < next)
    && (forall n, m :: n in table && m in table && n != m ==> table[n] != table[m])
  }

  /** One find-or-create step: the recorded id is the table's id for the name,
      existing players keep their id and only the name can enter the table, with
      a fresh id. */
  lemma EnrollOneMeaning(e: Enrollment, name: string)
    ensures var r := EnrollOne(e, name);
      && r.ids[..|e.ids|] == e.ids
      && name in r.table && r.ids[|e.ids|] == r.table[name]
      && (forall n :: n in e.table ==> n in r.table && r.table[n] == e.table[n])
      && (forall n :: n in r.table ==> n in e.table || n == name)
      && (forall n :: n in r.table && n !in e.table ==> e.next <= r.table[n] < r.next)
      && e.next <= r.next
      && (TableValid(e.table, e.next) ==> TableValid(r.table, r.next))
  {
    var r := EnrollOne(e, name);
    assert r.ids == e.ids + [r.ids[|e.ids|]];
  }

  /** One id per name, in order, which is the table's id for that name. */
  lemma {:induction false} EnrollIds(e: Enrollment, names: seq<string>)
    ensures var r := Enroll(e, names);
      && r.ids[..|e.ids|] == e.ids
      && (forall k :: 0 <= k < |names| ==> names[k] in r.table && r.ids[|e.ids| + k] == r.table[names[k]])
  {
    if |names| > 0 {
      var pre := names[..|names| - 1];
      var last := names[|names| - 1];
      EnrollIds(e, pre);
      var e1 := Enroll(e, pre);
      EnrollOneMeaning(e1, last);
      var r := EnrollOne(e1, last);
      assert r.ids[..|e.ids|] == r.ids[..|e1.ids|][..|e.ids|];
      forall k | 0 <= k < |pre|
        ensures names[k] in r.table && r.ids[|e.ids| + k] == r.table[names[k]]
      {
        assert names[k] == pre[k];
        assert r.ids[|e.ids| + k] == r.ids[..|e1.ids|][|e.ids| + k];
      }
    }
  }

  /** Existing players keep their id, only the names enter the table, and they
      enter with fresh ids. */
  lemma {:induction false} EnrollTable(e: Enrollment, names: seq<string>)
    ensures var r := Enroll(e, names);
      && (forall n :: n in e.table ==> n in r.table && r.table[n] == e.table[n])
      && (forall n :: n in r.table ==> n in e.table || n in names)
      && (forall n :: n in r.table && n !in e.table ==> e.next <= r.table[n] < r.next)
      && e.next <= r.next
  {
    if |names| > 0 {
      var pre := names[..|names| - 1];
      var last := names[|names| - 1];
      EnrollTable(e, pre);
      var e1 := Enroll(e, pre);
      EnrollOneMeaning(e1, last);
      var r := EnrollOne(e1, last);
      forall n | n in r.table
        ensures n in e.table || n in names
      {
        if n in e1.table && n !in e.table {
          var k :| 0 <= k < |pre| && pre[k] == n;
          assert names[k] == n;
        }
      }
      forall n | n in r.table && n !in e.table
        ensures e.next <= r.table[n] < r.next
      {
        if n in e1.table {
          assert r.table[n] == e1.table[n];
        }
      }
    }
  }

  /** The find-or-create steps keep the player table consistent. */
  lemma {:induction false} EnrollValid(e: Enrollment, names: seq<string>)
    requires TableValid(e.table, e.next)
    ensures TableValid(Enroll(e, names).table, Enroll(e, names).next)
  {
    if |names| > 0 {
      var pre := names[..|names| - 1];
      EnrollValid(e, pre);
      EnrollOneMeaning(Enroll(e, pre), names[|names| - 1]);
    }
  }

  /** What the loop does to the player table: one id per name, in order, which
      is the table's id for that name; existing players keep their id, the other
      names get fresh ids, and nothing else enters the table. */
  lemma EnrollMeaning(e: Enrollment, names: seq<string>)
    ensures var r := Enroll(e, names);
      && |r.ids| == |e.ids| + |names|
      && r.ids[..|e.ids|] == e.ids
      && (forall k :: 0 <= k < |names| ==> names[k] in r.table && r.ids[|e.ids| + k] == r.table[names[k]])
      && (forall n :: n in e.table ==> n in r.table && r.table[n] == e.table[n])
      && (forall n :: n in r.table ==> n in e.table || n in names)
      && (forall n :: n in r.table && n !in e.table ==> e.next <= r.table[n] < r.next)
      && e.next <= r.next
      && (TableValid(e.table, e.next) ==> TableValid(r.table, r.next))
  {
    EnrollIds(e, names);
    EnrollTable(e, names);
    if TableValid(e.table, e.next) {
      EnrollValid(e, names);
    }
  }

  /** A name given twice is associated twice with the same player. */
  lemma RepeatedNameSamePlayer(e: Enrollment, names: seq<string>, i: nat, j: nat)
    requires i < j < |names| && names[i] == names[j]
    ensures var r := Enroll(e, names);
      r.ids[|e.ids| + i] == r.ids[|e.ids| + j]
  {
    EnrollMeaning(e, names);
  }

  /** The association rows for the ids, each with 3 lives. */
  function Associations(nuzlockeId: string, ids: seq<nat>): (r: seq<Association>)
    ensures |r| == |ids|
    ensures forall k :: 0 <= k < |ids| ==> r[k] == Association(nuzlockeId, ids[k], 3)
  {
    if |ids| == 0 then [] else Associations(nuzlockeId, ids[..|ids| - 1]) + [Association(nuzlockeId, ids[|ids| - 1], 3)]
  }

  /** The ids that got an association: all of them, or all but the last when the
      last association insert failed. */
  function Linked(ids: seq<nat>, failed: bool): (r: seq<nat>)
    ensures failed && |ids| > 0 ==> ids == r + [ids[|ids| - 1]]
    ensures !failed ==> r == ids
  {
    if failed && |ids| > 0 then ids[..|ids| - 1] else ids
  }

  /** One entry of `data.players`: skipped when blank, otherwise a find-or-create
      step on the trimmed name. */
  function EnrollEntry(e: Enrollment, name: string): Enrollment {
    if IsBlank(name) then e else EnrollOne(e, Trim(name))
  }

  /** The loop over the raw entries of `data.players`, in order. */
  function EnrollEntries(e: Enrollment, names: seq<string>): (r: Enrollment)
    ensures |r.ids| == |e.ids| + |NamedPlayers(names)|
  {
    if |names| == 0 then e
    else EnrollEntry(EnrollEntries(e, names[..|names| - 1]), names[|names| - 1])
  }

  lemma EnrollEntriesSnoc(e: Enrollment, names: seq<string>, i: nat)
    requires i < |names|
    ensures EnrollEntries(e, names[..i + 1]) == EnrollEntry(EnrollEntries(e, names[..i]), names[i])
  {
    assert names[..i + 1][..i] == names[..i];
  }

  /** The loop over the raw entries is the find-or-create of the trimmed
      non-blank names. */
  lemma {:induction false} EnrollEntriesIsEnrollNamed(e: Enrollment, names: seq<string>)
    ensures EnrollEntries(e, names) == Enroll(e, NamedPlayers(names))
  {
    if |names| > 0 {
      var pre := names[..|names| - 1];
      EnrollEntriesIsEnrollNamed(e, pre);
      if !IsBlank(names[|names| - 1]) {
        var named := NamedPlayers(pre);
        assert (named + [Trim(names[|names| - 1])])[..|named|] == named;
      }
    }
  }

  /** The association insert of entry `failAt` fails (a backend error that the
      model takes as a parameter); a blank entry inserts nothing, so cannot fail. */
  predicate FailsAt(players: seq<string>, failAt: Option<nat>) {
    failAt.Some? && failAt.value < |players| && !IsBlank(players[failAt.value])
  }

  /** The entries the loop reaches: all of them, or up to and including the failing one. */
  function Reached(players: seq<string>, failAt: Option<nat>): seq<string> {
    if FailsAt(players, failAt) then players[..failAt.value + 1] else players
  }

  /** After `i` entries the loop has stopped (`failed`) exactly when the failing
      insert was among them, and then it was the last one. */
  predicate StoppedAfter(players: seq<string>, failAt: Option<nat>, i: nat, failed: bool) {
    && i <= |players|
    && (failed <==> FailsAt(players, failAt) && failAt.value < i)
    && (failed ==> failAt.value + 1 == i)
  }

  /** One more entry: the loop stops there exactly when that entry's insert fails. */
  lemma StoppedAfterStep(players: seq<string>, failAt: Option<nat>, i: nat, failed: bool)
    requires i < |players| && StoppedAfter(players, failAt, i, false)
    requires failed <==> failAt == Some(i) && !IsBlank(players[i])
    ensures StoppedAfter(players, failAt, i + 1, failed)
  {
  }

  /** When the loop ends it has gone through exactly the reached entries. */
  lemma StoppedReached(players: seq<string>, failAt: Option<nat>, i: nat, failed: bool)
    requires StoppedAfter(players, failAt, i, failed) && (failed || i == |players|)
    ensures failed <==> FailsAt(players, failAt)
    ensures Reached(players, failAt) == players[..i]
  {
    assert players[..|players|] == players;
  }

  // ---------------------------------------------------------------------------
  // updateNuzlocke and archiveNuzlocke: lines 197-229
  // ---------------------------------------------------------------------------

  /** `UpdateNuzlockeData`: every field but the id may be left out. */
  datatype UpdateNuzlockeData = UpdateNuzlockeData(
    id: string,
    title: Option<string>,
    game: Option<string>,
    description: Option<string>,
    status: Option<string>)

  /** The object passed to `.update(...)`: a field is present when `Some`. */
  datatype UpdatePayload = UpdatePayload(
    title: Option<string>,
    game: Option<string>,
    description: Option<string>,
    status: Option<string>,
    last_updated: string)

  /** JavaScript truthiness of an optional string: present and non-empty. */
  predicate Truthy(s: Option<string>) {
    s.Some? && s.value != ""
  }

  /** The spread payload of lines 202-208. */
  function UpdatePayloadOf(data: UpdateNuzlockeData, now: string): (p: UpdatePayload)
    ensures p.title.Some? <==> Truthy(data.title)
    ensures p.game.Some? <==> Truthy(data.game)
    ensures p.status.Some? <==> Truthy(data.status)
    ensures p.description == data.description
    ensures p.last_updated == now
    ensures p.title.Some? ==> p.title == data.title
    ensures p.game.Some? ==> p.game == data.game
    ensures p.status.Some? ==> p.status == data.status
  {
    UpdatePayload(
      if Truthy(data.title) then data.title else None,
      if Truthy(data.game) then data.game else None,
      data.description,
      if Truthy(data.status) then data.status else None,
      now)
  }

  /** The row after the update: present fields overwrite, absent fields stay. */
  function ApplyPayload(rec: NuzlockeRecord, p: UpdatePayload): (r: NuzlockeRecord)
    ensures r.id == rec.id && r.start_date == rec.start_date && r.created_at == rec.created_at
    ensures r.last_updated == p.last_updated
    ensures p.title.None? ==> r.title == rec.title
    ensures p.game.None? ==> r.game == rec.game
    ensures p.description.None? ==> r.description == rec.description
    ensures p.status.None? ==> r.status == rec.status
    ensures p.title.Some? ==> r.title == p.title.value
    ensures p.game.Some? ==> r.game == p.game.value
    ensures p.description.Some? ==> r.description == p.description
    ensures p.status.Some? ==> r.status == p.status.value
  {
    rec.(title := if p.title.Some? then p.title.value else rec.title,
         game := if p.game.Some? then p.game.value else rec.game,
         description := if p.description.Some? then p.description else rec.description,
         status := if p.status.Some? then p.status.value else rec.status,
         last_updated := p.last_updated)
  }

  /** Applying the same update twice is the same as applying it once. */
  lemma UpdateIdempotent(rec: NuzlockeRecord, data: UpdateNuzlockeData, now: string)
    ensures var p := UpdatePayloadOf(data, now);
      ApplyPayload(ApplyPayload(rec, p), p) == ApplyPayload(rec, p)
  {
  }

  /** An empty title, game or status leaves that field as it was; an empty
      description is written as the empty string. */
  lemma EmptyFieldsIgnored(rec: NuzlockeRecord, data: UpdateNuzlockeData, now: string)
    requires data.title == Some("") && data.game == Some("") && data.status == Some("")
    ensures var r := ApplyPayload(rec, UpdatePayloadOf(data, now));
      r.title == rec.title && r.game == rec.game && r.status == rec.status
      && (data.description == Some("") ==> r.description == Some(""))
  {
  }

  /** `archiveNuzlocke(id)` sends only the status. */
  function ArchiveRequest(id: string): UpdateNuzlockeData {
    UpdateNuzlockeData(id, None, None, None, Some("archived"))
  }

  /** Archiving changes the status to "archived" and the update time, and nothing else. */
  lemma ArchiveChangesOnlyStatus(rec: NuzlockeRecord, id: string, now: string)
    ensures ApplyPayload(rec, UpdatePayloadOf(ArchiveRequest(id), now))
      == rec.(status := "archived", last_updated := now)
  {
  }

  // ---------------------------------------------------------------------------
  // The store the three writing actions work on
  // ---------------------------------------------------------------------------

  /** The `nuzlockes`, `players` (by name) and `nuzlocke_players` tables. */
  class NuzlockeStore {
    var nuzlockes: map<string, NuzlockeRecord>
    var playerIds: map<string, nat>
    var nextPlayerId: nat
    var associations: seq<Association>

    ghost predicate Valid()
      reads this
    {
      TableValid(playerIds, nextPlayerId)
    }

    constructor ()
      ensures Valid()
      ensures nuzlockes == map[] && playerIds == map[] && associations == []
    {
      nuzlockes := map[];
      playerIds := map[];
      nextPlayerId := 0;
      associations := [];
    }

    /** `createNuzlocke`: inserts the nuzlocke (failing when the id is taken),
        then for each non-blank name finds or creates the player with the trimmed
        name and associates it with 3 lives. A failing association insert aborts
        with an error, keeping everything written before it: there is no
        transaction. */
    method CreateNuzlocke(data: CreateNuzlockeData, id: string, now: string, failAt: Option<nat>)
      returns (r: Result<NuzlockeRecord>)
      requires Valid()
      modifies this
      ensures Valid()
      ensures id in old(nuzlockes) ==>
        r.Err? && nuzlockes == old(nuzlockes) && playerIds == old(playerIds)
        && nextPlayerId == old(nextPlayerId) && associations == old(associations)
      ensures id !in old(nuzlockes) ==>
        var e := EnrollEntries(Enrollment(old(playerIds), old(nextPlayerId), []), Reached(data.players, failAt));
        var failed := FailsAt(data.players, failAt);
        && nuzlockes == old(nuzlockes)[id := NewNuzlocke(data, id, now)]
        && playerIds == e.table && nextPlayerId == e.next
        && associations == old(associations) + Associations(id, Linked(e.ids, failed))
        && (r.Ok? <==> !failed)
        && (r.Ok? ==> r.value == NewNuzlocke(data, id, now))
    {
      if id in nuzlockes {
        return Err("Failed to create nuzlocke");
      }
      var nuzlocke := NewNuzlocke(data, id, now);
      nuzlockes := nuzlockes[id := nuzlocke];
      var ok, ids := EnrollPlayers(id, data.players, failAt);
      EnrollEntriesIsEnrollNamed(Enrollment(old(playerIds), old(nextPlayerId), []), Reached(data.players, failAt));
      EnrollMeaning(Enrollment(old(playerIds), old(nextPlayerId), []), NamedPlayers(Reached(data.players, failAt)));
      if !ok {
        return Err("Failed to associate player with nuzlocke");
      }
      r := Ok(nuzlocke);
    }

    /** The loop of lines 142-190 over the entries of `data.players`, stopping at
        the first failing association insert. `ids` are the players the reached
        entries were found or created as. */
    method EnrollPlayers(id: string, players: seq<string>, failAt: Option<nat>) returns (ok: bool, ghost ids: seq<nat>)
      modifies this
      ensures EnrollEntries(Enrollment(old(playerIds), old(nextPlayerId), []), Reached(players, failAt))
        == Enrollment(playerIds, nextPlayerId, ids)
      ensures associations == old(associations) + Associations(id, Linked(ids, !ok))
      ensures ok <==> !FailsAt(players, failAt)
      ensures nuzlockes == old(nuzlockes)
    {
      ghost var start := Enrollment(playerIds, nextPlayerId, []);
      ghost var assoc0 := associations;
      ids := [];
      var i := 0;
      var failed := false;
      while i < |players| && !failed
        invariant StoppedAfter(players, failAt, i, failed)
        invariant EnrollEntries(start, players[..i]) == Enrollment(playerIds, nextPlayerId, ids)
        invariant associations == assoc0 + Associations(id, Linked(ids, failed))
        invariant nuzlockes == old(nuzlockes)
      {
        ghost var i0 := i;
        failed, ids := AddEntry(id, players, i, failAt == Some(i), start, ids, assoc0);
        StoppedAfterStep(players, failAt, i0, failed);
        i := i + 1;
      }
      StoppedReached(players, failAt, i, failed);
      ok := !failed;
    }

    /** One pass of the loop of lines 142-190, over entry `i`: a blank entry is skipped; otherwise
        the player with the trimmed name is found or created and associated with
        3 lives, unless that association insert fails. */
    method AddEntry(nuzlockeId: string, players: seq<string>, i: nat, insertFails: bool,
                    ghost start: Enrollment, ghost ids: seq<nat>, ghost assoc0: seq<Association>)
      returns (failed: bool, ghost ids': seq<nat>)
      requires i < |players|
      requires EnrollEntries(start, players[..i]) == Enrollment(playerIds, nextPlayerId, ids)
      requires associations == assoc0 + Associations(nuzlockeId, ids)
      modifies this
      ensures failed <==> insertFails && !IsBlank(players[i])
      ensures EnrollEntries(start, players[..i + 1]) == Enrollment(playerIds, nextPlayerId, ids')
      ensures associations == assoc0 + Associations(nuzlockeId, Linked(ids', failed))
      ensures nuzlockes == old(nuzlockes)
    {
      EnrollEntriesSnoc(start, players, i);
      var name := players[i];
      ids' := ids;
      failed := false;
      if IsBlank(name) {
        return;
      }
      var playerId := FindOrCreatePlayer(Trim(name), ids);
      ids' := ids + [playerId];
      if insertFails {
        failed := true;
        return;
      }
      associations := associations + [Association(nuzlockeId, playerId, 3)];
    }

    /** Lines 146-177: look the trimmed name up in the player table, and insert
        a player with a fresh id when there is none. */
    method FindOrCreatePlayer(name: string, ghost ids: seq<nat>) returns (playerId: nat)
      modifies this
      ensures Enrollment(playerIds, nextPlayerId, ids + [playerId])
        == EnrollOne(Enrollment(old(playerIds), old(nextPlayerId), ids), name)
      ensures nuzlockes == old(nuzlockes) && associations == old(associations)
    {
      if name in playerIds {
        playerId := playerIds[name];
      } else {
        playerId := nextPlayerId;
        playerIds := playerIds[name := playerId];
        nextPlayerId := nextPlayerId + 1;
      }
    }

    /** `updateNuzlocke`: `.single()` fails when no nuzlocke has the id, and then
        nothing changes; otherwise the payload is applied to that row only. */
    method UpdateNuzlocke(data: UpdateNuzlockeData, now: string) returns (r: Result<NuzlockeRecord>)
      modifies this
      ensures data.id !in old(nuzlockes) ==> r.Err? && nuzlockes == old(nuzlockes)
      ensures data.id in old(nuzlockes) ==>
        var updated := ApplyPayload(old(nuzlockes)[data.id], UpdatePayloadOf(data, now));
        r == Ok(updated) && nuzlockes == old(nuzlockes)[data.id := updated]
      ensures playerIds == old(playerIds) && nextPlayerId == old(nextPlayerId) && associations == old(associations)
    {
      if data.id !in nuzlockes {
        return Err("Failed to update nuzlocke");
      }
      var updated := ApplyPayload(nuzlockes[data.id], UpdatePayloadOf(data, now));
      nuzlockes := nuzlockes[data.id := updated];
      r := Ok(updated);
    }

    /** `archiveNuzlocke`: an update that sets only the status to "archived". */
    method ArchiveNuzlocke(id: string, now: string) returns (r: Result<NuzlockeRecord>)
      modifies this
      ensures id !in old(nuzlockes) ==> r.Err? && nuzlockes == old(nuzlockes)
      ensures id in old(nuzlockes) ==>
        var archived := old(nuzlockes)[id].(status := "archived", last_updated := now);
        r == Ok(archived) && nuzlockes == old(nuzlockes)[id := archived]
      ensures playerIds == old(playerIds) && nextPlayerId == old(nextPlayerId) && associations == old(associations)
    {
      if id in nuzlockes {
        ArchiveChangesOnlyStatus(nuzlockes[id], id, now);
      }
      r := UpdateNuzlocke(ArchiveRequest(id), now);
    }
  }
}

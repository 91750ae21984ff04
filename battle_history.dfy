/** The battle dialog of components/battle-history.tsx: the two mutually
    exclusive player selections, the list of checked casualties and the submit
    handler that validates, sends the battle to `createBattle` and resets. */
module BattleHistory {
  import opened Common
  import opened BattleActions

  /** `prev.filter((id) => id !== pokemonId)`. */
  function Without(list: seq<string>, x: string): (r: seq<string>)
    ensures |r| <= |list|
    ensures x !in r
    ensures forall y :: y in r <==> y in list && y != x
  {
    if |list| == 0 then []
    else
      var prev := Without(list[..|list| - 1], x);
      assert list == list[..|list| - 1] + [list[|list| - 1]];
      if list[|list| - 1] == x then prev else prev + [list[|list| - 1]]
  }

  /** `handleCasualtyToggle`'s update (line 73): removes every occurrence of the
      id when it is present, otherwise appends it. Either way the membership of
      the toggled id flips and that of every other id stays. */
  function Toggle(list: seq<string>, x: string): (r: seq<string>)
    ensures x in r <==> x !in list
    ensures forall y :: y != x ==> (y in r <==> y in list)
  {
    if x in list then Without(list, x) else list + [x]
  }

  /** A list without the id is left as it is by removing the id. */
  lemma {:induction false} WithoutAbsent(list: seq<string>, x: string)
    requires x !in list
    ensures Without(list, x) == list
  {
    if |list| > 0 {
      WithoutAbsent(list[..|list| - 1], x);
    }
  }

  /** Toggling an absent id twice restores the list. */
  lemma ToggleTwice(list: seq<string>, x: string)
    requires x !in list
    ensures Toggle(Toggle(list, x), x) == list
  {
    var added := list + [x];
    assert added[..|added| - 1] == list;
    WithoutAbsent(list, x);
  }

  /** No id occurs twice. */
  predicate NoDuplicates(list: seq<string>) {
    forall i, j :: 0 <= i < j < |list| ==> list[i] != list[j]
  }

  /** Removing an id from a list without duplicates leaves none. */
  lemma {:induction false} WithoutNoDuplicates(list: seq<string>, x: string)
    requires NoDuplicates(list)
    ensures NoDuplicates(Without(list, x))
  {
    if |list| > 0 {
      var pre := list[..|list| - 1];
      assert NoDuplicates(pre);
      WithoutNoDuplicates(pre, x);
      var last := list[|list| - 1];
      assert last !in pre;
    }
  }

  /** Toggling keeps a list free of duplicates; the list starts empty, so the
      checked casualties never hold an id twice. */
  lemma ToggleNoDuplicates(list: seq<string>, x: string)
    requires NoDuplicates(list)
    ensures NoDuplicates(Toggle(list, x))
  {
    if x in list {
      WithoutNoDuplicates(list, x);
    }
  }

  /** `s || undefined` for a form string. */
  function OrUndefined(s: string): (r: Option<string>)
    ensures r.None? <==> s == ""
    ensures r.Some? ==> r.value == s
  {
    if s == "" then None else Some(s)
  }

  /** The object handed to `createBattle` (lines 93-101). */
  function BattleRequest(nuzlockeId: string, player1: string, player2: string, winner: string,
                         location: string, notes: string, casualties: seq<string>): (r: CreateBattleData)
    ensures r.nuzlocke_id == nuzlockeId && r.player1_id == player1 && r.player2_id == player2
    ensures r.winner_id.None? <==> winner == ""
    ensures r.location.None? <==> location == ""
    ensures r.notes.None? <==> notes == ""
    ensures r.casualties == Some(casualties)
  {
    CreateBattleData(nuzlockeId, player1, player2, OrUndefined(winner), OrUndefined(location),
                     OrUndefined(notes), Some(casualties))
  }

  /** What the dialog sends ends up in the battle row as typed: an empty winner,
      location or notes field is null in the row and any other is stored as it is;
      casualties are registered exactly when some box is checked. */
  lemma BattleRequestStored(nuzlockeId: string, player1: string, player2: string, winner: string,
                            location: string, notes: string, casualties: seq<string>, id: string, now: string)
    ensures var data := BattleRequest(nuzlockeId, player1, player2, winner, location, notes, casualties);
      var b := NewBattleRow(data, id, now);
      && b.player1_id == player1 && b.player2_id == player2 && b.nuzlocke_id == nuzlockeId
      && b.winner_id == OrUndefined(winner)
      && b.location == OrUndefined(location)
      && b.notes == OrUndefined(notes)
      && (HasCasualties(data) <==> casualties != [])
  {
  }

  /** The state of the `BattleHistory` component. */
  class BattleForm {
    const nuzlockeId: string
    var isDialogOpen: bool
    var isSubmitting: bool
    var player1: string
    var player2: string
    var winner: string
    var location: string
    var notes: string
    var casualties: seq<string>

    /** No non-empty player is selected in both slots. */
    predicate PlayersDistinct()
      reads this
    {
      player1 == player2 ==> player1 == ""
    }

    constructor (nuzlockeId: string)
      ensures this.nuzlockeId == nuzlockeId
      ensures !isDialogOpen && !isSubmitting
      ensures player1 == "" && player2 == "" && winner == "" && location == "" && notes == ""
      ensures casualties == []
      ensures PlayersDistinct() && NoDuplicates(casualties)
    {
      this.nuzlockeId := nuzlockeId;
      isDialogOpen, isSubmitting := false, false;
      player1, player2, winner, location, notes := "", "", "", "", "";
      casualties := [];
    }

    /** `handlePlayerChange` (lines 46-53): selects the player for slot 1 (or,
        for any other slot number, slot 2) and clears the other slot when it held
        the same player. Afterwards the two slots never hold the same player. */
    method HandlePlayerChange(playerId: string, playerNumber: int)
      modifies this
      ensures playerNumber == 1 ==>
        player1 == playerId && player2 == (if old(player2) == playerId then "" else old(player2))
      ensures playerNumber != 1 ==>
        player2 == playerId && player1 == (if old(player1) == playerId then "" else old(player1))
      ensures PlayersDistinct()
      ensures winner == old(winner) && location == old(location) && notes == old(notes)
      ensures casualties == old(casualties)
      ensures isDialogOpen == old(isDialogOpen) && isSubmitting == old(isSubmitting)
    {
      if playerNumber == 1 {
        var other := player2;
        player1 := playerId;
        if other == playerId {
          player2 := "";
        }
      } else {
        var other := player1;
        player2 := playerId;
        if other == playerId {
          player1 := "";
        }
      }
    }

    /** `handleCasualtyToggle`: checks or unchecks one Pokémon. */
    method HandleCasualtyToggle(pokemonId: string)
      modifies this
      ensures casualties == Toggle(old(casualties), pokemonId)
      ensures old(NoDuplicates(casualties)) ==> NoDuplicates(casualties)
      ensures player1 == old(player1) && player2 == old(player2)
      ensures old(PlayersDistinct()) ==> PlayersDistinct()
      ensures winner == old(winner) && location == old(location) && notes == old(notes)
      ensures isDialogOpen == old(isDialogOpen) && isSubmitting == old(isSubmitting)
    {
      if NoDuplicates(casualties) {
        ToggleNoDuplicates(casualties, pokemonId);
      }
      casualties := Toggle(casualties, pokemonId);
    }

    /** `handleSubmit` (lines 76-126). With a slot empty nothing is sent and
        nothing else changes. Otherwise the request of `BattleRequest` is sent;
        when `createBattle` succeeds (`serverAccepts`) the fields are reset and
        the dialog closes, and when it throws the fields are kept. The
        submitting flag is down again in every case. Selections made through
        `HandlePlayerChange` keep the two slots apart, so a sent request then
        names two different players. */
    method HandleSubmit(serverAccepts: bool) returns (sent: Option<CreateBattleData>)
      modifies this
      ensures !isSubmitting
      ensures sent.None? <==> old(player1) == "" || old(player2) == ""
      ensures sent.Some? ==>
        sent.value == BattleRequest(nuzlockeId, old(player1), old(player2), old(winner),
                                    old(location), old(notes), old(casualties))
      ensures sent.Some? && serverAccepts ==>
        && player1 == "" && player2 == "" && winner == "" && location == "" && notes == ""
        && casualties == [] && !isDialogOpen
      ensures sent.None? || !serverAccepts ==>
        && player1 == old(player1) && player2 == old(player2) && winner == old(winner)
        && location == old(location) && notes == old(notes) && casualties == old(casualties)
        && isDialogOpen == old(isDialogOpen)
      ensures old(PlayersDistinct()) && sent.Some? ==> sent.value.player1_id != sent.value.player2_id
      ensures old(PlayersDistinct()) ==> PlayersDistinct()
    {
      isSubmitting := true;
      if player1 == "" || player2 == "" {
        isSubmitting := false;
        return None;
      }
      sent := Some(BattleRequest(nuzlockeId, player1, player2, winner, location, notes, casualties));
      if serverAccepts {
        player1, player2, winner, location, notes := "", "", "", "", "";
        casualties := [];
        isDialogOpen := false;
      }
      isSubmitting := false;
    }
  }
}

/** The dialog of components/create-nuzlocke-button.tsx: three player slots,
    the ordered checks of `handleSubmit`, and the filter that drops the blank
    slots before `createNuzlocke` is called. */
module CreateNuzlockeForm {
  import opened Common
  import opened NuzlockeActions

  /** The three reasons `handleSubmit` refuses to submit, in the order they are checked. */
  datatype Refusal = TitleRequired | GameRequired | PlayerRequired {
    /** The toast shown for the refusal. */
    function Message(): string {
      match this
      case TitleRequired => "El t\U{00ED}tulo es obligatorio"
      case GameRequired => "Debes seleccionar un juego"
      case PlayerRequired => "Al menos un jugador es obligatorio"
    }
  }

  /** The checks of lines 47-75: a blank title, then an empty game, then a blank
      first slot; the first that fails is reported. `IsBlank` is `!s.trim()`
      (lemma `BlankIffTrimEmpty`). */
  function Refused(title: string, game: string, players: seq<string>): Option<Refusal>
    requires |players| > 0
  {
    if IsBlank(title) then Some(TitleRequired)
    else if game == "" then Some(GameRequired)
    else if IsBlank(players[0]) then Some(PlayerRequired)
    else None
  }

  /** The order of the checks: each refusal is reported exactly when its check
      fails and every earlier one passes, and the form passes exactly when all
      three checks pass. */
  lemma RefusedOrder(title: string, game: string, players: seq<string>)
    requires |players| > 0
    ensures Refused(title, game, players) == Some(TitleRequired) <==> Trim(title) == ""
    ensures Refused(title, game, players) == Some(GameRequired) <==> Trim(title) != "" && game == ""
    ensures Refused(title, game, players) == Some(PlayerRequired) <==>
      Trim(title) != "" && game != "" && Trim(players[0]) == ""
    ensures Refused(title, game, players).None? <==>
      Trim(title) != "" && game != "" && Trim(players[0]) != ""
  {
    BlankIffTrimEmpty(title);
    BlankIffTrimEmpty(players[0]);
  }

  /** Only the first slot is required: the later slots never decide the checks. */
  lemma OnlyFirstSlotRequired(title: string, game: string, players: seq<string>, others: seq<string>)
    requires |players| > 0 && |others| > 0 && others[0] == players[0]
    ensures Refused(title, game, others) == Refused(title, game, players)
  {
  }

  /** `players.filter((p) => p.trim() !== "")` (line 78): the non-blank slots, in
      slot order and untrimmed. */
  function Filled(players: seq<string>): (r: seq<string>)
    ensures |r| <= |players|
    ensures forall k :: 0 <= k < |r| ==> !IsBlank(r[k])
  {
    if |players| == 0 then []
    else
      var prev := Filled(players[..|players| - 1]);
      var last := players[|players| - 1];
      if IsBlank(last) then prev else prev + [last]
  }

  /** A slot is submitted exactly when it is not blank. */
  lemma {:induction false} FilledNonBlank(players: seq<string>)
    ensures forall p :: p in Filled(players) <==> p in players && !IsBlank(p)
  {
    if |players| > 0 {
      var pre := players[..|players| - 1];
      var last := players[|players| - 1];
      FilledNonBlank(pre);
      assert players == pre + [last];
      assert Filled(players) == if IsBlank(last) then Filled(pre) else Filled(pre) + [last];
    }
  }

  /** A slot is submitted exactly when its trimmed text is not empty, and
      submitted slots keep their text as typed. */
  lemma FilledMembers(players: seq<string>)
    ensures forall p :: p in Filled(players) <==> p in players && Trim(p) != ""
  {
    FilledNonBlank(players);
    forall p | p in players {
      BlankIffTrimEmpty(p);
    }
  }

  /** A non-blank first slot is always submitted, first. */
  lemma {:induction false} FilledStartsWithFirst(players: seq<string>)
    requires |players| > 0 && !IsBlank(players[0])
    ensures |Filled(players)| >= 1 && Filled(players)[0] == players[0]
  {
    if |players| > 1 {
      FilledStartsWithFirst(players[..|players| - 1]);
    }
  }

  /** A submission that passes the checks sends one to three players, the
      first slot first. */
  lemma SubmittedPlayerCount(title: string, game: string, players: seq<string>)
    requires |players| == 3
    requires Refused(title, game, players).None?
    ensures 1 <= |Filled(players)| <= 3
    ensures Filled(players)[0] == players[0]
  {
    FilledStartsWithFirst(players);
  }

  /** The client's filter and the server's blank skip agree: the names
      `createNuzlocke` looks up or creates from the submitted slots are the same
      as if every slot had been sent. */
  lemma {:induction false} FilledThenNamed(players: seq<string>)
    ensures NamedPlayers(Filled(players)) == NamedPlayers(players)
  {
    if |players| > 0 {
      var pre := players[..|players| - 1];
      var last := players[|players| - 1];
      FilledThenNamed(pre);
      if !IsBlank(last) {
        var f := Filled(pre) + [last];
        assert f[..|f| - 1] == Filled(pre);
      }
    }
  }

  /** The state of the `CreateNuzlockeButton` component. */
  class CreateNuzlockeDialog {
    var open: bool
    var isSubmitting: bool
    var title: string
    var game: string
    var description: string
    var players: seq<string>

    /** There are always three player slots. */
    predicate Valid()
      reads this
    {
      |players| == 3
    }

    constructor ()
      ensures Valid()
      ensures !open && !isSubmitting && title == "" && game == "" && description == ""
      ensures players == ["", "", ""]
    {
      open, isSubmitting := false, false;
      title, game, description := "", "", "";
      players := ["", "", ""];
    }

    /** `handlePlayerChange` (lines 35-39): a copy of the slots with slot
        `index` replaced becomes the new state; the other slots are kept. */
    method HandlePlayerChange(index: int, value: string)
      requires Valid() && 0 <= index < |players|
      modifies this
      ensures Valid()
      ensures players[index] == value
      ensures forall k :: 0 <= k < 3 && k != index ==> players[k] == old(players[k])
      ensures open == old(open) && isSubmitting == old(isSubmitting)
      ensures title == old(title) && game == old(game) && description == old(description)
    {
      var newPlayers := players;
      newPlayers := newPlayers[index := value];
      players := newPlayers;
    }

    /** `handleSubmit` (lines 41-107). A refused form sends nothing. Otherwise
        `createNuzlocke` receives the title, the game, the description and the
        filled slots; when it succeeds (`serverAccepts`) the dialog closes. The
        fields are never cleared, and the submitting flag is down at the end. */
    method HandleSubmit(serverAccepts: bool) returns (sent: Option<CreateNuzlockeData>)
      requires Valid()
      modifies this
      ensures Valid() && !isSubmitting
      ensures sent.None? <==> Refused(old(title), old(game), old(players)).Some?
      ensures sent.Some? ==>
        sent.value == CreateNuzlockeData(old(title), old(game), Some(old(description)), Filled(old(players)))
      ensures open == (if sent.Some? && serverAccepts then false else old(open))
      ensures title == old(title) && game == old(game) && description == old(description)
      ensures players == old(players)
    {
      isSubmitting := true;
      var refusal := Refused(title, game, players);
      if refusal.Some? {
        isSubmitting := false;
        return None;
      }
      sent := Some(CreateNuzlockeData(title, game, Some(description), Filled(players)));
      if serverAccepts {
        open := false;
      }
      isSubmitting := false;
    }
  }
}

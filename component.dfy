/** The cribbage board component as an object. Of its six state cells, the five that make up
    the game state are fields that the event handlers overwrite through their setters, in the
    order the handlers call them; the window size only sizes the confetti and is not modelled.
    Each method is proved to leave the cells as the matching transition of `Board` says. */
module Component {
  import opened JsStrings
  import Board
  import BoardProperties

  class CribbageBoard {
    var players: seq<Board.Player>
    var newPlayerName: string
    var winner: Board.Option<Board.Player>
    var currentPlayerIndex: nat
    var showConfetti: bool

    /** The cells read together as one `Board.State`. */
    function Cells(): Board.State
      reads this
    {
      Board.State(players, newPlayerName, winner, currentPlayerIndex, showConfetti)
    }

    /** The initial `useState` values. */
    constructor ()
      ensures Cells() == Board.Initial
    {
      players := [];
      newPlayerName := "";
      winner := Board.None;
      currentPlayerIndex := 0;
      showConfetti := false;
    }

    /** onChange of the name input. */
    method SetNewPlayerName(text: string)
      modifies this
      ensures Cells() == Board.SetNewPlayerName(old(Cells()), text)
    {
      newPlayerName := text;
    }

    /** `addPlayer`, with the clock reading as `newId`. */
    method AddPlayer(newId: int)
      modifies this
      ensures Cells() == Board.AddPlayer(old(Cells()), newId)
    {
      var name := Trim(newPlayerName);
      if |players| < Board.MaxPlayers && name != [] {
        players := players + [Board.Player(newId, name, 0, 0)];
        newPlayerName := "";
      }
    }

    /** `handleKeyPress` */
    method HandleKeyPress(key: Board.Key, newId: int)
      modifies this
      ensures Cells() == Board.HandleKeyPress(old(Cells()), key, newId)
    {
      if key == Board.Enter {
        AddPlayer(newId);
      }
    }

    /** `updateScore` */
    method UpdateScore(id: int, increment: int)
      modifies this
      ensures Cells() == Board.UpdateScore(old(Cells()), id, increment)
    {
      players := Board.ScorePlayers(players, id, increment);
    }

    /** A click on the - or + button of the row at `index`: `updateScore` from the button, then
        the row's own click handler, which the click bubbles up to. */
    method ScoreButton(index: nat, increment: int)
      modifies this
      ensures Cells() == Board.ScoreButton(old(Cells()), index, increment)
    {
      if index < |players| {
        UpdateScore(players[index].id, increment);
        SelectPlayer(index);
      }
    }

    /** `removePlayer` */
    method RemovePlayer(id: int)
      modifies this
      ensures Cells() == Board.RemovePlayer(old(Cells()), id)
    {
      players := Board.WithoutId(players, id);
    }

    /** `handleKeyDown`. When the up or down arrow finds no player under the pointer the handler
        throws before any setter runs: `thrown` carries the error and the cells are untouched. */
    method HandleKeyDown(key: Board.Key) returns (thrown: Board.Option<Board.Error>)
      modifies this
      ensures Board.HandleKeyDown(old(Cells()), key) ==
        match thrown
        case None => Board.Ok(Cells())
        case Some(err) => Board.Err(err)
      ensures thrown.Some? ==> Cells() == old(Cells())
    {
      thrown := Board.None;
      var n := |players|;
      if n == 0 {
        return;
      }
      if key == Board.ArrowRight {
        currentPlayerIndex := Board.NextIndex(currentPlayerIndex, n);
      } else if key == Board.ArrowLeft {
        currentPlayerIndex := Board.PrevIndex(currentPlayerIndex, n);
      } else if key == Board.ArrowUp || key == Board.ArrowDown {
        if currentPlayerIndex < n {
          UpdateScore(players[currentPlayerIndex].id, if key == Board.ArrowUp then 1 else -1);
        } else {
          thrown := Board.Some(Board.PlayerUndefined(currentPlayerIndex));
        }
      }
    }

    /** A click on the row at `index`. */
    method SelectPlayer(index: nat)
      modifies this
      ensures Cells() == Board.SelectPlayer(old(Cells()), index)
    {
      currentPlayerIndex := index;
    }

    /** `resetGame`: the four setters in the order the handler calls them. */
    method ResetGame()
      modifies this
      ensures Cells() == Board.ResetGame(old(Cells()))
    {
      players := Board.ResetPlayers(players, winner);
      winner := Board.None;
      currentPlayerIndex := 0;
      showConfetti := false;
    }

    /** The win-detection effect. */
    method WinEffect()
      modifies this
      ensures Cells() == Board.WinCheck(old(Cells()))
    {
      var winningPlayer := Board.FindWinning(players);
      if winningPlayer.Some? && winner.None? {
        winner := winningPlayer;
        showConfetti := true;
      }
    }

    /** One event: its handler, then the effect unless the handler threw. */
    method Dispatch(e: Board.Event) returns (thrown: Board.Option<Board.Error>)
      modifies this
      ensures Board.Step(old(Cells()), e) ==
        match thrown
        case None => Board.Ok(Cells())
        case Some(err) => Board.Err(err)
      ensures thrown.Some? ==> Cells() == old(Cells())
      ensures BoardProperties.Inv(old(Cells())) ==> BoardProperties.Inv(Cells())
    {
      ghost var before := Cells();
      thrown := Board.None;
      match e {
        case NameChanged(text) => SetNewPlayerName(text);
        case AddClicked(newId) => AddPlayer(newId);
        case NameKeyPressed(key, newId) => HandleKeyPress(key, newId);
        case ScoreClicked(index, increment) => ScoreButton(index, increment);
        case RemoveClicked(id) => RemovePlayer(id);
        case KeyDown(key) => thrown := HandleKeyDown(key);
        case RowClicked(index) => SelectPlayer(index);
        case NewGameClicked => ResetGame();
      }
      if thrown.None? {
        WinEffect();
        if BoardProperties.Inv(before) {
          BoardProperties.StepPreservesInv(before, e);
        }
      }
    }
  }
}

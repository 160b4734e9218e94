/** What the cribbage board's transitions promise, one event at a time and over any run. */
module BoardProperties {
  import opened JsStrings
  import opened Board

  // ================================================================ single handlers

  /** `addPlayer` changes the state exactly when the roster has room and the trimmed name is not
      empty; it then appends one player at the end (trimmed name, score 0, no games won) and
      clears the input, and touches nothing else. */
  lemma AddPlayerAppends(s: State, newId: int)
    ensures AddPlayer(s, newId) != s <==> CanAdd(s)
    ensures CanAdd(s) ==>
      var t := AddPlayer(s, newId);
      && |t.players| == |s.players| + 1
      && t.players[..|s.players|] == s.players
      && t.players[|s.players|] == Player(newId, Trim(s.newPlayerName), 0, 0)
      && t.newPlayerName == ""
      && t.winner == s.winner && t.currentPlayerIndex == s.currentPlayerIndex
      && t.showConfetti == s.showConfetti
  {
    if CanAdd(s) {
      assert |AddPlayer(s, newId).players| != |s.players|;
    }
  }

  /** A name made only of whitespace (or nothing) never adds a player. */
  lemma BlankNameAddsNobody(s: State, newId: int)
    requires AllWhitespace(s.newPlayerName)
    ensures AddPlayer(s, newId) == s
  {
    TrimEmptyIff(s.newPlayerName);
  }

  /** `updateScore` with an id no player carries changes nothing. */
  lemma UpdateScoreUnknownId(s: State, id: int, increment: int)
    requires id !in Ids(s.players)
    ensures UpdateScore(s, id, increment) == s
  {
    forall i | 0 <= i < |s.players| ensures s.players[i].id != id {
      assert s.players[i] in s.players;
    }
  }

  /** The `filter` of `removePlayer` works piecewise, so it keeps the survivors in order. */
  lemma {:induction false} WithoutIdAppend(a: seq<Player>, b: seq<Player>, id: int)
    ensures WithoutId(a + b, id) == WithoutId(a, id) + WithoutId(b, id)
  {
    if a == [] {
      assert a + b == b;
    } else {
      assert (a + b)[0] == a[0];
      assert (a + b)[1..] == a[1..] + b;
      WithoutIdAppend(a[1..], b, id);
    }
  }

  /** A player is left after the filter exactly when it was on the roster and does not carry
      the id. */
  lemma {:induction false} WithoutIdMembers(players: seq<Player>, id: int)
    ensures forall p :: p in WithoutId(players, id) <==> p in players && p.id != id
  {
    if players != [] {
      WithoutIdMembers(players[1..], id);
      assert players == [players[0]] + players[1..];
    }
  }

  /** Players not carrying the id survive the filter unchanged. */
  lemma {:induction false} WithoutIdAbsent(players: seq<Player>, id: int)
    requires forall i :: 0 <= i < |players| ==> players[i].id != id
    ensures WithoutId(players, id) == players
  {
    if players != [] {
      WithoutIdAbsent(players[1..], id);
      assert players == [players[0]] + players[1..];
    }
  }

  /** With unique ids, removing the player at position k splices exactly that player out and
      keeps every other player, in order. */
  lemma RemoveSplicesOut(players: seq<Player>, k: nat)
    requires k < |players|
    requires UniqueIds(players)
    ensures WithoutId(players, players[k].id) == players[..k] + players[k + 1..]
  {
    var a, b := players[..k], players[k + 1..];
    forall i | 0 <= i < |b| ensures b[i].id != players[k].id {
      assert b[i] == players[k + 1 + i];
    }
    assert players == a + [players[k]] + b;
    SpliceOut(a, players[k], b);
  }

  lemma {:induction false} SpliceOut(a: seq<Player>, p: Player, b: seq<Player>)
    requires forall i :: 0 <= i < |a| ==> a[i].id != p.id
    requires forall i :: 0 <= i < |b| ==> b[i].id != p.id
    ensures WithoutId(a + [p] + b, p.id) == a + b
  {
    if a == [] {
      assert a + [p] + b == [p] + b;
      assert ([p] + b)[1..] == b;
      WithoutIdAbsent(b, p.id);
    } else {
      assert (a + [p] + b)[0] == a[0];
      assert (a + [p] + b)[1..] == a[1..] + [p] + b;
      SpliceOut(a[1..], p, b);
      assert a + b == [a[0]] + (a[1..] + b);
    }
  }

  /** Removing changes nothing but the roster: in particular the turn pointer stays where it
      was. */
  lemma RemoveKeepsPointer(s: State, id: int)
    ensures var t := RemovePlayer(s, id);
      t.currentPlayerIndex == s.currentPlayerIndex && t.winner == s.winner
      && t.showConfetti == s.showConfetti && t.newPlayerName == s.newPlayerName
      && forall p :: p in t.players <==> p in s.players && p.id != id
  {
    WithoutIdMembers(s.players, id);
  }

  // ================================================================ keyboard

  /** The arrow keys do nothing on an empty roster. */
  lemma EmptyRosterIgnoresKeys(s: State, key: Key)
    requires s.players == []
    ensures HandleKeyDown(s, key) == Ok(s)
  {
  }

  /** ArrowRight followed by ArrowLeft, and ArrowLeft followed by ArrowRight, come back to the
      starting row. */
  lemma NextPrevInverse(i: nat, n: nat)
    requires i < n
    ensures PrevIndex(NextIndex(i, n), n) == i
    ensures NextIndex(PrevIndex(i, n), n) == i
  {
  }

  lemma RightThenLeftReturns(s: State)
    requires s.currentPlayerIndex < |s.players|
    ensures HandleKeyDown(s, ArrowRight).Ok?
    ensures HandleKeyDown(HandleKeyDown(s, ArrowRight).value, ArrowLeft) == Ok(s)
  {
    NextPrevInverse(s.currentPlayerIndex, |s.players|);
  }

  /** ArrowRight always lands on a row, even from a pointer left past the end by a removal. */
  lemma ArrowRightLandsOnRow(s: State)
    requires s.players != []
    ensures HandleKeyDown(s, ArrowRight).Ok?
    ensures HandleKeyDown(s, ArrowRight).value.currentPlayerIndex < |s.players|
  {
  }

  /** A key handler throws exactly for ArrowUp or ArrowDown on a non-empty roster whose pointer
      is past its end; otherwise the up and down arrows score the player under the pointer. */
  lemma KeyDownThrowsIff(s: State, key: Key)
    ensures HandleKeyDown(s, key).Err? <==>
      (key == ArrowUp || key == ArrowDown) && 0 < |s.players| <= s.currentPlayerIndex
    ensures (key == ArrowUp || key == ArrowDown) && s.currentPlayerIndex < |s.players| ==>
      HandleKeyDown(s, key)
        == Ok(UpdateScore(s, s.players[s.currentPlayerIndex].id, if key == ArrowUp then 1 else -1))
  {
  }

  /** A whole event throws exactly when its key handler does. */
  lemma StepThrowsIff(s: State, e: Event)
    ensures Step(s, e).Err? <==>
      e.KeyDown? && (e.key == ArrowUp || e.key == ArrowDown)
      && 0 < |s.players| <= s.currentPlayerIndex
  {
    if e.KeyDown? {
      KeyDownThrowsIff(s, e.key);
    }
  }

  /** The pointer is on a row, or is the initial 0 that an empty roster leaves meaningless. */
  predicate PointerSafe(s: State) {
    s.currentPlayerIndex == 0 || s.currentPlayerIndex < |s.players|
  }

  /** No event throws while the pointer is safe. */
  lemma SafePointerNeverThrows(s: State, e: Event)
    requires PointerSafe(s)
    ensures Step(s, e).Ok?
  {
    StepThrowsIff(s, e);
  }

  /** Every control the screen offers keeps the pointer safe, except the remove button. */
  lemma StepKeepsPointerSafe(s: State, e: Event)
    requires PointerSafe(s)
    requires Available(s, e)
    requires !e.RemoveClicked?
    ensures Step(s, e).Ok? && PointerSafe(Step(s, e).value)
  {
    SafePointerNeverThrows(s, e);
  }

  /** Removing the selected player from the end of the roster leaves the pointer past the end
      (the X button is on screen, and clicking it does not select its row); the up arrow, still
      attached to the board, then throws. */
  lemma RemovingLastSelectedStrandsPointer(s: State)
    requires s.winner.None? && UniqueIds(s.players) && |s.players| >= 2
    requires s.currentPlayerIndex == |s.players| - 1
    ensures var e := RemoveClicked(s.players[|s.players| - 1].id);
      && Available(s, e) && Step(s, e).Ok?
      && var t := Step(s, e).value;
      && |t.players| == |s.players| - 1
      && !PointerSafe(t)
      && Available(t, KeyDown(ArrowUp))
      && Step(t, KeyDown(ArrowUp)) == Err(PlayerUndefined(|s.players| - 1))
  {
    var k := |s.players| - 1;
    assert s.players[k] in s.players;
    RemoveSplicesOut(s.players, k);
  }

  /** A click on a player's - or + button bubbles up to the row and selects it: the handlers
      score the player and put the pointer back on that row, whatever it was before. The effect
      that follows leaves the roster and the pointer alone (`WinCheck`). */
  lemma ScoreClickSelectsRow(s: State, index: nat, increment: int)
    requires index < |s.players|
    ensures Handle(s, ScoreClicked(index, increment)) ==
      Ok(s.(players := ScorePlayers(s.players, s.players[index].id, increment),
            currentPlayerIndex := index))
    ensures Handle(s, ScoreClicked(index, increment)).value.currentPlayerIndex <
      |Handle(s, ScoreClicked(index, increment)).value.players|
  {
  }

  // ================================================================ winning

  /** The effect is idempotent: running it again after it ran changes nothing, so running it
      after every event agrees with running it only when the roster or winner changed. */
  lemma WinCheckIdempotent(s: State)
    ensures WinCheck(WinCheck(s)) == WinCheck(s)
  {
  }

  /** The effect reads only the roster and the winner: after a handler that changes neither,
      a board the effect had already settled stays settled, so skipping the effect there, as
      React does, gives the same state as running it. */
  lemma WinCheckSkippable(s: State, t: State)
    requires WinCheck(s) == s
    requires t.players == s.players && t.winner == s.winner
    ensures WinCheck(t) == t
  {
  }

  /** Once a winner is recorded, no event other than New Game replaces it or hides the
      confetti, even when another player reaches 121 from the keyboard. */
  lemma WinnerStable(s: State, e: Event)
    requires s.winner.Some?
    requires e != NewGameClicked
    ensures Step(s, e).Ok? ==>
      Step(s, e).value.winner == s.winner && Step(s, e).value.showConfetti == s.showConfetti
  {
  }

  /** The board's key handler stays attached while the winner panel is shown, so the arrow keys
      still change the score of the player under the pointer without disturbing the winner. */
  lemma KeyboardScoresAfterWin(s: State, key: Key)
    requires s.winner.Some?
    requires s.currentPlayerIndex < |s.players|
    requires key == ArrowUp || key == ArrowDown
    ensures Available(s, KeyDown(key))
    ensures Step(s, KeyDown(key)).Ok?
    ensures var t := Step(s, KeyDown(key)).value;
      var p := s.players[s.currentPlayerIndex];
      && t.players[s.currentPlayerIndex].score == Clamp(p.score + if key == ArrowUp then 1 else -1)
      && t.winner == s.winner
  {
  }

  /** While the winner panel is shown, the only controls on the page are the board's key
      handler and the New Game button. */
  lemma WinnerPanelControls(s: State, e: Event)
    requires s.winner.Some?
    requires Available(s, e)
    ensures e.KeyDown? || e.NewGameClicked?
  {
  }

  // ================================================================ resetting

  /** New Game: all scores 0, ids, names and order kept, one more game for each player carrying
      the winner's id and none for anyone else (for no one without a winner), no winner, the
      pointer on the first row, no confetti. The effect that follows finds nobody at 121. */
  lemma NewGameResets(s: State)
    ensures Step(s, NewGameClicked).Ok?
    ensures var t := Step(s, NewGameClicked).value;
      && |t.players| == |s.players|
      && (forall i :: 0 <= i < |s.players| ==>
            && t.players[i].id == s.players[i].id
            && t.players[i].name == s.players[i].name
            && t.players[i].score == 0
            && t.players[i].gamesWon ==
                 s.players[i].gamesWon + if s.winner.Some? && s.players[i].id == s.winner.value.id then 1 else 0)
      && t.winner == None && t.currentPlayerIndex == 0 && !t.showConfetti
      && t.newPlayerName == s.newPlayerName
  {
    var r := ResetGame(s);
    assert FirstWinningIndex(r.players) == |r.players|;
  }

  /** Without a winner, New Game leaves every tally as it was. */
  lemma NewGameWithoutWinnerKeepsTallies(s: State)
    requires s.winner.None?
    ensures forall i :: 0 <= i < |s.players| ==>
      Step(s, NewGameClicked).value.players[i].gamesWon == s.players[i].gamesWon
  {
    NewGameResets(s);
  }

  // ================================================================ games won

  /** The sum of the tallies shown beside the names. */
  function TotalWins(players: seq<Player>): nat {
    if players == [] then 0 else players[0].gamesWon + TotalWins(players[1..])
  }

  /** How many players carry `id`. */
  function CountId(players: seq<Player>, id: int): nat {
    if players == [] then 0 else (if players[0].id == id then 1 else 0) + CountId(players[1..], id)
  }

  lemma {:induction false} ScoreKeepsTotalWins(players: seq<Player>, id: int, increment: int)
    ensures TotalWins(ScorePlayers(players, id, increment)) == TotalWins(players)
  {
    if players != [] {
      var r := ScorePlayers(players, id, increment);
      ScoreKeepsTotalWins(players[1..], id, increment);
      assert r[1..] == ScorePlayers(players[1..], id, increment);
    }
  }

  lemma {:induction false} RemoveLowersTotalWins(players: seq<Player>, id: int)
    ensures TotalWins(WithoutId(players, id)) <= TotalWins(players)
  {
    if players != [] {
      RemoveLowersTotalWins(players[1..], id);
      var r := WithoutId(players, id);
      if players[0].id != id {
        assert r[0] == players[0];
        assert r[1..] == WithoutId(players[1..], id);
      } else {
        assert r == WithoutId(players[1..], id);
      }
    }
  }

  lemma {:induction false} AppendTotalWins(players: seq<Player>, p: Player)
    ensures TotalWins(players + [p]) == TotalWins(players) + p.gamesWon
  {
    if players == [] {
      assert [p][1..] == [];
    } else {
      assert (players + [p])[1..] == players[1..] + [p];
      AppendTotalWins(players[1..], p);
    }
  }

  /** New Game raises the total by the number of players carrying the winner's id, and by
      nothing without a winner. */
  lemma {:induction false} ResetTotalWins(players: seq<Player>, winner: Option<Player>)
    ensures TotalWins(ResetPlayers(players, winner))
         == TotalWins(players) + if winner.Some? then CountId(players, winner.value.id) else 0
  {
    if players != [] {
      var r := ResetPlayers(players, winner);
      ResetTotalWins(players[1..], winner);
      assert r[1..] == ResetPlayers(players[1..], winner);
    }
  }

  /** No event but New Game raises the number of games won. */
  lemma OnlyNewGameRaisesTallies(s: State, e: Event)
    requires e != NewGameClicked
    requires Step(s, e).Ok?
    ensures TotalWins(Step(s, e).value.players) <= TotalWins(s.players)
  {
    HandleRaisesNoTally(s, e);
  }

  lemma HandleRaisesNoTally(s: State, e: Event)
    requires e != NewGameClicked
    ensures Handle(s, e).Ok? ==> TotalWins(Handle(s, e).value.players) <= TotalWins(s.players)
  {
    match e
    case ScoreClicked(index, increment) =>
      if index < |s.players| {
        ScoreKeepsTotalWins(s.players, s.players[index].id, increment);
      }
    case RemoveClicked(id) => RemoveLowersTotalWins(s.players, id);
    case KeyDown(key) => KeyDownKeepsTotalWins(s, key);
    case AddClicked(newId) => AddKeepsTotalWins(s, newId);
    case NameKeyPressed(_, newId) => AddKeepsTotalWins(s, newId);
    case NameChanged(_) =>
    case RowClicked(_) =>
  }

  lemma AddKeepsTotalWins(s: State, newId: int)
    ensures TotalWins(AddPlayer(s, newId).players) == TotalWins(s.players)
  {
    AppendTotalWins(s.players, Player(newId, Trim(s.newPlayerName), 0, 0));
  }

  lemma KeyDownKeepsTotalWins(s: State, key: Key)
    ensures HandleKeyDown(s, key).Ok? ==>
      TotalWins(HandleKeyDown(s, key).value.players) == TotalWins(s.players)
  {
    if s.players != [] && s.currentPlayerIndex < |s.players| {
      ScoreKeepsTotalWins(s.players, s.players[s.currentPlayerIndex].id, 1);
      ScoreKeepsTotalWins(s.players, s.players[s.currentPlayerIndex].id, -1);
    }
  }

  /** With unique ids, New Game after a win by a player still on the roster raises the number of
      games won by exactly one. */
  lemma NewGameAddsOneWin(s: State)
    requires UniqueIds(s.players)
    requires s.winner.Some? && s.winner.value.id in Ids(s.players)
    ensures TotalWins(Step(s, NewGameClicked).value.players) == TotalWins(s.players) + 1
  {
    ResetTotalWins(s.players, s.winner);
    CountUniqueId(s.players, s.winner.value.id);
    NewGameResets(s);
  }

  lemma {:induction false} CountUniqueId(players: seq<Player>, id: int)
    requires UniqueIds(players)
    requires id in Ids(players)
    ensures CountId(players, id) == 1
  {
    var p :| p in players && p.id == id;
    if players[0].id == id {
      CountAbsentId(players[1..], id);
    } else {
      assert p in players[1..];
      CountUniqueId(players[1..], id);
    }
  }

  lemma {:induction false} CountAbsentId(players: seq<Player>, id: int)
    requires forall i :: 0 <= i < |players| ==> players[i].id != id
    ensures CountId(players, id) == 0
  {
    if players != [] {
      CountAbsentId(players[1..], id);
    }
  }

  // ================================================================ invariants over runs

  predicate ScoresInRange(players: seq<Player>) {
    forall p :: p in players ==> 0 <= p.score <= WinningScore
  }

  /** What holds of every state the board reaches: at most six players, every score on the
      board, confetti exactly while a winner is recorded, and the winner snapshot taken at 121. */
  predicate Inv(s: State) {
    && |s.players| <= MaxPlayers
    && ScoresInRange(s.players)
    && (s.showConfetti <==> s.winner.Some?)
    && (s.winner.Some? ==> s.winner.value.score == WinningScore)
  }

  lemma ScorePlayersInRange(players: seq<Player>, id: int, increment: int)
    requires ScoresInRange(players)
    ensures ScoresInRange(ScorePlayers(players, id, increment))
  {
    var r := ScorePlayers(players, id, increment);
    forall p | p in r ensures 0 <= p.score <= WinningScore {
      var i :| 0 <= i < |r| && r[i] == p;
      assert players[i] in players;
    }
  }

  lemma ResetPlayersInRange(players: seq<Player>, winner: Option<Player>)
    ensures ScoresInRange(ResetPlayers(players, winner))
  {
    var r := ResetPlayers(players, winner);
    forall p | p in r ensures p.score == 0 {
      var i :| 0 <= i < |r| && r[i] == p;
    }
  }

  lemma StepPreservesInv(s: State, e: Event)
    requires Inv(s)
    requires Step(s, e).Ok?
    ensures Inv(Step(s, e).value)
  {
    HandleKeepsInv(s, e);
    WinCheckKeepsInv(Handle(s, e).value);
  }

  lemma WinCheckKeepsInv(s: State)
    requires Inv(s)
    ensures Inv(WinCheck(s))
  {
    var k := FirstWinningIndex(s.players);
    if k < |s.players| {
      assert s.players[k] in s.players;
    }
  }

  lemma HandleKeepsInv(s: State, e: Event)
    requires Inv(s)
    ensures Handle(s, e).Ok? ==> Inv(Handle(s, e).value)
  {
    match e
    case ScoreClicked(index, increment) =>
      if index < |s.players| {
        ScorePlayersInRange(s.players, s.players[index].id, increment);
      }
    case KeyDown(key) => KeyDownKeepsInv(s, key);
    case NewGameClicked => ResetPlayersInRange(s.players, s.winner);
    case AddClicked(newId) => AddKeepsInv(s, newId);
    case NameKeyPressed(_, newId) => AddKeepsInv(s, newId);
    case RemoveClicked(id) => WithoutIdMembers(s.players, id);
    case NameChanged(_) =>
    case RowClicked(_) =>
  }

  lemma AddKeepsInv(s: State, newId: int)
    requires Inv(s)
    ensures Inv(AddPlayer(s, newId))
  {
  }

  lemma KeyDownKeepsInv(s: State, key: Key)
    requires Inv(s)
    ensures HandleKeyDown(s, key).Ok? ==> Inv(HandleKeyDown(s, key).value)
  {
    var n := |s.players|;
    var i := s.currentPlayerIndex;
    if n > 0 && i < n {
      match key
      case ArrowUp =>
        ScorePlayersInRange(s.players, s.players[i].id, 1);
        assert HandleKeyDown(s, key) == Ok(UpdateScore(s, s.players[i].id, 1));
      case ArrowDown =>
        ScorePlayersInRange(s.players, s.players[i].id, -1);
        assert HandleKeyDown(s, key) == Ok(UpdateScore(s, s.players[i].id, -1));
      case _ =>
        assert HandleKeyDown(s, key).value.players == s.players;
    }
  }

  /** Any run from a board satisfying the invariant keeps it, whatever the events. */
  lemma {:induction false} RunPreservesInv(s: State, events: seq<Event>)
    requires Inv(s)
    requires Run(s, events).Ok?
    ensures Inv(Run(s, events).value)
    decreases |events|
  {
    if events != [] {
      StepPreservesInv(s, events[0]);
      RunPreservesInv(Step(s, events[0]).value, events[1..]);
    }
  }

  /** Every board reachable from the initial one has at most six players and every score in
      [0, 121]; confetti shows exactly while a winner is recorded. */
  lemma ReachableInv(events: seq<Event>)
    requires Run(Initial, events).Ok?
    ensures Inv(Run(Initial, events).value)
  {
    RunPreservesInv(Initial, events);
  }

  // ================================================================ ids

  /** The new player's id, for the two events that add one, is not already on the roster. The
      clock reading the component uses does not guarantee this. */
  predicate FreshId(s: State, e: Event) {
    match e
    case AddClicked(newId) => newId !in Ids(s.players)
    case NameKeyPressed(_, newId) => newId !in Ids(s.players)
    case _ => true
  }

  lemma {:induction false} WithoutIdKeepsIdsUnique(players: seq<Player>, id: int)
    requires UniqueIds(players)
    ensures UniqueIds(WithoutId(players, id))
  {
    if players != [] {
      var rest := WithoutId(players[1..], id);
      WithoutIdKeepsIdsUnique(players[1..], id);
      if players[0].id != id {
        var r := WithoutId(players, id);
        assert r == [players[0]] + rest;
        forall j | 0 < j < |r| ensures r[0].id != r[j].id {
          assert r[j] == rest[j - 1];
          WithoutIdMembers(players[1..], id);
          assert rest[j - 1] in players[1..];
          var m :| 0 <= m < |players[1..]| && players[1..][m] == rest[j - 1];
          assert players[1 + m] == rest[j - 1];
        }
      } else {
        assert WithoutId(players, id) == rest;
      }
    }
  }

  /** With fresh ids for new players, no event puts two players with one id on the roster. */
  lemma StepKeepsIdsUnique(s: State, e: Event)
    requires UniqueIds(s.players)
    requires FreshId(s, e)
    requires Step(s, e).Ok?
    ensures UniqueIds(Step(s, e).value.players)
  {
    HandleKeepsIdsUnique(s, e);
  }

  lemma HandleKeepsIdsUnique(s: State, e: Event)
    requires UniqueIds(s.players)
    requires FreshId(s, e)
    ensures Handle(s, e).Ok? ==> UniqueIds(Handle(s, e).value.players)
  {
    match e
    case RemoveClicked(id) => WithoutIdKeepsIdsUnique(s.players, id);
    case AddClicked(newId) => AddKeepsIdsUnique(s, newId);
    case NameKeyPressed(key, newId) => AddKeepsIdsUnique(s, newId);
    case ScoreClicked(index, increment) =>
      if index < |s.players| {
        ScoreKeepsIds(s.players, s.players[index].id, increment);
      }
    case KeyDown(key) =>
    case NameChanged(_) =>
    case RowClicked(_) =>
    case NewGameClicked =>
  }

  lemma ScoreKeepsIds(players: seq<Player>, id: int, increment: int)
    requires UniqueIds(players)
    ensures UniqueIds(ScorePlayers(players, id, increment))
  {
    var r := ScorePlayers(players, id, increment);
    assert forall i :: 0 <= i < |r| ==> r[i].id == players[i].id;
  }

  lemma AddKeepsIdsUnique(s: State, newId: int)
    requires UniqueIds(s.players)
    requires newId !in Ids(s.players)
    ensures UniqueIds(AddPlayer(s, newId).players)
  {
    forall i | 0 <= i < |s.players| ensures s.players[i].id != newId {
      assert s.players[i] in s.players;
    }
  }

  // ================================================================ a full game

  /** One offered event that does not throw, then the rest of the run. */
  lemma OnScreenStep(s: State, e: Event, t: State, rest: seq<Event>)
    requires Available(s, e) && Step(s, e) == Ok(t)
    ensures OnScreen(s, [e] + rest) == OnScreen(t, rest)
    ensures Run(s, [e] + rest) == Run(t, rest)
  {
    assert ([e] + rest)[0] == e && ([e] + rest)[1..] == rest;
  }

  /** `k` copies of one event. */
  function Repeat(e: Event, k: nat): (r: seq<Event>)
    ensures |r| == k
    ensures forall i :: 0 <= i < k ==> r[i] == e
  {
    if k == 0 then [] else [e] + Repeat(e, k - 1)
  }

  /** A lone player clicked up `k >= 1` times from below 121 climbs one point per click, every
      click on screen, and becomes the winner, with confetti, exactly on reaching 121. The first
      click also selects the player's row, whatever the pointer was. */
  lemma {:induction false} ClicksToWin(s: State, k: nat)
    requires |s.players| == 1 && s.winner.None?
    requires 0 <= s.players[0].score < WinningScore
    requires 1 <= k && s.players[0].score + k <= WinningScore
    ensures var p := s.players[0];
      var q := p.(score := p.score + k);
      var t := s.(players := [q], currentPlayerIndex := 0);
      var events := Repeat(ScoreClicked(0, 1), k);
      && OnScreen(s, events)
      && Run(s, events) ==
           Ok(if q.score == WinningScore then t.(winner := Some(q), showConfetti := true) else t)
    decreases k
  {
    var p := s.players[0];
    var e := ScoreClicked(0, 1);
    var p1 := p.(score := p.score + 1);
    var t := s.(players := [p1], currentPlayerIndex := 0);
    OneClick(s);
    if k == 1 {
      assert Repeat(e, k) == [e] + [];
      OnScreenStep(s, e, WinCheck(t), []);
    } else {
      ClicksToWin(t, k - 1);
      OnScreenStep(s, e, t, Repeat(e, k - 1));
    }
  }

  /** One click on the + button of a lone player below 121: the score goes up by one and the
      click, bubbling up to the row, selects it. */
  lemma OneClick(s: State)
    requires |s.players| == 1 && s.winner.None?
    requires 0 <= s.players[0].score < WinningScore
    ensures var p := s.players[0];
      var p1 := p.(score := p.score + 1);
      var t := s.(players := [p1], currentPlayerIndex := 0);
      && Available(s, ScoreClicked(0, 1))
      && Step(s, ScoreClicked(0, 1)) == Ok(WinCheck(t))
      && WinCheck(t) == if p1.score == WinningScore
                        then t.(winner := Some(p1), showConfetti := true)
                        else t
  {
    var p := s.players[0];
    var p1 := p.(score := p.score + 1);
    assert ScorePlayers(s.players, p.id, 1) == [p1];
    assert FirstWinningIndex([p1]) == if p1.score == WinningScore then 0 else 1 by {
      assert [p1][1..] == [];
    }
  }

  /** A run of `xs` then `ys` is the run of `ys` from wherever `xs` ends, and is on screen
      exactly when both parts are. */
  lemma {:induction false} RunThen(s: State, xs: seq<Event>, ys: seq<Event>)
    requires Run(s, xs).Ok?
    ensures Run(s, xs + ys) == Run(Run(s, xs).value, ys)
    ensures OnScreen(s, xs + ys) <==> OnScreen(s, xs) && OnScreen(Run(s, xs).value, ys)
    decreases |xs|
  {
    if xs != [] {
      var t := Step(s, xs[0]).value;
      assert (xs + ys)[0] == xs[0] && (xs + ys)[1..] == xs[1..] + ys;
      RunThen(t, xs[1..], ys);
    } else {
      assert xs + ys == ys;
    }
  }

  /** A new player clicked up 121 times wins, with the winning snapshot at 121 and confetti on;
      New Game then leaves that roster with one more game won and score 0, no winner, the pointer
      on the first row and no confetti. Every event of the game is on screen. */
  lemma LonePlayerGame(s: State)
    requires |s.players| == 1 && s.winner.None? && s.players[0].score == 0
    ensures var p := s.players[0];
      var q := p.(score := WinningScore);
      var clicks := Repeat(ScoreClicked(0, 1), WinningScore);
      && Run(s, clicks) ==
           Ok(s.(players := [q], currentPlayerIndex := 0, winner := Some(q), showConfetti := true))
      && OnScreen(s, clicks + [NewGameClicked])
      && Run(s, clicks + [NewGameClicked]) ==
           Ok(s.(players := [p.(gamesWon := p.gamesWon + 1)], winner := None,
                 currentPlayerIndex := 0, showConfetti := false))
  {
    var p := s.players[0];
    var q := p.(score := WinningScore);
    var clicks := Repeat(ScoreClicked(0, 1), WinningScore);
    var w := s.(players := [q], currentPlayerIndex := 0, winner := Some(q), showConfetti := true);
    ClicksToWin(s, WinningScore);
    RunThen(s, clicks, [NewGameClicked]);
    WinnerNewGame(w, p);
  }

  /** New Game on a board whose lone player has just won. */
  lemma WinnerNewGame(w: State, p: Player)
    requires p.score == 0
    requires w.players == [p.(score := WinningScore)] && w.winner == Some(p.(score := WinningScore))
    ensures var t := w.(players := [p.(gamesWon := p.gamesWon + 1)], winner := None,
                        currentPlayerIndex := 0, showConfetti := false);
      OnScreen(w, [NewGameClicked]) && Run(w, [NewGameClicked]) == Ok(t)
  {
    var t := w.(players := [p.(gamesWon := p.gamesWon + 1)], winner := None,
                currentPlayerIndex := 0, showConfetti := false);
    assert ResetGame(w) == t;
    assert FirstWinningIndex(t.players) == 1 by {
      assert t.players[1..] == [];
    }
    assert Step(w, NewGameClicked) == Ok(t);
    OnScreenStep(w, NewGameClicked, t, []);
  }
}

/** The scorekeeping state of the cribbage board component and one pure transition per event.
    The five game-state cells (the window size is not modelled) become the fields of `State`; each event handler becomes a
    function from the state before the event to the state its setters leave behind; the
    win-detection effect becomes `WinCheck`, which `Step` composes after every handler. */
module Board {
  import opened JsStrings

  /** At most this many players; the add guard and the disabled Add button both use it. */
  const MaxPlayers := 6
  /** The end of the board: the score ceiling and the exact winning score. */
  const WinningScore := 121

  datatype Option<T> = None | Some(value: T)

  /** `players[currentPlayerIndex].id` on an index past the roster reads `.id` of
      `undefined`, which throws a TypeError out of the key handler. */
  datatype Error = PlayerUndefined(index: nat)

  datatype Result<T> = Ok(value: T) | Err(error: Error)

  /** The `Player` record; `id` is the clock reading taken when the player was added. */
  datatype Player = Player(id: int, name: string, score: int, gamesWon: nat)

  /** The component's game state: roster, name input buffer, winner snapshot, turn pointer and
      the confetti switch. Window dimensions only size the confetti and are not modelled. */
  datatype State = State(
    players: seq<Player>,
    newPlayerName: string,
    winner: Option<Player>,
    currentPlayerIndex: nat,
    showConfetti: bool)

  /** The initial values handed to `useState`. */
  const Initial := State([], "", None, 0, false)

  /** The name of a key the handlers do not test for. */
  type OtherKeyName = name: string | name !in {"Enter", "ArrowRight", "ArrowLeft", "ArrowUp", "ArrowDown"}
    witness "Shift"

  /** The `key` of a keyboard event. The handlers test only these five names; any other key is
      `OtherKey`. */
  datatype Key = Enter | ArrowRight | ArrowLeft | ArrowUp | ArrowDown | OtherKey(name: OtherKeyName)

  /** What the user can do. Ids of new players are clock readings, so they arrive with the event. */
  datatype Event =
    | NameChanged(text: string)              // onChange of the name input
    | AddClicked(newId: int)                 // the Add Player button
    | NameKeyPressed(key: Key, newId: int) // onKeyPress of the name input
    | ScoreClicked(index: nat, increment: int) // the - and + buttons of the row at index
    | RemoveClicked(id: int)                 // the X button of a player
    | KeyDown(key: Key)                   // onKeyDown of the whole board
    | RowClicked(index: nat)                 // a click on a player's row
    | NewGameClicked                         // either New Game button

  function Ids(players: seq<Player>): set<int> {
    set p | p in players :: p.id
  }

  /** No two players on the roster share an id. */
  predicate UniqueIds(players: seq<Player>) {
    forall i, j :: 0 <= i < j < |players| ==> players[i].id != players[j].id
  }

  // ---------------------------------------------------------------- adding a player

  /** The guard of `addPlayer`: room on the roster and a name that is not blank. */
  predicate CanAdd(s: State) {
    |s.players| < MaxPlayers && Trim(s.newPlayerName) != []
  }

  function SetNewPlayerName(s: State, text: string): State {
    s.(newPlayerName := text)
  }

  /** `addPlayer`: appends a fresh player with the trimmed name and clears the input, or does
      nothing when the guard fails. */
  function AddPlayer(s: State, newId: int): State {
    if CanAdd(s) then
      s.(players := s.players + [Player(newId, Trim(s.newPlayerName), 0, 0)], newPlayerName := "")
    else
      s
  }

  /** `handleKeyPress`: Enter in the name input adds the player. */
  function HandleKeyPress(s: State, key: Key, newId: int): State {
    if key == Enter then AddPlayer(s, newId) else s
  }

  // ---------------------------------------------------------------- scores

  /** `Math.min(Math.max(v, 0), 121)` */
  function Clamp(v: int): (r: int)
    ensures 0 <= r <= WinningScore
    ensures 0 <= v <= WinningScore ==> r == v
    ensures v < 0 ==> r == 0
    ensures v > WinningScore ==> r == WinningScore
  {
    if v < 0 then 0 else if v > WinningScore then WinningScore else v
  }

  /** The `map` of `updateScore`: every player carrying `id` gets its clamped new score, every
      other player is kept as it was, in place. */
  function ScorePlayers(players: seq<Player>, id: int, increment: int): (r: seq<Player>)
    ensures |r| == |players|
    ensures forall i :: 0 <= i < |players| ==>
      r[i] == if players[i].id == id
              then players[i].(score := Clamp(players[i].score + increment))
              else players[i]
  {
    if players == [] then []
    else
      var p := players[0];
      [if p.id == id then p.(score := Clamp(p.score + increment)) else p]
        + ScorePlayers(players[1..], id, increment)
  }

  /** `updateScore(id, increment)` */
  function UpdateScore(s: State, id: int, increment: int): State {
    s.(players := ScorePlayers(s.players, id, increment))
  }

  /** A click on the - or + button of the row at `index`. The button calls
      `updateScore(player.id, increment)`; the click then bubbles up to the row, whose own
      handler selects the row. A row that is not on the roster has no buttons, so nothing
      happens. */
  function ScoreButton(s: State, index: nat, increment: int): State {
    if index < |s.players| then
      SelectPlayer(UpdateScore(s, s.players[index].id, increment), index)
    else
      s
  }

  // ---------------------------------------------------------------- removing a player

  /** The `filter` of `removePlayer`: the players not carrying `id`. Nobody carrying it is
      left, and the roster does not grow. */
  function WithoutId(players: seq<Player>, id: int): (r: seq<Player>)
    ensures |r| <= |players|
    ensures forall i :: 0 <= i < |r| ==> r[i].id != id
  {
    if players == [] then []
    else (if players[0].id == id then [] else [players[0]]) + WithoutId(players[1..], id)
  }

  /** `removePlayer(id)`: the turn pointer is left as it was, even when it now points past the
      end of the roster. */
  function RemovePlayer(s: State, id: int): State {
    s.(players := WithoutId(s.players, id))
  }

  // ---------------------------------------------------------------- keyboard

  /** ArrowRight: `(i + 1) % n`. */
  function NextIndex(i: nat, n: nat): (r: nat)
    requires n > 0
    ensures r < n
    ensures i + 1 < n ==> r == i + 1
    ensures i + 1 == n ==> r == 0
  {
    (i + 1) % n
  }

  /** ArrowLeft: `i === 0 ? n - 1 : i - 1`. */
  function PrevIndex(i: nat, n: nat): (r: nat)
    requires n > 0
    ensures i < n ==> r < n
    ensures i > 0 ==> r + 1 == i
    ensures i == 0 ==> r == n - 1
  {
    if i == 0 then n - 1 else i - 1
  }

  /** `handleKeyDown`: nothing on an empty roster; the left and right arrows move the turn
      pointer around the roster; the up and down arrows score the player under the pointer,
      and throw when the pointer is past the end of the roster. */
  function HandleKeyDown(s: State, key: Key): Result<State> {
    var n := |s.players|;
    var i := s.currentPlayerIndex;
    if n == 0 then Ok(s)
    else if key == ArrowRight then Ok(s.(currentPlayerIndex := NextIndex(i, n)))
    else if key == ArrowLeft then Ok(s.(currentPlayerIndex := PrevIndex(i, n)))
    else if key == ArrowUp || key == ArrowDown then
      if i < n then Ok(UpdateScore(s, s.players[i].id, if key == ArrowUp then 1 else -1))
      else Err(PlayerUndefined(i))
    else Ok(s)
  }

  /** A click on the row at `index`. */
  function SelectPlayer(s: State, index: nat): State {
    s.(currentPlayerIndex := index)
  }

  // ---------------------------------------------------------------- winning and resetting

  /** The index `players.find(p => p.score === 121)` stops at, or `|players|` when it finds
      nothing. */
  function FirstWinningIndex(players: seq<Player>): (k: nat)
    ensures k <= |players|
    ensures forall j :: 0 <= j < k ==> players[j].score != WinningScore
    ensures k < |players| ==> players[k].score == WinningScore
  {
    if players == [] then 0
    else if players[0].score == WinningScore then 0
    else 1 + FirstWinningIndex(players[1..])
  }

  function FindWinning(players: seq<Player>): Option<Player> {
    var k := FirstWinningIndex(players);
    if k < |players| then Some(players[k]) else None
  }

  /** The win-detection effect: while no winner is recorded, the first player in roster order
      whose score is exactly 121 becomes the winner and the confetti is switched on; a recorded
      winner is never replaced. Nothing but those two cells changes. */
  function WinCheck(s: State): (t: State)
    ensures t.players == s.players && t.newPlayerName == s.newPlayerName
    ensures t.currentPlayerIndex == s.currentPlayerIndex
    ensures s.winner.Some? ==> t == s
    ensures s.winner.None? ==>
      (t.winner.Some? <==> exists i :: 0 <= i < |s.players| && s.players[i].score == WinningScore)
    ensures s.winner.None? && t.winner.Some? ==>
      t.showConfetti &&
      exists k :: 0 <= k < |s.players| && t.winner.value == s.players[k] &&
        s.players[k].score == WinningScore &&
        forall j :: 0 <= j < k ==> s.players[j].score != WinningScore
    ensures t.winner.None? ==> t == s
  {
    var found := FindWinning(s.players);
    if found.Some? && s.winner.None? then
      s.(winner := found, showConfetti := true)
    else
      s
  }

  /** True when `p` carries the id of the recorded winner (`player.id === winner?.id`). */
  predicate WonBy(p: Player, winner: Option<Player>) {
    winner.Some? && p.id == winner.value.id
  }

  /** The `map` of `resetGame`: every score back to 0, one more game won for each player
      carrying the winner's id, ids, names and order kept. */
  function ResetPlayers(players: seq<Player>, winner: Option<Player>): (r: seq<Player>)
    ensures |r| == |players|
    ensures forall i :: 0 <= i < |players| ==>
      r[i] == players[i].(score := 0,
                          gamesWon := players[i].gamesWon + if WonBy(players[i], winner) then 1 else 0)
  {
    if players == [] then []
    else
      var p := players[0];
      [p.(score := 0, gamesWon := p.gamesWon + if WonBy(p, winner) then 1 else 0)]
        + ResetPlayers(players[1..], winner)
  }

  /** `resetGame`: new scores and tallies, no winner, the pointer on the first row, no confetti.
      The name input is not touched. */
  function ResetGame(s: State): State {
    s.(players := ResetPlayers(s.players, s.winner), winner := None,
       currentPlayerIndex := 0, showConfetti := false)
  }

  // ---------------------------------------------------------------- events

  /** The handler an event runs, before any effect. */
  function Handle(s: State, e: Event): Result<State> {
    match e
    case NameChanged(text) => Ok(SetNewPlayerName(s, text))
    case AddClicked(newId) => Ok(AddPlayer(s, newId))
    case NameKeyPressed(key, newId) => Ok(HandleKeyPress(s, key, newId))
    case ScoreClicked(index, increment) => Ok(ScoreButton(s, index, increment))
    case RemoveClicked(id) => Ok(RemovePlayer(s, id))
    case KeyDown(key) => HandleKeyDown(s, key)
    case RowClicked(index) => Ok(SelectPlayer(s, index))
    case NewGameClicked => Ok(ResetGame(s))
  }

  /** One event followed by the win-detection effect. A handler that throws changes nothing. */
  function Step(s: State, e: Event): Result<State> {
    match Handle(s, e)
    case Ok(t) => Ok(WinCheck(t))
    case Err(err) => Err(err)
  }

  /** A sequence of events, stopping at the first one whose handler throws. */
  function Run(s: State, events: seq<Event>): Result<State>
    decreases |events|
  {
    if events == [] then Ok(s)
    else
      match Step(s, events[0])
      case Ok(t) => Run(t, events[1..])
      case Err(err) => Err(err)
  }

  /** Whether the rendered board offers the event: the add form, the player rows and their
      buttons exist only while no winner is shown; Add is disabled on a full roster; the board's
      key handler is always attached; New Game is shown with the winner, or below a non-empty
      roster. */
  predicate Available(s: State, e: Event) {
    match e
    case NameChanged(_) => s.winner.None?
    case AddClicked(_) => s.winner.None? && |s.players| < MaxPlayers
    case NameKeyPressed(_, _) => s.winner.None?
    case ScoreClicked(index, increment) =>
      s.winner.None? && index < |s.players| && (increment == 1 || increment == -1)
    case RemoveClicked(id) => s.winner.None? && id in Ids(s.players)
    case KeyDown(_) => true
    case RowClicked(index) => s.winner.None? && index < |s.players|
    case NewGameClicked => s.winner.Some? || |s.players| > 0
  }

  /** Every event of the run is offered by the screen showing the state it arrives in. */
  predicate OnScreen(s: State, events: seq<Event>)
    decreases |events|
  {
    events == [] ||
    (Available(s, events[0]) &&
     match Step(s, events[0])
     case Ok(t) => OnScreen(t, events[1..])
     case Err(_) => true)
  }
}

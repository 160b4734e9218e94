# Cribbage board scorekeeping, modelled in Dafny

The cribbage board is one React component that keeps score for up to six players. It holds
six state cells. The model keeps the five that make up the game state: the roster of players
(id, name, score, games won), the text of the name input, the winner snapshot, the index of the
active row (the turn pointer) and the confetti switch. The sixth, the window size, only sizes
the confetti (see "## Left out"). Event handlers add a player, change the name input, click a score up or down, remove a
player, move the pointer with the arrow keys or a row click, score the active player with the
up and down arrows, and start a new game. An effect records the first player at exactly 121 as
the winner and turns on the confetti.

The model has four modules:

- `JsStrings` (`trim.dfy`): `String.prototype.trim` over the fixed ECMAScript whitespace and
  line-terminator set.
- `Board` (`board.dfy`): the `State` record and one pure function per handler (`AddPlayer`,
  `SetNewPlayerName`, `HandleKeyPress`, `UpdateScore`, `ScoreButton`, `RemovePlayer`, `HandleKeyDown`,
  `SelectPlayer`, `ResetGame`). It also has the effect as `WinCheck`, `Step` (handler then
  effect), `Run` over a sequence of events, and `Available` (which controls the rendered
  board offers in a state).
- `BoardProperties` (`properties.dfy`): lemmas about single events and about whole runs.
- `Component` (`component.dfy`): the component as a class whose five fields are the
  game-state cells. Its methods overwrite the cells in the order the handlers call the setters. Each is
  proved equal to the matching `Board` function, and `Dispatch` keeps the board invariant.

Behaviour the model keeps from the code:

- **Stale pointer.** `removePlayer` leaves the pointer where it was. After removing the selected
  last player of a roster of two or more, ArrowUp and ArrowDown read `.id` of `undefined` and throw. The model returns the
  explicit outcome `Err(PlayerUndefined(i))`, and a run stops there. A row click, or a click
  on a row's - or + button, puts the pointer back on a row (`ScoreClickSelectsRow`).
- **Score clicks select their row.** The - and + buttons sit inside the row, whose click
  handler selects it, and only the remove button stops the click from reaching the row. So a
  score click runs `updateScore` and then selects the row (`Board.ScoreButton`), while a click
  on X removes the player and leaves the pointer alone.
- **Keys stay live after a win.** The key handler sits on the outer element. While the winner
  panel is shown, the arrow keys still change scores, but the recorded winner never changes.
- **New Game without a winner.** Scores reset and no tally changes.
- **Duplicate ids.** Ids are accepted as they come. `updateScore`, `removePlayer` and the
  New Game tally act on every player with the id. Keeping ids unique is a separate lemma that
  assumes each new id is fresh.

Three consequences of the code that are easy to miss:

- `removePlayer` does not move the pointer, so ArrowUp and ArrowDown can throw afterwards
  (`RemovingLastSelectedStrandsPointer`).
- `resetGame` sets the pointer to 0, even on an empty roster.
- A win hides the score buttons, but the board's key handler still changes scores
  (`KeyboardScoresAfterWin`).

The effect runs after every event in the model. React runs it only when the roster or the
winner changed. The two agree for two reasons. `WinCheck` reads only the roster and the winner,
so after a handler that changes neither, a board the effect had settled stays settled
(`WinCheckSkippable`). And running the effect again on a settled board changes nothing
(`WinCheckIdempotent`).

## Model

| member | source | states |
|---|---|---|
| `JsStrings.TrimStart` | src/components/CribbageBoard.tsx:24 | `trim` keeps a suffix of the name that does not start with whitespace |
| `JsStrings.TrimStartDropsWhitespace` | src/components/CribbageBoard.tsx:24 | the leading part `trim` drops is all whitespace |
| `JsStrings.TrimEnd` | src/components/CribbageBoard.tsx:24 | `trim` keeps a prefix of that suffix that does not end with whitespace |
| `JsStrings.TrimEndDropsWhitespace` | src/components/CribbageBoard.tsx:24 | the trailing part `trim` drops is all whitespace |
| `JsStrings.Trim` | src/components/CribbageBoard.tsx:24-27 | a trimmed name neither starts nor ends with whitespace |
| `JsStrings.TrimEmptyIff` | src/components/CribbageBoard.tsx:24 | `name.trim()` is empty (falsy) exactly when the name is all whitespace |
| `JsStrings.TrimIsSlice` | src/components/CribbageBoard.tsx:27 | the stored name is the contiguous slice of the typed text that starts where the leading whitespace ends |
| `JsStrings.TrimIdempotent` | src/components/CribbageBoard.tsx:27 | trimming a stored name again changes nothing |
| `JsStrings.IsWhitespace` | src/components/CribbageBoard.tsx:24 | no contract of its own: the code points `trim` removes, ECMAScript's WhiteSpace and LineTerminator set; `TrimEmptyIff`, `TrimStartDropsWhitespace` and `TrimEndDropsWhitespace` state what `trim` does with it |
| `Board.CanAdd` | src/components/CribbageBoard.tsx:24 | no contract of its own: fewer than six players and a name that does not trim to empty; `AddPlayerAppends` states that a player is added exactly when it holds |
| `Board.SetNewPlayerName` | src/components/CribbageBoard.tsx:134 | no contract of its own: only the name input changes; `StepPreservesInv` and `Component.CribbageBoard.SetNewPlayerName` are about it |
| `Board.AddPlayer` | src/components/CribbageBoard.tsx:23-31 | no contract of its own; `AddPlayerAppends` and `BlankNameAddsNobody` state it |
| `Board.HandleKeyPress` | src/components/CribbageBoard.tsx:33-37 | no contract of its own: Enter runs `addPlayer`, any other key does nothing; `Component.CribbageBoard.HandleKeyPress` is proved equal to it |
| `Board.UpdateScore` | src/components/CribbageBoard.tsx:39-50 | no contract of its own; the contract of `ScorePlayers` and `UpdateScoreUnknownId` state it |
| `Board.ScoreButton` | src/components/CribbageBoard.tsx:150-170 | no contract of its own; `ScoreClickSelectsRow` states it |
| `Board.RemovePlayer` | src/components/CribbageBoard.tsx:52-54 | no contract of its own; `WithoutIdMembers`, `RemoveSplicesOut` and `RemoveKeepsPointer` state it |
| `Board.HandleKeyDown` | src/components/CribbageBoard.tsx:56-75 | no contract of its own; `KeyDownThrowsIff` together with the contracts of `NextIndex` and `PrevIndex`, and `EmptyRosterIgnoresKeys`, state it |
| `Board.SelectPlayer` | src/components/CribbageBoard.tsx:150 | no contract of its own: only the pointer changes; `StepKeepsPointerSafe` is about it |
| `Board.FindWinning` | src/components/CribbageBoard.tsx:90 | no contract of its own: the player at the index `FirstWinningIndex` returns, if any; the contract of `WinCheck` states what the effect does with it |
| `Board.ResetGame` | src/components/CribbageBoard.tsx:97-109 | no contract of its own; `NewGameResets` and `ResetTotalWins` state it |
| `Board.Available` | src/components/CribbageBoard.tsx:123-181 | no contract of its own: which controls the rendered board offers; `WinnerPanelControls`, `StepKeepsPointerSafe` and the on-screen conclusions of `ClicksToWin` and `LonePlayerGame` are about it |
| `Board.Initial` | src/components/CribbageBoard.tsx:13-17 | no contract of its own: the five game-state `useState` initial values; `ReachableInv` starts from it and `Component.CribbageBoard.constructor` is proved equal to it |
| `Board.Handle` | src/components/CribbageBoard.tsx:112-177 | no contract of its own: the handler each control runs (the key handler at :112, New Game at :126 and :177, the name input at :134-135, Add at :139, a row at :150, X at :159-161, - and + at :168/:170 bubbling to their row); `StepThrowsIff`, `OnlyNewGameRaisesTallies` and `ScoreClickSelectsRow` are about it |
| `Board.Step` | src/components/CribbageBoard.tsx:89-95 | no contract of its own: the handler, then `WinCheck`; a throwing handler changes nothing and runs no effect; `StepThrowsIff`, `StepPreservesInv`, `WinnerStable` and `WinCheckSkippable` are about it |
| `Board.Run` | src/components/CribbageBoard.tsx:111-181 | no contract of its own: the events in order, stopping at the first throw; `RunPreservesInv`, `ReachableInv`, `RunThen` and `ClicksToWin` are about it |
| `Board.OnScreen` | src/components/CribbageBoard.tsx:123-181 | no contract of its own: every event of a run is offered by the board it arrives at; `OnScreenStep`, `RunThen`, `ClicksToWin` and `LonePlayerGame` are about it |
| `Board.Clamp` | src/components/CribbageBoard.tsx:45 | the clamped score lies in [0,121], equals the raw value inside that range, is 0 below it and 121 above it |
| `Board.ScorePlayers` | src/components/CribbageBoard.tsx:41-48 | same length and order; every player with the id gets the clamped score and nothing else changes; every other player is unchanged |
| `Board.WithoutId` | src/components/CribbageBoard.tsx:53 | no player carrying the id survives the filter, and the roster never grows |
| `BoardProperties.WithoutIdMembers` | src/components/CribbageBoard.tsx:53 | a player survives the filter exactly when it was on the roster and does not carry the id |
| `Board.NextIndex` | src/components/CribbageBoard.tsx:61 | ArrowRight lands in [0,n) from any index, on i+1 inside the roster and on 0 from the last row |
| `Board.PrevIndex` | src/components/CribbageBoard.tsx:64-66 | ArrowLeft keeps an in-range index in range, steps back by one from any non-zero index and wraps from row 0 to the last row |
| `Board.FirstWinningIndex` | src/components/CribbageBoard.tsx:90 | `find` stops at the first player with score exactly 121, or past the end when there is none |
| `Board.WinCheck` | src/components/CribbageBoard.tsx:89-95 | with no winner, a winner is recorded exactly when someone is at 121; it is the first such player in roster order, and confetti turns on. A recorded winner is never replaced. Only the winner and confetti cells change |
| `Board.ResetPlayers` | src/components/CribbageBoard.tsx:98-105 | same length and order, every score 0, one more game won exactly for players carrying the winner's id, ids and names kept |
| `BoardProperties.AddPlayerAppends` | src/components/CribbageBoard.tsx:23-31 | adding changes the state exactly when the roster has fewer than 6 players and the trimmed name is non-empty. It then appends one player at the end (trimmed name, score 0, no games) and clears the input; nothing else changes |
| `BoardProperties.BlankNameAddsNobody` | src/components/CribbageBoard.tsx:24 | an all-whitespace name never adds a player |
| `BoardProperties.UpdateScoreUnknownId` | src/components/CribbageBoard.tsx:39-50 | `updateScore` with an unknown id changes nothing |
| `BoardProperties.WithoutIdAppend` | src/components/CribbageBoard.tsx:53 | the filter distributes over concatenation, so survivors keep their order |
| `BoardProperties.WithoutIdAbsent` | src/components/CribbageBoard.tsx:53 | removing an id nobody carries changes nothing |
| `BoardProperties.SpliceOut` | src/components/CribbageBoard.tsx:53 | filtering the only carrier of an id out of `a + [p] + b` gives `a + b` |
| `BoardProperties.RemoveSplicesOut` | src/components/CribbageBoard.tsx:52-54 | with unique ids, removing the player at position k yields exactly the roster without position k, in order |
| `BoardProperties.RemoveKeepsPointer` | src/components/CribbageBoard.tsx:52-54 | removal changes only the roster; the pointer, winner, confetti and name input are untouched |
| `BoardProperties.EmptyRosterIgnoresKeys` | src/components/CribbageBoard.tsx:57 | on an empty roster every key leaves the state unchanged |
| `BoardProperties.NextPrevInverse` | src/components/CribbageBoard.tsx:60-66 | for an in-range index, right-then-left and left-then-right both return to the start |
| `BoardProperties.RightThenLeftReturns` | src/components/CribbageBoard.tsx:56-67 | ArrowRight then ArrowLeft restores the whole state when the pointer is on a row |
| `BoardProperties.ArrowRightLandsOnRow` | src/components/CribbageBoard.tsx:61 | on a non-empty roster ArrowRight puts the pointer on a row, even from a stale pointer |
| `BoardProperties.KeyDownThrowsIff` | src/components/CribbageBoard.tsx:56-75 | the key handler throws exactly for ArrowUp/ArrowDown on a non-empty roster whose pointer is past its end. Otherwise those keys call `updateScore` on the active player with +1 or -1 |
| `BoardProperties.StepThrowsIff` | src/components/CribbageBoard.tsx:68-73 | the only event that throws is ArrowUp/ArrowDown with a pointer past the end of a non-empty roster |
| `BoardProperties.SafePointerNeverThrows` | src/components/CribbageBoard.tsx:68-73 | while the pointer is on a row (or is 0), no event throws |
| `BoardProperties.StepKeepsPointerSafe` | src/components/CribbageBoard.tsx:56-75 | every control on screen except the remove button keeps the pointer on a row (or at 0) |
| `BoardProperties.RemovingLastSelectedStrandsPointer` | src/components/CribbageBoard.tsx:52-72 | removing the selected last player (roster of 2 or more) is offered, shrinks the roster by one and leaves the pointer past the end. The next ArrowUp, still offered, throws |
| `BoardProperties.ScoreClickSelectsRow` | src/components/CribbageBoard.tsx:150-170 | the handlers of a - or + click on a row score that player by id and, the click bubbling to the row, put the pointer on that row whatever it was before |
| `BoardProperties.WinCheckIdempotent` | src/components/CribbageBoard.tsx:89-95 | running the win effect twice is the same as once |
| `BoardProperties.WinCheckSkippable` | src/components/CribbageBoard.tsx:89-95 | after a handler that leaves the roster and the winner alone, a board the effect had settled stays settled |
| `BoardProperties.WinnerStable` | src/components/CribbageBoard.tsx:91-93 | once a winner is recorded, no event but New Game changes it or the confetti |
| `BoardProperties.KeyboardScoresAfterWin` | src/components/CribbageBoard.tsx:112-126 | with the winner panel shown, ArrowUp/ArrowDown are offered and change the active player's score by ±1, clamped. The winner stays |
| `BoardProperties.WinnerPanelControls` | src/components/CribbageBoard.tsx:123-181 | while a winner is shown the only controls are the board's key handler and New Game |
| `BoardProperties.NewGameResets` | src/components/CribbageBoard.tsx:97-109 | New Game zeroes every score and keeps ids, names, order and length. Each player with the winner's id gets one more game won, no one else does (no one at all without a winner). Winner becomes null, pointer 0, confetti off, name input kept |
| `BoardProperties.NewGameWithoutWinnerKeepsTallies` | src/components/CribbageBoard.tsx:102-103 | New Game with no winner leaves every games-won tally unchanged |
| `BoardProperties.ScoreKeepsTotalWins` | src/components/CribbageBoard.tsx:41-48 | score changes leave the games-won total unchanged |
| `BoardProperties.RemoveLowersTotalWins` | src/components/CribbageBoard.tsx:53 | removal never raises the games-won total |
| `BoardProperties.AddKeepsTotalWins` | src/components/CribbageBoard.tsx:23-31 | adding a player (with no games won) leaves the games-won total unchanged |
| `BoardProperties.AppendTotalWins` | src/components/CribbageBoard.tsx:25-28 | appending a player adds its tally to the total |
| `BoardProperties.ResetTotalWins` | src/components/CribbageBoard.tsx:99-104 | New Game raises the total by the number of players carrying the winner's id (0 without a winner) |
| `BoardProperties.OnlyNewGameRaisesTallies` | src/components/CribbageBoard.tsx:97-109 | no event except New Game raises the games-won total |
| `BoardProperties.CountUniqueId` | src/components/CribbageBoard.tsx:103 | with unique ids, an id on the roster is carried by exactly one player |
| `BoardProperties.CountAbsentId` | src/components/CribbageBoard.tsx:103 | an id nobody carries is counted zero times |
| `BoardProperties.NewGameAddsOneWin` | src/components/CribbageBoard.tsx:103 | with unique ids and the winner still on the roster, New Game raises the games-won total by exactly one |
| `BoardProperties.ScorePlayersInRange` | src/components/CribbageBoard.tsx:45 | score changes keep every score in [0,121] |
| `BoardProperties.ResetPlayersInRange` | src/components/CribbageBoard.tsx:101 | after New Game every score is 0, hence in range |
| `BoardProperties.StepPreservesInv` | src/components/CribbageBoard.tsx:23-109 | every event keeps: at most 6 players, every score in [0,121], confetti on exactly while a winner is recorded, winner snapshot at 121 |
| `BoardProperties.RunPreservesInv` | src/components/CribbageBoard.tsx:23-109 | any sequence of events keeps that invariant |
| `BoardProperties.ReachableInv` | src/components/CribbageBoard.tsx:13-17 | every state reachable from the initial `useState` values satisfies it (roster ≤ 6, scores in [0,121]) |
| `BoardProperties.WithoutIdKeepsIdsUnique` | src/components/CribbageBoard.tsx:53 | removal keeps ids unique |
| `BoardProperties.StepKeepsIdsUnique` | src/components/CribbageBoard.tsx:27 | if every new id is fresh, no event puts two players with one id on the roster |
| `BoardProperties.OnScreenStep` | src/components/CribbageBoard.tsx:111-181 | an offered, non-throwing event followed by the rest of a run is that run from the next state |
| `BoardProperties.Repeat` | src/components/CribbageBoard.test.tsx:68-70 | k copies of one click, as the tests fire them |
| `BoardProperties.ClicksToWin` | src/components/CribbageBoard.test.tsx:65-73 | a lone player clicked up k times (k at least 1) from below 121 climbs one point per click, every click on screen. The first click selects the player's row, whatever the pointer was. They become the winner with confetti exactly on reaching 121 |
| `BoardProperties.RunThen` | src/components/CribbageBoard.tsx:111-181 | running two event sequences one after the other is running the second from where the first ends, and the whole is on screen exactly when both parts are |
| `BoardProperties.OneClick` | src/components/CribbageBoard.test.tsx:68-70 | one + click on a lone player below 121 is on screen, raises the score by one, selects row 0, and records the winner with confetti exactly when the score reaches 121 |
| `BoardProperties.WinnerNewGame` | src/components/CribbageBoard.test.tsx:90-92 | New Game after a lone player's win is on screen and leaves that player with one more game won, score 0, no winner, pointer 0 and no confetti |
| `BoardProperties.LonePlayerGame` | src/components/CribbageBoard.test.tsx:84-92 | from score 0 and any pointer, 121 clicks make the player the winner (snapshot at 121, confetti on) with the pointer on row 0. The clicks followed by New Game, all on screen, end with one more game won and score 0, no winner, pointer 0, no confetti |
| `Component.CribbageBoard.constructor` | src/components/CribbageBoard.tsx:13-17 | the cells start as the initial state |
| `Component.CribbageBoard.SetNewPlayerName` | src/components/CribbageBoard.tsx:134 | the input's onChange sets the name buffer as `Board.SetNewPlayerName` says |
| `Component.CribbageBoard.AddPlayer` | src/components/CribbageBoard.tsx:23-31 | the cells end as `Board.AddPlayer` says |
| `Component.CribbageBoard.HandleKeyPress` | src/components/CribbageBoard.tsx:33-37 | Enter adds the player; the cells end as `Board.HandleKeyPress` says |
| `Component.CribbageBoard.UpdateScore` | src/components/CribbageBoard.tsx:39-50 | the cells end as `Board.UpdateScore` says |
| `Component.CribbageBoard.ScoreButton` | src/components/CribbageBoard.tsx:150-170 | `updateScore` from the button, then the row's click handler; the cells end as `Board.ScoreButton` says |
| `Component.CribbageBoard.RemovePlayer` | src/components/CribbageBoard.tsx:52-54 | the cells end as `Board.RemovePlayer` says |
| `Component.CribbageBoard.HandleKeyDown` | src/components/CribbageBoard.tsx:56-75 | the cells end as `Board.HandleKeyDown` says. When it throws, the error is returned and the cells are untouched |
| `Component.CribbageBoard.SelectPlayer` | src/components/CribbageBoard.tsx:150 | the row click sets the pointer as `Board.SelectPlayer` says |
| `Component.CribbageBoard.ResetGame` | src/components/CribbageBoard.tsx:97-109 | the four setters leave the cells as `Board.ResetGame` says |
| `Component.CribbageBoard.WinEffect` | src/components/CribbageBoard.tsx:89-95 | the effect leaves the cells as `Board.WinCheck` says |
| `Component.CribbageBoard.Dispatch` | src/components/CribbageBoard.tsx:111-181 | handler then effect, equal to `Board.Step`: a score click also runs the row's handler, and a throwing handler changes no cell. The board invariant is kept |

## Left out

- Rendering and CSS (`src/components/CribbageBoard.tsx:111-183`). Only the choice of which
  controls exist in a state is kept, as `Board.Available`. The `current-player` class is just
  `index === currentPlayerIndex`.
- The confetti component and its floating-point parameters: a foreign library. Only the
  `showConfetti` flag is modelled.
- Window-size tracking and the resize listener. They only size the confetti and never touch
  game state.
- `Date.now()` as the id source: a clock read. The id arrives as an event parameter. Freshness
  is a hypothesis of `StepKeepsIdsUnique`, because the code does not ensure it.
- The 20-character `maxLength` of the name input. The browser enforces it, not `addPlayer`.
- React scheduling: setter batching and effect timing. They are replaced by "handler, then
  effect" for each event. Event bubbling is kept only as its outcome: a score click also runs
  the row's handler, and a remove click does not.
- What the browser does after a handler throws. The model reports the error and `Run` stops.
- Keyboard events carry a `Key` value: Enter, the four arrows, or any other key by a name that
  is none of those five. This replaces comparing the `key` string with the five names.
- JavaScript numbers are modelled as unbounded integers. Fractional, NaN or huge increments
  are not modelled; the code only passes ±1.
- Unicode whitespace is the fixed set of ECMAScript's WhiteSpace and LineTerminator
  productions, as of the Unicode version the code points were taken from.
- `src/App.tsx` only renders the component. `src/components/CribbageBoard.test.tsx` is
  DOM-driven test code; it is used only as evidence for `Repeat`, `OneClick`, `ClicksToWin`,
  `WinnerNewGame` and `LonePlayerGame`.

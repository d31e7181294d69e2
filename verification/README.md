# Cookie Crunch game controller: turn and outcome model

This project models the turn and outcome bookkeeping of the Cookie Crunch
game view controller. Cookie Crunch is a match-3 puzzle: the player swaps two
adjacent cookies to make rows of three or more of one kind, within a move
budget and against a target score.

The controller holds `movesLeft` and `score`. It does the following:

- It starts a game with the level's full move budget and a zero score.
- It charges one move per completed player turn and one per shuffle-button press.
- It adds the chain scores of every cascade step to the score.
- After each charge it decides whether the game is won, lost or goes on.
- It blocks input while a cascade resolves and after the game is over.

The grid engine (`Level`) is not part of this model. The controller only sees
its answers, so they appear here as plain inputs:

- `isPossibleSwap` is a boolean.
- Each `removeMatches` answer is a list of chain scores. The empty list means no chains were found.
- `maximumMoves` and `targetScore` form a `Config`.

The model has three modules:

- `GameState` (`game_state.dfy`) holds the state record, the sums over chain scores and the invariant.
- `Controller` (`controller.dfy`) holds the controller's transitions as pure functions. It also has an event-driven `Step`/`Run` form and an iterative `ResolveCascade` method.
- `ControllerProperties` (`properties.dfy`) holds the lemmas that link these.

The chained animation callbacks are flattened. The whole cascade becomes a
fold over the engine's answers, and the fold stops at the first empty answer.
If the answers given contain no empty one, the cascade is still under way. In
that case no move has been charged and no outcome has been decided.

The combo multiplier belongs to the engine. The controller resets it only in
`beginGame` and does not reset it at the start of each turn. The model follows
the code: `scoringSteps` counts the `removeMatches` answers with chains since the last reset request,
and only `BeginGame` sets it back to zero.

The loss test is `movesLeft == 0`, not `movesLeft <= 0`. So a level configured
with a budget of zero or fewer moves can never be lost
(`ControllerProperties.NonPositiveBudgetNeverLost`). The bounds and outcome
invariant are stated for budgets of at least one move.

## Model

| member | source | states |
|---|---|---|
| Controller.BeginGame | CookieCrunch/GameViewController.swift:90-99 | a new game has the full move budget, score 0 and a reset combo count; swipes and the shuffle button are accepted; the initial shuffle charges no move |
| Controller.ShowGameOver | CookieCrunch/GameViewController.swift:79-88 | the game-over panel records the outcome, hides the shuffle button and stops swipes, keeping moves and score |
| Controller.HideGameOver | CookieCrunch/GameViewController.swift:69-77 | a tap on the game-over panel restarts with the full budget and score 0; with no panel up a tap changes nothing |
| Controller.DecrementMoves | CookieCrunch/GameViewController.swift:101-111 | moves drop by exactly one and the score is untouched; reaching the target wins even on the last move; otherwise zero moves loses; otherwise play continues in the same phase |
| Controller.BeginNextTurn | CookieCrunch/GameViewController.swift:140-144 | ending a turn re-enables input and charges one move; won iff score reached the target, lost iff it did not and that was the last move, awaiting the next swap otherwise |
| Controller.CascadeStep | CookieCrunch/GameViewController.swift:119-144 | a step with chains raises the score by exactly the sum of its chain scores and charges nothing; a step with no chains ends the turn: score and combo count unchanged, one move charged, input re-enabled, won iff the target was reached, lost iff not and no moves remain |
| Controller.HandleMatches | CookieCrunch/GameViewController.swift:119-138 | the cascade earns the chain scores of every step before the first empty answer, and each such step adds one to the count of answers with chains since the last combo reset; with an empty answer the turn ends with one charge; without one no move is charged and the phase is kept |
| Controller.HandleSwipe | CookieCrunch/GameViewController.swift:152-163 | a blocked or illegal swipe changes nothing; a legal swap whose cascade ends costs exactly one move, earns the cascade's chain scores and decides won before lost |
| Controller.ShuffleButtonPressed | CookieCrunch/GameViewController.swift:23-26 | a press charges one move with the same outcome check; a press during a cascade or after game over has no effect |
| Controller.Step | CookieCrunch/GameViewController.swift:23-163 | each input event keeps the bounds-and-outcome invariant; after game over every event except the restart tap is ignored; no event other than the tap changes moves by more than one charge |
| Controller.ResolveCascade | CookieCrunch/GameViewController.swift:119-138 | driving the cascade answer by answer gives the same game as the fold; it requests every answer up to and including the first empty one, or all of them when none is empty |
| GameState.FirstEmpty | CookieCrunch/GameViewController.swift:120-124 | the index where the turn ends is the first step whose answer has no chains; every earlier answer has chains |
| ControllerProperties.TurnScoreNonNegative | CookieCrunch/GameViewController.swift:126-128 | with non-negative chain scores a turn's cascade never lowers the score |
| ControllerProperties.TurnScoreIsPrefixScore | CookieCrunch/GameViewController.swift:119-128 | what a turn earns equals the summed chain scores of exactly the steps before the first empty answer |
| ControllerProperties.FirstEmptyAfterScoringSteps | CookieCrunch/GameViewController.swift:120-124 | after a run of chain-finding steps, the turn ends at the first empty answer |
| ControllerProperties.LegalSwapCostsOneMove | CookieCrunch/GameViewController.swift:152-157 | a legal swap costs exactly one move however many steps cascade, adds exactly their chain scores, and ignores answers after the empty one |
| ControllerProperties.RemovalsOutsideCascade | CookieCrunch/GameViewController.swift:119-124 | `removeMatches` answers arriving when no cascade is running change nothing |
| ControllerProperties.RemovalsAgreeWithHandleMatches | CookieCrunch/GameViewController.swift:119-138 | feeding the answers one event at a time during a cascade gives the same game as the fold |
| ControllerProperties.SwipeAgreesWithEvents | CookieCrunch/GameViewController.swift:152-163 | the swipe handler with its flattened cascade equals reacting to the swipe and then to each answer in turn |
| ControllerProperties.RunKeepsInvariant | CookieCrunch/GameViewController.swift:101-111 | with a budget of at least one move, any run of events keeps moves within 0..maximumMoves, keeps a move in hand while playing, and records outcomes consistent with score and moves |
| ControllerProperties.MovesStayInBudget | CookieCrunch/GameViewController.swift:90-111 | from the start of a game the move count stays within 0..maximumMoves whatever happens |
| ControllerProperties.GameOverIsFinal | CookieCrunch/GameViewController.swift:79-88 | after game over no event except the restart tap changes anything, so no further move is charged |
| ControllerProperties.MovesNeverRefunded | CookieCrunch/GameViewController.swift:101-103 | without a restart the move count never increases |
| ControllerProperties.ScoreNeverDrops | CookieCrunch/GameViewController.swift:126-128 | without a restart and with non-negative chain scores the score never decreases |
| ControllerProperties.NonPositiveBudgetNeverLost | CookieCrunch/GameViewController.swift:107-110 | with a budget of zero or fewer moves the loss test never fires and the count stays non-positive |

## Left out

- The grid engine (`Level`) is not part of this model. This covers swap validation, match detection, scoring per chain, gravity, top-up, shuffle and possible-swap detection. Its answers are inputs.
- The cascade is not proved to terminate. That depends on the engine, so the cascade is a given finite sequence of answers.
- `detectPossibleSwaps` in `beginNextTurn` is left out. Its result is discarded by the controller and it changes no controller state.
- SpriteKit scene setup, sprites and every `animate…` call are left out. Each completion callback is flattened into the step that follows it. This includes the delay before the shuffle button appears after `beginGame`.
- AVFoundation background music is left out because it is I/O.
- UIKit labels (`updateLabels`), outlets, gesture-recogniser installation and the status-bar and rotation overrides are left out because they are presentation only.
- Swift `Int` overflow traps on `--movesLeft` and `score +=` are not modelled. Integers here are unbounded.
- ControllerProperties.ScoreNeverDrops: assumes non-negative chain scores. The controller accepts any `Int` the engine reports, and the engine's scoring rule is not part of this model.

/**
 The state the game view controller keeps about one level in play: the move
 budget still available, the running score, how many cascade answers held
 chains since the last combo reset, and which input the controller currently
 accepts.

 The grid engine (`Level`) is not part of this module: everything the
 controller learns from it arrives as plain values (a boolean for swap
 legality, a list of chain scores per cascade step).
 */
module GameState {

  /** The two level parameters the controller reads from the engine. */
  datatype Config = Config(maximumMoves: int, targetScore: int)

  /** The two ways a game ends; the panel image is chosen from it. */
  datatype Outcome = Won | Lost

  /**
   Which input the controller accepts.
   - AwaitingSwap: swipes reach the scene and the shuffle button is shown and enabled.
   - Resolving: a legal swap is being cascaded; the view ignores touches, so
     neither swipes nor the shuffle button get through.
   - GameOver: the game-over panel is shown, the shuffle button hidden and the
     scene's input disabled; only a tap (which restarts) is recognised.
   */
  datatype Phase = AwaitingSwap | Resolving | GameOver(outcome: Outcome)

  /**
   The controller's bookkeeping. `scoringSteps` counts the `removeMatches`
   answers that held chains since the controller last asked the engine to
   reset its combo multiplier.
   */
  datatype Game = Game(movesLeft: int, score: int, scoringSteps: nat, phase: Phase)

  /** A swipe on the scene is acted upon. */
  predicate AcceptsSwipe(g: Game) {
    g.phase == AwaitingSwap
  }

  /** The shuffle button is on screen (it is hidden only by the game-over panel). */
  predicate ShuffleButtonShown(g: Game) {
    !g.phase.GameOver?
  }

  /** A press of the shuffle button gets through: it is shown and the view takes touches. */
  predicate ShuffleButtonEnabled(g: Game) {
    ShuffleButtonShown(g) && g.phase != Resolving
  }

  /** Sum of the chain scores one `removeMatches` step reported. */
  function Sum(xs: seq<int>): int {
    if |xs| == 0 then 0 else xs[0] + Sum(xs[1..])
  }

  /** Sum over several cascade steps of their chain scores. */
  function CascadeScore(steps: seq<seq<int>>): int {
    if |steps| == 0 then 0 else Sum(steps[0]) + CascadeScore(steps[1..])
  }

  /**
   What one turn's cascade earns: the chain scores of every step up to the
   first step that found no chains.
   */
  function TurnScore(steps: seq<seq<int>>): int {
    if |steps| == 0 || |steps[0]| == 0 then 0 else Sum(steps[0]) + TurnScore(steps[1..])
  }

  /** Every chain score is non-negative. */
  predicate NonNegative(xs: seq<int>) {
    forall i :: 0 <= i < |xs| ==> xs[i] >= 0
  }

  /** Every step of a cascade reports only non-negative chain scores. */
  predicate NonNegativeCascade(steps: seq<seq<int>>) {
    forall i :: 0 <= i < |steps| ==> NonNegative(steps[i])
  }

  /**
   Position of the first cascade step that found no chains, the step at which
   the turn ends; `|steps|` when every given step found chains (the cascade
   has not finished yet).
   */
  function FirstEmpty(steps: seq<seq<int>>): (k: nat)
    ensures k <= |steps|
    ensures forall i :: 0 <= i < k ==> |steps[i]| > 0
    ensures k < |steps| ==> |steps[k]| == 0
  {
    if |steps| == 0 then 0
    else if |steps[0]| == 0 then 0
    else 1 + FirstEmpty(steps[1..])
  }

  /** The cascade contains the step that ends the turn. */
  predicate CascadeEnds(steps: seq<seq<int>>) {
    exists i :: 0 <= i < |steps| && |steps[i]| == 0
  }

  /**
   What stays true of a game of a level whose budget is at least one move:
   the move count never leaves 0..maximumMoves, a game still in play has a
   move left, a won game reached the target, and a lost game missed it with
   no moves left.
   */
  predicate Invariant(cfg: Config, g: Game) {
    && 0 <= g.movesLeft <= cfg.maximumMoves
    && (!g.phase.GameOver? ==> g.movesLeft >= 1)
    && (g.phase == GameOver(Won) ==> g.score >= cfg.targetScore)
    && (g.phase == GameOver(Lost) ==> g.score < cfg.targetScore && g.movesLeft == 0)
  }
}

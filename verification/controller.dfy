/**
 The game view controller's turn and outcome logic as pure transitions over
 `GameState.Game`. Animations and their completion callbacks are flattened
 into sequential steps; the grid engine's answers are parameters.
 */
module Controller {
  import opened GameState

  /**
   Starting (or restarting) a game: the full move budget, a zero score and a
   request to the engine to reset its combo multiplier. The engine's initial shuffle is a call
   into the grid engine only; it charges no move.
   */
  function BeginGame(cfg: Config): (r: Game)
    ensures r.movesLeft == cfg.maximumMoves && r.score == 0
    ensures r.scoringSteps == 0
    ensures AcceptsSwipe(r) && ShuffleButtonEnabled(r)
    ensures cfg.maximumMoves >= 1 ==> Invariant(cfg, r)
  {
    Game(cfg.maximumMoves, 0, 0, AwaitingSwap)
  }

  /** Showing the game-over panel: input is cut off and the outcome recorded. */
  function ShowGameOver(g: Game, o: Outcome): (r: Game)
    ensures r.movesLeft == g.movesLeft && r.score == g.score && r.scoringSteps == g.scoringSteps
    ensures !AcceptsSwipe(r) && !ShuffleButtonShown(r)
    ensures r.phase.outcome == o
  {
    g.(phase := GameOver(o))
  }

  /**
   Dismissing the game-over panel by a tap starts a new game. The tap
   recogniser exists only while the panel is up, so elsewhere a tap does nothing.
   */
  function HideGameOver(cfg: Config, g: Game): (r: Game)
    ensures g.phase.GameOver? ==> r.movesLeft == cfg.maximumMoves && r.score == 0 && r.scoringSteps == 0 && AcceptsSwipe(r)
    ensures !g.phase.GameOver? ==> r == g
  {
    if g.phase.GameOver? then BeginGame(cfg) else g
  }

  /**
   Charging one move, then deciding the outcome: the target score wins
   (checked first, so it wins even on the last move); otherwise running out
   of moves loses; otherwise play goes on in the same phase.
   */
  function DecrementMoves(cfg: Config, g: Game): (r: Game)
    ensures r.movesLeft == g.movesLeft - 1
    ensures r.score == g.score && r.scoringSteps == g.scoringSteps
    ensures g.score >= cfg.targetScore ==> r.phase == GameOver(Won)
    ensures g.score < cfg.targetScore && r.movesLeft == 0 ==> r.phase == GameOver(Lost)
    ensures g.score < cfg.targetScore && r.movesLeft != 0 ==> r.phase == g.phase
  {
    var charged := g.(movesLeft := g.movesLeft - 1);
    if charged.score >= cfg.targetScore then ShowGameOver(charged, Won)
    else if charged.movesLeft == 0 then ShowGameOver(charged, Lost)
    else charged
  }

  /**
   The turn ends once the engine reports no more chains: input is enabled
   again and the turn's single move is charged.
   */
  function BeginNextTurn(cfg: Config, g: Game): (r: Game)
    ensures r.movesLeft == g.movesLeft - 1 && r.score == g.score
    ensures r.phase == AwaitingSwap || r.phase.GameOver?
    ensures r.scoringSteps == g.scoringSteps
    ensures r.phase == GameOver(Won) <==> g.score >= cfg.targetScore
    ensures r.phase == GameOver(Lost) <==> g.score < cfg.targetScore && g.movesLeft == 1
    ensures r.phase == AwaitingSwap <==> g.score < cfg.targetScore && g.movesLeft != 1
  {
    DecrementMoves(cfg, g.(phase := AwaitingSwap))
  }

  /**
   One cascade step: a step that removed chains adds their scores and is
   counted as an answer with chains; a step that removed none ends the turn.
   */
  function CascadeStep(cfg: Config, g: Game, chainScores: seq<int>): (r: Game)
    ensures |chainScores| > 0 ==> r.score == g.score + Sum(chainScores) && r.movesLeft == g.movesLeft
    ensures |chainScores| > 0 ==> r.phase == g.phase && r.scoringSteps == g.scoringSteps + 1
    ensures |chainScores| == 0 ==> r.score == g.score && r.movesLeft == g.movesLeft - 1
    ensures |chainScores| == 0 ==> r.scoringSteps == g.scoringSteps
    ensures |chainScores| == 0 ==> (r.phase == GameOver(Won) <==> g.score >= cfg.targetScore)
    ensures |chainScores| == 0 ==> (r.phase == GameOver(Lost) <==> g.score < cfg.targetScore && r.movesLeft == 0)
    ensures |chainScores| == 0 ==> (r.phase == AwaitingSwap <==> g.score < cfg.targetScore && r.movesLeft != 0)
  {
    if |chainScores| == 0 then BeginNextTurn(cfg, g)
    else g.(score := g.score + Sum(chainScores), scoringSteps := g.scoringSteps + 1)
  }

  /**
   The cascade after a legal swap, as a fold over the engine's successive
   `removeMatches` answers. Steps after the first empty answer are never
   requested. If no answer is empty, the cascade is still under way: the
   phase is kept and no move has been charged yet.
   */
  function HandleMatches(cfg: Config, g: Game, cascade: seq<seq<int>>): (r: Game)
    ensures r.score == g.score + TurnScore(cascade)
    ensures FirstEmpty(cascade) == |cascade| ==> r.movesLeft == g.movesLeft && r.phase == g.phase
    ensures FirstEmpty(cascade) == |cascade| ==> r.scoringSteps == g.scoringSteps + |cascade|
    ensures FirstEmpty(cascade) < |cascade| ==>
      && r.movesLeft == g.movesLeft - 1
      && r.scoringSteps == g.scoringSteps + FirstEmpty(cascade)
      && (r.phase == GameOver(Won) <==> r.score >= cfg.targetScore)
      && (r.phase == GameOver(Lost) <==> r.score < cfg.targetScore && r.movesLeft == 0)
      && (r.phase == AwaitingSwap <==> r.score < cfg.targetScore && r.movesLeft != 0)
    decreases |cascade|
  {
    if |cascade| == 0 then g
    else if |cascade[0]| == 0 then BeginNextTurn(cfg, g)
    else
      HandleMatches(cfg, CascadeStep(cfg, g, cascade[0]), cascade[1..])
  }

  /**
   A swipe: ignored while input is blocked; an illegal swap is bounced back
   with nothing charged; a legal one is performed and its cascade resolved.
   */
  function HandleSwipe(cfg: Config, g: Game, legal: bool, cascade: seq<seq<int>>): (r: Game)
    ensures !AcceptsSwipe(g) || !legal ==> r == g
    ensures AcceptsSwipe(g) && legal && CascadeEnds(cascade) ==>
      && r.movesLeft == g.movesLeft - 1
      && r.score == g.score + TurnScore(cascade)
      && r.scoringSteps == g.scoringSteps + FirstEmpty(cascade)
      && (r.phase == GameOver(Won) <==> r.score >= cfg.targetScore)
      && (r.phase == GameOver(Lost) <==> r.score < cfg.targetScore && r.movesLeft == 0)
      && (r.phase == AwaitingSwap <==> r.score < cfg.targetScore && r.movesLeft != 0)
    ensures AcceptsSwipe(g) && legal && !CascadeEnds(cascade) ==>
      && r.movesLeft == g.movesLeft
      && r.score == g.score + TurnScore(cascade)
      && r.scoringSteps == g.scoringSteps + |cascade|
      && r.phase == Resolving
  {
    if !AcceptsSwipe(g) || !legal then g
    else HandleMatches(cfg, g.(phase := Resolving), cascade)
  }

  /**
   A press of the shuffle button: the engine reshuffles, and one move is
   charged with the usual outcome check. Presses do not get through while a
   cascade resolves or after the game is over.
   */
  function ShuffleButtonPressed(cfg: Config, g: Game): (r: Game)
    ensures ShuffleButtonEnabled(g) ==> r == DecrementMoves(cfg, g) && r.movesLeft == g.movesLeft - 1
    ensures !ShuffleButtonEnabled(g) ==> r == g
  {
    if ShuffleButtonEnabled(g) then DecrementMoves(cfg, g) else g
  }

  /**
   The inputs that reach the controller, one at a time: a swipe together
   with the engine's verdict on its legality, one `removeMatches` answer, a
   press of the shuffle button, or a tap on the game-over panel.
   */
  datatype Event =
    | Swipe(legal: bool)
    | ChainsRemoved(chainScores: seq<int>)
    | ShufflePressed
    | GameOverTapped

  /**
   The controller's reaction to one event. `removeMatches` is only asked
   while a cascade resolves, so its answers elsewhere change nothing.
   */
  function Step(cfg: Config, g: Game, e: Event): (r: Game)
    ensures cfg.maximumMoves >= 1 && Invariant(cfg, g) ==> Invariant(cfg, r)
    ensures g.phase.GameOver? && !e.GameOverTapped? ==> r == g
    ensures !e.GameOverTapped? ==> r.movesLeft == g.movesLeft || r.movesLeft == g.movesLeft - 1
    ensures e.ShufflePressed? && g.phase == AwaitingSwap ==> r.movesLeft == g.movesLeft - 1 && r.score == g.score
  {
    match e
    case Swipe(legal) =>
      if AcceptsSwipe(g) && legal then g.(phase := Resolving) else g
    case ChainsRemoved(chainScores) =>
      if g.phase == Resolving then CascadeStep(cfg, g, chainScores) else g
    case ShufflePressed => ShuffleButtonPressed(cfg, g)
    case GameOverTapped => HideGameOver(cfg, g)
  }

  /** The controller's state after a sequence of events. */
  function Run(cfg: Config, g: Game, events: seq<Event>): Game
    decreases |events|
  {
    if |events| == 0 then g else Run(cfg, Step(cfg, g, events[0]), events[1..])
  }

  /** The cascade answers as events. */
  function Removals(cascade: seq<seq<int>>): (events: seq<Event>)
    ensures |events| == |cascade|
    ensures forall i :: 0 <= i < |cascade| ==> events[i] == ChainsRemoved(cascade[i])
  {
    if |cascade| == 0 then [] else [ChainsRemoved(cascade[0])] + Removals(cascade[1..])
  }

  /**
   The cascade resolved step by step, the way the chained completion
   callbacks drive it: ask for the next answer until one is empty. Also
   reports how many answers were requested from the engine, the empty one
   that ends the turn included.
   */
  method ResolveCascade(cfg: Config, g: Game, cascade: seq<seq<int>>) returns (r: Game, requested: nat)
    ensures r == HandleMatches(cfg, g, cascade)
    ensures CascadeEnds(cascade) ==> requested == FirstEmpty(cascade) + 1
    ensures !CascadeEnds(cascade) ==> requested == |cascade|
    ensures r.scoringSteps == g.scoringSteps + FirstEmpty(cascade)
  {
    r := g;
    var scoring := 0;
    while scoring < |cascade| && |cascade[scoring]| > 0
      invariant scoring <= |cascade|
      invariant scoring <= FirstEmpty(cascade)
      invariant HandleMatches(cfg, r, cascade[scoring..]) == HandleMatches(cfg, g, cascade)
      invariant r.scoringSteps == g.scoringSteps + scoring
      invariant r.phase == g.phase && r.movesLeft == g.movesLeft
      decreases |cascade| - scoring
    {
      assert cascade[scoring..][1..] == cascade[scoring + 1..];
      r := CascadeStep(cfg, r, cascade[scoring]);
      scoring := scoring + 1;
    }
    requested := scoring;
    if scoring < |cascade| {
      r := BeginNextTurn(cfg, r);
      requested := scoring + 1;
    }
  }
}

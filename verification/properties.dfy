/**
 Properties that relate several calls of the controller: the cascade fold
 against the event-by-event reaction, invariants kept over any run of
 events, and what a completed turn costs and earns.
 */
module ControllerProperties {
  import opened GameState
  import opened Controller

  /** No event of the run is a restart tap. */
  predicate NoRestart(events: seq<Event>) {
    forall i :: 0 <= i < |events| ==> !events[i].GameOverTapped?
  }

  /** Every cascade answer in the run reports only non-negative chain scores. */
  predicate NonNegativeScores(events: seq<Event>) {
    forall i :: 0 <= i < |events| ==> events[i].ChainsRemoved? ==> NonNegative(events[i].chainScores)
  }

  lemma {:induction false} SumNonNegative(xs: seq<int>)
    requires NonNegative(xs)
    ensures Sum(xs) >= 0
    decreases |xs|
  {
    if |xs| > 0 {
      SumNonNegative(xs[1..]);
    }
  }

  /** A turn whose chain scores are non-negative never lowers the score. */
  lemma {:induction false} TurnScoreNonNegative(steps: seq<seq<int>>)
    requires NonNegativeCascade(steps)
    ensures TurnScore(steps) >= 0
    decreases |steps|
  {
    if |steps| > 0 && |steps[0]| > 0 {
      SumNonNegative(steps[0]);
      TurnScoreNonNegative(steps[1..]);
    }
  }

  /** A turn earns the cascade score of exactly the steps before the first empty answer. */
  lemma {:induction false} TurnScoreIsPrefixScore(steps: seq<seq<int>>)
    ensures TurnScore(steps) == CascadeScore(steps[..FirstEmpty(steps)])
    decreases |steps|
  {
    if |steps| > 0 && |steps[0]| > 0 {
      TurnScoreIsPrefixScore(steps[1..]);
      assert steps[..FirstEmpty(steps)][1..] == steps[1..][..FirstEmpty(steps[1..])];
    }
  }

  /** The turn ends at the empty answer that follows a run of chain-finding steps. */
  lemma {:induction false} FirstEmptyAfterScoringSteps(scoring: seq<seq<int>>, rest: seq<seq<int>>)
    requires forall i :: 0 <= i < |scoring| ==> |scoring[i]| > 0
    ensures FirstEmpty(scoring + [[]] + rest) == |scoring|
    decreases |scoring|
  {
    var all := scoring + [[]] + rest;
    if |scoring| > 0 {
      assert all[1..] == scoring[1..] + [[]] + rest;
      FirstEmptyAfterScoringSteps(scoring[1..], rest);
    }
  }

  /**
   A legal swap costs exactly one move however many cascade steps follow it,
   earns exactly the chain scores of those steps, and ignores any answer
   after the empty one (the controller never asks for it).
   */
  lemma LegalSwapCostsOneMove(cfg: Config, g: Game, scoring: seq<seq<int>>, rest: seq<seq<int>>)
    requires AcceptsSwipe(g)
    requires forall i :: 0 <= i < |scoring| ==> |scoring[i]| > 0
    ensures HandleSwipe(cfg, g, true, scoring + [[]] + rest).movesLeft == g.movesLeft - 1
    ensures HandleSwipe(cfg, g, true, scoring + [[]] + rest).score == g.score + CascadeScore(scoring)
    ensures HandleSwipe(cfg, g, true, scoring + [[]] + rest).scoringSteps == g.scoringSteps + |scoring|
  {
    var cascade := scoring + [[]] + rest;
    FirstEmptyAfterScoringSteps(scoring, rest);
    TurnScoreIsPrefixScore(cascade);
    assert cascade[|scoring|] == [];
    assert cascade[..FirstEmpty(cascade)] == scoring;
  }

  /** ChainsRemoved answers arriving outside a cascade change nothing. */
  lemma {:induction false} RemovalsOutsideCascade(cfg: Config, g: Game, cascade: seq<seq<int>>)
    requires g.phase != Resolving
    ensures Run(cfg, g, Removals(cascade)) == g
    decreases |cascade|
  {
    if |cascade| > 0 {
      assert Removals(cascade)[1..] == Removals(cascade[1..]);
      RemovalsOutsideCascade(cfg, g, cascade[1..]);
    }
  }

  /** During a cascade, feeding the answers one event at a time agrees with the fold. */
  lemma {:induction false} RemovalsAgreeWithHandleMatches(cfg: Config, g: Game, cascade: seq<seq<int>>)
    requires g.phase == Resolving
    ensures Run(cfg, g, Removals(cascade)) == HandleMatches(cfg, g, cascade)
    decreases |cascade|
  {
    if |cascade| > 0 {
      var next := Step(cfg, g, ChainsRemoved(cascade[0]));
      assert Removals(cascade)[1..] == Removals(cascade[1..]);
      if |cascade[0]| == 0 {
        RemovalsOutsideCascade(cfg, next, cascade[1..]);
      } else {
        RemovalsAgreeWithHandleMatches(cfg, next, cascade[1..]);
      }
    }
  }

  /**
   The swipe handler with its flattened cascade is the same as reacting to
   the swipe and then to each `removeMatches` answer in turn.
   */
  lemma SwipeAgreesWithEvents(cfg: Config, g: Game, legal: bool, cascade: seq<seq<int>>)
    requires g.phase != Resolving
    ensures HandleSwipe(cfg, g, legal, cascade) == Run(cfg, g, [Swipe(legal)] + Removals(cascade))
  {
    var events := [Swipe(legal)] + Removals(cascade);
    assert events[1..] == Removals(cascade);
    var next := Step(cfg, g, Swipe(legal));
    if AcceptsSwipe(g) && legal {
      RemovalsAgreeWithHandleMatches(cfg, next, cascade);
    } else {
      RemovalsOutsideCascade(cfg, next, cascade);
    }
  }

  /**
   With a budget of at least one move, every run of events keeps the
   invariant: moves stay within 0..maximumMoves, a game in play has a move
   left, and the recorded outcome matches the score and the moves.
   */
  lemma {:induction false} RunKeepsInvariant(cfg: Config, g: Game, events: seq<Event>)
    requires cfg.maximumMoves >= 1
    requires Invariant(cfg, g)
    ensures Invariant(cfg, Run(cfg, g, events))
    decreases |events|
  {
    if |events| > 0 {
      RunKeepsInvariant(cfg, Step(cfg, g, events[0]), events[1..]);
    }
  }

  /** From the start of a game, the move count never leaves 0..maximumMoves. */
  lemma MovesStayInBudget(cfg: Config, events: seq<Event>)
    requires cfg.maximumMoves >= 1
    ensures 0 <= Run(cfg, BeginGame(cfg), events).movesLeft <= cfg.maximumMoves
  {
    RunKeepsInvariant(cfg, BeginGame(cfg), events);
  }

  /** After game over nothing but the restart tap has any effect. */
  lemma {:induction false} GameOverIsFinal(cfg: Config, g: Game, events: seq<Event>)
    requires g.phase.GameOver?
    requires NoRestart(events)
    ensures Run(cfg, g, events) == g
    decreases |events|
  {
    if |events| > 0 {
      GameOverIsFinal(cfg, Step(cfg, g, events[0]), events[1..]);
    }
  }

  /** Without a restart, moves are only ever spent, never given back. */
  lemma {:induction false} MovesNeverRefunded(cfg: Config, g: Game, events: seq<Event>)
    requires NoRestart(events)
    ensures Run(cfg, g, events).movesLeft <= g.movesLeft
    decreases |events|
  {
    if |events| > 0 {
      MovesNeverRefunded(cfg, Step(cfg, g, events[0]), events[1..]);
    }
  }

  /** Without a restart and with non-negative chain scores, the score never drops. */
  lemma {:induction false} ScoreNeverDrops(cfg: Config, g: Game, events: seq<Event>)
    requires NoRestart(events)
    requires NonNegativeScores(events)
    ensures Run(cfg, g, events).score >= g.score
    decreases |events|
  {
    if |events| > 0 {
      if events[0].ChainsRemoved? {
        SumNonNegative(events[0].chainScores);
      }
      ScoreNeverDrops(cfg, Step(cfg, g, events[0]), events[1..]);
    }
  }

  /**
   The loss test asks for exactly zero moves left, so a level whose budget is
   zero or negative can never be lost: the first charge takes the count
   below zero and it only falls from there.
   */
  lemma {:induction false} NonPositiveBudgetNeverLost(cfg: Config, g: Game, events: seq<Event>)
    requires cfg.maximumMoves <= 0
    requires g.movesLeft <= 0 && g.phase != GameOver(Lost)
    ensures Run(cfg, g, events).phase != GameOver(Lost)
    ensures Run(cfg, g, events).movesLeft <= 0
    decreases |events|
  {
    if |events| > 0 {
      NonPositiveBudgetNeverLost(cfg, Step(cfg, g, events[0]), events[1..]);
    }
  }
}

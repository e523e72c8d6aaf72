/** Card points, hand scores, the scores of a round and the winner. */
module Scoring {
  import opened GameTypes
  import opened GameRules
  import opened Validation

  /** getCardPoints: a joker scores JOKER_POINTS, a card of the round's wild
      rank WILD_CARD_POINTS, any other card its CARD_POINTS entry. */
  function GetCardPoints(c: Card, round: int): nat
    requires ValidRound(round)
  {
    if c.isJoker then JokerPoints
    else if c.value == WildCardPerRound(round) then WildCardPoints
    else CardPoints(c.value)
  }

  /** What a card costs: 50 for a joker, 20 for another wildcard, its rank
      otherwise; so a well-formed card is wild exactly when it costs 20 or more. */
  lemma CardPointsMeaning(c: Card, round: int)
    requires ValidRound(round) && WellFormedCard(c)
    ensures c.isJoker ==> GetCardPoints(c, round) == 50
    ensures !c.isJoker && IsWildCard(c, round) ==> GetCardPoints(c, round) == 20
    ensures !IsWildCard(c, round) ==> GetCardPoints(c, round) == c.value && Three <= c.value <= King
    ensures IsWildCard(c, round) <==> GetCardPoints(c, round) >= WildCardPoints
  {
    CardPointsAreRanks(c.value);
  }

  /** Every card costs between 3 and 50 points. */
  lemma CardPointsBounds(c: Card, round: int)
    requires ValidRound(round)
    ensures Three <= GetCardPoints(c, round) <= JokerPoints
  {
    CardPointsAreRanks(c.value);
  }

  /** calculateHandScore: the points of the cards still in hand, summed left
      to right as `reduce` does. */
  function HandScore(hand: seq<Card>, round: int): nat
    requires ValidRound(round)
  {
    if hand == [] then 0
    else HandScore(hand[..|hand| - 1], round) + GetCardPoints(hand[|hand| - 1], round)
  }

  /** The score of two hands laid end to end is the sum of their scores. */
  lemma {:induction false} HandScoreAppend(a: seq<Card>, b: seq<Card>, round: int)
    requires ValidRound(round)
    ensures HandScore(a + b, round) == HandScore(a, round) + HandScore(b, round)
    decreases |b|
  {
    if b != [] {
      var b' := b[..|b| - 1];
      assert (a + b)[..|a + b| - 1] == a + b';
      HandScoreAppend(a, b', round);
    } else {
      assert a + b == a;
    }
  }

  /** A hand of n cards scores between 3n and 50n, so only the empty hand
      scores 0. */
  lemma {:induction false} HandScoreBounds(hand: seq<Card>, round: int)
    requires ValidRound(round)
    ensures 3 * |hand| <= HandScore(hand, round) <= 50 * |hand|
    ensures HandScore(hand, round) == 0 <==> hand == []
    decreases |hand|
  {
    if hand != [] {
      HandScoreBounds(hand[..|hand| - 1], round);
      CardPointsBounds(hand[|hand| - 1], round);
    }
  }

  /** What calculateRoundScores records for one player: 0 once finished,
      otherwise the hand score. */
  function RoundScore(p: GamePlayer, round: int): nat
    requires ValidRound(round)
  {
    if p.hasFinishedRound then 0 else HandScore(p.hand, round)
  }

  /** No later player in the list has the same id as player i. */
  predicate LastWithId(players: seq<GamePlayer>, i: int)
    requires 0 <= i < |players|
  {
    forall j :: i < j < |players| ==> players[j].id != players[i].id
  }

  /** calculateRoundScores: one entry per player id, written in list order,
      so with a repeated id the later player's entry stands. */
  method CalculateRoundScores(players: seq<GamePlayer>, round: int) returns (scores: map<PlayerId, int>)
    requires ValidRound(round)
    ensures forall id :: id in scores <==> exists i :: 0 <= i < |players| && players[i].id == id
    ensures forall i :: 0 <= i < |players| && LastWithId(players, i) ==>
      scores[players[i].id] == RoundScore(players[i], round)
  {
    scores := map[];
    for n := 0 to |players|
      invariant forall id :: id in scores <==> exists i :: 0 <= i < n && players[i].id == id
      invariant forall i :: 0 <= i < n && (forall j :: i < j < n ==> players[j].id != players[i].id) ==>
        scores[players[i].id] == RoundScore(players[i], round)
    {
      var player := players[n];
      if player.hasFinishedRound {
        scores := scores[player.id := 0];
      } else {
        scores := scores[player.id := HandScore(player.hand, round)];
      }
    }
  }

  /** A player who finished the round scores 0 in it; a player still holding
      cards scores at least 3. */
  lemma RoundScoresOfFinished(p: GamePlayer, round: int)
    requires ValidRound(round)
    ensures p.hasFinishedRound ==> RoundScore(p, round) == 0
    ensures !p.hasFinishedRound && p.hand != [] ==> RoundScore(p, round) >= 3
  {
    HandScoreBounds(p.hand, round);
  }

  /** determineWinner: the first player holding the lowest score. The source
      reads players[0] unguarded, so an empty list is excluded. */
  method DetermineWinner(players: seq<GamePlayer>) returns (winnerId: PlayerId)
    requires |players| > 0
    ensures exists w :: (0 <= w < |players| && players[w].id == winnerId &&
                         (forall k :: 0 <= k < |players| ==> players[w].score <= players[k].score) &&
                         (forall k :: 0 <= k < w ==> players[k].score > players[w].score))
  {
    var w := 0;
    winnerId := players[0].id;
    var lowestScore := players[0].score;
    for n := 0 to |players|
      invariant 0 <= w < |players| && winnerId == players[w].id && lowestScore == players[w].score
      invariant w <= n
      invariant forall k :: 0 <= k < n ==> lowestScore <= players[k].score
      invariant forall k :: 0 <= k < w ==> players[k].score > lowestScore
    {
      if players[n].score < lowestScore {
        lowestScore := players[n].score;
        winnerId := players[n].id;
        w := n;
      }
    }
  }
}

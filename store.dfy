/** The game store: one mutable game state and the turn and round
    transitions that overwrite it. */
module Store {
  import opened GameTypes
  import opened GameRules
  import opened Deck
  import opened Validation
  import opened Scoring
  import opened Ai
  import opened Solver

  // ---------------------------------------------------------------------------
  // The player list.

  /** players.findIndex((p) => p.id === id): the first seat with that id, or -1. */
  function PlayerIndex(players: seq<GamePlayer>, id: PlayerId): (i: int)
    ensures -1 <= i < |players|
    ensures i >= 0 ==> players[i].id == id
    ensures forall k :: 0 <= k < |players| && (i < 0 || k < i) ==> players[k].id != id
    decreases |players|
  {
    if players == [] then -1
    else if players[0].id == id then 0
    else
      var j := PlayerIndex(players[1..], id);
      if j < 0 then -1 else j + 1
  }

  /** Exactly one seat carries the id. */
  predicate SeatedOnce(players: seq<GamePlayer>, id: PlayerId)
  {
    var i := PlayerIndex(players, id);
    i >= 0 && forall j :: i < j < |players| ==> players[j].id != id
  }

  /** The hand of the first seat with the id, or none. */
  function HandOf(players: seq<GamePlayer>, id: PlayerId): seq<Card>
  {
    var i := PlayerIndex(players, id);
    if i < 0 then [] else players[i].hand
  }

  /** The players' ids, in seat order. */
  function Ids(players: seq<GamePlayer>): (r: seq<PlayerId>)
    ensures |r| == |players| && forall k :: 0 <= k < |players| ==> r[k] == players[k].id
  {
    seq(|players|, k requires 0 <= k < |players| => players[k].id)
  }

  /** getPlayerById: the first seat with the id, when there is one. */
  function PlayerById(players: seq<GamePlayer>, id: PlayerId): (r: Option<GamePlayer>)
    ensures r.None? <==> id !in Ids(players)
    ensures r.Some? ==> exists k :: 0 <= k < |players| && players[k] == r.value && r.value.id == id &&
                                    forall j :: 0 <= j < k ==> players[j].id != id
  {
    var i := PlayerIndex(players, id);
    if i < 0 then
      assert forall k :: 0 <= k < |players| ==> Ids(players)[k] != id;
      None
    else
      assert Ids(players)[i] == id;
      Some(players[i])
  }

  /** With no repeated player id, a present id is seated once. */
  lemma SeatedOnceOfDistinct(players: seq<GamePlayer>, id: PlayerId)
    requires Distinct(Ids(players)) && id in Ids(players)
    ensures SeatedOnce(players, id)
  {
    var i := PlayerIndex(players, id);
    var k :| 0 <= k < |players| && Ids(players)[k] == id;
    assert i >= 0;
    forall j | i < j < |players| ensures players[j].id != id {
      assert Ids(players)[i] == id && Ids(players)[j] == players[j].id;
    }
  }

  /** Every card of every hand, seat by seat. */
  function AllHands(players: seq<GamePlayer>): seq<Card>
  {
    if players == [] then [] else AllHands(players[..|players| - 1]) + players[|players| - 1].hand
  }

  /** Replacing one seat's hand trades its cards for the new ones. */
  lemma {:induction false} AllHandsUpdate(players: seq<GamePlayer>, i: nat, p: GamePlayer)
    requires i < |players|
    ensures multiset(AllHands(players[i := p])) + multiset(players[i].hand) ==
            multiset(AllHands(players)) + multiset(p.hand)
    decreases |players|
  {
    var n := |players| - 1;
    var q := players[i := p];
    var init, last := players[..n], players[n];
    assert AllHands(players) == AllHands(init) + last.hand;
    if i < n {
      var qi := init[i := p];
      assert q[..n] == qi && q[n] == last;
      assert AllHands(q) == AllHands(qi) + last.hand;
      AllHandsUpdate(init, i, p);
      assert init[i] == players[i];
      var a, b := multiset(AllHands(qi)), multiset(AllHands(init));
      var l, h, m := multiset(last.hand), multiset(players[i].hand), multiset(p.hand);
      assert a + h == b + m;
      forall x ensures (a + l + h)[x] == (b + l + m)[x] {
        assert (a + h)[x] == (b + m)[x];
      }
      assert a + l + h == b + l + m;
    } else {
      assert q[..n] == init && q[n] == p;
      assert AllHands(q) == AllHands(init) + p.hand;
    }
  }

  /** The hands dealt to the seats, seat by seat. */
  lemma {:induction false} AllHandsOfDeal(players: seq<GamePlayer>, hands: seq<seq<Card>>)
    requires |players| == |hands| && forall k :: 0 <= k < |players| ==> players[k].hand == hands[k]
    ensures AllHands(players) == Concat(hands)
    decreases |players|
  {
    if players != [] {
      var n := |players| - 1;
      AllHandsOfDeal(players[..n], hands[..n]);
    }
  }

  /** Every seat with the id gets the card appended to its hand. */
  function GiveCard(players: seq<GamePlayer>, id: PlayerId, c: Card): (r: seq<GamePlayer>)
    ensures |r| == |players| && Ids(r) == Ids(players)
  {
    seq(|players|, k requires 0 <= k < |players| =>
      if players[k].id == id then players[k].(hand := players[k].hand + [c]) else players[k])
  }

  /** hand.filter((c) => c.id !== cardId). */
  function WithoutId(hand: seq<Card>, cardId: CardId): seq<Card>
  {
    if hand == [] then []
    else (if hand[0].id == cardId then [] else [hand[0]]) + WithoutId(hand[1..], cardId)
  }

  /** hand.find((c) => c.id === cardId), as an index, or -1. */
  function CardIndex(hand: seq<Card>, cardId: CardId): (i: int)
    ensures -1 <= i < |hand| && (i >= 0 ==> hand[i].id == cardId)
    ensures i < 0 <==> forall k :: 0 <= k < |hand| ==> hand[k].id != cardId
    decreases |hand|
  {
    if hand == [] then -1
    else if hand[0].id == cardId then 0
    else
      var j := CardIndex(hand[1..], cardId);
      if j < 0 then -1 else j + 1
  }

  /** Filtering out an id carried by exactly one card removes just that card. */
  lemma {:induction false} WithoutOnlyCard(hand: seq<Card>, k: nat)
    requires k < |hand| && DistinctIds(hand)
    ensures multiset(WithoutId(hand, hand[k].id)) + multiset{hand[k]} == multiset(hand)
    decreases |hand|
  {
    var tail := hand[1..];
    assert hand == [hand[0]] + tail;
    if k == 0 {
      WithoutAbsent(tail, hand[0].id);
    } else {
      TailDistinct(hand);
      assert tail[k - 1] == hand[k] && hand[0].id != hand[k].id;
      WithoutOnlyCard(tail, k - 1);
      var w := multiset(WithoutId(tail, hand[k].id));
      assert multiset(WithoutId(hand, hand[k].id)) == multiset{hand[0]} + w;
      assert w + multiset{hand[k]} == multiset(tail);
      forall e ensures (multiset{hand[0]} + w + multiset{hand[k]})[e] == multiset(hand)[e] {
        assert (w + multiset{hand[k]})[e] == multiset(tail)[e];
      }
    }
  }

  /** The tail of a hand with distinct ids has distinct ids. */
  lemma TailDistinct(hand: seq<Card>)
    requires hand != [] && DistinctIds(hand)
    ensures DistinctIds(hand[1..])
  {
    forall a, b | 0 <= a < b < |hand| - 1 ensures hand[1..][a].id != hand[1..][b].id {
      assert hand[1..][a] == hand[a + 1] && hand[1..][b] == hand[b + 1];
    }
  }

  /** Filtering out an id no card carries changes nothing. */
  lemma {:induction false} WithoutAbsent(hand: seq<Card>, cardId: CardId)
    requires forall k :: 0 <= k < |hand| ==> hand[k].id != cardId
    ensures WithoutId(hand, cardId) == hand
    decreases |hand|
  {
    if hand != [] {
      assert hand[0].id != cardId;
      WithoutAbsent(hand[1..], cardId);
      assert hand == [hand[0]] + hand[1..];
    }
  }

  /** Every seat with the id loses every card carrying cardId. */
  function TakeCard(players: seq<GamePlayer>, id: PlayerId, cardId: CardId): (r: seq<GamePlayer>)
    ensures |r| == |players| && Ids(r) == Ids(players)
  {
    seq(|players|, k requires 0 <= k < |players| =>
      if players[k].id == id then players[k].(hand := WithoutId(players[k].hand, cardId)) else players[k])
  }

  /** Every seat with the id has finished the round and holds no card. */
  function FinishPlayer(players: seq<GamePlayer>, id: PlayerId): (r: seq<GamePlayer>)
    ensures |r| == |players| && Ids(r) == Ids(players)
  {
    seq(|players|, k requires 0 <= k < |players| =>
      if players[k].id == id then players[k].(hasFinishedRound := true, hand := []) else players[k])
  }

  /** A per-seat change that touches only the seats with `id` is, when the id
      is seated once, an update of that single seat. */
  lemma OneSeatChanged(players: seq<GamePlayer>, id: PlayerId, r: seq<GamePlayer>, p: GamePlayer)
    requires SeatedOnce(players, id) && |r| == |players|
    requires r[PlayerIndex(players, id)] == p
    requires forall k :: 0 <= k < |players| && players[k].id != id ==> r[k] == players[k]
    ensures r == players[PlayerIndex(players, id) := p]
  {
  }

  /** Drawing a card into the hand of a player seated once adds exactly that
      card to the hands. */
  lemma GiveCardCards(players: seq<GamePlayer>, id: PlayerId, c: Card)
    requires SeatedOnce(players, id)
    ensures multiset(AllHands(GiveCard(players, id, c))) == multiset(AllHands(players)) + multiset{c}
  {
    var i := PlayerIndex(players, id);
    var p := players[i].(hand := players[i].hand + [c]);
    assert GiveCard(players, id, c) == players[i := p] by {
      OneSeatChanged(players, id, GiveCard(players, id, c), p);
    }
    AllHandsUpdate(players, i, p);
    var x, y, h := multiset(AllHands(players[i := p])), multiset(AllHands(players)), multiset(players[i].hand);
    assert multiset(p.hand) == h + multiset{c};
    assert x + h == y + (h + multiset{c});
    forall e ensures x[e] == (y + multiset{c})[e] {
      assert (x + h)[e] == (y + (h + multiset{c}))[e];
    }
    assert x == y + multiset{c};
  }

  /** Discarding a card (carried once) from the hand of a player seated once
      removes exactly that card from the hands. */
  lemma TakeCardCards(players: seq<GamePlayer>, id: PlayerId, k: nat)
    requires SeatedOnce(players, id)
    requires DistinctIds(HandOf(players, id)) && k < |HandOf(players, id)|
    ensures var hand := HandOf(players, id);
      multiset(AllHands(TakeCard(players, id, hand[k].id))) + multiset{hand[k]} == multiset(AllHands(players))
  {
    var i := PlayerIndex(players, id);
    var hand := players[i].hand;
    var p := players[i].(hand := WithoutId(hand, hand[k].id));
    assert TakeCard(players, id, hand[k].id) == players[i := p] by {
      OneSeatChanged(players, id, TakeCard(players, id, hand[k].id), p);
    }
    AllHandsUpdate(players, i, p);
    WithoutOnlyCard(hand, k);
    var x, y, w := multiset(AllHands(players[i := p])), multiset(AllHands(players)), multiset(p.hand);
    assert x + (w + multiset{hand[k]}) == y + w;
    forall e ensures (x + multiset{hand[k]})[e] == y[e] {
      assert (x + (w + multiset{hand[k]}))[e] == (y + w)[e];
    }
    assert x + multiset{hand[k]} == y;
  }

  /** Finishing the round takes exactly the finisher's hand out of the hands. */
  lemma FinishPlayerCards(players: seq<GamePlayer>, id: PlayerId)
    requires SeatedOnce(players, id)
    ensures multiset(AllHands(FinishPlayer(players, id))) + multiset(HandOf(players, id)) == multiset(AllHands(players))
  {
    var i := PlayerIndex(players, id);
    var p := players[i].(hasFinishedRound := true, hand := []);
    OneSeatChanged(players, id, FinishPlayer(players, id), p);
    AllHandsUpdate(players, i, p);
  }

  /** The last seat carrying the id of seat j. */
  function LastSeat(players: seq<GamePlayer>, j: nat): (i: nat)
    requires j < |players|
    ensures j <= i < |players| && players[i].id == players[j].id && LastWithId(players, i)
  {
    LastIndexBelow(players, players[j].id, |players|)
  }

  /** The last of the first n seats carrying the id, or -1 when none does. */
  function LastIndexBelow(players: seq<GamePlayer>, id: PlayerId, n: nat): (i: int)
    requires n <= |players|
    ensures -1 <= i < n && (i >= 0 ==> players[i].id == id)
    ensures forall k :: i < k < n ==> players[k].id != id
  {
    if n == 0 then -1
    else if players[n - 1].id == id then n - 1
    else LastIndexBelow(players, id, n - 1)
  }

  /** The next seat in turn order, wrapping after the last:
      (currentPlayerIndex + 1) % players.length. */
  function NextSeat(i: int, n: nat): (j: nat)
    requires -1 <= i < n && n > 0
    ensures j < n && (j == i + 1 || (i == n - 1 && j == 0))
  {
    (i + 1) % n
  }

  /** What a host timer brings about next (setTimeout in the source). */
  datatype Host = Idle | AITurnLater(playerId: PlayerId) | NextRoundLater | StartRoundLater(round: int)

  /** The host step that follows passing the turn to seat `n`. */
  function AfterTurnPassed(players: seq<GamePlayer>, n: nat): (h: Host)
    requires n < |players|
    ensures h == Idle || h == AITurnLater(players[n].id)
    ensures h.AITurnLater? <==> players[n].isAI
  {
    if players[n].isAI then AITurnLater(players[n].id) else Idle
  }

  /** Every seat has finished the round. */
  predicate AllFinished(players: seq<GamePlayer>)
  {
    forall k :: 0 <= k < |players| ==> players[k].hasFinishedRound
  }

  /** Math.floor(Math.random() * n) for a draw r in [0, 1): an index below n. */
  function RandomIndex(r: real, n: nat): (j: nat)
    requires 0.0 <= r < 1.0 && n > 0
    ensures j < n
  {
    var x := r * (n as real);
    ScaleBelow(r, n as real);
    assert x < n as real;
    x.Floor
  }

  /** determineWinner's answer: the id of the first seat with the lowest score. */
  predicate IsWinner(players: seq<GamePlayer>, id: PlayerId)
  {
    exists w :: (0 <= w < |players| && players[w].id == id &&
                 (forall k :: 0 <= k < |players| ==> players[w].score <= players[k].score) &&
                 (forall k :: 0 <= k < w ==> players[k].score > players[w].score))
  }

  /** A lobby entry (display name, avatar and badge are not modelled). */
  datatype LobbyPlayer = LobbyPlayer(id: PlayerId, isAI: bool)

  /** A lobby entry as a seat: empty hand, no score, not finished. */
  function Seat(p: LobbyPlayer): (g: GamePlayer)
    ensures g.id == p.id && g.isAI == p.isAI && g.hand == [] && g.score == 0 && !g.hasFinishedRound
  {
    GamePlayer(p.id, p.isAI, [], 0, false)
  }

  /** startGame's lobby.map: the lobby entries as seats, in lobby order. */
  function Seats(lobby: seq<LobbyPlayer>): seq<GamePlayer>
  {
    seq(|lobby|, k requires 0 <= k < |lobby| => Seat(lobby[k]))
  }

  /** startRound's players.map: seat k receives hand k and has not finished. */
  function DealtSeats(players: seq<GamePlayer>, hands: seq<seq<Card>>): (r: seq<GamePlayer>)
    requires |hands| == |players|
    ensures |r| == |players| && Ids(r) == Ids(players)
  {
    seq(|players|, k requires 0 <= k < |players| => players[k].(hand := hands[k], hasFinishedRound := false))
  }

  /** A deal, seat by seat, keeps the cards it was dealt from: the seats'
      hands, then the discard, then the draw pile are the shuffled deck. */
  lemma DealKeepsCards(players: seq<GamePlayer>, hands: seq<seq<Card>>, pile: seq<Card>, rest: seq<Card>,
                       shuffled: seq<Card>)
    requires |hands| == |players| && Concat(hands) + pile + rest == shuffled
    ensures AllHands(DealtSeats(players, hands)) + pile + rest == shuffled
    ensures CardsOf(rest, pile, DealtSeats(players, hands)) == multiset(shuffled)
  {
    var updated := DealtSeats(players, hands);
    AllHandsOfDeal(updated, hands);
    assert multiset(shuffled) == multiset(Concat(hands)) + multiset(pile) + multiset(rest);
  }

  /** Two player lists with the same ids in the same seats find the same seat. */
  lemma PlayerIndexOfIds(a: seq<GamePlayer>, b: seq<GamePlayer>, id: PlayerId)
    requires Ids(a) == Ids(b)
    ensures PlayerIndex(a, id) == PlayerIndex(b, id)
    decreases |a|
  {
    assert |a| == |Ids(a)| == |b|;
    if a != [] {
      assert a[0].id == Ids(a)[0] == Ids(b)[0] == b[0].id;
      assert Ids(a[1..]) == Ids(a)[1..] && Ids(b[1..]) == Ids(b)[1..];
      PlayerIndexOfIds(a[1..], b[1..], id);
    }
  }

  /** The cards of a draw pile, a discard pile and the players' hands. */
  function CardsOf(deck: seq<Card>, pile: seq<Card>, players: seq<GamePlayer>): multiset<Card>
  {
    multiset(deck) + multiset(pile) + multiset(AllHands(players))
  }

  /** A card moved from the piles into the hands: the cards are the same. */
  lemma MovedToHands(deck0: seq<Card>, pile0: seq<Card>, players0: seq<GamePlayer>,
                     deck1: seq<Card>, pile1: seq<Card>, players1: seq<GamePlayer>, c: Card)
    requires multiset(deck0) + multiset(pile0) == multiset(deck1) + multiset(pile1) + multiset{c}
    requires multiset(AllHands(players1)) == multiset(AllHands(players0)) + multiset{c}
    ensures CardsOf(deck1, pile1, players1) == CardsOf(deck0, pile0, players0)
  {
    var x0, x1 := multiset(deck0) + multiset(pile0), multiset(deck1) + multiset(pile1);
    var h0, h1 := multiset(AllHands(players0)), multiset(AllHands(players1));
    forall e ensures (x1 + h1)[e] == (x0 + h0)[e] {
      assert x0[e] == (x1 + multiset{c})[e];
      assert h1[e] == (h0 + multiset{c})[e];
    }
    assert x1 + h1 == x0 + h0;
  }

  /** Drawing the top of the deck into a hand seated once keeps the cards. */
  lemma DrawFromDeckKeepsCards(deck: seq<Card>, pile: seq<Card>, players: seq<GamePlayer>, id: PlayerId)
    requires deck != [] && SeatedOnce(players, id)
    ensures CardsOf(deck[1..], pile, GiveCard(players, id, deck[0])) == CardsOf(deck, pile, players)
  {
    GiveCardCards(players, id, deck[0]);
    assert deck == [deck[0]] + deck[1..];
    MovedToHands(deck, pile, players, deck[1..], pile, GiveCard(players, id, deck[0]), deck[0]);
  }

  /** Drawing the last discard into a hand seated once keeps the cards. */
  lemma DrawFromDiscardKeepsCards(deck: seq<Card>, pile: seq<Card>, players: seq<GamePlayer>, id: PlayerId)
    requires pile != [] && SeatedOnce(players, id)
    ensures var top := pile[|pile| - 1];
      CardsOf(deck, pile[..|pile| - 1], GiveCard(players, id, top)) == CardsOf(deck, pile, players)
  {
    var top := pile[|pile| - 1];
    GiveCardCards(players, id, top);
    assert pile == pile[..|pile| - 1] + [top];
    MovedToHands(deck, pile, players, deck, pile[..|pile| - 1], GiveCard(players, id, top), top);
  }

  /** Discarding a card of a hand seated once, whose ids are distinct, keeps the cards. */
  lemma DiscardKeepsCards(deck: seq<Card>, pile: seq<Card>, players: seq<GamePlayer>, id: PlayerId, k: nat)
    requires SeatedOnce(players, id) && DistinctIds(HandOf(players, id)) && k < |HandOf(players, id)|
    ensures var c := HandOf(players, id)[k];
      CardsOf(deck, pile + [c], TakeCard(players, id, c.id)) == CardsOf(deck, pile, players)
  {
    var c := HandOf(players, id)[k];
    TakeCardCards(players, id, k);
    var h0, h1 := multiset(AllHands(players)), multiset(AllHands(TakeCard(players, id, c.id)));
    var x0, x1 := multiset(deck) + multiset(pile), multiset(deck) + multiset(pile + [c]);
    forall e ensures (x1 + h1)[e] == (x0 + h0)[e] {
      assert x1[e] == (x0 + multiset{c})[e];
      assert h0[e] == (h1 + multiset{c})[e];
    }
    assert x1 + h1 == x0 + h0;
  }

  /** Finishing the round takes the finisher's hand out of play and keeps
      every other card. */
  lemma FinishKeepsCards(deck: seq<Card>, pile: seq<Card>, players: seq<GamePlayer>, id: PlayerId)
    requires SeatedOnce(players, id)
    ensures CardsOf(deck, pile, FinishPlayer(players, id)) + multiset(HandOf(players, id)) == CardsOf(deck, pile, players)
  {
    FinishPlayerCards(players, id);
    var x := multiset(deck) + multiset(pile);
    var h0, h1, g := multiset(AllHands(players)), multiset(AllHands(FinishPlayer(players, id))), multiset(HandOf(players, id));
    forall e ensures (x + h1 + g)[e] == (x + h0)[e] {
      assert (h1 + g)[e] == h0[e];
    }
    assert x + h1 + g == x + h0;
  }

  /** Every seat's score plus what the round's score map records for its id
      (0 for an id the map lacks, as `|| 0` gives). */
  function AddRoundScores(players: seq<GamePlayer>, scores: map<PlayerId, int>): (r: seq<GamePlayer>)
    ensures |r| == |players| && Ids(r) == Ids(players)
  {
    seq(|players|, k requires 0 <= k < |players| =>
      players[k].(score := players[k].score + (if players[k].id in scores then scores[players[k].id] else 0)))
  }

  /** The seats after a round is scored: every seat gains the round score of
      the last seat carrying its id. */
  function ScoredSeats(players: seq<GamePlayer>, round: int): (r: seq<GamePlayer>)
    requires ValidRound(round)
    ensures |r| == |players| && Ids(r) == Ids(players)
  {
    seq(|players|, k requires 0 <= k < |players| =>
      players[k].(score := players[k].score + RoundScore(players[LastSeat(players, k)], round)))
  }

  /** The source's update, with the map calculateRoundScores builds, is
      ScoredSeats. */
  lemma AddRoundScoresOfRound(players: seq<GamePlayer>, scores: map<PlayerId, int>, round: int)
    requires ValidRound(round)
    requires forall i :: 0 <= i < |players| ==> players[i].id in scores
    requires forall i :: 0 <= i < |players| && LastWithId(players, i) ==>
      scores[players[i].id] == RoundScore(players[i], round)
    ensures AddRoundScores(players, scores) == ScoredSeats(players, round)
  {
    var a, b := AddRoundScores(players, scores), ScoredSeats(players, round);
    forall k | 0 <= k < |players|
      ensures a[k] == b[k]
    {
      var j := LastSeat(players, k);
      assert players[j].id == players[k].id;
      assert scores[players[k].id] == RoundScore(players[j], round);
    }
  }

  /** The seats nextRound writes: calculateRoundScores, then every seat's
      score plus the entry for its id. */
  method ScoreSeats(players: seq<GamePlayer>, round: int) returns (updated: seq<GamePlayer>)
    requires ValidRound(round)
    ensures updated == ScoredSeats(players, round)
  {
    var roundScores := CalculateRoundScores(players, round);
    assert forall i :: 0 <= i < |players| ==> players[i].id in roundScores;
    AddRoundScoresOfRound(players, roundScores, round);
    updated := AddRoundScores(players, roundScores);
  }

  /** Scoring a round never lowers a score, and leaves the score of a seat
      whose id finished the round (at its last seat) as it was. */
  lemma ScoredSeatsMonotone(players: seq<GamePlayer>, round: int, k: nat)
    requires ValidRound(round) && k < |players|
    ensures ScoredSeats(players, round)[k].score >= players[k].score
    ensures players[LastSeat(players, k)].hasFinishedRound ==> ScoredSeats(players, round)[k].score == players[k].score
    ensures ScoredSeats(players, round)[k].(score := players[k].score) == players[k]
  {
    RoundScoresOfFinished(players[LastSeat(players, k)], round);
  }

  /** With distinct ids, a seat still holding n cards gains between 3n and
      50n points, and a seat that went out gains nothing. */
  lemma ScoredSeatsOfDistinct(players: seq<GamePlayer>, round: int, k: nat)
    requires ValidRound(round) && k < |players| && Distinct(Ids(players))
    ensures var gain := ScoredSeats(players, round)[k].score - players[k].score;
      if players[k].hasFinishedRound then gain == 0
      else 3 * |players[k].hand| <= gain <= 50 * |players[k].hand|
  {
    var j := LastSeat(players, k);
    assert Ids(players)[j] == Ids(players)[k];
    HandScoreBounds(players[k].hand, round);
  }

  /** The store: the game state fields plus the turn timer, the per-turn draw
      flag and the game status. */
  class GameStore {
    var roundNumber: int
    var currentPlayerId: PlayerId
    var deck: seq<Card>
    var discardPile: seq<Card>
    var players: seq<GamePlayer>
    var wildCard: CardValue
    var timerRemaining: int
    var hasDrawnThisTurn: bool
    var gameStatus: GameStatus

    /** The fields that make up GameState. */
    function State(): GameState
      reads this
    {
      GameState(roundNumber, currentPlayerId, deck, discardPile, players, wildCard)
    }

    /** Every card in play: the draw pile, the discard pile and the hands. */
    function CardsInPlay(): multiset<Card>
      reads this
    {
      CardsOf(deck, discardPile, players)
    }

    /** What every action keeps: a round of the table with its wild rank, the
        timer within 0..DEFAULT_TIMER_DURATION, a current player who has a
        seat, and seats once the game has started. */
    ghost predicate Valid()
      reads this
    {
      && ValidRound(roundNumber)
      && wildCard == WildCardPerRound(roundNumber)
      && 0 <= timerRemaining <= DefaultTimerDuration
      && (players != [] ==> PlayerIndex(players, currentPlayerId) >= 0)
      && (gameStatus != Waiting ==> players != [])
    }

    /** getCurrentPlayer: the seat of the current id. Once a game is set up
        there always is one. */
    function CurrentPlayer(): (r: Option<GamePlayer>)
      reads this
      ensures Valid() && players != [] ==> r.Some? && r.value.id == currentPlayerId && r.value in players
    {
      PlayerById(players, currentPlayerId)
    }

    /** The initial state of the store. */
    constructor ()
      ensures Valid()
      ensures roundNumber == 1 && currentPlayerId == "" && deck == [] && discardPile == [] && players == []
      ensures wildCard == 3 && timerRemaining == DefaultTimerDuration && !hasDrawnThisTurn && gameStatus == Waiting
    {
      roundNumber := 1;
      currentPlayerId := "";
      deck := [];
      discardPile := [];
      players := [];
      wildCard := 3;
      timerRemaining := DefaultTimerDuration;
      hasDrawnThisTurn := false;
      gameStatus := Waiting;
    }

    /** startTimer: a full countdown. */
    method StartTimer()
      requires Valid()
      modifies this
      ensures Valid() && timerRemaining == DefaultTimerDuration
      ensures State() == old(State()) && hasDrawnThisTurn == old(hasDrawnThisTurn) && gameStatus == old(gameStatus)
    {
      timerRemaining := DefaultTimerDuration;
    }

    /** stopTimer: the countdown at 0. */
    method StopTimer()
      requires Valid()
      modifies this
      ensures Valid() && timerRemaining == 0
      ensures State() == old(State()) && hasDrawnThisTurn == old(hasDrawnThisTurn) && gameStatus == old(gameStatus)
    {
      timerRemaining := 0;
    }
  
    /** The fields other than the ones a draw changes are those of the old state. */
    twostate predicate SameRound()
      reads this
    {
      && roundNumber == old(roundNumber) && currentPlayerId == old(currentPlayerId)
      && wildCard == old(wildCard) && timerRemaining == old(timerRemaining) && gameStatus == old(gameStatus)
    }

    /** drawFromDeck's effect: nothing when the deck is empty or the player has
        already drawn; otherwise the top card goes to the current player. */
    twostate predicate DrewFromDeck()
      reads this
    {
      if old(deck) == [] || old(hasDrawnThisTurn) then unchanged(this)
      else
        && SameRound()
        && deck == old(deck)[1..] && discardPile == old(discardPile)
        && players == GiveCard(old(players), old(currentPlayerId), old(deck)[0])
        && hasDrawnThisTurn
        && (SeatedOnce(old(players), old(currentPlayerId)) ==> CardsInPlay() == old(CardsInPlay()))
    }

    /** drawFromDiscard's effect: nothing when the pile is empty or the player
        has already drawn; otherwise the last discard goes to the current player. */
    twostate predicate DrewFromDiscard()
      reads this
    {
      if old(discardPile) == [] || old(hasDrawnThisTurn) then unchanged(this)
      else
        && SameRound()
        && deck == old(deck) && discardPile == old(discardPile)[..|old(discardPile)| - 1]
        && players == GiveCard(old(players), old(currentPlayerId), old(discardPile)[|old(discardPile)| - 1])
        && hasDrawnThisTurn
        && (SeatedOnce(old(players), old(currentPlayerId)) ==> CardsInPlay() == old(CardsInPlay()))
    }

    /** drawFromDeck. The card is added to every seat holding the current id,
        as the source's map does; with the id seated once no card is made or lost. */
    method DrawFromDeck()
      requires Valid()
      modifies this
      ensures Valid() && DrewFromDeck()
    {
      if deck == [] || hasDrawnThisTurn {
        return;
      }
      var drawnCard := deck[0];
      var seated := SeatedOnce(players, currentPlayerId);
      var after := GiveCard(players, currentPlayerId, drawnCard);
      PlayerIndexOfIds(after, players, currentPlayerId);
      if seated {
        DrawFromDeckKeepsCards(deck, discardPile, players, currentPlayerId);
      }
      players := after;
      deck := deck[1..];
      hasDrawnThisTurn := true;
    }

    /** drawFromDiscard. As drawFromDeck, from the end of the discard pile. */
    method DrawFromDiscard()
      requires Valid()
      modifies this
      ensures Valid() && DrewFromDiscard()
    {
      if discardPile == [] || hasDrawnThisTurn {
        return;
      }
      var drawnCard := discardPile[|discardPile| - 1];
      var rest := discardPile[..|discardPile| - 1];
      var seated := SeatedOnce(players, currentPlayerId);
      var after := GiveCard(players, currentPlayerId, drawnCard);
      PlayerIndexOfIds(after, players, currentPlayerId);
      if seated {
        DrawFromDiscardKeepsCards(deck, discardPile, players, currentPlayerId);
      }
      players := after;
      discardPile := rest;
      hasDrawnThisTurn := true;
    }
  
    /** A change of seats that keeps every seat's id and touches nothing else. */
    method ReplaceSeats(updated: seq<GamePlayer>)
      requires Valid() && Ids(updated) == Ids(players)
      modifies this
      ensures Valid() && players == updated
      ensures deck == old(deck) && discardPile == old(discardPile) && currentPlayerId == old(currentPlayerId)
      ensures roundNumber == old(roundNumber) && wildCard == old(wildCard) && hasDrawnThisTurn == old(hasDrawnThisTurn)
      ensures timerRemaining == old(timerRemaining) && gameStatus == old(gameStatus)
    {
      PlayerIndexOfIds(updated, players, currentPlayerId);
      players := updated;
    }

    /** The hand-over shared by discardCard and finishRound: new piles and
        seats, the turn to the player at seat n of `seats` (the seats before
        the change, with the same ids), no draw yet and a fresh timer. */
    method PassTheTurn(pile: seq<Card>, updated: seq<GamePlayer>, seats: seq<GamePlayer>, n: nat)
      requires Valid() && n < |seats| && Ids(updated) == Ids(seats)
      modifies this
      ensures Valid()
      ensures discardPile == pile && players == updated && currentPlayerId == seats[n].id
      ensures !hasDrawnThisTurn && timerRemaining == DefaultTimerDuration
      ensures deck == old(deck) && roundNumber == old(roundNumber) && wildCard == old(wildCard) && gameStatus == old(gameStatus)
    {
      PlayerIndexOfIds(updated, seats, seats[n].id);
      discardPile := pile;
      players := updated;
      currentPlayerId := seats[n].id;
      hasDrawnThisTurn := false;
      StartTimer();
    }

    /** discardCard's effect: nothing before drawing, without a current seat
        or when the hand holds no card with the id; otherwise the first such
        card goes on the pile, every card with the id leaves the hands of the
        current id, and the turn passes to the next seat with a fresh timer. */
    twostate predicate Discarded(cardId: CardId, next: Host)
      reads this
    {
      var i := PlayerIndex(old(players), old(currentPlayerId));
      if !old(hasDrawnThisTurn) || i < 0 || CardIndex(old(players)[i].hand, cardId) < 0 then
        unchanged(this) && next == Idle
      else
        var hand := old(players)[i].hand;
        var n := NextSeat(i, |old(players)|);
        && roundNumber == old(roundNumber) && wildCard == old(wildCard) && gameStatus == old(gameStatus)
        && deck == old(deck)
        && discardPile == old(discardPile) + [hand[CardIndex(hand, cardId)]]
        && players == TakeCard(old(players), old(currentPlayerId), cardId)
        && currentPlayerId == old(players)[n].id
        && !hasDrawnThisTurn && timerRemaining == DefaultTimerDuration
        && next == AfterTurnPassed(old(players), n)
        && (SeatedOnce(old(players), old(currentPlayerId)) && DistinctIds(hand) ==> CardsInPlay() == old(CardsInPlay()))
    }

    /** discardCard. `next` is the host step the source schedules: the next
        seat's AI turn when that seat is an AI. */
    method DiscardCard(cardId: CardId) returns (next: Host)
      requires Valid()
      modifies this
      ensures Valid() && Discarded(cardId, next)
    {
      next := Idle;
      if !hasDrawnThisTurn {
        return;
      }
      var i := PlayerIndex(players, currentPlayerId);
      if i < 0 {
        return;
      }
      var hand := players[i].hand;
      var k := CardIndex(hand, cardId);
      if k < 0 {
        return;
      }
      var cardToDiscard := hand[k];
      var updated := TakeCard(players, currentPlayerId, cardId);
      var n := NextSeat(i, |players|);
      var nextId := players[n].id;
      assert SeatedOnce(players, currentPlayerId) && DistinctIds(hand) ==>
          CardsOf(deck, discardPile + [cardToDiscard], updated) == CardsInPlay() by {
        if SeatedOnce(players, currentPlayerId) && DistinctIds(hand) {
          DiscardKeepsCards(deck, discardPile, players, currentPlayerId, k);
        }
      }
      next := AfterTurnPassed(players, n);
      PassTheTurn(discardPile + [cardToDiscard], updated, players, n);
    }

    /** passTurn: after drawing, discard the card at a random position of the
        current hand (r stands for Math.random()); nothing before drawing,
        without a current seat or with an empty hand. */
    method PassTurn(r: real) returns (next: Host)
      requires Valid() && 0.0 <= r < 1.0
      modifies this
      ensures Valid()
      ensures var hand := HandOf(old(players), old(currentPlayerId));
        if !old(hasDrawnThisTurn) || PlayerIndex(old(players), old(currentPlayerId)) < 0 || hand == [] then
          unchanged(this) && next == Idle
        else
          Discarded(hand[RandomIndex(r, |hand|)].id, next) && !hasDrawnThisTurn
    {
      next := Idle;
      if !hasDrawnThisTurn {
        return;
      }
      var i := PlayerIndex(players, currentPlayerId);
      if i < 0 || players[i].hand == [] {
        return;
      }
      var hand := players[i].hand;
      var cardToDiscard := hand[RandomIndex(r, |hand|)];
      next := DiscardCard(cardToDiscard.id);
    }
  
    /** finishRound's effect: nothing without a current seat or when the
        lay-down is rejected; otherwise the seats of the current id finish
        with empty hands, and either every seat has finished and the next
        round is scheduled, or the turn passes to the next seat. */
    twostate predicate FinishedRound(combos: seq<Combination>, next: Host)
      requires ValidRound(old(roundNumber))
      reads this
    {
      var i := PlayerIndex(old(players), old(currentPlayerId));
      if i < 0 || !LayDownVerdict(combos, old(players)[i].hand, old(roundNumber)).Valid? then
        unchanged(this) && next == Idle
      else
        var updated := FinishPlayer(old(players), old(currentPlayerId));
        && players == updated
        && roundNumber == old(roundNumber) && wildCard == old(wildCard) && gameStatus == old(gameStatus)
        && deck == old(deck) && discardPile == old(discardPile)
        && (SeatedOnce(old(players), old(currentPlayerId)) ==>
              CardsInPlay() + multiset(old(players)[i].hand) == old(CardsInPlay()))
        && if AllFinished(updated) then
             && next == NextRoundLater && currentPlayerId == old(currentPlayerId)
             && hasDrawnThisTurn == old(hasDrawnThisTurn) && timerRemaining == old(timerRemaining)
           else
             var n := NextSeat(i, |old(players)|);
             && currentPlayerId == old(players)[n].id && !hasDrawnThisTurn
             && timerRemaining == DefaultTimerDuration && next == AfterTurnPassed(old(players), n)
    }

    /** finishRound. The lay-down is checked against the current player's hand
        by validateAllCombinations; `next` is the host step scheduled. */
    method FinishRound(combos: seq<Combination>) returns (next: Host)
      requires Valid()
      modifies this
      ensures Valid() && FinishedRound(combos, next)
    {
      next := Idle;
      var i := PlayerIndex(players, currentPlayerId);
      if i < 0 {
        return;
      }
      var validation := ValidateAllCombinations(combos, players[i].hand, roundNumber);
      if !validation.Valid? {
        return;
      }
      var updated := FinishPlayer(players, currentPlayerId);
      assert SeatedOnce(players, currentPlayerId) ==>
          CardsOf(deck, discardPile, updated) + multiset(players[i].hand) == CardsInPlay() by {
        if SeatedOnce(players, currentPlayerId) {
          FinishKeepsCards(deck, discardPile, players, currentPlayerId);
        }
      }
      if AllFinished(updated) {
        ReplaceSeats(updated);
        next := NextRoundLater;
      } else {
        var n := NextSeat(i, |players|);
        next := AfterTurnPassed(players, n);
        PassTheTurn(discardPile, updated, players, n);
      }
    }

    /** endGame: the game is completed, the timer stopped, and the winner is
        the first seat with the lowest score. The source reads the first
        seat unguarded, so there must be one. */
    method EndGame() returns (winnerId: PlayerId)
      requires Valid() && |players| > 0
      modifies this
      ensures Valid() && gameStatus == Completed && timerRemaining == 0
      ensures State() == old(State()) && hasDrawnThisTurn == old(hasDrawnThisTurn)
      ensures IsWinner(players, winnerId)
    {
      winnerId := DetermineWinner(players);
      gameStatus := Completed;
      StopTimer();
    }

    /** The scoring half of nextRound: every seat's score grows by the round
        score that calculateRoundScores records for its id (the last seat with
        that id decides). */
    method ScoreRound()
      requires Valid()
      modifies this
      ensures Valid() && players == ScoredSeats(old(players), roundNumber)
      ensures deck == old(deck) && discardPile == old(discardPile) && currentPlayerId == old(currentPlayerId)
      ensures roundNumber == old(roundNumber) && wildCard == old(wildCard) && hasDrawnThisTurn == old(hasDrawnThisTurn)
      ensures timerRemaining == old(timerRemaining) && gameStatus == old(gameStatus)
    {
      var updated := ScoreSeats(players, roundNumber);
      PlayerIndexOfIds(updated, players, currentPlayerId);
      players := updated;
    }

    /** nextRound: the round is scored; after the last round the game ends
        with a winner, otherwise the next round is scheduled. */
    method NextRound() returns (next: Host, winner: Option<PlayerId>)
      requires Valid() && (roundNumber == TotalRounds ==> |players| > 0)
      modifies this
      ensures Valid()
      ensures players == ScoredSeats(old(players), old(roundNumber))
      ensures deck == old(deck) && discardPile == old(discardPile) && currentPlayerId == old(currentPlayerId)
      ensures roundNumber == old(roundNumber) && wildCard == old(wildCard) && hasDrawnThisTurn == old(hasDrawnThisTurn)
      ensures old(roundNumber) == TotalRounds ==>
        gameStatus == Completed && timerRemaining == 0 && next == Idle && winner.Some? && IsWinner(players, winner.value)
      ensures old(roundNumber) != TotalRounds ==>
        gameStatus == old(gameStatus) && timerRemaining == old(timerRemaining) &&
        next == StartRoundLater(old(roundNumber) + 1) && winner == None
    {
      ScoreRound();
      if roundNumber == TotalRounds {
        var w := EndGame();
        assert IsWinner(players, w);
        next, winner := Idle, Some(w);
      } else {
        next, winner := StartRoundLater(roundNumber + 1), None;
      }
    }

    /** decrementTimer's effect, with `r` standing for the Math.random() draw
        of generateRandomAction: a running timer counts down one second.
        At 0 the current player plays the random action; nothing happens
        without a current seat, or when that player has drawn and holds no
        card (the source fails on the first card). */
    twostate predicate TimerTicked(r: real, next: Host)
      requires 0.0 <= r < 1.0
      reads this
    {
      if old(timerRemaining) > 0 then
        && timerRemaining == old(timerRemaining) - 1 && next == Idle
        && State() == old(State()) && hasDrawnThisTurn == old(hasDrawnThisTurn) && gameStatus == old(gameStatus)
      else
        var i := PlayerIndex(old(players), old(currentPlayerId));
        if i < 0 || (old(hasDrawnThisTurn) && old(players)[i].hand == []) then
          unchanged(this) && next == Idle
        else
          var a := GenerateRandomAction(old(players)[i].hand, old(discardPile), old(hasDrawnThisTurn), r);
          if a.ActDiscard? then Discarded(a.cardId, next)
          else if a == ActDrawFromDiscard then DrewFromDiscard() && next == Idle
          else DrewFromDeck() && next == Idle
    }

    /** decrementTimer. A timed-out player who has drawn always loses the
        turn; one who has not drawn draws, and the timer then stays at 0, so
        the next tick discards for them. */
    method DecrementTimer(r: real) returns (next: Host)
      requires Valid() && 0.0 <= r < 1.0
      modifies this
      ensures Valid() && TimerTicked(r, next)
      ensures old(timerRemaining) == 0 && old(hasDrawnThisTurn) && HandOf(old(players), old(currentPlayerId)) != [] ==>
        !hasDrawnThisTurn && timerRemaining == DefaultTimerDuration
      ensures old(timerRemaining) == 0 && !old(hasDrawnThisTurn) && PlayerIndex(old(players), old(currentPlayerId)) >= 0 &&
              old(deck) != [] ==>
        hasDrawnThisTurn && timerRemaining == 0
    {
      next := Idle;
      if timerRemaining > 0 {
        timerRemaining := timerRemaining - 1;
        return;
      }
      var i := PlayerIndex(players, currentPlayerId);
      if i < 0 {
        return;
      }
      var hand := players[i].hand;
      if hasDrawnThisTurn && hand == [] {
        return;
      }
      var randomAction := GenerateRandomAction(hand, discardPile, hasDrawnThisTurn, r);
      if randomAction.ActDiscard? {
        assert CardIndex(hand, randomAction.cardId) >= 0;
        next := DiscardCard(randomAction.cardId);
      } else if randomAction == ActDrawFromDiscard {
        DrawFromDiscard();
      } else {
        DrawFromDeck();
      }
    }

    /** What executeAITurn does once the AI has decided: a draw is followed
        by another AI turn for the same player; a discard or a lay-down is
        played as by any player. */
    twostate predicate AiPlayed(playerId: PlayerId, a: Action, next: Host)
      requires ValidRound(old(roundNumber))
      reads this
    {
      match a
      case ActDrawFromDeck => DrewFromDeck() && next == AITurnLater(playerId)
      case ActDrawFromDiscard => DrewFromDiscard() && next == AITurnLater(playerId)
      case ActDiscard(cardId) => Discarded(cardId, next)
      case ActFinishRound(combos) => FinishedRound(combos, next)
    }

    /** executeAITurn: the first seat with the id, when it is an AI, decides
        with aiMakeDecision on its own hand; the draw, discard and lay-down
        then act on the current player, as the source's do. Nothing happens
        for a missing or human seat, or when the AI has drawn and holds no
        card (the source fails on the first card). */
    method ExecuteAITurn(playerId: PlayerId) returns (action: Option<Action>, next: Host)
      requires Valid()
      modifies this
      ensures Valid()
      ensures var j := PlayerIndex(old(players), playerId);
        if j < 0 || !old(players)[j].isAI || (old(hasDrawnThisTurn) && old(players)[j].hand == []) then
          unchanged(this) && action == None && next == Idle
        else
          && action.Some? && AiPlayed(playerId, action.value, next)
          && (!old(hasDrawnThisTurn) ==>
                action.value == DrawChoice(old(players)[j].hand, old(discardPile), old(roundNumber)))
          && action.value == AiDecision(old(players)[j].hand, old(discardPile), old(roundNumber), old(hasDrawnThisTurn))
          && (old(hasDrawnThisTurn) ==> action.value.ActDiscard? || action.value.ActFinishRound?)
          && (old(hasDrawnThisTurn) && action.value.ActDiscard? ==>
                action.value.cardId == DiscardChoice(old(players)[j].hand, old(roundNumber)))
          && (old(hasDrawnThisTurn) && action.value.ActFinishRound? ==>
                action.value.combinations == Solve(old(players)[j].hand, old(roundNumber)))
      ensures action.Some? && action.value.ActDiscard? && playerId == old(currentPlayerId) ==>
        !hasDrawnThisTurn && timerRemaining == DefaultTimerDuration
      ensures action.Some? && action.value.ActFinishRound? && playerId == old(currentPlayerId) &&
              DistinctIds(HandOf(old(players), playerId)) ==>
        players == FinishPlayer(old(players), playerId)
    {
      action, next := None, Idle;
      var j := PlayerIndex(players, playerId);
      if j < 0 || !players[j].isAI {
        return;
      }
      var hand := players[j].hand;
      if hasDrawnThisTurn && hand == [] {
        return;
      }
      var decision := AiMakeDecision(hand, discardPile, roundNumber, hasDrawnThisTurn);
      action := Some(decision);
      match decision
      case ActDrawFromDeck =>
        DrawFromDeck();
        next := AITurnLater(playerId);
      case ActDrawFromDiscard =>
        DrawFromDiscard();
        next := AITurnLater(playerId);
      case ActDiscard(cardId) =>
        assert CardIndex(hand, cardId) >= 0;
        next := DiscardCard(cardId);
      case ActFinishRound(combos) =>
        next := FinishRound(combos);
    }

    /** The state right after `source` was dealt to `seats` for a round: the
        seats keep everything but their hands, are not finished and hold
        CARDS_PER_ROUND[round] cards each; the hands seat by seat, then the one
        discard, then the draw pile make up `source`; the first seat plays,
        has not drawn and has a full timer. */
    predicate DealtFrom(seats: seq<GamePlayer>, source: seq<Card>, round: int)
      reads this
    {
      && ValidRound(round)
      && roundNumber == round && wildCard == WildCardPerRound(round)
      && |players| == |seats| > 0
      && (forall k :: 0 <= k < |seats| ==>
            players[k] == seats[k].(hand := players[k].hand, hasFinishedRound := false) &&
            |players[k].hand| == CardsPerRound(round))
      && |discardPile| == 1
      && AllHands(players) + discardPile + deck == source
      && currentPlayerId == seats[0].id && !hasDrawnThisTurn && timerRemaining == DefaultTimerDuration
    }

    /** The writes of startRound: the round, its wild rank, the dealt seats
        and piles, the first seat to play, no draw yet and a fresh timer. */
    method InstallDeal(round: int, seats: seq<GamePlayer>, updated: seq<GamePlayer>, pile: seq<Card>, rest: seq<Card>)
      requires Valid() && ValidRound(round) && |seats| > 0 && Ids(updated) == Ids(seats)
      modifies this
      ensures Valid()
      ensures roundNumber == round && wildCard == WildCardPerRound(round)
      ensures deck == rest && discardPile == pile && players == updated && currentPlayerId == seats[0].id
      ensures !hasDrawnThisTurn && timerRemaining == DefaultTimerDuration && gameStatus == old(gameStatus)
    {
      PlayerIndexOfIds(updated, seats, seats[0].id);
      roundNumber := round;
      deck := rest;
      discardPile := pile;
      players := updated;
      wildCard := WildCardPerRound(round);
      currentPlayerId := seats[0].id;
      hasDrawnThisTurn := false;
      StartTimer();
    }

    /** startRound: the draw pile left over is shuffled (`draws` stand for
        the Math.random() calls) and dealt. dealCards throws when the pile is
        too short, and the first seat is read unguarded, so both leave the
        state as it was. The cards of the previous round's hands and discard
        pile do not come back: after the deal exactly the old draw pile is
        in play. */
    method StartRound(round: int, draws: seq<real>) returns (ok: bool)
      requires Valid() && ValidRound(round) && |draws| == |deck| && ValidDraws(draws)
      modifies this
      ensures Valid()
      ensures ok <==> |old(players)| > 0 && |old(deck)| >= CardsPerRound(round) * |old(players)| + 1
      ensures !ok ==> unchanged(this)
      ensures ok ==> DealtFrom(old(players), Shuffled(old(deck), draws), round) && gameStatus == old(gameStatus)
      ensures ok ==> CardsInPlay() == multiset(old(deck))
    {
      var shuffled := ShuffleDeck(deck, draws);
      var dealt := DealCards(shuffled, |players|, round);
      if dealt.Err? || players == [] {
        return false;
      }
      var hands, pile, rest := dealt.value.playerHands, dealt.value.discardPile, dealt.value.remainingDeck;
      var seats := players;
      var updated := DealtSeats(seats, hands);
      DealKeepsCards(seats, hands, pile, rest, shuffled);
      assert forall k :: 0 <= k < |seats| ==>
        updated[k] == seats[k].(hand := updated[k].hand, hasFinishedRound := false) &&
        |updated[k].hand| == CardsPerRound(round);
      InstallDeal(round, seats, updated, pile, rest);
      ok := true;
    }

    /** initializeGame: a fresh deck of TOTAL_CARDS is shuffled, the seats
        take their places, the game starts with the first seat, and round 1
        is started (with a second shuffle). An empty seat list fails on the
        first seat before anything is written; when round 1 cannot be dealt
        the seats, deck and status are already written. */
    method InitializeGame(seats: seq<GamePlayer>, deckDraws: seq<real>, roundDraws: seq<real>) returns (ok: bool)
      requires Valid()
      requires |deckDraws| == TotalCards && ValidDraws(deckDraws) && |roundDraws| == TotalCards && ValidDraws(roundDraws)
      modifies this
      ensures Valid()
      ensures ok <==> seats != [] && CardsPerRound(1) * |seats| + 1 <= TotalCards
      ensures seats == [] ==> unchanged(this)
      ensures seats != [] && !ok ==>
        && players == seats && deck == Shuffled(FullDeck(), deckDraws) && currentPlayerId == seats[0].id
        && gameStatus == InProgress && discardPile == old(discardPile) && roundNumber == old(roundNumber)
        && wildCard == old(wildCard) && hasDrawnThisTurn == old(hasDrawnThisTurn) && timerRemaining == old(timerRemaining)
      ensures ok ==>
        && gameStatus == InProgress
        && DealtFrom(seats, Shuffled(Shuffled(FullDeck(), deckDraws), roundDraws), 1)
        && CardsInPlay() == multiset(FullDeck())
    {
      var fullDeck := CreateDeck();
      var shuffled := ShuffleDeck(fullDeck, deckDraws);
      if seats == [] {
        return false;
      }
      PlayerIndexOfIds(seats, seats, seats[0].id);
      players := seats;
      deck := shuffled;
      gameStatus := InProgress;
      currentPlayerId := seats[0].id;
      ok := StartRound(1, roundDraws);
    }

    /** startGame: the lobby entries become seats with empty hands, no score
        and no finished round, and the game is initialised with them. The
        first lobby entry is read unguarded, so an empty lobby changes nothing. */
    method StartGame(lobby: seq<LobbyPlayer>, deckDraws: seq<real>, roundDraws: seq<real>) returns (ok: bool)
      requires Valid()
      requires |deckDraws| == TotalCards && ValidDraws(deckDraws) && |roundDraws| == TotalCards && ValidDraws(roundDraws)
      modifies this
      ensures Valid()
      ensures ok <==> lobby != [] && CardsPerRound(1) * |lobby| + 1 <= TotalCards
      ensures lobby == [] ==> unchanged(this)
      ensures lobby != [] && !ok ==>
        && players == Seats(lobby) && deck == Shuffled(FullDeck(), deckDraws) && currentPlayerId == lobby[0].id
        && gameStatus == InProgress && discardPile == old(discardPile) && roundNumber == old(roundNumber)
        && wildCard == old(wildCard) && hasDrawnThisTurn == old(hasDrawnThisTurn) && timerRemaining == old(timerRemaining)
      ensures ok ==>
        && gameStatus == InProgress && |players| == |lobby|
        && (forall k :: 0 <= k < |lobby| ==>
              players[k].id == lobby[k].id && players[k].isAI == lobby[k].isAI &&
              players[k].score == 0 && !players[k].hasFinishedRound && |players[k].hand| == CardsPerRound(1))
        && DealtFrom(Seats(lobby), Shuffled(Shuffled(FullDeck(), deckDraws), roundDraws), 1)
        && CardsInPlay() == multiset(FullDeck())
    {
      if lobby == [] {
        return false;
      }
      ok := InitializeGame(Seats(lobby), deckDraws, roundDraws);
    }
  }
}

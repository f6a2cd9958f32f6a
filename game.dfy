/** The round engine: one player's bankroll and hands against the dealer,
    with the deck they draw from. The player's console answers are
    parameters: the bet, the insurance answer, and the sequence of answers
    to the action prompt (each surrender carrying its confirmation). */
module Blackjack {
  import opened Cards
  import opened Valuation
  import opened Decks
  import opened Hands
  import opened Settlement

  datatype Move = Hit | Stand | Surrender | Double | Split

  /** One answer at the action prompt: a move word, with the answer that
      the surrender confirmation would get, or anything else. */
  datatype Input = Command(move: Move, confirm: bool) | Unrecognized

  /** The moves offered for the hand being played: hit and stand always;
      surrender on the hand's first decision or while there is one hand;
      double and split when the hand allows them and the bankroll covers
      another wager equal to the hand's. */
  function Offered(firstAction: bool, handCount: int, canDouble: bool, canSplit: bool, money: int, bet: int): (moves: set<Move>)
    ensures Hit in moves && Stand in moves
    ensures Surrender in moves <==> firstAction || handCount == 1
    ensures Double in moves <==> canDouble && money >= bet
    ensures Split in moves <==> canSplit && money >= bet
  {
    {Hit, Stand}
    + (if firstAction || handCount == 1 then {Surrender} else {})
    + (if canDouble && money >= bet then {Double} else {})
    + (if canSplit && money >= bet then {Split} else {})
  }

  /** The dealer looks at the hole card only under an Ace or a ten-valued
      upcard. */
  predicate PeeksForBlackjack(upcard: Card) {
    upcard.rank == Ace || CardValue(upcard) == 10
  }

  /** The peek rule never misses a dealer blackjack. */
  lemma PeekNeverMissesBlackjack(cards: seq<Card>)
    requires |cards| >= 1
    ensures IsBlackjack(cards) ==> PeeksForBlackjack(cards[0])
  {
    BlackjackIsAceAndTen(cards);
  }

  /** The hand kept at position i by a split: its first card, the cards
      after the second, then the card drawn for it; now marked as split. */
  function KeptAfterSplit(h: HandState, drawn: Card): HandState
    requires |h.cards| >= 2
  {
    WithCard(h.(cards := h.cards[..1] + h.cards[2..], isSplitHand := true), drawn)
  }

  /** The hand a split inserts after the original: the original's second
      card, then the card drawn for it, with the same wager. */
  function SplitOff(h: HandState, drawn: Card): HandState
    requires |h.cards| >= 2
  {
    WithCard(WithCard(EmptyHand, h.cards[1]).(bet := h.bet, isSplitHand := true), drawn)
  }

  /** Splitting a pair yields two two-card hands, each holding one of the
      pair and one new card, both marked as split, both carrying the
      original wager; the stake on the table grows by exactly one wager. */
  lemma SplitOfPair(h: HandState, d1: Card, d2: Card)
    requires |h.cards| == 2 && !h.isSurrendered && WellFormed(h)
    ensures KeptAfterSplit(h, d1).cards == [h.cards[0], d1]
    ensures SplitOff(h, d2).cards == [h.cards[1], d2]
    ensures KeptAfterSplit(h, d1).bet == SplitOff(h, d2).bet == h.bet
    ensures KeptAfterSplit(h, d1).isSplitHand && SplitOff(h, d2).isSplitHand
    ensures SplitOff(h, d2).canDouble && SplitOff(h, d2).insuranceBet == 0
    ensures WellFormed(KeptAfterSplit(h, d1)) && WellFormed(SplitOff(h, d2))
    ensures Committed(KeptAfterSplit(h, d1)) + Committed(SplitOff(h, d2)) == Committed(h) + h.bet
  {
    assert h.cards[..1] + h.cards[2..] == [h.cards[0]];
  }

  /** A hand made by a split plays on like any other: a new card that
      pairs the kept card lets it be split again, and an Ace kept with a
      ten-valued card is a blackjack paid 3:2 unless the dealer also holds
      one. */
  lemma SplitHandPlaysOn(h: HandState, drawn: Card, dealer: seq<Card>)
    requires |h.cards| == 2 && !h.isSurrendered && WellFormed(h)
    ensures drawn.rank == h.cards[0].rank ==> CanSplit(KeptAfterSplit(h, drawn).cards)
    ensures h.cards[0].rank == Ace && CardValue(drawn) == 10 ==> IsBlackjack(KeptAfterSplit(h, drawn).cards)
    ensures h.cards[0].rank == Ace && CardValue(drawn) == 10 && !IsBlackjack(dealer) ==>
      Payout(KeptAfterSplit(h, drawn), dealer) == h.bet + BlackjackWinnings(h.bet)
  {
    SplitOfPair(h, drawn, drawn);
    var kept := KeptAfterSplit(h, drawn).cards;
    if h.cards[0].rank == Ace && CardValue(drawn) == 10 {
      var ace := h.cards[0];
      assert kept == [ace, drawn] && kept[..1] == [ace] && [ace][..0] == [];
      assert AceCount([ace]) == AceCount([]) + 1 == 1;
      assert RawTotal([ace]) == RawTotal([]) + CardValue(ace) == 11;
      assert CardValue(drawn) != 11;
      assert RawTotal(kept) == 21 && AceCount(kept) == 1;
    }
  }

  /** The insurance example: bet 100 on 10,7, insurance 50 accepted, dealer
      holds A,K. The main hand loses its 100, insurance pays 2 x 50 and the
      insurance stake itself was never taken, so the round nets zero. */
  lemma InsuranceExampleNetsZero()
    ensures var dealer := [Card(Spades, Ace), Card(Spades, King)];
      var h := HandState([Card(Hearts, Pip(10)), Card(Hearts, Pip(7))], 100, false, true, 50, false);
      -TotalCommitted([h]) + TotalPayout([h], dealer) + InsuranceNet(h.insuranceBet, dealer) == 0
  {
    var dealer := [Card(Spades, Ace), Card(Spades, King)];
    var h := HandState([Card(Hearts, Pip(10)), Card(Hearts, Pip(7))], 100, false, true, 50, false);
    BlackjackIsAceAndTen(dealer);
    BlackjackIsAceAndTen(h.cards);
    NaturalsSettleLikeShortcut(h, dealer);
    assert [h][1..] == [];
  }

  /** The order of the initial deal: one card to the player, one to the
      dealer, and again. */
  function Alternate(player: seq<Card>, dealer: seq<Card>): seq<Card>
    requires |player| == |dealer|
  {
    if player == [] then []
    else Alternate(player[..|player| - 1], dealer[..|dealer| - 1]) + [player[|player| - 1], dealer[|dealer| - 1]]
  }

  /** The player's side of the table, as values: the hands, the bankroll
      and the deck. */
  datatype Table = Table(hands: seq<HandState>, money: int, deck: seq<Card>)

  /** Hand i is still in play: neither bust nor surrendered. */
  predicate Live(t: Table, i: int) {
    0 <= i < |t.hands| && !IsBust(t.hands[i].cards) && !t.hands[i].isSurrendered
  }

  /** Some hand is still in play, so the dealer has to play its turn. */
  predicate AnyLive(t: Table) {
    exists i :: 0 <= i < |t.hands| && Live(t, i)
  }

  /** The moves offered for hand i at table t. */
  function OfferedAt(t: Table, i: int, first: bool): set<Move>
    requires 0 <= i < |t.hands|
  {
    Offered(first, |t.hands|, t.hands[i].canDouble, CanSplit(t.hands[i].cards), t.money, t.hands[i].bet)
  }

  /** A confirmed surrender goes through unless the dealer shows an Ace it
      has not yet checked. */
  predicate SurrenderAllowed(upcard: Card, checked: bool, confirm: bool) {
    confirm && !(upcard.rank == Ace && !checked)
  }

  /** Hit on hand i: one card from the deck is added to it. */
  ghost predicate HitStep(t: Table, i: int, u: Table)
    requires 0 <= i < |t.hands|
  {
    |u.hands| == |t.hands| && |u.hands[i].cards| > 0 &&
    var c := u.hands[i].cards[|u.hands[i].cards| - 1];
    Dealt(t.deck, u.deck, c) && u.hands == t.hands[i := WithCard(t.hands[i], c)] && u.money == t.money
  }

  /** Double down on hand i: a second wager is taken, the bet doubles and
      one card from the deck is added. */
  ghost predicate DoubleStep(t: Table, i: int, u: Table)
    requires 0 <= i < |t.hands|
  {
    |u.hands| == |t.hands| && |u.hands[i].cards| > 0 &&
    var c := u.hands[i].cards[|u.hands[i].cards| - 1];
    Dealt(t.deck, u.deck, c) &&
    u.hands == t.hands[i := WithCard(t.hands[i].(bet := 2 * t.hands[i].bet), c)] &&
    u.money == t.money - t.hands[i].bet
  }

  /** Split hand i: a second wager is taken, the second card moves to a new
      hand right after it, and each of the two gets one card from the deck. */
  ghost predicate SplitStep(t: Table, i: int, u: Table)
    requires 0 <= i < |t.hands|
  {
    |t.hands[i].cards| >= 2 && |u.hands| == |t.hands| + 1 &&
    |u.hands[i].cards| > 0 && |u.hands[i + 1].cards| > 0 &&
    var c1, c2 := u.hands[i].cards[|u.hands[i].cards| - 1], u.hands[i + 1].cards[|u.hands[i + 1].cards| - 1];
    DealtInOrder(t.deck, u.deck, [c1, c2]) &&
    u.hands == InsertAt(t.hands[i := KeptAfterSplit(t.hands[i], c1)], i + 1, SplitOff(t.hands[i], c2)) &&
    u.money == t.money - t.hands[i].bet
  }

  /** The effect of one answer at the action prompt for hand i: a move that
      is not offered, a refused surrender, stand and an unrecognised answer
      leave the table as it was. */
  ghost predicate Step(t: Table, i: int, upcard: Card, checked: bool, first: bool, input: Input, u: Table) {
    0 <= i < |t.hands| &&
    match input
    case Command(Hit, _) => HitStep(t, i, u)
    case Command(Stand, _) => u == t
    case Command(Surrender, confirm) =>
      if Move.Surrender in OfferedAt(t, i, first) && SurrenderAllowed(upcard, checked, confirm) then
        u == t.(hands := t.hands[i := t.hands[i].(isSurrendered := true)], money := t.money + t.hands[i].bet / 2)
      else u == t
    case Command(Double, _) =>
      if Move.Double in OfferedAt(t, i, first) then DoubleStep(t, i, u) else u == t
    case Command(Split, _) =>
      if Move.Split in OfferedAt(t, i, first) then SplitStep(t, i, u) else u == t
    case Unrecognized => u == t
  }

  /** Whether an answer ends the hand's turn: stand, a hit that busts, an
      offered double, or a surrender that goes through. */
  predicate Ends(t: Table, i: int, upcard: Card, checked: bool, first: bool, input: Input, u: Table) {
    0 <= i < |t.hands| &&
    match input
    case Command(Hit, _) => i < |u.hands| && IsBust(u.hands[i].cards)
    case Command(Stand, _) => true
    case Command(Surrender, confirm) =>
      Move.Surrender in OfferedAt(t, i, first) && SurrenderAllowed(upcard, checked, confirm)
    case Command(Double, _) => Move.Double in OfferedAt(t, i, first)
    case Command(Split, _) => false
    case Unrecognized => false
  }

  /** Starting at answer `from`, each answer is applied to hand i while it
      is in play, passing through the tables of `views` in order. */
  ghost predicate Played(i: int, upcard: Card, checked: bool, actions: seq<Input>, from: int, views: seq<Table>) {
    0 <= from && from + |views| - 1 <= |actions| &&
    forall j :: 0 <= j < |views| - 1 ==> StepAt(i, upcard, checked, actions, from, views, j)
  }

  /** Answer from + j takes hand i, in play, from views[j] to views[j + 1]. */
  ghost predicate StepAt(i: int, upcard: Card, checked: bool, actions: seq<Input>, from: int, views: seq<Table>, j: int) {
    0 <= j < |views| - 1 && 0 <= from + j < |actions| &&
    Live(views[j], i) && Step(views[j], i, upcard, checked, j == 0, actions[from + j], views[j + 1])
  }

  /** None of the first n answers applied in `views` ended the turn. */
  ghost predicate Continued(i: int, upcard: Card, checked: bool, actions: seq<Input>, from: int, views: seq<Table>, n: int) {
    0 <= from && n < |views| && from + n <= |actions| &&
    forall j :: 0 <= j < n ==> GoesOn(i, upcard, checked, actions, from, views, j)
  }

  /** Answer from + j, taking views[j] to views[j + 1], does not end the turn. */
  predicate GoesOn(i: int, upcard: Card, checked: bool, actions: seq<Input>, from: int, views: seq<Table>, j: int) {
    0 <= j < |views| - 1 && 0 <= from + j < |actions| &&
    !Ends(views[j], i, upcard, checked, j == 0, actions[from + j], views[j + 1])
  }

  /** Why the turn in `views` stopped: the answers ran out, the hand left
      play, or the last answer ended the turn. */
  ghost predicate Stopped(i: int, upcard: Card, checked: bool, actions: seq<Input>, from: int, views: seq<Table>) {
    |views| >= 1 && 0 <= from &&
    (from + |views| - 1 < |actions| ==>
       !Live(views[|views| - 1], i) ||
       (|views| > 1 &&
        Ends(views[|views| - 2], i, upcard, checked, |views| == 2, actions[from + |views| - 2], views[|views| - 1])))
  }

  /** Hand i is played with the answers actions[from..to]: each answer is
      applied while the hand is in play, only the last one may end its turn,
      and the turn stops as Stopped says. */
  ghost predicate HandTurn(i: int, upcard: Card, checked: bool, actions: seq<Input>, from: int, to: int, views: seq<Table>) {
    0 <= from <= to <= |actions| && |views| == to - from + 1 &&
    Played(i, upcard, checked, actions, from, views) &&
    Continued(i, upcard, checked, actions, from, views, if to == from then 0 else to - from - 1) &&
    Stopped(i, upcard, checked, actions, from, views)
  }

  /** An answer that ends the turn stops it. */
  lemma StoppedByEnd(i: int, upcard: Card, checked: bool, actions: seq<Input>, from: int, views: seq<Table>, u: Table)
    requires |views| >= 1 && 0 <= from && from + |views| <= |actions|
    requires Ends(views[|views| - 1], i, upcard, checked, |views| == 1, actions[from + |views| - 1], u)
    ensures Stopped(i, upcard, checked, actions, from, views + [u])
  {
    var w := views + [u];
    assert w[|w| - 2] == views[|views| - 1] && w[|w| - 1] == u;
  }

  lemma PlayedSnoc(i: int, upcard: Card, checked: bool, actions: seq<Input>, from: int, views: seq<Table>, u: Table)
    requires Played(i, upcard, checked, actions, from, views) && |views| > 0 && from + |views| <= |actions|
    requires Live(views[|views| - 1], i)
    requires Step(views[|views| - 1], i, upcard, checked, |views| == 1, actions[from + |views| - 1], u)
    ensures Played(i, upcard, checked, actions, from, views + [u])
  {
    var w := views + [u];
    forall j | 0 <= j < |w| - 1
      ensures StepAt(i, upcard, checked, actions, from, w, j)
    {
      if j < |views| - 1 {
        assert StepAt(i, upcard, checked, actions, from, views, j);
        assert w[j] == views[j] && w[j + 1] == views[j + 1];
      }
    }
  }

  lemma ContinuedSnoc(i: int, upcard: Card, checked: bool, actions: seq<Input>, from: int, views: seq<Table>, u: Table, n: int)
    requires |views| > 0 && Continued(i, upcard, checked, actions, from, views, n) && n == |views| - 1
    requires from + |views| <= |actions|
    requires !Ends(views[n], i, upcard, checked, n == 0, actions[from + n], u)
    ensures Continued(i, upcard, checked, actions, from, views + [u], n + 1)
  {
    var w := views + [u];
    forall j | 0 <= j < n + 1
      ensures GoesOn(i, upcard, checked, actions, from, w, j)
    {
      if j < n {
        assert GoesOn(i, upcard, checked, actions, from, views, j);
        assert w[j] == views[j] && w[j + 1] == views[j + 1];
      }
    }
  }

  lemma ContinuedGrow(i: int, upcard: Card, checked: bool, actions: seq<Input>, from: int, views: seq<Table>, u: Table, n: int)
    requires Continued(i, upcard, checked, actions, from, views, n) && n == |views| - 1
    ensures Continued(i, upcard, checked, actions, from, views + [u], n)
  {
    var w := views + [u];
    forall j | 0 <= j < n
      ensures GoesOn(i, upcard, checked, actions, from, w, j)
    {
      assert GoesOn(i, upcard, checked, actions, from, views, j);
      assert w[j] == views[j] && w[j + 1] == views[j + 1];
    }
  }

  /** One more answer applied to hand i, in play at the last table of
      `views`, extends the record of the turn: the turn goes on when the
      answer does not end it, and is stopped when it does. */
  lemma Advance(i: int, upcard: Card, checked: bool, actions: seq<Input>, from: int, views: seq<Table>, u: Table, finished: bool)
    requires |views| > 0 && 0 <= from && from + |views| <= |actions|
    requires Played(i, upcard, checked, actions, from, views) && Continued(i, upcard, checked, actions, from, views, |views| - 1)
    requires Live(views[|views| - 1], i)
    requires Step(views[|views| - 1], i, upcard, checked, |views| == 1, actions[from + |views| - 1], u)
    requires finished == Ends(views[|views| - 1], i, upcard, checked, |views| == 1, actions[from + |views| - 1], u)
    ensures Played(i, upcard, checked, actions, from, views + [u])
    ensures finished ==> Continued(i, upcard, checked, actions, from, views + [u], |views| - 1)
    ensures finished ==> Stopped(i, upcard, checked, actions, from, views + [u])
    ensures !finished ==> Continued(i, upcard, checked, actions, from, views + [u], |views|)
  {
    PlayedSnoc(i, upcard, checked, actions, from, views, u);
    if finished {
      ContinuedGrow(i, upcard, checked, actions, from, views, u, |views| - 1);
      StoppedByEnd(i, upcard, checked, actions, from, views, u);
    } else {
      ContinuedSnoc(i, upcard, checked, actions, from, views, u, |views| - 1);
    }
  }

  /** The turn of hand k within the player's turn. */
  datatype Turn = Turn(from: int, to: int, views: seq<Table>)

  /** Hand k's turn: skipped without using an answer when the hand is a
      two-card 21 when its turn comes, played otherwise. */
  ghost predicate TurnOf(k: int, upcard: Card, checked: bool, actions: seq<Input>, turn: Turn) {
    |turn.views| >= 1 && 0 <= k < |turn.views[0].hands| &&
    if IsBlackjack(turn.views[0].hands[k].cards) then
      0 <= turn.from == turn.to <= |actions| && |turn.views| == 1
    else HandTurn(k, upcard, checked, actions, turn.from, turn.to, turn.views)
  }

  /** The turns of hands 0, 1, ... in order: the first starts at `start`
      with the first answer, each later one where the previous one ended;
      the last ends at table `end` with `used` answers consumed. */
  ghost predicate TurnsFrom(upcard: Card, checked: bool, actions: seq<Input>, start: Table, turns: seq<Turn>, end: Table, used: int)
    decreases |turns|
  {
    if turns == [] then end == start && used == 0
    else
      var n := |turns|;
      var last := turns[n - 1];
      TurnOf(n - 1, upcard, checked, actions, last) &&
      TurnsFrom(upcard, checked, actions, start, turns[..n - 1], last.views[0], last.from) &&
      end == last.views[|last.views| - 1] && used == last.to
  }

  /** A further turn that starts where the previous ones ended extends them. */
  lemma TurnsFromSnoc(upcard: Card, checked: bool, actions: seq<Input>, start: Table, turns: seq<Turn>, mid: Table, used: int, turn: Turn)
    requires TurnsFrom(upcard, checked, actions, start, turns, mid, used)
    requires TurnOf(|turns|, upcard, checked, actions, turn) && turn.views[0] == mid && turn.from == used
    ensures TurnsFrom(upcard, checked, actions, start, turns + [turn], turn.views[|turn.views| - 1], turn.to)
  {
    assert (turns + [turn])[..|turns|] == turns;
  }

  /** The dealer's turn from `start`: cards are only added, dealt in order
      from the deck, each to a hand that obliged the dealer to draw, and the
      final hand does not oblige it to draw. */
  ghost predicate DealerTurn(start: seq<Card>, deckBefore: seq<Card>, final: seq<Card>, deckAfter: seq<Card>) {
    |final| >= |start| && final[..|start|] == start &&
    DealtInOrder(deckBefore, deckAfter, final[|start|..]) &&
    !DealerMustDraw(final) &&
    forall k :: |start| <= k < |final| ==> DealerMustDraw(final[..k])
  }

  /** The insurance stake recorded at the start of a round: half the wager,
      under an Ace upcard, when positive, covered by the bankroll and
      accepted; nothing otherwise. */
  function InsuranceStake(upcard: Card, bet: int, money: int, accept: bool): int {
    if upcard.rank == Ace && bet / 2 > 0 && money >= bet / 2 && accept then bet / 2 else 0
  }

  /** Extending a hand that obliged the dealer to draw keeps every earlier
      hand since `start` one that obliged it to draw. */
  lemma DrawnToDrawingHands(start: seq<Card>, prev: seq<Card>, card: Card)
    requires |start| <= |prev| && DealerMustDraw(prev)
    requires forall k :: |start| <= k < |prev| ==> DealerMustDraw(prev[..k])
    ensures forall k :: |start| <= k < |prev| + 1 ==> DealerMustDraw((prev + [card])[..k])
  {
    forall k | |start| <= k < |prev| + 1
      ensures DealerMustDraw((prev + [card])[..k])
    {
      assert (prev + [card])[..k] == prev[..k];
    }
  }

  class BlackjackGame {
    var deck: Deck
    var playerHands: seq<Hand>
    var dealerHand: Hand
    var playerMoney: int
    var dealerCheckedBlackjack: bool
    /** The player hands as values, kept equal to the hands' fields. */
    ghost var HandStates: seq<HandState>

    /** The deck is part of one pack, every hand is well formed, the player
        hands are distinct objects apart from the dealer's, and HandStates
        mirrors them. */
    ghost predicate Valid()
      reads this, deck, dealerHand, playerHands
    {
      deck.Valid() && dealerHand.Valid() &&
      dealerHand !in playerHands &&
      |HandStates| == |playerHands| &&
      (forall i :: 0 <= i < |playerHands| ==> HandStates[i] == playerHands[i].State() && WellFormed(HandStates[i])) &&
      (forall i, j :: 0 <= i < j < |playerHands| ==> playerHands[i] != playerHands[j])
    }

    /** The bankroll plus what is staked on the player hands: a move the
        player makes only shifts money between the two. */
    ghost function Worth(): int
      reads this
    {
      playerMoney + TotalCommitted(HandStates)
    }

    /** The player's side of the table now. */
    ghost function TableNow(): Table
      reads this, deck
    {
      Table(HandStates, playerMoney, deck.cards)
    }

    constructor ()
      ensures Valid()
      ensures playerMoney == 1000 && playerHands == [] && HandStates == []
      ensures dealerHand.State() == EmptyHand && !dealerCheckedBlackjack
      ensures multiset(deck.cards) == multiset(FullDeck())
    {
      deck := new Deck();
      playerHands := [];
      dealerHand := new Hand();
      playerMoney := 1000;
      dealerCheckedBlackjack := false;
      HandStates := [];
    }

    /** Deal the deck's next card into hand i. */
    method DrawInto(i: int) returns (drawn: Card)
      requires Valid() && 0 <= i < |playerHands|
      modifies this`HandStates, deck, playerHands[i]
      ensures Valid()
      ensures Dealt(old(deck.cards), deck.cards, drawn)
      ensures HandStates == old(HandStates)[i := WithCard(old(HandStates[i]), drawn)]
    {
      var hand := playerHands[i];
      drawn := deck.DealCard();
      hand.AddCard(drawn);
      HandStates := HandStates[i := hand.State()];
    }

    /** Deal one card into hand i; report whether the hand is now bust. */
    method Hit(i: int) returns (bust: bool, drawn: Card)
      requires Valid() && 0 <= i < |playerHands|
      modifies this`HandStates, deck, playerHands[i]
      ensures Valid()
      ensures Dealt(old(deck.cards), deck.cards, drawn)
      ensures HandStates == old(HandStates)[i := WithCard(old(HandStates[i]), drawn)]
      ensures bust == IsBust(HandStates[i].cards)
      ensures HitStep(old(TableNow()), i, TableNow())
      ensures Worth() == old(Worth()) && HandStates[0].insuranceBet == old(HandStates[0].insuranceBet)
    {
      drawn := DrawInto(i);
      TotalCommittedUpdate(old(HandStates), i, HandStates[i]);
      var value := playerHands[i].GetValue();
      bust := value > 21;
    }

    /** The hand work of doubling down: twice the wager, then one card. */
    method DoubleHand(i: int) returns (drawn: Card)
      requires Valid() && 0 <= i < |playerHands|
      modifies this`HandStates, deck, playerHands[i]
      ensures Valid()
      ensures Dealt(old(deck.cards), deck.cards, drawn)
      ensures HandStates == old(HandStates)[i := WithCard(old(HandStates[i]).(bet := 2 * old(HandStates[i].bet)), drawn)]
    {
      var hand := playerHands[i];
      hand.bet := hand.bet * 2;
      drawn := deck.DealCard();
      hand.AddCard(drawn);
      HandStates := HandStates[i := hand.State()];
    }

    /** Double the wager on hand i and deal it exactly one card, or refuse
        with nothing changed when the bankroll cannot cover the extra wager. */
    method DoubleDown(i: int) returns (ok: bool, drawn: Card)
      requires Valid() && 0 <= i < |playerHands|
      modifies this`HandStates, this`playerMoney, deck, playerHands[i]
      ensures Valid()
      ensures ok == (old(playerMoney) >= old(HandStates[i].bet))
      ensures !ok ==> playerMoney == old(playerMoney) && HandStates == old(HandStates) && deck.cards == old(deck.cards)
      ensures ok ==> playerMoney == old(playerMoney) - old(HandStates[i].bet)
      ensures ok ==> Dealt(old(deck.cards), deck.cards, drawn)
      ensures ok ==> HandStates == old(HandStates)[i := WithCard(old(HandStates[i]).(bet := 2 * old(HandStates[i].bet)), drawn)]
      ensures ok ==> DoubleStep(old(TableNow()), i, TableNow())
      ensures !old(HandStates[i].isSurrendered) ==> Worth() == old(Worth())
      ensures HandStates[0].insuranceBet == old(HandStates[0].insuranceBet)
      ensures old(playerMoney) >= 0 ==> playerMoney >= 0
    {
      var hand := playerHands[i];
      var additionalBet := hand.bet;
      if playerMoney < additionalBet {
        ok := false;
        drawn := Card(Hearts, Ace);
        return;
      }
      playerMoney := playerMoney - additionalBet;
      drawn := DoubleHand(i);
      TotalCommittedUpdate(old(HandStates), i, HandStates[i]);
      ok := true;
    }

    /** The card work of a split: the second card of `original` moves into
        a new hand with the same wager, both hands are marked as split, and
        each gets one card from the deck, the original first. */
    method SplitCards(original: Hand) returns (newHand: Hand, first: Card, second: Card)
      requires deck.Valid() && original.Valid() && |original.cards| >= 2
      modifies original, deck
      ensures deck.Valid() && original.Valid() && newHand.Valid() && fresh(newHand)
      ensures original.State() == KeptAfterSplit(old(original.State()), first)
      ensures newHand.State() == SplitOff(old(original.State()), second)
      ensures DealtInOrder(old(deck.cards), deck.cards, [first, second])
    {
      newHand := new Hand();
      var secondCard := original.cards[1];
      original.cards := original.cards[..1] + original.cards[2..];
      newHand.AddCard(secondCard);
      newHand.bet := original.bet;
      newHand.isSplitHand := true;
      original.isSplitHand := true;
      ghost var mid0 := deck.cards;
      first := deck.DealCard();
      ghost var mid := deck.cards;
      original.AddCard(first);
      second := deck.DealCard();
      newHand.AddCard(second);
      DealtTwice(mid0, mid, deck.cards, first, second);
    }

    /** Put `newHand` into the list right after hand i, whose own mirror
        entry is refreshed at the same time. */
    method InsertHand(i: int, newHand: Hand)
      requires 0 <= i < |playerHands| == |HandStates|
      requires deck.Valid() && dealerHand.Valid() && dealerHand !in playerHands
      requires forall j :: 0 <= j < |playerHands| && j != i ==> HandStates[j] == playerHands[j].State() && WellFormed(HandStates[j])
      requires forall j, k :: 0 <= j < k < |playerHands| ==> playerHands[j] != playerHands[k]
      requires playerHands[i].Valid() && newHand.Valid() && newHand != dealerHand && newHand !in playerHands
      modifies this`playerHands, this`HandStates
      ensures Valid()
      ensures playerHands == InsertAt(old(playerHands), i + 1, newHand)
      ensures HandStates == InsertAt(old(HandStates)[i := playerHands[i].State()], i + 1, newHand.State())
    {
      playerHands := InsertAt(playerHands, i + 1, newHand);
      HandStates := InsertAt(HandStates[i := playerHands[i].State()], i + 1, newHand.State());
    }

    /** The hand work of a split, after the second wager is paid. */
    method SplitHand(i: int) returns (first: Card, second: Card)
      requires Valid() && 0 <= i < |playerHands| && |HandStates[i].cards| >= 2
      modifies this`HandStates, this`playerHands, deck, playerHands[i]
      ensures Valid()
      ensures |playerHands| == old(|playerHands|) + 1 && fresh(playerHands[i + 1])
      ensures playerHands == InsertAt(old(playerHands), i + 1, playerHands[i + 1])
      ensures DealtInOrder(old(deck.cards), deck.cards, [first, second])
      ensures HandStates == InsertAt(old(HandStates)[i := KeptAfterSplit(old(HandStates[i]), first)], i + 1, SplitOff(old(HandStates[i]), second))
    {
      var newHand;
      newHand, first, second := SplitCards(playerHands[i]);
      InsertHand(i, newHand);
    }

    /** Split hand i: charge a second wager, move its second card into a new
        hand inserted right after it, and deal one card to each (the
        original first). Refused with nothing changed when the bankroll
        cannot cover the second wager. */
    method Split(i: int) returns (ok: bool, first: Card, second: Card)
      requires Valid() && 0 <= i < |playerHands| && |HandStates[i].cards| >= 2
      modifies this`HandStates, this`playerMoney, this`playerHands, deck, playerHands[i]
      ensures Valid()
      ensures ok == (old(playerMoney) >= old(HandStates[i].bet))
      ensures !ok ==> playerMoney == old(playerMoney) && HandStates == old(HandStates) && playerHands == old(playerHands)
      ensures !ok ==> deck.cards == old(deck.cards)
      ensures ok ==> playerMoney == old(playerMoney) - old(HandStates[i].bet)
      ensures ok ==> |playerHands| == old(|playerHands|) + 1 && fresh(playerHands[i + 1])
      ensures ok ==> playerHands == InsertAt(old(playerHands), i + 1, playerHands[i + 1])
      ensures ok ==> DealtInOrder(old(deck.cards), deck.cards, [first, second])
      ensures ok ==> HandStates == InsertAt(old(HandStates)[i := KeptAfterSplit(old(HandStates[i]), first)], i + 1, SplitOff(old(HandStates[i]), second))
      ensures ok ==> SplitStep(old(TableNow()), i, TableNow())
      ensures forall j :: 0 <= j < |playerHands| ==> playerHands[j] in old(playerHands) || fresh(playerHands[j])
      ensures !old(HandStates[i].isSurrendered) ==> Worth() == old(Worth())
      ensures HandStates[0].insuranceBet == old(HandStates[0].insuranceBet)
      ensures old(playerMoney) >= 0 ==> playerMoney >= 0
    {
      var original := playerHands[i];
      var additionalBet := original.bet;
      if playerMoney < additionalBet {
        ok, first, second := false, Card(Hearts, Ace), Card(Hearts, Ace);
        return;
      }
      playerMoney := playerMoney - additionalBet;
      first, second := SplitHand(i);
      TotalCommittedSplit(old(HandStates), i, HandStates[i], HandStates[i + 1]);
      ok := true;
    }

    /** Surrender hand i: refused while the dealer shows an Ace it has not
        yet checked; otherwise, when confirmed, half the wager (rounded down)
        goes back to the bankroll and the hand is marked surrendered. */
    method Surrender(i: int, confirm: bool) returns (ok: bool)
      requires Valid() && 0 <= i < |playerHands| && |dealerHand.cards| >= 1
      modifies this`HandStates, this`playerMoney, playerHands[i]
      ensures Valid()
      ensures ok == (confirm && !(dealerHand.cards[0].rank == Ace && !dealerCheckedBlackjack))
      ensures !ok ==> playerMoney == old(playerMoney) && HandStates == old(HandStates)
      ensures ok ==> playerMoney == old(playerMoney) + old(HandStates[i].bet) / 2
      ensures ok ==> HandStates == old(HandStates)[i := old(HandStates[i]).(isSurrendered := true)]
      ensures TableNow() == if ok then old(TableNow()).(hands := old(HandStates)[i := old(HandStates[i]).(isSurrendered := true)],
                                                       money := old(playerMoney) + old(HandStates[i].bet) / 2)
                            else old(TableNow())
      ensures !old(HandStates[i].isSurrendered) ==> Worth() == old(Worth())
      ensures HandStates[0].insuranceBet == old(HandStates[0].insuranceBet)
      ensures playerMoney >= old(playerMoney)
    {
      var hand := playerHands[i];
      var upcard := dealerHand.cards[0];
      if upcard.rank == Ace && !dealerCheckedBlackjack {
        return false;
      }
      if confirm {
        var surrenderReturn := hand.bet / 2;
        playerMoney := playerMoney + surrenderReturn;
        SurrenderHand(i);
        TotalCommittedUpdate(old(HandStates), i, HandStates[i]);
        return true;
      }
      return false;
    }

    /** Mark hand i as surrendered. */
    method SurrenderHand(i: int)
      requires Valid() && 0 <= i < |playerHands|
      modifies this`HandStates, playerHands[i]
      ensures Valid()
      ensures HandStates == old(HandStates)[i := old(HandStates[i]).(isSurrendered := true)]
    {
      var hand := playerHands[i];
      hand.isSurrendered := true;
      HandStates := HandStates[i := hand.State()];
    }

    /** The dealer's loop condition, evaluated with the hand's own value and
        soft-17 computations. */
    method DealerShouldDraw() returns (draw: bool)
      ensures draw == DealerMustDraw(dealerHand.cards)
    {
      var value := dealerHand.GetValue();
      if value < 17 {
        draw := true;
      } else if value == 17 {
        draw := dealerHand.IsSoft17();
      } else {
        draw := false;
      }
    }

    /** The dealer draws while below 17 or on a soft 17. It stops on the
        first hand that does not oblige it to draw, and every card it drew
        was drawn to a hand that did. */
    method DealerPlayTurn()
      requires Valid()
      modifies deck, dealerHand
      ensures Valid()
      ensures |dealerHand.cards| >= |old(dealerHand.cards)|
      ensures dealerHand.cards[..|old(dealerHand.cards)|] == old(dealerHand.cards)
      ensures DealtInOrder(old(deck.cards), deck.cards, dealerHand.cards[|old(dealerHand.cards)|..])
      ensures !DealerMustDraw(dealerHand.cards)
      ensures forall k :: |old(dealerHand.cards)| <= k < |dealerHand.cards| ==> DealerMustDraw(dealerHand.cards[..k])
    {
      ghost var start := dealerHand.cards;
      ghost var drawn: seq<Card> := [];
      var draw := DealerShouldDraw();
      while draw
        invariant deck.Valid() && dealerHand.Valid()
        invariant draw == DealerMustDraw(dealerHand.cards)
        invariant dealerHand.cards == start + drawn
        invariant DealtInOrder(old(deck.cards), deck.cards, drawn)
        invariant forall k :: |start| <= k < |dealerHand.cards| ==> DealerMustDraw(dealerHand.cards[..k])
        decreases 17 - HardTotal(dealerHand.cards)
      {
        ghost var prev := dealerHand.cards;
        ghost var deckBefore := deck.cards;
        var card := deck.DealCard();
        DealerLoopVariant(prev, card);
        dealerHand.AddCard(card);
        DealtInOrderSnoc(old(deck.cards), deckBefore, deck.cards, drawn, card);
        drawn := drawn + [card];
        DrawnToDrawingHands(start, prev, card);
        draw := DealerShouldDraw();
      }
      assert dealerHand.cards[..|start|] == start && dealerHand.cards[|start|..] == drawn;
    }

    /** The dealer peeks at its hole card only under an Ace or a ten-valued
        upcard, and records that it has done so; the answer is exactly
        whether the dealer holds blackjack. */
    method CheckBlackjack() returns (dealerBlackjack: bool)
      requires Valid() && |dealerHand.cards| >= 1
      modifies this`dealerCheckedBlackjack
      ensures Valid()
      ensures dealerCheckedBlackjack == (old(dealerCheckedBlackjack) || PeeksForBlackjack(dealerHand.cards[0]))
      ensures dealerBlackjack == IsBlackjack(dealerHand.cards)
    {
      var upcard := dealerHand.cards[0];
      if upcard.rank == Ace || CardValue(upcard) == 10 {
        dealerCheckedBlackjack := true;
        var value := dealerHand.GetValue();
        dealerBlackjack := |dealerHand.cards| == 2 && value == 21;
      } else {
        PeekNeverMissesBlackjack(dealerHand.cards);
        dealerBlackjack := false;
      }
    }

    /** Start a round: one empty player hand and an empty dealer hand, then
        two rounds of dealing, player first. */
    method DealInitialCards()
      requires Valid()
      modifies this, deck
      ensures Valid()
      ensures playerMoney == old(playerMoney) && deck == old(deck)
      ensures |playerHands| == 1 && fresh(playerHands[0]) && fresh(dealerHand)
      ensures !dealerCheckedBlackjack
      ensures |HandStates[0].cards| == 2 && HandStates[0] == EmptyHand.(cards := HandStates[0].cards)
      ensures |dealerHand.cards| == 2 && dealerHand.State() == EmptyHand.(cards := dealerHand.cards)
      ensures DealtInOrder(old(deck.cards), deck.cards, Alternate(HandStates[0].cards, dealerHand.cards))
    {
      var first := new Hand();
      playerHands := [first];
      dealerHand := new Hand();
      dealerCheckedBlackjack := false;
      ghost var dealt: seq<Card> := [];
      var round := 0;
      while round < 2
        invariant 0 <= round <= 2
        invariant playerHands == [first] && fresh(first) && fresh(dealerHand) && first != dealerHand
        invariant playerMoney == old(playerMoney) && deck == old(deck) && !dealerCheckedBlackjack
        invariant deck.Valid()
        invariant |first.cards| == round && first.State() == EmptyHand.(cards := first.cards)
        invariant |dealerHand.cards| == round && dealerHand.State() == EmptyHand.(cards := dealerHand.cards)
        invariant DealtInOrder(old(deck.cards), deck.cards, dealt)
        invariant dealt == Alternate(first.cards, dealerHand.cards)
      {
        ghost var d0, p0, q0 := deck.cards, first.cards, dealerHand.cards;
        var c := deck.DealCard();
        first.AddCard(c);
        ghost var d1 := deck.cards;
        var d := deck.DealCard();
        dealerHand.AddCard(d);
        DealtInOrderTwoMore(old(deck.cards), d0, d1, deck.cards, dealt, c, d);
        assert first.cards[..round] == p0 && dealerHand.cards[..round] == q0;
        dealt := dealt + [c, d];
        round := round + 1;
      }
      HandStates := [first.State()];
    }

    /** Offered under an Ace upcard when half the first hand's wager is
        positive and the bankroll covers it; when accepted, half the wager
        is recorded as the insurance bet (nothing is taken from the bankroll
        yet). */
    method OfferInsurance(accept: bool) returns (insured: bool)
      requires Valid() && |playerHands| >= 1 && |dealerHand.cards| >= 1
      modifies this`HandStates, playerHands[0]
      ensures Valid()
      ensures insured == (dealerHand.cards[0].rank == Ace && old(HandStates[0].bet) / 2 > 0 &&
                          playerMoney >= old(HandStates[0].bet) / 2 && accept)
      ensures HandStates == if insured then old(HandStates)[0 := old(HandStates[0]).(insuranceBet := old(HandStates[0].bet) / 2)]
                       else old(HandStates)
    {
      insured := false;
      if dealerHand.cards[0].rank == Ace {
        var insuranceAmount := playerHands[0].bet / 2;
        if insuranceAmount > 0 && playerMoney >= insuranceAmount && accept {
          playerHands[0].insuranceBet := insuranceAmount;
          HandStates := HandStates[0 := playerHands[0].State()];
          insured := true;
        }
      }
    }

    /** Settle the insurance bet on the first hand, if one was placed. */
    method HandleInsurancePayout()
      requires Valid() && |playerHands| >= 1
      modifies this`playerMoney
      ensures Valid()
      ensures playerMoney == old(playerMoney) + InsuranceNet(HandStates[0].insuranceBet, dealerHand.cards)
    {
      if playerHands[0].insuranceBet > 0 {
        var value := dealerHand.GetValue();
        if |dealerHand.cards| == 2 && value == 21 {
          playerMoney := playerMoney + playerHands[0].insuranceBet * 2;
        } else {
          playerMoney := playerMoney - playerHands[0].insuranceBet;
        }
      }
    }

    /** The credit for one hand, from its own value and the dealer's value,
        blackjack and bust already computed. */
    method HandCredit(hand: Hand, dealerValue: int, dealerBlackjack: bool, dealerBust: bool) returns (credit: int)
      requires hand.Valid()
      requires dealerValue == Value(dealerHand.cards)
      requires dealerBlackjack == IsBlackjack(dealerHand.cards) && dealerBust == IsBust(dealerHand.cards)
      ensures credit == Payout(hand.State(), dealerHand.cards)
    {
      var value := hand.GetValue();
      if hand.isSurrendered {
        credit := 0;
      } else if value > 21 {
        credit := 0;
      } else if |hand.cards| == 2 && value == 21 && !dealerBlackjack {
        credit := hand.bet + BlackjackWinnings(hand.bet);
      } else if dealerBust {
        credit := hand.bet * 2;
      } else if value > dealerValue {
        credit := hand.bet * 2;
      } else if value < dealerValue {
        credit := 0;
      } else {
        credit := hand.bet;
      }
    }

    /** Credit every player hand, in order, with its payout against the
        dealer's final cards. */
    method DetermineWinner()
      requires Valid()
      modifies this`playerMoney
      ensures Valid()
      ensures playerMoney == old(playerMoney) + TotalPayout(HandStates, dealerHand.cards)
    {
      var dealerValue := dealerHand.GetValue();
      var dealerBlackjack := |dealerHand.cards| == 2 && dealerValue == 21;
      var dealerBust := dealerValue > 21;
      var i := 0;
      while i < |playerHands|
        invariant 0 <= i <= |playerHands|
        invariant playerMoney == old(playerMoney) + TotalPayout(HandStates[..i], dealerHand.cards)
      {
        var credit := HandCredit(playerHands[i], dealerValue, dealerBlackjack, dealerBust);
        playerMoney := playerMoney + credit;
        assert HandStates[..i + 1] == HandStates[..i] + [HandStates[i]];
        assert [HandStates[i]][1..] == [];
        TotalPayoutAppend(HandStates[..i], [HandStates[i]], dealerHand.cards);
        i := i + 1;
      }
      assert HandStates[..i] == HandStates;
    }

    /** One answer at the action prompt for hand i, applied as Step
        describes; `finished` says whether it ends the hand's turn. Every
        move keeps the money on the table plus the bankroll constant. */
    method ApplyAction(i: int, input: Input, firstAction: bool) returns (finished: bool)
      requires Valid() && 0 <= i < |playerHands| && |dealerHand.cards| >= 1
      requires !HandStates[i].isSurrendered
      modifies this`HandStates, this`playerMoney, this`playerHands, deck, playerHands[i]
      ensures Valid()
      ensures Step(old(TableNow()), i, dealerHand.cards[0], dealerCheckedBlackjack, firstAction, input, TableNow())
      ensures finished == Ends(old(TableNow()), i, dealerHand.cards[0], dealerCheckedBlackjack, firstAction, input, TableNow())
      ensures i < |playerHands| && playerHands[i] == old(playerHands[i])
      ensures old(|playerHands|) <= |playerHands| <= old(|playerHands|) + 1
      ensures forall j :: 0 <= j < |playerHands| ==> playerHands[j] in old(playerHands) || fresh(playerHands[j])
      ensures HandStates[0].insuranceBet == old(HandStates[0].insuranceBet)
      ensures Worth() == old(Worth())
      ensures old(playerMoney) >= 0 ==> playerMoney >= 0
    {
      match input
      case Command(Hit, _) =>
        finished := AnswerHit(i, input, firstAction);
      case Command(Stand, _) =>
        finished := true;
      case Command(Surrender, _) =>
        finished := AnswerSurrender(i, input, firstAction);
      case Command(Double, _) =>
        finished := AnswerDouble(i, input, firstAction);
      case Command(Split, _) =>
        finished := AnswerSplit(i, input, firstAction);
      case Unrecognized =>
        finished := false;
    }

    /** The answer hit: always offered; the turn ends on a bust. */
    method AnswerHit(i: int, input: Input, firstAction: bool) returns (finished: bool)
      requires input.Command? && input.move == Move.Hit
      requires Valid() && 0 <= i < |playerHands| && |dealerHand.cards| >= 1
      requires !HandStates[i].isSurrendered
      modifies this`HandStates, this`playerMoney, this`playerHands, deck, playerHands[i]
      ensures Valid()
      ensures Step(old(TableNow()), i, dealerHand.cards[0], dealerCheckedBlackjack, firstAction, input, TableNow())
      ensures finished == Ends(old(TableNow()), i, dealerHand.cards[0], dealerCheckedBlackjack, firstAction, input, TableNow())
      ensures i < |playerHands| && playerHands[i] == old(playerHands[i])
      ensures old(|playerHands|) <= |playerHands| <= old(|playerHands|) + 1
      ensures forall j :: 0 <= j < |playerHands| ==> playerHands[j] in old(playerHands) || fresh(playerHands[j])
      ensures HandStates[0].insuranceBet == old(HandStates[0].insuranceBet)
      ensures Worth() == old(Worth())
      ensures old(playerMoney) >= 0 ==> playerMoney >= 0
    {
      var drawn;
      finished, drawn := Hit(i);
    }

    /** The answer surrender: applied only when offered; the turn ends when it goes through. */
    method AnswerSurrender(i: int, input: Input, firstAction: bool) returns (finished: bool)
      requires input.Command? && input.move == Move.Surrender
      requires Valid() && 0 <= i < |playerHands| && |dealerHand.cards| >= 1
      requires !HandStates[i].isSurrendered
      modifies this`HandStates, this`playerMoney, this`playerHands, deck, playerHands[i]
      ensures Valid()
      ensures Step(old(TableNow()), i, dealerHand.cards[0], dealerCheckedBlackjack, firstAction, input, TableNow())
      ensures finished == Ends(old(TableNow()), i, dealerHand.cards[0], dealerCheckedBlackjack, firstAction, input, TableNow())
      ensures i < |playerHands| && playerHands[i] == old(playerHands[i])
      ensures old(|playerHands|) <= |playerHands| <= old(|playerHands|) + 1
      ensures forall j :: 0 <= j < |playerHands| ==> playerHands[j] in old(playerHands) || fresh(playerHands[j])
      ensures HandStates[0].insuranceBet == old(HandStates[0].insuranceBet)
      ensures Worth() == old(Worth())
      ensures old(playerMoney) >= 0 ==> playerMoney >= 0
    {
      var hand := playerHands[i];
      var offered := Offered(firstAction, |playerHands|, hand.canDouble, CanSplit(hand.cards), playerMoney, hand.bet);
      finished := false;
      if Move.Surrender in offered {
        finished := Surrender(i, input.confirm);
      }
    }

    /** The answer double: applied only when offered, and then it ends the turn. */
    method AnswerDouble(i: int, input: Input, firstAction: bool) returns (finished: bool)
      requires input.Command? && input.move == Move.Double
      requires Valid() && 0 <= i < |playerHands| && |dealerHand.cards| >= 1
      requires !HandStates[i].isSurrendered
      modifies this`HandStates, this`playerMoney, this`playerHands, deck, playerHands[i]
      ensures Valid()
      ensures Step(old(TableNow()), i, dealerHand.cards[0], dealerCheckedBlackjack, firstAction, input, TableNow())
      ensures finished == Ends(old(TableNow()), i, dealerHand.cards[0], dealerCheckedBlackjack, firstAction, input, TableNow())
      ensures i < |playerHands| && playerHands[i] == old(playerHands[i])
      ensures old(|playerHands|) <= |playerHands| <= old(|playerHands|) + 1
      ensures forall j :: 0 <= j < |playerHands| ==> playerHands[j] in old(playerHands) || fresh(playerHands[j])
      ensures HandStates[0].insuranceBet == old(HandStates[0].insuranceBet)
      ensures Worth() == old(Worth())
      ensures old(playerMoney) >= 0 ==> playerMoney >= 0
    {
      var hand := playerHands[i];
      var offered := Offered(firstAction, |playerHands|, hand.canDouble, CanSplit(hand.cards), playerMoney, hand.bet);
      finished := false;
      if Move.Double in offered {
        var drawn;
        finished, drawn := DoubleDown(i);
      }
    }

    /** The answer split: applied only when offered; play goes on with the same hand. */
    method AnswerSplit(i: int, input: Input, firstAction: bool) returns (finished: bool)
      requires input.Command? && input.move == Move.Split
      requires Valid() && 0 <= i < |playerHands| && |dealerHand.cards| >= 1
      requires !HandStates[i].isSurrendered
      modifies this`HandStates, this`playerMoney, this`playerHands, deck, playerHands[i]
      ensures Valid()
      ensures Step(old(TableNow()), i, dealerHand.cards[0], dealerCheckedBlackjack, firstAction, input, TableNow())
      ensures finished == Ends(old(TableNow()), i, dealerHand.cards[0], dealerCheckedBlackjack, firstAction, input, TableNow())
      ensures i < |playerHands| && playerHands[i] == old(playerHands[i])
      ensures old(|playerHands|) <= |playerHands| <= old(|playerHands|) + 1
      ensures forall j :: 0 <= j < |playerHands| ==> playerHands[j] in old(playerHands) || fresh(playerHands[j])
      ensures HandStates[0].insuranceBet == old(HandStates[0].insuranceBet)
      ensures Worth() == old(Worth())
      ensures old(playerMoney) >= 0 ==> playerMoney >= 0
    {
      var hand := playerHands[i];
      var offered := Offered(firstAction, |playerHands|, hand.canDouble, CanSplit(hand.cards), playerMoney, hand.bet);
      finished := false;
      if Move.Split in offered {
        var ok, first, second := Split(i);
      }
    }

    /** Whether hand i is still in play: not bust and not surrendered. */
    method HandLive(i: int) returns (live: bool)
      requires Valid() && 0 <= i < |playerHands|
      ensures live == Live(TableNow(), i)
    {
      var value := playerHands[i].GetValue();
      live := value <= 21 && !playerHands[i].isSurrendered;
    }

    /** One answer of hand i's turn: apply actions[next] and extend the
        record of the turn so far. */
    method TakeAnswer(i: int, actions: seq<Input>, pos: int, next: int, ghost views: seq<Table>, firstAction: bool)
      returns (finished: bool, live: bool, ghost views': seq<Table>)
      requires Valid() && 0 <= i < |playerHands| && |dealerHand.cards| >= 1 && 0 <= pos <= next < |actions|
      requires Live(TableNow(), i) && firstAction == (next == pos)
      requires |views| == next - pos + 1 && views[next - pos] == TableNow()
      requires Played(i, dealerHand.cards[0], dealerCheckedBlackjack, actions, pos, views)
      requires Continued(i, dealerHand.cards[0], dealerCheckedBlackjack, actions, pos, views, next - pos)
      modifies this`HandStates, this`playerMoney, this`playerHands, deck, playerHands[i]
      ensures Valid() && dealerHand.cards == old(dealerHand.cards) && dealerCheckedBlackjack == old(dealerCheckedBlackjack)
      ensures views' == views + [TableNow()] && live == Live(TableNow(), i)
      ensures Played(i, dealerHand.cards[0], dealerCheckedBlackjack, actions, pos, views')
      ensures finished ==> Continued(i, dealerHand.cards[0], dealerCheckedBlackjack, actions, pos, views', next - pos)
      ensures finished ==> Stopped(i, dealerHand.cards[0], dealerCheckedBlackjack, actions, pos, views')
      ensures !finished ==> Continued(i, dealerHand.cards[0], dealerCheckedBlackjack, actions, pos, views', next - pos + 1)
      ensures i < |playerHands| && playerHands[i] == old(playerHands[i])
      ensures old(|playerHands|) <= |playerHands| <= old(|playerHands|) + 1
      ensures forall j :: 0 <= j < |playerHands| ==> playerHands[j] in old(playerHands) || fresh(playerHands[j])
      ensures HandStates[0].insuranceBet == old(HandStates[0].insuranceBet)
      ensures Worth() == old(Worth())
      ensures old(playerMoney) >= 0 ==> playerMoney >= 0
    {
      ghost var upcard, checked := dealerHand.cards[0], dealerCheckedBlackjack;
      finished := ApplyAction(i, actions[next], firstAction);
      ghost var u := TableNow();
      Advance(i, upcard, checked, actions, pos, views, u, finished);
      views' := views + [u];
      live := HandLive(i);
    }

    /** Play hand i from answer `pos` on, until the hand is bust, surrendered
        or finished by a move, or the answers run out; returns the position
        of the first unused answer and, as `views`, the table after each
        answer used. */
    method PlayHand(i: int, actions: seq<Input>, pos: nat) returns (next: nat, ghost views: seq<Table>)
      requires Valid() && 0 <= i < |playerHands| && |dealerHand.cards| >= 1 && pos <= |actions|
      modifies this`HandStates, this`playerMoney, this`playerHands, deck, playerHands[i]
      ensures Valid() && dealerHand.cards == old(dealerHand.cards)
      ensures HandTurn(i, dealerHand.cards[0], dealerCheckedBlackjack, actions, pos, next, views)
      ensures views[0] == old(TableNow()) && views[|views| - 1] == TableNow()
      ensures i < |playerHands| && playerHands[i] == old(playerHands[i])
      ensures old(|playerHands|) <= |playerHands| <= old(|playerHands|) + (next - pos)
      ensures forall j :: 0 <= j < |playerHands| ==> playerHands[j] in old(playerHands) || fresh(playerHands[j])
      ensures HandStates[0].insuranceBet == old(HandStates[0].insuranceBet)
      ensures Worth() == old(Worth())
      ensures old(playerMoney) >= 0 ==> playerMoney >= 0
    {
      var hand := playerHands[i];
      var firstAction := true;
      var live := HandLive(i);
      next := pos;
      views := [TableNow()];
      ghost var upcard, checked := dealerHand.cards[0], dealerCheckedBlackjack;
      while live
        invariant Valid()
        invariant pos <= next <= |actions|
        invariant i < |playerHands| && playerHands[i] == hand
        invariant live == Live(TableNow(), i) && firstAction == (next == pos)
        invariant |dealerHand.cards| >= 1 && upcard == dealerHand.cards[0] && checked == dealerCheckedBlackjack
        invariant |views| == next - pos + 1 && views[0] == old(TableNow()) && views[next - pos] == TableNow()
        invariant Played(i, upcard, checked, actions, pos, views)
        invariant Continued(i, upcard, checked, actions, pos, views, next - pos)
        invariant old(|playerHands|) <= |playerHands| <= old(|playerHands|) + (next - pos)
        invariant forall j :: 0 <= j < |playerHands| ==> playerHands[j] in old(playerHands) || fresh(playerHands[j])
        invariant HandStates[0].insuranceBet == old(HandStates[0].insuranceBet)
        invariant Worth() == old(Worth())
        invariant old(playerMoney) >= 0 ==> playerMoney >= 0
        decreases |actions| - next
      {
        if next == |actions| {
          break;
        }
        var finished;
        finished, live, views := TakeAnswer(i, actions, pos, next, views, firstAction);
        next := next + 1;
        if finished {
          break;
        }
        firstAction := false;
      }
    }

    /** Whether hand k is a two-card 21. */
    method HandIsBlackjack(k: int) returns (natural: bool)
      requires Valid() && 0 <= k < |playerHands|
      ensures natural == IsBlackjack(HandStates[k].cards)
    {
      var value := playerHands[k].GetValue();
      natural := |playerHands[k].cards| == 2 && value == 21;
    }

    /** Hand k's turn within the player's turn, starting with answer
        actions[pos]. */
    method TakeTurn(k: int, actions: seq<Input>, pos: nat) returns (next: nat, ghost turn: Turn)
      requires Valid() && 0 <= k < |playerHands| && |dealerHand.cards| >= 1 && pos <= |actions|
      modifies this`HandStates, this`playerMoney, this`playerHands, deck, playerHands[k]
      ensures Valid() && dealerHand.cards == old(dealerHand.cards) && dealerCheckedBlackjack == old(dealerCheckedBlackjack)
      ensures pos <= next <= |actions|
      ensures TurnOf(k, dealerHand.cards[0], dealerCheckedBlackjack, actions, turn)
      ensures turn.from == pos && turn.to == next
      ensures turn.views[0] == old(TableNow()) && turn.views[|turn.views| - 1] == TableNow()
      ensures old(|playerHands|) <= |playerHands| <= old(|playerHands|) + (next - pos)
      ensures forall j :: 0 <= j < |playerHands| ==> playerHands[j] in old(playerHands) || fresh(playerHands[j])
      ensures HandStates[0].insuranceBet == old(HandStates[0].insuranceBet)
      ensures Worth() == old(Worth())
      ensures old(playerMoney) >= 0 ==> playerMoney >= 0
    {
      var natural := HandIsBlackjack(k);
      if natural {
        turn := Turn(pos, pos, [TableNow()]);
        next := pos;
        assert TurnOf(k, dealerHand.cards[0], dealerCheckedBlackjack, actions, turn);
      } else {
        ghost var views;
        next, views := PlayHand(k, actions, pos);
        turn := Turn(pos, next, views);
        assert TurnOf(k, dealerHand.cards[0], dealerCheckedBlackjack, actions, turn);
      }
    }

    /** The player's turn: the hands in order, including hands created by
        splits along the way; a hand holding blackjack when its turn comes
        is not played. `turns` records each hand's turn and `used` the
        number of answers consumed. */
    method PlayerTurn(actions: seq<Input>) returns (ghost turns: seq<Turn>, ghost used: int)
      requires Valid() && |playerHands| >= 1 && |dealerHand.cards| >= 1
      modifies this`HandStates, this`playerMoney, this`playerHands, deck, playerHands
      ensures Valid()
      ensures |turns| == |HandStates|
      ensures TurnsFrom(dealerHand.cards[0], dealerCheckedBlackjack, actions, old(TableNow()), turns, TableNow(), used)
      ensures |playerHands| >= old(|playerHands|)
      ensures HandStates[0].insuranceBet == old(HandStates[0].insuranceBet)
      ensures Worth() == old(Worth())
      ensures old(playerMoney) >= 0 ==> playerMoney >= 0
    {
      var handIndex := 0;
      var pos := 0;
      turns := [];
      ghost var upcard, checked := dealerHand.cards[0], dealerCheckedBlackjack;
      while handIndex < |playerHands|
        invariant Valid()
        invariant 0 <= handIndex <= |playerHands| && pos <= |actions|
        invariant |dealerHand.cards| >= 1 && upcard == dealerHand.cards[0] && checked == dealerCheckedBlackjack
        invariant |turns| == handIndex
        invariant TurnsFrom(upcard, checked, actions, old(TableNow()), turns, TableNow(), pos)
        invariant |playerHands| >= old(|playerHands|)
        invariant forall j :: 0 <= j < |playerHands| ==> playerHands[j] in old(playerHands) || fresh(playerHands[j])
        invariant HandStates[0].insuranceBet == old(HandStates[0].insuranceBet)
        invariant Worth() == old(Worth())
        invariant old(playerMoney) >= 0 ==> playerMoney >= 0
        decreases |actions| - pos, |playerHands| - handIndex
      {
        ghost var start := TableNow();
        var next;
        ghost var turn;
        next, turn := TakeTurn(handIndex, actions, pos);
        TurnsFromSnoc(upcard, checked, actions, old(TableNow()), turns, start, pos, turn);
        turns := turns + [turn];
        pos := next;
        handIndex := handIndex + 1;
      }
      used := pos;
    }

    /** The opening of a round: take the bet, deal the initial cards and
        put the bet on the player's hand. */
    method OpenRound(bet: int)
      requires Valid() && 0 < bet <= playerMoney
      modifies this, deck
      ensures Valid() && deck == old(deck)
      ensures |playerHands| == 1 && |dealerHand.cards| == 2 && !dealerCheckedBlackjack
      ensures fresh(playerHands[0]) && fresh(dealerHand)
      ensures |HandStates[0].cards| == 2 && HandStates == [EmptyHand.(cards := HandStates[0].cards, bet := bet)]
      ensures DealtInOrder(old(deck.cards), deck.cards, Alternate(HandStates[0].cards, dealerHand.cards))
      ensures playerMoney == old(playerMoney) - bet && Worth() == old(playerMoney)
    {
      playerMoney := playerMoney - bet;
      DealInitialCards();
      playerHands[0].bet := bet;
      HandStates := [playerHands[0].State()];
      assert HandStates[1..] == [];
      assert TotalCommitted(HandStates) == Committed(HandStates[0]) == bet;
    }

    /** Insurance and the peek: offer insurance, let the dealer check for
        blackjack, then settle the insurance bet if one was placed. */
    method InsuranceAndPeek(accept: bool) returns (dealerBlackjack: bool)
      requires Valid() && |playerHands| == 1 && |dealerHand.cards| >= 1 && playerMoney >= 0
      requires HandStates[0].insuranceBet == 0
      modifies this`HandStates, this`playerMoney, this`dealerCheckedBlackjack, playerHands[0]
      ensures Valid()
      ensures dealerBlackjack == IsBlackjack(dealerHand.cards)
      ensures |HandStates| == 1 && HandStates[0] == old(HandStates[0]).(insuranceBet := HandStates[0].insuranceBet)
      ensures HandStates[0].insuranceBet == InsuranceStake(dealerHand.cards[0], old(HandStates[0].bet), old(playerMoney), accept)
      ensures dealerCheckedBlackjack == (old(dealerCheckedBlackjack) || PeeksForBlackjack(dealerHand.cards[0]))
      ensures playerMoney == old(playerMoney) + InsuranceNet(HandStates[0].insuranceBet, dealerHand.cards)
      ensures Worth() == old(Worth()) + InsuranceNet(HandStates[0].insuranceBet, dealerHand.cards)
      ensures playerMoney >= 0
    {
      var insured := OfferInsurance(accept);
      dealerBlackjack := CheckBlackjack();
      if insured {
        HandleInsurancePayout();
      }
    }

    /** Whether some player hand is still in play: neither bust nor
        surrendered. */
    method SomeHandInPlay() returns (inPlay: bool)
      requires Valid()
      ensures inPlay == AnyLive(TableNow())
    {
      inPlay := !(forall j | 0 <= j < |playerHands| :: IsBust(playerHands[j].cards) || playerHands[j].isSurrendered);
      forall j | 0 <= j < |playerHands|
        ensures Live(TableNow(), j) == !(IsBust(playerHands[j].cards) || playerHands[j].isSurrendered)
      {
        assert HandStates[j] == playerHands[j].State();
      }
    }

    /** The rest of a round in which nobody holds a natural: the player's
        turn (recorded in `turns`, which use `used` answers and leave the
        table as `afterPlayer`), then the dealer's unless every player hand
        is bust or surrendered, then settlement. */
    method PlayOut(actions: seq<Input>) returns (ghost turns: seq<Turn>, ghost used: int, ghost afterPlayer: Table)
      requires Valid() && |playerHands| >= 1 && |dealerHand.cards| >= 1
      modifies this`HandStates, this`playerMoney, this`playerHands, deck, playerHands, dealerHand
      ensures Valid() && |HandStates| >= 1
      ensures |turns| == |afterPlayer.hands|
      ensures TurnsFrom(old(dealerHand.cards[0]), dealerCheckedBlackjack, actions, old(TableNow()), turns, afterPlayer, used)
      ensures HandStates == afterPlayer.hands
      ensures AnyLive(afterPlayer) ==> DealerTurn(old(dealerHand.cards), afterPlayer.deck, dealerHand.cards, deck.cards)
      ensures !AnyLive(afterPlayer) ==> dealerHand.cards == old(dealerHand.cards) && deck.cards == afterPlayer.deck
      ensures playerMoney == afterPlayer.money + TotalPayout(HandStates, dealerHand.cards)
      ensures playerMoney == old(Worth()) - TotalCommitted(HandStates) + TotalPayout(HandStates, dealerHand.cards)
      ensures HandStates[0].insuranceBet == old(HandStates[0].insuranceBet)
      ensures old(playerMoney) >= 0 ==> playerMoney >= 0
      ensures |dealerHand.cards| >= old(|dealerHand.cards|)
      ensures dealerHand.cards[..old(|dealerHand.cards|)] == old(dealerHand.cards)
    {
      turns, used := PlayerTurn(actions);
      afterPlayer := TableNow();
      var inPlay := SomeHandInPlay();
      if inPlay {
        DealerPlayTurn();
      }
      DetermineWinner();
    }

    /** The round after the peek: a natural on either side settles the
        single hand at once, otherwise the rest is played out. */
    method FinishRound(bet: int, dealerBlackjack: bool, actions: seq<Input>)
      returns (ghost turns: seq<Turn>, ghost used: int, ghost afterPlayer: Table)
      requires Valid() && |playerHands| == 1 && |dealerHand.cards| == 2 && dealerBlackjack == IsBlackjack(dealerHand.cards)
      requires |HandStates[0].cards| == 2 && HandStates[0].bet == bet >= 0 && !HandStates[0].isSurrendered
      modifies this`HandStates, this`playerMoney, this`playerHands, deck, playerHands, dealerHand
      ensures Valid() && |HandStates| >= 1 && |dealerHand.cards| >= 2 && dealerHand.cards[..2] == old(dealerHand.cards)
      ensures IsBlackjack(old(dealerHand.cards)) || IsBlackjack(old(HandStates[0].cards)) ==>
        HandStates == old(HandStates) && |dealerHand.cards| == 2 && deck.cards == old(deck.cards) &&
        playerMoney == old(playerMoney) + Payout(old(HandStates[0]), dealerHand.cards)
      ensures !IsBlackjack(old(dealerHand.cards)) && !IsBlackjack(old(HandStates[0].cards)) ==>
        |turns| == |afterPlayer.hands| && HandStates == afterPlayer.hands &&
        TurnsFrom(dealerHand.cards[0], dealerCheckedBlackjack, actions, old(TableNow()), turns, afterPlayer, used) &&
        (AnyLive(afterPlayer) ==> DealerTurn(old(dealerHand.cards), afterPlayer.deck, dealerHand.cards, deck.cards)) &&
        (!AnyLive(afterPlayer) ==> dealerHand.cards == old(dealerHand.cards) && deck.cards == afterPlayer.deck) &&
        playerMoney == afterPlayer.money + TotalPayout(HandStates, dealerHand.cards)
      ensures playerMoney == old(Worth()) - TotalCommitted(HandStates) + TotalPayout(HandStates, dealerHand.cards)
      ensures HandStates[0].insuranceBet == old(HandStates[0].insuranceBet)
      ensures old(playerMoney) >= 0 ==> playerMoney >= 0
    {
      ghost var dealerCards := dealerHand.cards;
      var playerValue := playerHands[0].GetValue();
      turns, used, afterPlayer := [], 0, TableNow();
      if dealerBlackjack {
        if |playerHands[0].cards| == 2 && playerValue == 21 {
          playerMoney := playerMoney + bet;
        }
        NaturalsSettleLikeShortcut(HandStates[0], dealerCards);
        assert HandStates[1..] == [];
      } else if |playerHands[0].cards| == 2 && playerValue == 21 {
        playerMoney := playerMoney + bet + BlackjackWinnings(bet);
        NaturalsSettleLikeShortcut(HandStates[0], dealerCards);
        assert HandStates[1..] == [];
      } else {
        turns, used, afterPlayer := PlayOut(actions);
      }
      assert dealerHand.cards[..2] == dealerCards;
    }

    /** One round. Refused when the bankroll is empty. Otherwise the bet is
        taken, the cards dealt, insurance offered, the dealer peeks; a
        natural on either side ends the round at once, otherwise the player
        and then (unless every hand is bust or surrendered) the dealer play,
        and the hands are settled. In every case the bankroll ends at its
        old amount, less what was staked on the hands, plus the payouts and
        the insurance result. */
    method PlayRound(bet: int, acceptInsurance: bool, actions: seq<Input>)
      returns (played: bool, ghost opening: Table, ghost turns: seq<Turn>, ghost used: int, ghost afterPlayer: Table)
      requires Valid()
      requires playerMoney > 0 ==> 0 < bet <= playerMoney
      modifies this, deck
      ensures Valid()
      ensures played == (old(playerMoney) > 0)
      ensures !played ==> unchanged(this) && unchanged(deck)
      ensures played ==> |HandStates| >= 1 && |dealerHand.cards| >= 2 && playerMoney >= 0
      ensures played ==> |opening.hands| == 1 && |opening.hands[0].cards| == 2
      ensures played ==>
        var stake := InsuranceStake(dealerHand.cards[0], bet, old(playerMoney) - bet, acceptInsurance);
        opening.hands[0] == EmptyHand.(cards := opening.hands[0].cards, bet := bet, insuranceBet := stake)
      ensures played ==> DealtInOrder(old(deck.cards), opening.deck, Alternate(opening.hands[0].cards, dealerHand.cards[..2]))
      ensures played ==> dealerCheckedBlackjack == PeeksForBlackjack(dealerHand.cards[0])
      ensures played ==> opening.money == old(playerMoney) - bet + InsuranceNet(opening.hands[0].insuranceBet, dealerHand.cards[..2])
      ensures played && (IsBlackjack(dealerHand.cards[..2]) || IsBlackjack(opening.hands[0].cards)) ==>
        HandStates == opening.hands && |dealerHand.cards| == 2 && deck.cards == opening.deck &&
        playerMoney == opening.money + Payout(opening.hands[0], dealerHand.cards)
      ensures played && !IsBlackjack(dealerHand.cards[..2]) && !IsBlackjack(opening.hands[0].cards) ==>
        |turns| == |afterPlayer.hands| && HandStates == afterPlayer.hands &&
        TurnsFrom(dealerHand.cards[0], dealerCheckedBlackjack, actions, opening, turns, afterPlayer, used) &&
        (AnyLive(afterPlayer) ==> DealerTurn(dealerHand.cards[..2], afterPlayer.deck, dealerHand.cards, deck.cards)) &&
        (!AnyLive(afterPlayer) ==> |dealerHand.cards| == 2 && deck.cards == afterPlayer.deck) &&
        playerMoney == afterPlayer.money + TotalPayout(HandStates, dealerHand.cards)
      ensures played ==> playerMoney == old(playerMoney) - TotalCommitted(HandStates)
                                        + TotalPayout(HandStates, dealerHand.cards)
                                        + InsuranceNet(HandStates[0].insuranceBet, dealerHand.cards)
    {
      if playerMoney <= 0 {
        return false, TableNow(), [], 0, TableNow();
      }
      OpenRound(bet);
      var dealerBlackjack := InsuranceAndPeek(acceptInsurance);
      opening := TableNow();
      ghost var dealerCards := dealerHand.cards;
      turns, used, afterPlayer := FinishRound(bet, dealerBlackjack, actions);
      assert |dealerHand.cards| == 2 ==> dealerHand.cards == dealerCards;
      played := true;
    }
  }
}

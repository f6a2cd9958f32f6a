/** What each player hand is credited at the end of a round, what the
    player has staked on the hands, and the insurance side bet. */
module Settlement {
  import opened Cards
  import opened Valuation
  import opened Hands

  /** The blackjack bonus: one and a half times the wager, rounded down. */
  function BlackjackWinnings(bet: int): (w: int)
    requires bet >= 0
    ensures 2 * w <= 3 * bet < 2 * w + 2
  {
    bet + bet / 2
  }

  /** The amount credited to the bankroll for one hand against the dealer's
      final cards (the wager was taken when it was placed). */
  function Payout(h: HandState, dealer: seq<Card>): (p: int)
    requires h.bet >= 0
    ensures 0 <= p <= h.bet + BlackjackWinnings(h.bet)
    ensures p == 0 || p == h.bet || p == 2 * h.bet || p == h.bet + BlackjackWinnings(h.bet)
  {
    if h.isSurrendered then 0
    else if IsBust(h.cards) then 0
    else if IsBlackjack(h.cards) && !IsBlackjack(dealer) then h.bet + BlackjackWinnings(h.bet)
    else if IsBust(dealer) then 2 * h.bet
    else if Value(h.cards) > Value(dealer) then 2 * h.bet
    else if Value(h.cards) < Value(dealer) then 0
    else h.bet
  }

  predicate AllBetsNonNegative(hs: seq<HandState>) {
    forall i :: 0 <= i < |hs| ==> hs[i].bet >= 0
  }

  /** The credits of all hands, each hand counted once. */
  function TotalPayout(hs: seq<HandState>, dealer: seq<Card>): (t: int)
    requires AllBetsNonNegative(hs)
    ensures t >= 0
  {
    if hs == [] then 0 else Payout(hs[0], dealer) + TotalPayout(hs[1..], dealer)
  }

  /** What the player has lost to a hand so far: its wager, less the half
      wager handed back on surrender. */
  function Committed(h: HandState): int
  {
    h.bet - (if h.isSurrendered then h.bet / 2 else 0)
  }

  function TotalCommitted(hs: seq<HandState>): int
  {
    if hs == [] then 0 else Committed(hs[0]) + TotalCommitted(hs[1..])
  }

  /** Net effect of the insurance side bet: twice the stake when the dealer
      holds blackjack, minus the stake otherwise, nothing when none was
      placed. */
  function InsuranceNet(insurance: int, dealer: seq<Card>): (n: int)
    ensures insurance <= 0 ==> n == 0
    ensures insurance > 0 ==> (n > 0 <==> IsBlackjack(dealer))
    ensures insurance > 0 ==> n == 2 * insurance || n == -insurance
  {
    if insurance > 0 then
      if IsBlackjack(dealer) then 2 * insurance else -insurance
    else 0
  }

  lemma {:induction false} TotalPayoutAppend(a: seq<HandState>, b: seq<HandState>, dealer: seq<Card>)
    requires AllBetsNonNegative(a) && AllBetsNonNegative(b)
    ensures AllBetsNonNegative(a + b)
    ensures TotalPayout(a + b, dealer) == TotalPayout(a, dealer) + TotalPayout(b, dealer)
  {
    if a != [] {
      assert (a + b)[1..] == a[1..] + b;
      TotalPayoutAppend(a[1..], b, dealer);
    } else {
      assert a + b == b;
    }
  }

  lemma {:induction false} TotalCommittedAppend(a: seq<HandState>, b: seq<HandState>)
    ensures TotalCommitted(a + b) == TotalCommitted(a) + TotalCommitted(b)
  {
    if a != [] {
      assert (a + b)[1..] == a[1..] + b;
      TotalCommittedAppend(a[1..], b);
    } else {
      assert a + b == b;
    }
  }

  /** The stake on a run of hands split into three parts is the sum of the
      parts' stakes. */
  lemma TotalCommittedMiddle(a: seq<HandState>, m: seq<HandState>, b: seq<HandState>)
    ensures TotalCommitted(a + m + b) == TotalCommitted(a) + TotalCommitted(m) + TotalCommitted(b)
  {
    TotalCommittedAppend(a + m, b);
    TotalCommittedAppend(a, m);
  }

  /** Replacing one hand changes the total stake by the difference of the
      two hands' stakes. */
  lemma TotalCommittedUpdate(hs: seq<HandState>, i: int, h: HandState)
    requires 0 <= i < |hs|
    ensures TotalCommitted(hs[i := h]) == TotalCommitted(hs) - Committed(hs[i]) + Committed(h)
  {
    var a, b := hs[..i], hs[i + 1..];
    assert hs == a + [hs[i]] + b;
    assert hs[i := h] == a + [h] + b;
    TotalCommittedMiddle(a, [hs[i]], b);
    TotalCommittedMiddle(a, [h], b);
    assert [h][1..] == [] && [hs[i]][1..] == [];
  }

  /** Replacing hand i by two hands adds the new hands' stakes and removes
      the old one's. */
  lemma TotalCommittedSplit(hs: seq<HandState>, i: int, h1: HandState, h2: HandState)
    requires 0 <= i < |hs|
    ensures TotalCommitted(InsertAt(hs[i := h1], i + 1, h2))
         == TotalCommitted(hs) - Committed(hs[i]) + Committed(h1) + Committed(h2)
  {
    var a, b := hs[..i], hs[i + 1..];
    assert hs == a + [hs[i]] + b;
    assert InsertAt(hs[i := h1], i + 1, h2) == a + [h1, h2] + b;
    TotalCommittedMiddle(a, [hs[i]], b);
    TotalCommittedMiddle(a, [h1, h2], b);
    assert [hs[i]][1..] == [] && [h1, h2][1..] == [h2] && [h2][1..] == [];
  }

  /** The settlement of a hand of two cards against a dealer's two cards
      agrees with the round's shortcut for naturals: a push when both hold
      blackjack, a loss when only the dealer does, and the wager plus the
      bonus when only the player does. */
  lemma NaturalsSettleLikeShortcut(h: HandState, dealer: seq<Card>)
    requires |h.cards| == 2 && |dealer| == 2 && !h.isSurrendered && h.bet >= 0
    ensures IsBlackjack(dealer) && IsBlackjack(h.cards) ==> Payout(h, dealer) == h.bet
    ensures IsBlackjack(dealer) && !IsBlackjack(h.cards) ==> Payout(h, dealer) == 0
    ensures !IsBlackjack(dealer) && IsBlackjack(h.cards) ==> Payout(h, dealer) == h.bet + BlackjackWinnings(h.bet)
  {
    TwoCardsNeverBust(h.cards);
    TwoCardsNeverBust(dealer);
  }

  /** The split-eights example: one split hand busts, the other (20) beats
      the dealer's 19; with equal wagers the two hands give back exactly
      what was staked on them. */
  lemma SplitEightsBreaksEven(bet: nat, busted: seq<Card>, twenty: seq<Card>, dealer: seq<Card>)
    requires Value(busted) > 21 && Value(twenty) == 20 && Value(dealer) == 19
    ensures var hs := [HandState(busted, bet, true, false, 0, false), HandState(twenty, bet, true, false, 0, false)];
      TotalPayout(hs, dealer) == TotalCommitted(hs) == 2 * bet
  {
    var hs := [HandState(busted, bet, true, false, 0, false), HandState(twenty, bet, true, false, 0, false)];
    assert hs[1..] == [hs[1]] && hs[1..][1..] == [];
    assert Payout(hs[0], dealer) == 0 && Payout(hs[1], dealer) == 2 * bet;
    assert TotalPayout(hs[1..], dealer) == 2 * bet;
    assert TotalCommitted(hs[1..]) == bet;
  }
}

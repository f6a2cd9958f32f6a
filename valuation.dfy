/** Hand valuation: the total of a sequence of cards with Aces counted as
    11 and then reduced to 1 one at a time while the total is over 21, and
    the predicates built on that total (blackjack, bust, soft 17, split). */
module Valuation {
  import opened Cards

  /** Total with every Ace counted as 11 (the first loop of the valuation). */
  function RawTotal(cards: seq<Card>): int
  {
    if cards == [] then 0 else RawTotal(cards[..|cards| - 1]) + CardValue(cards[|cards| - 1])
  }

  /** Number of Aces among the cards. */
  function AceCount(cards: seq<Card>): nat
  {
    if cards == [] then 0
    else AceCount(cards[..|cards| - 1]) + (if cards[|cards| - 1].rank == Ace then 1 else 0)
  }

  /** Value of one card when Aces count as 1. */
  function HardValue(c: Card): int
  {
    if c.rank == Ace then 1 else CardValue(c)
  }

  /** Total with every Ace counted as 1. */
  function HardTotal(cards: seq<Card>): (t: int)
    ensures |cards| <= t <= 10 * |cards|
  {
    if cards == [] then 0 else HardTotal(cards[..|cards| - 1]) + HardValue(cards[|cards| - 1])
  }

  /** The reduction loop: while the total is over 21 and an Ace is still
      counted as 11, count that Ace as 1 instead. */
  function Reduce(total: int, aces: nat): (r: int)
    decreases aces
    ensures total - 10 * aces <= r <= total
    ensures r > 21 ==> r == total - 10 * aces
  {
    if total > 21 && aces > 0 then Reduce(total - 10, aces - 1) else total
  }

  /** The value of a hand. */
  function Value(cards: seq<Card>): int
  {
    Reduce(RawTotal(cards), AceCount(cards))
  }

  predicate HasAce(cards: seq<Card>) {
    exists i :: 0 <= i < |cards| && cards[i].rank == Ace
  }

  /** The total when j of the Aces count as 11 and the others as 1. */
  function Reading(cards: seq<Card>, j: nat): int {
    HardTotal(cards) + 10 * j
  }

  predicate IsBlackjack(cards: seq<Card>) {
    |cards| == 2 && Value(cards) == 21
  }

  predicate IsBust(cards: seq<Card>) {
    Value(cards) > 21
  }

  /** Soft 17 as the game decides it: value 17, at least one Ace, and the
      all-Aces-as-11 total at least 17. */
  predicate IsSoft17(cards: seq<Card>) {
    Value(cards) == 17 && AceCount(cards) > 0 && RawTotal(cards) >= 17
  }

  predicate CanSplit(cards: seq<Card>) {
    |cards| == 2 &&
    (cards[0].rank == cards[1].rank || (CardValue(cards[0]) == 10 && CardValue(cards[1]) == 10))
  }

  /** The dealer's drawing rule: below 17, or a soft 17. */
  predicate DealerMustDraw(cards: seq<Card>) {
    Value(cards) < 17 || (Value(cards) == 17 && IsSoft17(cards))
  }

  /** Counting every Ace as 11 adds ten points per Ace to the hard total. */
  lemma {:induction false} RawIsHardPlusAces(cards: seq<Card>)
    ensures RawTotal(cards) == HardTotal(cards) + 10 * AceCount(cards)
  {
    if cards != [] {
      RawIsHardPlusAces(cards[..|cards| - 1]);
    }
  }

  lemma {:induction false} AceCountPositive(cards: seq<Card>)
    ensures AceCount(cards) > 0 <==> HasAce(cards)
  {
    if cards != [] {
      var init := cards[..|cards| - 1];
      AceCountPositive(init);
      if HasAce(init) {
        var i :| 0 <= i < |init| && init[i].rank == Ace;
        assert cards[i].rank == Ace;
      }
      if HasAce(cards) && cards[|cards| - 1].rank != Ace {
        var i :| 0 <= i < |cards| && cards[i].rank == Ace;
        assert init[i].rank == Ace;
      }
    }
  }

  /** Starting from a hard total h with a Aces counted as 11, the reduction
      loop ends on h plus ten for each Ace still counted as 11; only a total
      not over 21 can keep an Ace at 11 once the loop is done. */
  lemma {:induction false} ReduceIsReading(h: int, a: nat) returns (j: nat)
    ensures j <= a && Reduce(h + 10 * a, a) == h + 10 * j
    ensures j > 0 ==> h + 10 * j <= 21
  {
    if h + 10 * a > 21 && a > 0 {
      assert h + 10 * a - 10 == h + 10 * (a - 1);
      j := ReduceIsReading(h, a - 1);
    } else {
      j := a;
    }
  }

  /** No reading of the Aces that stays within 21 is larger than the result
      of the reduction loop. */
  lemma {:induction false} ReduceIsMaximal(h: int, a: nat, i: nat)
    requires i <= a && h + 10 * i <= 21
    ensures h + 10 * i <= Reduce(h + 10 * a, a)
  {
    if h + 10 * a > 21 && a > 0 {
      assert h + 10 * a - 10 == h + 10 * (a - 1);
      ReduceIsMaximal(h, a - 1, i);
    }
  }

  /** The value is some reading of the Aces as 1 or 11; it is the largest
      reading not over 21, and when every reading is over 21 it is the
      smallest one, the all-Aces-as-1 total. */
  lemma ValueIsBestTotal(cards: seq<Card>)
    ensures exists j: nat :: j <= AceCount(cards) && Value(cards) == Reading(cards, j)
    ensures forall j: nat :: j <= AceCount(cards) && Reading(cards, j) <= 21 ==> Reading(cards, j) <= Value(cards)
    ensures Value(cards) > 21 ==> Value(cards) == Reading(cards, 0)
    ensures RawTotal(cards) == Reading(cards, AceCount(cards))
    ensures HardTotal(cards) <= Value(cards) <= RawTotal(cards)
    ensures HardTotal(cards) <= 21 ==> Value(cards) <= 21
    ensures HardTotal(cards) > 21 ==> Value(cards) == HardTotal(cards)
  {
    RawIsHardPlusAces(cards);
    var h, a := HardTotal(cards), AceCount(cards);
    var j := ReduceIsReading(h, a);
    assert Value(cards) == Reading(cards, j);
    forall i: nat | i <= a && Reading(cards, i) <= 21 ensures Reading(cards, i) <= Value(cards) {
      ReduceIsMaximal(h, a, i);
    }
  }

  /** A hand is bust exactly when even counting every Ace as 1 exceeds 21. */
  lemma BustIffHardOver21(cards: seq<Card>)
    ensures IsBust(cards) <==> HardTotal(cards) > 21
  {
    ValueIsBestTotal(cards);
  }

  /** Two cards are a blackjack exactly when they are an Ace and a
      ten-valued card, in either order. */
  lemma BlackjackIsAceAndTen(cards: seq<Card>)
    ensures IsBlackjack(cards) <==>
      |cards| == 2 &&
      ((cards[0].rank == Ace && IsTenRank(cards[1].rank)) ||
       (IsTenRank(cards[0].rank) && cards[1].rank == Ace))
  {
    if |cards| == 2 {
      var first := cards[..1];
      assert first[..0] == [];
      assert RawTotal(first) == CardValue(cards[0]);
      assert AceCount(first) == if cards[0].rank == Ace then 1 else 0;
      assert RawTotal(cards) == CardValue(cards[0]) + CardValue(cards[1]);
    }
  }

  /** No hand of at most two cards is bust. */
  lemma TwoCardsNeverBust(cards: seq<Card>)
    requires |cards| <= 2
    ensures !IsBust(cards)
    ensures Value(cards) <= 21
  {
    BustIffHardOver21(cards);
  }

  /** Soft 17 holds exactly for a value of 17 that includes an Ace,
      whether or not that Ace is still counted as 11. */
  lemma Soft17IsSeventeenWithAce(cards: seq<Card>)
    ensures IsSoft17(cards) <==> Value(cards) == 17 && HasAce(cards)
  {
    AceCountPositive(cards);
  }

  /** A,6,K is a hard 17 (every Ace counted as 1), yet it counts as soft. */
  lemma HardSeventeenWithAceIsSoft()
    ensures var cards := [Card(Hearts, Ace), Card(Hearts, Pip(6)), Card(Hearts, King)];
      Value(cards) == HardTotal(cards) == 17 && IsSoft17(cards)
  {
    var cards := [Card(Hearts, Ace), Card(Hearts, Pip(6)), Card(Hearts, King)];
    var two := cards[..2];
    var one := two[..1];
    assert one[..0] == [];
    assert RawTotal(one) == 11 && AceCount(one) == 1 && HardTotal(one) == 1;
    assert RawTotal(two) == 17 && AceCount(two) == 1 && HardTotal(two) == 7;
    assert RawTotal(cards) == 27 && AceCount(cards) == 1 && HardTotal(cards) == 17;
  }

  /** Split is offered on two cards of equal rank or two ten-valued cards;
      nothing else about the hand (such as an earlier split) matters. */
  lemma CanSplitIsPairOrTens(cards: seq<Card>)
    ensures CanSplit(cards) <==>
      |cards| == 2 &&
      (cards[0].rank == cards[1].rank || (IsTenRank(cards[0].rank) && IsTenRank(cards[1].rank)))
  {
  }

  /** The dealer stops exactly on 17 or more, except a 17 that holds an Ace. */
  lemma DealerStandsIff(cards: seq<Card>)
    ensures !DealerMustDraw(cards) <==> Value(cards) >= 17 && !(Value(cards) == 17 && HasAce(cards))
  {
    Soft17IsSeventeenWithAce(cards);
  }

  /** Termination of the dealer's loop: while the dealer must draw, the hard
      total is at most 17, and every card drawn raises it by at least one. */
  lemma DealerLoopVariant(cards: seq<Card>, c: Card)
    ensures DealerMustDraw(cards) ==> HardTotal(cards) <= 17
    ensures HardTotal(cards + [c]) >= HardTotal(cards) + 1
  {
    ValueIsBestTotal(cards);
    assert (cards + [c])[..|cards|] == cards;
  }
}

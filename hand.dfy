/** A hand: its cards and its betting state. The value and the soft-17 test
    are recomputed from the cards on every call, with the same two loops the
    game uses, and proved equal to the functions of Valuation. */
module Hands {
  import opened Cards
  import Valuation

  /** The fields of a hand, as a value. */
  datatype HandState = HandState(
    cards: seq<Card>,
    bet: int,
    isSplitHand: bool,
    canDouble: bool,
    insuranceBet: int,
    isSurrendered: bool)

  /** A hand as freshly created: no cards, no wager, doubling allowed. */
  const EmptyHand := HandState([], 0, false, true, 0, false)

  /** Wagers are never negative, and a hand of more than two cards can no
      longer be doubled. */
  predicate WellFormed(h: HandState) {
    h.bet >= 0 && h.insuranceBet >= 0 && (|h.cards| > 2 ==> !h.canDouble)
  }

  /** Adding a card to a hand, as a value: the card goes at the end, and the
      doubling flag is cleared for good once the hand holds three cards. */
  function WithCard(h: HandState, c: Card): (r: HandState)
    ensures |r.cards| == |h.cards| + 1 && r.cards[..|h.cards|] == h.cards && r.cards[|h.cards|] == c
    ensures r.canDouble ==> h.canDouble && |r.cards| <= 2
    ensures WellFormed(h) ==> WellFormed(r)
    ensures r.bet == h.bet && r.insuranceBet == h.insuranceBet
    ensures r.isSplitHand == h.isSplitHand && r.isSurrendered == h.isSurrendered
  {
    h.(cards := h.cards + [c], canDouble := if |h.cards| + 1 > 2 then false else h.canDouble)
  }

  /** Once doubling is disabled, no number of further cards enables it again. */
  lemma {:induction false} CanDoubleLatch(h: HandState, cs: seq<Card>)
    requires !h.canDouble
    ensures !AddAll(h, cs).canDouble
    ensures AddAll(h, cs).cards == h.cards + cs
    decreases |cs|
  {
    if cs != [] {
      CanDoubleLatch(WithCard(h, cs[0]), cs[1..]);
      assert h.cards + cs == h.cards + [cs[0]] + cs[1..];
    }
  }

  /** Adding several cards one after the other. */
  function AddAll(h: HandState, cs: seq<Card>): HandState
    decreases |cs|
  {
    if cs == [] then h else AddAll(WithCard(h, cs[0]), cs[1..])
  }

  /** `s` with `x` inserted at position k: where a split puts its new hand. */
  function InsertAt<T>(s: seq<T>, k: int, x: T): (r: seq<T>)
    requires 0 <= k <= |s|
    ensures |r| == |s| + 1 && r[k] == x
    ensures forall j :: 0 <= j < k ==> r[j] == s[j]
    ensures forall j :: k < j < |r| ==> r[j] == s[j - 1]
  {
    s[..k] + [x] + s[k..]
  }

  class Hand {
    var cards: seq<Card>
    var bet: int
    var isSplitHand: bool
    var canDouble: bool
    var insuranceBet: int
    var isSurrendered: bool

    ghost function State(): HandState
      reads this
    {
      HandState(cards, bet, isSplitHand, canDouble, insuranceBet, isSurrendered)
    }

    ghost predicate Valid()
      reads this
    {
      WellFormed(State())
    }

    constructor ()
      ensures Valid()
      ensures State() == EmptyHand
    {
      cards := [];
      bet := 0;
      isSplitHand := false;
      canDouble := true;
      insuranceBet := 0;
      isSurrendered := false;
    }

    method AddCard(c: Card)
      modifies this
      ensures State() == WithCard(old(State()), c)
    {
      cards := cards + [c];
      if |cards| > 2 {
        canDouble := false;
      }
    }

    /** Sum the cards with Aces as 11, then count Aces as 1 one at a time
        while the total is over 21. */
    method GetValue() returns (v: int)
      ensures v == Valuation.Value(cards)
    {
      var value, aces, i := 0, 0, 0;
      while i < |cards|
        invariant 0 <= i <= |cards|
        invariant value == Valuation.RawTotal(cards[..i])
        invariant aces == Valuation.AceCount(cards[..i])
      {
        var card := cards[i];
        assert cards[..i + 1][..i] == cards[..i];
        if card.rank == Ace {
          aces := aces + 1;
          value := value + 11;
        } else {
          value := value + CardValue(card);
        }
        i := i + 1;
      }
      assert cards[..i] == cards;
      while value > 21 && aces > 0
        invariant Valuation.Reduce(value, aces) == Valuation.Value(cards)
        decreases aces
      {
        value := value - 10;
        aces := aces - 1;
      }
      v := value;
    }

    /** A value of 17 with an Ace among the cards whose all-Aces-as-11
        total is at least 17. */
    method IsSoft17() returns (b: bool)
      ensures b == Valuation.IsSoft17(cards)
    {
      var v := GetValue();
      if v != 17 {
        return false;
      }
      var value, aces, i := 0, 0, 0;
      while i < |cards|
        invariant 0 <= i <= |cards|
        invariant value == Valuation.RawTotal(cards[..i])
        invariant aces == Valuation.AceCount(cards[..i])
      {
        var card := cards[i];
        assert cards[..i + 1][..i] == cards[..i];
        if card.rank == Ace {
          aces := aces + 1;
          value := value + 11;
        } else {
          value := value + CardValue(card);
        }
        i := i + 1;
      }
      assert cards[..i] == cards;
      b := aces > 0 && value >= 17;
    }
  }
}

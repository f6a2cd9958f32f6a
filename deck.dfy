/** The deck: a sequence of cards dealt from its tail, refilled with a
    freshly shuffled 52-card pack whenever it runs out. */
module Decks {
  import opened Cards

  /** One deal: `c` is the card handed out and `after` the deck left
      behind. A non-empty deck gives up its last card and nothing else; an
      empty deck is first refilled with some arrangement of the full pack,
      whose last card is then handed out. */
  ghost predicate Dealt(before: seq<Card>, after: seq<Card>, c: Card) {
    if before != [] then
      c == before[|before| - 1] && after == before[..|before| - 1]
    else
      |after| == 51 && multiset(after + [c]) == multiset(FullDeck())
  }

  /** Several deals in a row, handing out the cards of `cs` in order. */
  ghost predicate DealtInOrder(before: seq<Card>, after: seq<Card>, cs: seq<Card>)
    decreases |cs|
  {
    if cs == [] then after == before
    else exists mid :: Dealt(before, mid, cs[0]) && DealtInOrder(mid, after, cs[1..])
  }

  lemma {:induction false} DealtInOrderSnoc(before: seq<Card>, mid: seq<Card>, after: seq<Card>, cs: seq<Card>, c: Card)
    requires DealtInOrder(before, mid, cs)
    requires Dealt(mid, after, c)
    ensures DealtInOrder(before, after, cs + [c])
    decreases |cs|
  {
    if cs == [] {
      assert [c][1..] == [];
      assert DealtInOrder(after, after, []);
    } else {
      var m :| Dealt(before, m, cs[0]) && DealtInOrder(m, mid, cs[1..]);
      DealtInOrderSnoc(m, mid, after, cs[1..], c);
      assert (cs + [c])[1..] == cs[1..] + [c];
    }
  }

  /** Two more deals extend a run of deals by their two cards. */
  lemma DealtInOrderTwoMore(start: seq<Card>, before: seq<Card>, mid: seq<Card>, after: seq<Card>, cs: seq<Card>, c1: Card, c2: Card)
    requires DealtInOrder(start, before, cs)
    requires Dealt(before, mid, c1) && Dealt(mid, after, c2)
    ensures DealtInOrder(start, after, cs + [c1, c2])
  {
    DealtInOrderSnoc(start, before, mid, cs, c1);
    DealtInOrderSnoc(start, mid, after, cs + [c1], c2);
    assert cs + [c1] + [c2] == cs + [c1, c2];
  }

  /** Two deals in a row hand out their two cards in order. */
  lemma DealtTwice(before: seq<Card>, mid: seq<Card>, after: seq<Card>, c1: Card, c2: Card)
    requires Dealt(before, mid, c1) && Dealt(mid, after, c2)
    ensures DealtInOrder(before, after, [c1, c2])
  {
    assert [c1, c2][1..] == [c2] && [c2][1..] == [];
    assert DealtInOrder(after, after, []);
    assert DealtInOrder(mid, after, [c2]);
  }

  /** A deal keeps the deck free of repeated cards, and the card handed out
      is no longer in the deck: no card appears twice within one shuffle. */
  lemma DealtKeepsPack(before: seq<Card>, after: seq<Card>, c: Card)
    requires NoDuplicates(before)
    requires Dealt(before, after, c)
    ensures NoDuplicates(after)
    ensures c !in after
    ensures |after| == if before == [] then 51 else |before| - 1
  {
    var whole := after + [c];
    if before != [] {
      assert before == whole;
    } else {
      PermutationOfFullDeck(whole);
    }
    assert forall k :: 0 <= k < |after| ==> after[k] == whole[k] != whole[|after|];
  }

  class Deck {
    var cards: seq<Card>

    /** No card is left twice: the remaining cards are part of one pack
        (see DistinctIsSubPack). */
    ghost predicate Valid()
      reads this
    {
      NoDuplicates(cards)
    }

    constructor ()
      ensures Valid()
      ensures multiset(cards) == multiset(FullDeck())
    {
      cards := [];
      new;
      Reset();
    }

    /** Refill with the 52 suit-rank cards in some shuffled order. The
        shuffle itself is not modelled: any arrangement may come out. */
    method Reset()
      modifies this
      ensures Valid()
      ensures multiset(cards) == multiset(FullDeck())
    {
      var shuffled :| multiset(shuffled) == multiset(FullDeck());
      cards := shuffled;
      PermutationOfFullDeck(cards);
    }

    /** Pop the last card, refilling first when the deck is empty. */
    method DealCard() returns (c: Card)
      requires Valid()
      modifies this
      ensures Valid()
      ensures Dealt(old(cards), cards, c)
    {
      if |cards| == 0 {
        Reset();
        PermutationOfFullDeck(cards);
      }
      ghost var full := cards;
      c := cards[|cards| - 1];
      cards := cards[..|cards| - 1];
      assert full == cards + [c];
      DealtKeepsPack(old(cards), cards, c);
    }
  }
}

/** Playing cards: suits, ranks, the base value of one card and the
    52-card pack that every shuffle starts from. */
module Cards {

  datatype Suit = Hearts | Diamonds | Clubs | Spades

  /** The numeric ranks '2' .. '10'. */
  type PipValue = n: int | 2 <= n <= 10 witness 2

  datatype Rank = Pip(n: PipValue) | Jack | Queen | King | Ace

  datatype Card = Card(suit: Suit, rank: Rank)

  /** The suits and ranks in the order the pack is built from. */
  const Suits: seq<Suit> := [Hearts, Diamonds, Clubs, Spades]
  const Ranks: seq<Rank> :=
    [Pip(2), Pip(3), Pip(4), Pip(5), Pip(6), Pip(7), Pip(8), Pip(9), Pip(10), Jack, Queen, King, Ace]

  /** The ranks worth ten points: 10, J, Q and K. */
  predicate IsTenRank(r: Rank) {
    r == Pip(10) || r == Jack || r == Queen || r == King
  }

  /** The base value of a card: the pip number, 10 for a face card and 11
      for an Ace (hand valuation may later count the Ace as 1). */
  function CardValue(c: Card): (v: int)
    ensures 2 <= v <= 11
    ensures v == 11 <==> c.rank == Ace
    ensures v == 10 <==> IsTenRank(c.rank)
  {
    match c.rank
    case Jack | Queen | King => 10
    case Ace => 11
    case Pip(n) => n
  }

  /** Position of a suit (resp. a rank) in Suits (resp. Ranks). */
  function SuitIndex(s: Suit): (k: nat)
    ensures k < |Suits| && Suits[k] == s
  {
    match s
    case Hearts => 0
    case Diamonds => 1
    case Clubs => 2
    case Spades => 3
  }

  function RankIndex(r: Rank): (k: nat)
    ensures k < |Ranks| && Ranks[k] == r
  {
    match r
    case Pip(n) => n - 2
    case Jack => 9
    case Queen => 10
    case King => 11
    case Ace => 12
  }

  /** The unshuffled pack: for each suit, each rank, in list order. */
  function FullDeck(): (d: seq<Card>)
    ensures |d| == |Suits| * |Ranks| == 52
  {
    seq(52, i requires 0 <= i < 52 => Card(Suits[i / 13], Ranks[i % 13]))
  }

  predicate NoDuplicates(s: seq<Card>) {
    forall i, j :: 0 <= i < j < |s| ==> s[i] != s[j]
  }

  /** Every suit-rank pair sits in the pack at exactly one position. */
  lemma FullDeckIsComplete(c: Card)
    ensures c in FullDeck()
    ensures FullDeck()[SuitIndex(c.suit) * 13 + RankIndex(c.rank)] == c
  {
    var k := SuitIndex(c.suit) * 13 + RankIndex(c.rank);
    assert k / 13 == SuitIndex(c.suit) && k % 13 == RankIndex(c.rank);
    assert 0 <= k < 52 && FullDeck()[k] == c;
  }

  /** Each position of the pack can be read back from its card. */
  lemma PositionInFullDeck(i: int)
    requires 0 <= i < 52
    ensures SuitIndex(FullDeck()[i].suit) * 13 + RankIndex(FullDeck()[i].rank) == i
  {
    var s, r := i / 13, i % 13;
    assert FullDeck()[i] == Card(Suits[s], Ranks[r]);
    assert SuitIndex(Suits[s]) == s && RankIndex(Ranks[r]) == r;
  }

  lemma FullDeckIsDistinct()
    ensures NoDuplicates(FullDeck())
  {
    var d := FullDeck();
    forall i, j | 0 <= i < j < |d| ensures d[i] != d[j] {
      PositionInFullDeck(i);
      PositionInFullDeck(j);
    }
  }

  /** A sequence without duplicates holds each of its elements once. */
  lemma {:induction false} DistinctCount(s: seq<Card>, c: Card)
    requires NoDuplicates(s)
    ensures multiset(s)[c] == if c in s then 1 else 0
  {
    if s != [] {
      var t := s[..|s| - 1];
      assert s == t + [s[|s| - 1]];
      assert NoDuplicates(t);
      DistinctCount(t, c);
      assert s[|s| - 1] !in t;
    }
  }

  /** Any arrangement of the full pack: 52 cards, no duplicates, and every
      suit-rank pair present. This is what every shuffle is assumed to
      produce. */
  lemma PermutationOfFullDeck(s: seq<Card>)
    requires multiset(s) == multiset(FullDeck())
    ensures |s| == 52
    ensures NoDuplicates(s)
    ensures forall c: Card :: c in s
  {
    assert |s| == |multiset(s)| == |multiset(FullDeck())| == 52;
    SubPackIsDistinct(s);
    forall c: Card ensures c in s {
      FullDeckIsComplete(c);
      assert c in multiset(FullDeck());
    }
  }

  /** Whatever is left of a pack holds no card twice. */
  lemma SubPackIsDistinct(s: seq<Card>)
    requires multiset(s) <= multiset(FullDeck())
    ensures NoDuplicates(s)
  {
    FullDeckIsDistinct();
    forall i, j | 0 <= i < j < |s| ensures s[i] != s[j] {
      if s[i] == s[j] {
        var c := s[i];
        assert s == s[..j] + [c] + s[j + 1..];
        assert c in s[..j];
        assert multiset(s)[c] >= 2;
        DistinctCount(FullDeck(), c);
        assert false;
      }
    }
  }

  /** Conversely, cards none of which appears twice are part of one pack. */
  lemma DistinctIsSubPack(s: seq<Card>)
    requires NoDuplicates(s)
    ensures multiset(s) <= multiset(FullDeck())
  {
    FullDeckIsDistinct();
    forall c: Card ensures multiset(s)[c] <= multiset(FullDeck())[c] {
      DistinctCount(s, c);
      DistinctCount(FullDeck(), c);
      FullDeckIsComplete(c);
    }
  }
}

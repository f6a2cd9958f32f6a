# Blackjack round engine, modelled in Dafny

`blackjack.py` is a console blackjack game. One player with a bankroll
(1000 at the start) plays against a dealer from a single 52-card deck.
The deck is dealt from its tail and reshuffled whenever it runs out.

Each round runs in order:
- The player bets.
- Two cards are dealt to the player and two to the dealer, alternately.
- Insurance is offered under an Ace upcard.
- The dealer peeks for blackjack under an Ace or a ten.
- Naturals are settled at once.
- Otherwise the player plays each hand: hit, stand, double down, split (re-splitting allowed) or surrender.
- The dealer then draws to 17 and hits a soft 17.
- Every hand is paid: 3:2 for blackjack, 1:1 for a win, the stake back on a push.

The model follows the program's own structure:

| file | module | models |
|---|---|---|
| `cards.dfy` | `Cards` | suits, ranks, the card value and the unshuffled 52-card pack |
| `valuation.dfy` | `Valuation` | hand value, blackjack, bust, soft 17 and the split test, as functions over the cards |
| `deck.dfy` | `Decks` | the `Deck` class (deal from the tail, refill with a shuffled pack) and a relational description of dealing |
| `hand.dfy` | `Hands` | the `Hand` class, with the same two valuation loops as the game, proved equal to `Valuation` |
| `settlement.dfy` | `Settlement` | the payout of one hand, the money staked on the hands, and the insurance side bet |
| `game.dfy` | `Blackjack` | the `BlackjackGame` class: the player's moves, the dealer's turn, the initial deal, insurance, settlement, the player's turn and one whole round |

The player actions, dealer actions and game flow of the program are
merged into `BlackjackGame`: in the original, each of those objects only
holds a back reference to the game and updates the game's fields.

`BlackjackGame` keeps a ghost mirror of its hands as values:
- `HandStates` has one `HandState` per player hand.
- `Worth()` is the bankroll plus what is currently staked on the hands.
- `TableNow()` is the player's side of the table as a value (`Table`): the hands, the bankroll and the deck.

Every player move is proved to leave `Worth()` unchanged. The whole round
is proved to end with this bankroll: the old bankroll, less the stakes,
plus the payouts, plus the insurance result.

The player's turn is also specified as a relation between tables:
- `Step` gives the effect of one answer on one hand: a hit deals one card; stand changes nothing; surrender, double and split act only when offered (surrender also needs confirmation and no unchecked Ace), and otherwise change nothing.
- `Ends` says whether that answer finishes the hand's turn.
- `HandTurn` says that a hand's turn is a run of such steps, taken while the hand is in play. Only the last step may end the turn, and the turn stops when the hand leaves play, a step ends it, or the answers run out.
- `TurnsFrom` chains the hands' turns in order. A hand holding a two-card 21 when its turn comes uses no answer and is left as it is.
- `DealerTurn` describes the dealer's draws.

The methods that play a hand, the player's turn, the rest of the round and the whole round are proved to follow these relations.

Where the game departs from the usual casino rules, the model follows the
code. Each of these points is proved:
- Soft 17 is any 17 whose cards include an Ace, so A,6,K (a hard 17) counts as soft and the dealer draws (`Valuation.HardSeventeenWithAceIsSoft`).
- Accepting insurance does not take the insurance stake from the bankroll. It is only added (2x) or subtracted when settled. So insuring a 17 against a dealer blackjack nets zero for the round, not a loss of half the bet (`Blackjack.InsuranceExampleNetsZero`).
- A hand produced by a split may be split again. Two cards totalling 21 on a split hand count as blackjack and are paid 3:2 (`Blackjack.SplitHandPlaysOn`; the moves offered, `Blackjack.Offered`, do not depend on whether the hand came from a split).

## Model

| member | source | states |
|---|---|---|
| Cards.CardValue | blackjack.py:12-18 | a card is worth 2..11; 11 exactly for an Ace, 10 exactly for 10/J/Q/K |
| Cards.FullDeck | blackjack.py:27-28 | the unshuffled pack has 52 cards, suit by suit and rank by rank (its completeness and distinctness are the two lemmas below) |
| Cards.FullDeckIsComplete | blackjack.py:27-28 | every suit-rank pair is in the freshly built pack |
| Cards.FullDeckIsDistinct | blackjack.py:27-28 | the freshly built pack holds no card twice |
| Cards.PermutationOfFullDeck | blackjack.py:27-29 | any shuffle of the pack has 52 distinct cards and every suit-rank pair |
| Cards.SubPackIsDistinct | blackjack.py:31-34 | a part of one pack holds no card twice |
| Cards.DistinctIsSubPack | blackjack.py:31-34 | cards with no repeats are part of one pack, so the deck invariant means "what is left of a shuffle" |
| Valuation.Value | blackjack.py:50-65 | the hand value: the raw total with every Ace as 11, less ten per Ace while over 21 and an Ace is left to reduce (no contract of its own; `ValueIsBestTotal` states what it computes) |
| Valuation.IsBlackjack | blackjack.py:67-68 | blackjack is exactly two cards with value 21 (definition; `BlackjackIsAceAndTen` characterises it) |
| Valuation.IsBust | blackjack.py:70-71 | bust is exactly a value over 21 (definition; `BustIffHardOver21` characterises it) |
| Valuation.IsSoft17 | blackjack.py:73-89 | soft 17 is a value of 17 with an Ace among the cards (definition; `Soft17IsSeventeenWithAce` characterises it) |
| Valuation.CanSplit | blackjack.py:91-101 | two cards of equal rank, or two ten-valued cards (definition; `CanSplitIsPairOrTens` restates it over card values) |
| Valuation.DealerMustDraw | blackjack.py:185 | the dealer draws below 17 and on a soft 17 (definition; `DealerStandsIff` characterises it) |
| Valuation.ValueIsBestTotal | blackjack.py:50-65 | the hand value is a reading of the Aces as 1 or 11; it is the largest reading not over 21, or the all-Aces-as-1 total when every reading is over 21 |
| Valuation.BustIffHardOver21 | blackjack.py:70-71 | a hand is bust exactly when its total with all Aces as 1 exceeds 21 |
| Valuation.BlackjackIsAceAndTen | blackjack.py:67-68 | blackjack is exactly two cards, an Ace and a ten-valued card, in either order |
| Valuation.TwoCardsNeverBust | blackjack.py:67-71 | a hand of at most two cards is never bust |
| Valuation.Soft17IsSeventeenWithAce | blackjack.py:73-89 | soft 17 holds exactly for a value of 17 with an Ace among the cards |
| Valuation.HardSeventeenWithAceIsSoft | blackjack.py:73-89 | A,6,K has value and hard total 17, and still counts as soft 17 |
| Valuation.CanSplitIsPairOrTens | blackjack.py:91-101 | split is allowed exactly on two cards of equal rank or two ten-valued cards |
| Valuation.DealerStandsIff | blackjack.py:185 | the dealer stops exactly on 17 or more, except a 17 holding an Ace |
| Valuation.DealerLoopVariant | blackjack.py:185-187 | while the dealer must draw its hard total is at most 17, and each card raises it: the dealer's loop ends |
| Decks.Dealt | blackjack.py:31-34 | one deal hands out the last card and removes it; from an empty deck it first refills with some arrangement of the full pack (definition) |
| Decks.DealtKeepsPack | blackjack.py:31-34 | a deal keeps the deck free of repeats, removes the dealt card, and shrinks the deck by one (51 after a refill) |
| Decks.DealtInOrderSnoc | blackjack.py:31-34 | a run of deals followed by one more deal is a run of deals |
| Decks.DealtTwice | blackjack.py:152-153 | two consecutive deals hand out their two cards in order |
| Decks.Deck.constructor | blackjack.py:21-25 | a new deck holds a shuffled full pack |
| Decks.Deck.Reset | blackjack.py:27-29 | the deck becomes some arrangement of the 52 suit-rank cards |
| Decks.Deck.DealCard | blackjack.py:31-34 | pops the last card, refilling first when empty; the deck stays repeat-free |
| Hands.WithCard | blackjack.py:45-48 | adding a card appends it, keeps every other field, and keeps a hand well formed |
| Hands.CanDoubleLatch | blackjack.py:45-48 | once doubling is disabled no further card enables it again |
| Hands.Hand.constructor | blackjack.py:37-43 | a new hand is empty, unwagered and may double |
| Hands.Hand.AddCard | blackjack.py:45-48 | the hand becomes WithCard of its old state |
| Hands.Hand.GetValue | blackjack.py:50-65 | the two loops compute the hand value |
| Hands.Hand.IsSoft17 | blackjack.py:73-89 | the method decides the soft-17 predicate |
| Settlement.BlackjackWinnings | blackjack.py:273 | the bonus is one and a half times the wager, rounded down |
| Settlement.Payout | blackjack.py:262-294 | a hand is credited 0, its wager, twice its wager, or wager plus bonus, and never more |
| Settlement.TotalPayout | blackjack.py:262-294 | the sum of the hands' payouts, never negative |
| Settlement.NaturalsSettleLikeShortcut | blackjack.py:425-437 | settling naturals at once gives what the general settlement would: push, loss, or wager plus bonus |
| Settlement.SplitEightsBreaksEven | blackjack.py:262-294 | two split hands, one bust and one beating the dealer, give back exactly their two wagers |
| Settlement.InsuranceNet | blackjack.py:245-253 | insurance pays twice the stake exactly when the dealer has blackjack and costs the stake otherwise |
| Settlement.TotalCommittedUpdate | blackjack.py:127-128 | replacing one hand changes the total stake by the difference of the two hands' stakes |
| Settlement.TotalCommittedSplit | blackjack.py:141-155 | a split removes the old hand's stake and adds the two new hands' stakes |
| Settlement.TotalPayoutAppend | blackjack.py:262-294 | the payouts of a run of hands add up over concatenation |
| Blackjack.Offered | blackjack.py:355-364 | hit and stand always; surrender exactly on the first decision or with one hand; double and split exactly when allowed and the bankroll covers the wager |
| Blackjack.PeekNeverMissesBlackjack | blackjack.py:194-199 | a dealer blackjack always shows an Ace or a ten-valued upcard, so the peek never misses one |
| Blackjack.KeptAfterSplit | blackjack.py:142-153 | the original hand after a split: its first card and the card drawn for it, now marked as split (definition) |
| Blackjack.SplitOff | blackjack.py:142-153 | the hand a split creates: the original's second card and the card drawn for it, with the same wager, marked as split (definition) |
| Blackjack.SplitOfPair | blackjack.py:142-153 | splitting a pair yields two two-card split hands with the original wager each, and one more wager staked |
| Blackjack.SplitHandPlaysOn | blackjack.py:262-294 | a split hand whose new card pairs the kept card can be split again; an Ace kept with a ten-valued card is blackjack and is paid wager plus bonus unless the dealer holds blackjack |
| Blackjack.InsuranceExampleNetsZero | blackjack.py:245-253 | bet 100 on 10,7 with insurance 50 against dealer A,K nets zero |
| Blackjack.InsuranceStake | blackjack.py:228-243 | the insurance recorded: half the wager exactly under an Ace upcard, with a positive half wager the bankroll covers, when accepted; otherwise none (definition) |
| Blackjack.Step | blackjack.py:369-393 | one answer's effect on hand i: hit deals one card; stand changes nothing; surrender, double and split act only when offered, surrender also only when confirmed and not under an unchecked Ace; anything else changes nothing (definition) |
| Blackjack.Ends | blackjack.py:369-393 | the answer ends the hand's turn exactly for stand, a hit that busts, and a surrender or double that went through; a split or an invalid answer never does (definition) |
| Blackjack.HandTurn | blackjack.py:348-393 | a hand's turn: steps taken while the hand is in play, only the last of which may end the turn, stopping when the hand leaves play, a step ends it, or the answers run out (definition) |
| Blackjack.Advance | blackjack.py:348-393 | applying one more answer to a hand in play extends its recorded turn, going on or stopped as the answer decides |
| Blackjack.TurnsFrom | blackjack.py:336-395 | the hands' turns in order, each starting where the previous one ended; a hand with a two-card 21 when its turn comes uses no answer and is unchanged (definition) |
| Blackjack.TurnsFromSnoc | blackjack.py:336-395 | a further turn starting where the previous ones ended extends the chain |
| Blackjack.DealerTurn | blackjack.py:182-192 | the dealer's cards only grow, the new ones are dealt in order from the deck, each to a hand that obliged the dealer to draw, and the final hand does not (definition) |
| Blackjack.BlackjackGame.constructor | blackjack.py:304-314 | bankroll 1000, no player hands, a full shuffled deck |
| Blackjack.BlackjackGame.Hit | blackjack.py:110-116 | the step is a hit: one card dealt from the deck into the hand, nothing else changed; reports bust exactly when the hand is bust; worth unchanged |
| Blackjack.BlackjackGame.DoubleDown | blackjack.py:121-131 | refused with nothing changed when the bankroll is short; otherwise the step is a double: one more wager taken, the bet doubled, exactly one card dealt; worth unchanged |
| Blackjack.BlackjackGame.Split | blackjack.py:133-157 | refused with nothing changed when the bankroll is short; otherwise the step is a split: one more wager taken, the second card's new hand inserted after the original, one card dealt to each, original first; worth unchanged |
| Blackjack.BlackjackGame.SplitCards | blackjack.py:142-153 | the original becomes KeptAfterSplit and the new hand SplitOff of the old hand, with the two cards dealt in order, original first |
| Blackjack.BlackjackGame.Surrender | blackjack.py:159-173 | refused under an unchecked Ace or without confirmation, with nothing changed; otherwise returns half the wager, rounded down, and marks the hand surrendered; worth unchanged |
| Blackjack.BlackjackGame.DealerShouldDraw | blackjack.py:185 | the loop test is the dealer's drawing rule |
| Blackjack.BlackjackGame.DealerPlayTurn | blackjack.py:182-192 | the dealer only adds cards, dealt in order from the deck, each to a hand that obliged it to draw, and stops on the first hand that does not |
| Blackjack.BlackjackGame.CheckBlackjack | blackjack.py:194-199 | the answer is exactly whether the dealer holds blackjack, and the check is recorded exactly under an Ace or ten upcard |
| Blackjack.BlackjackGame.DealInitialCards | blackjack.py:219-226 | fresh hands of two cards each, dealt player, dealer, player, dealer |
| Blackjack.BlackjackGame.OfferInsurance | blackjack.py:228-243 | insurance of half the wager is recorded exactly under an Ace upcard with a positive, affordable half wager that is accepted |
| Blackjack.BlackjackGame.HandleInsurancePayout | blackjack.py:245-253 | the bankroll moves by the insurance result |
| Blackjack.BlackjackGame.HandCredit | blackjack.py:265-294 | the credit for one hand is its payout |
| Blackjack.BlackjackGame.DetermineWinner | blackjack.py:255-294 | the bankroll grows by the sum of the hands' payouts |
| Blackjack.BlackjackGame.ApplyAction | blackjack.py:369-393 | the table moves by exactly one `Step` for the answer, and the turn is reported finished exactly when `Ends` holds; worth and a non-negative bankroll kept |
| Blackjack.BlackjackGame.AnswerHit | blackjack.py:369-371 | a hit is applied and ends the turn exactly on bust |
| Blackjack.BlackjackGame.AnswerSurrender | blackjack.py:376-378 | a surrender is applied only when offered, and ends the turn exactly when it goes through |
| Blackjack.BlackjackGame.AnswerDouble | blackjack.py:380-382 | a double is applied only when offered, and then ends the turn |
| Blackjack.BlackjackGame.AnswerSplit | blackjack.py:384-388 | a split is applied only when offered, and never ends the turn |
| Blackjack.BlackjackGame.HandLive | blackjack.py:348 | the loop test is exactly "hand in play": not bust and not surrendered |
| Blackjack.BlackjackGame.TakeAnswer | blackjack.py:369-393 | one pass of the hand loop applies the next answer and extends the recorded turn |
| Blackjack.BlackjackGame.PlayHand | blackjack.py:348-393 | the hand's play is a `HandTurn` from the old table to the new, using answers pos to next; each step changes only this hand (a split also inserts its new hand right after it); when answers remain the hand ended bust, surrendered or on a finishing move; worth and the hand's position kept, at most one hand added per answer |
| Blackjack.BlackjackGame.HandIsBlackjack | blackjack.py:342 | the test is exactly a two-card 21 |
| Blackjack.BlackjackGame.TakeTurn | blackjack.py:338-395 | hand k's turn: skipped unchanged with no answer used on a two-card 21, otherwise played as a `HandTurn` |
| Blackjack.BlackjackGame.PlayerTurn | blackjack.py:336-400 | the hands, including those added by splits, are played in order as `TurnsFrom` says, from the old table to the new; worth and a non-negative bankroll kept |
| Blackjack.BlackjackGame.OpenRound | blackjack.py:410-414 | the bet moves from the bankroll onto a freshly dealt hand |
| Blackjack.BlackjackGame.InsuranceAndPeek | blackjack.py:418-423 | the insurance recorded is `InsuranceStake` of the upcard, wager, bankroll and answer; the peek is recorded exactly under an Ace or ten upcard and reports exactly dealer blackjack; the bankroll moves by the insurance result only |
| Blackjack.BlackjackGame.SomeHandInPlay | blackjack.py:441 | the test is exactly "some hand neither bust nor surrendered" |
| Blackjack.BlackjackGame.PlayOut | blackjack.py:438-444 | the player's turn runs as `TurnsFrom` says; if some hand is still in play the dealer then plays a `DealerTurn` from the remaining deck, otherwise the dealer's cards and the deck are left as they are; the bankroll then grows by the hands' payouts |
| Blackjack.BlackjackGame.FinishRound | blackjack.py:425-444 | after the peek: a natural on either side leaves hands, dealer cards and deck unchanged and pays the single hand its payout; otherwise the rest is played out as in `PlayOut` |
| Blackjack.BlackjackGame.PlayRound | blackjack.py:405-446 | refused with nothing changed on an empty bankroll; otherwise the opening table holds one two-card hand with the bet and `InsuranceStake` recorded, dealt alternately with the dealer's two cards, and the peek recorded exactly under an Ace or ten; naturals settle that hand at once; otherwise the player's turns and the dealer's turn follow `TurnsFrom` and `DealerTurn`; the bankroll ends at the old amount less the stakes plus the payouts and the insurance result, never below zero |

## Left out

- Console output (`print`, the hand and card strings, `show_hands`, `reveal_card`) is not modelled, nor is the index kept only for display (`current_hand_index`).
- Console input becomes parameters. The bet is a parameter of `PlayRound`, and the `place_bet` retry loop becomes its precondition `0 < bet <= playerMoney`. The insurance answer is a boolean, after the y/n retry loop. The action answers are a finite sequence of `Input` values, each surrender carrying its confirmation answer.
- Blackjack.BlackjackGame.PlayerTurn: when the answers run out, the current hand stands and later hands are played with no answers. The program would wait for more input instead.
- `random.shuffle` is not modelled: a refill may yield any arrangement of the 52 cards.
- Settlement.BlackjackWinnings: the floating-point `int(bet * 1.5)` is modelled as `bet + bet / 2`. The two agree for every wager below 2^51; for larger wagers the rounding of the floating-point product can make them differ.
- The game loop `play` and the `__main__` entry point are not modelled; `PlayRound` models one round.
- The player actions take the hand object and the model takes its index. Whenever an action is applied, the object is the hand at that index.

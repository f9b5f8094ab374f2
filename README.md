# Shedding card game: the turn engine

This project models the engine of a two-to-five player shedding card game and proves
properties of it. In the game, players try to get rid of three zones of cards. The deal gives
each player three face-down cards and a hand of six, and then turns the three lowest hand cards
face up, so play starts with three cards in each zone. Each player plays from the hand first,
then from the face-up zone, then blind from the face-down zone. A card must match or beat the
top of the pile, with special rules for some ranks:

- A 7 caps the next card at 7.
- A 2, 3, 10 or Ace may be played on anything.
- A 10, or four equal ranks in a row, burns the pile.
- An 8 skips as many turns as 8s were played.
- An Ace attacks the next seat. Playing from the hand or the face-up zone, that seat can
  defend only with a 2 (block), 10 (burn), Ace (counter) or 3 (mirror). A blind defender's
  face-down card is judged by the blind test alone, which ignores the attack; a card that
  passes it goes down and ends the attack (Turns.BlindDefenceEndsAttack).

A player who cannot play picks up the pile. After every turn the main loop drops the players
who hold no cards, and the game ends when at most one is left.

The model has eight modules:

- `Cards`: ranks, cards, the 52-card deck, and the list operations the engine relies on.
  These are `pop` from the end (`Reversed`) and `list.remove` (`RemoveFirst`).
- `Players`: the `Player` record with its three zones, `has_cards`, `get_playable_cards`,
  `is_playing_blind`, and the list filter of the main loop (`Survivors`).
- `Rules`: `get_pile_top_rank`, `can_play_card`, `check_for_burn`, and the separate
  legality test applied to a blind card.
- `Moves`: `get_player_move`. `SelectMove` is its specification. The method `GetPlayerMove`
  follows the source's loops: it groups cards by rank into a map, scans the defence
  priority, and takes the minimum key.
- `Setup`: the deal as functions. There are 3 face-down then 6 hand cards per player,
  popped off the end of the deck. Then a stable sort by rank picks the three lowest hand
  cards, and they are popped in descending index order into the face-up zone.
- `Turns`: one `play_turn` as a function `Turn` of a `Game` value, following the source's
  branches in order, together with the lemmas about it.
- `Rounds`: one pass of the `play_game` loop (`Round`).
- `Engine`: the `CardGame` class. Its fields are the source's fields, and its methods
  change them in place. Every method is proved equal to the functions above:
  - `SetupGame` ends in `DealtGame(old(State()))`.
  - `PlayTurn` returns `Turn(old(State()), pick)`.
  - `PlayRound` returns `Round(old(State()), pick)`.
  - `DrawCards` produces `Draw`.
- `Findings`: two defects in the main loop's seat arithmetic, each shown on a concrete table,
  and the corrected arithmetic with what it guarantees.

A card is modelled by its rank alone. Card equality in the source compares ranks only, so
the suit never changes what the engine does. A player's name `"Player i"` is modelled by
the number `i`. `Status` says how a turn ends:

- `Continues`: the turn went on.
- `Ends`: `play_turn` returned `False` because the acting player holds nothing.
- `Fails`: the source raises an `IndexError`.

## Model

| member | source | states |
|---|---|---|
| Players.Player.PlayableCards | card_game.py:43-51 | the hand while it has cards, else the face-up zone, else the face-down zone; empty exactly when the player holds nothing; always drawn from the player's cards |
| Players.Player.IsPlayingBlind | card_game.py:53-55 | blind exactly when the player has cards but the hand and face-up zones are empty; then the playable cards are the face-down ones |
| Players.HasCardsMeansHolding | card_game.py:40-41 | a player has cards exactly when the multiset of its three zones is non-empty |
| Players.Player.HasCards | card_game.py:40-41 | a predicate with no contract of its own; HasCardsMeansHolding states it: true exactly when the three zones together hold a card |
| Players.SurvivorsHoldEverything | card_game.py:359 | dropping the players without cards loses no card |
| Players.SurvivorsKeepHolders | card_game.py:359 | every player holding cards stays at the table |
| Players.SurvivorsNone | card_game.py:359 | when nobody holds a card, nobody stays |
| Players.Survivors | card_game.py:359 | at most as many players as before, each of them holding cards |
| Players.HeldCardsUpdate | card_game.py:209-223 | replacing one player changes the cards held at the table by exactly that player's difference |
| Cards.StandardDeck | card_game.py:71-74 | 52 cards, four of each rank 2 to 14 |
| Cards.Reversed | card_game.py:81 | popping from the end yields the last elements in reverse order |
| Cards.ReversedMultiset | card_game.py:81 | popped cards are the same cards as the popped slice |
| Cards.RemoveFirst | card_game.py:218-223 | `list.remove`: one element shorter, exactly one copy of the card gone |
| Cards.RemoveFirstIsFirst | card_game.py:218-223 | `list.remove` drops the first copy of the card (FirstIndex: the card is there and not before it) and keeps the other elements in order |
| Cards.OfRank | card_game.py:328-333 | every card in the group of a rank is a card of that rank; OfRankFromSource adds that the group holds all of them and comes from the cards |
| Cards.OfRankFromSource | card_game.py:328-333 | the group of a rank is taken from the cards, holds every card of that rank, and is non-empty when that rank is present |
| Engine.Seats | card_game.py:63 | n players named 1..n, each with all three zones empty |
| Engine.NewGame | card_game.py:58-68 | no game (the ValueError) exactly when the count is below 2 or above 5; otherwise the initial field values |
| Engine.CardGame.constructor | card_game.py:58-69 | the new object's state is NewGame's game |
| Engine.CardGame.Create | card_game.py:58-60 | no object exactly when NewGame refuses the count, otherwise a fresh object in that state |
| Engine.NewGameReady | card_game.py:58-75 | a created game holds all 52 cards of the standard deck and is ready for its first turn |
| Engine.DealtGame | card_game.py:77-99 | the same number of players, and a deck shorter by 9 cards per player; DealtGameReady, DealtKeepsCards and DealtShape say what the players then hold |
| Engine.DealtGameReady | card_game.py:77-99 | after the deal the game is ready, still holds the whole standard deck, and 52 - 9n cards remain in the deck |
| Engine.DealtKeepsCards | card_game.py:77-97 | dealing moves cards from the deck into the zones and loses none |
| Engine.CardGame.SetupGame | card_game.py:77-99 | the new state is the dealt game: players as Dealt makes them, the deck without its last 9n cards |
| Engine.CardGame.DealFaceDown | card_game.py:80-81 | player j's face-down zone is the reversed slice popped for seat j; the deck loses 3n cards |
| Engine.CardGame.DealHands | card_game.py:84-85 | player j's hand is the reversed slice popped for seat j in the second pass; the deck loses 6n more |
| Engine.CardGame.PlaceAllFaceUp | card_game.py:88-99 | every player becomes its dealt form, with the three lowest hand cards face up |
| Engine.CardGame.PlaceFaceUp | card_game.py:92-97 | one player's three lowest hand cards move to its face-up zone; nothing else changes |
| Engine.PopSeats | card_game.py:96-97 | popping the chosen indices in descending order leaves the remaining hand and appends the chosen cards face up |
| Engine.CardGame.PopCards | card_game.py:81 | k pops return the deck's last k cards reversed and shorten the deck by k |
| Setup.StableOrderSorted | card_game.py:93 | the stable sort orders hand positions by rank, ties by position |
| Setup.StableOrder | card_game.py:93 | a reordering of the hand positions 0..n-1: n entries, holding exactly the positions below n; StableOrderSorted gives the order by rank, ties by position |
| Setup.ChooseFaceUp | card_game.py:93-94 | three hand positions; ChooseFaceUpLowest adds that they are distinct and rank lowest |
| Setup.ChooseFaceUpLowest | card_game.py:93-94 | three distinct hand positions, each ranked no higher than any other position (ties kept in order) |
| Setup.Descending | card_game.py:96 | the chosen indices in strictly descending order, nothing added or lost |
| Setup.PoppedAreLowest | card_game.py:93-97 | every card turned face up ranks no higher than any card left in the hand |
| Setup.KeepAtConserves | card_game.py:96-97 | popping distinct indices splits the hand into kept and popped cards with none lost |
| Setup.TurnLowestFaceUpSpec | card_game.py:88-97 | three cards move from hand to face-up, appended after the old face-up cards; face-down and name unchanged; no card lost; the moved cards rank lowest |
| Setup.TurnLowestFaceUp | card_game.py:88-97 | no contract of its own; TurnLowestFaceUpSpec states what it does to one player |
| Setup.Dealt | card_game.py:77-97 | one dealt player per seat; DealtShape gives each player's three zones and DealtConserves that no card is lost |
| Setup.DealtShape | card_game.py:77-97 | each dealt player holds 3 face-down, 3 face-up and 3 hand cards, and no face-up card outranks a hand card |
| Setup.DealtConserves | card_game.py:77-97 | the players' cards plus the remaining deck are exactly the cards of the deck before dealing |
| Engine.CardGame.DrawCards | card_game.py:101-104 | the player's hand and the deck become Draw's result; no other player changes |
| Turns.DrawCount | card_game.py:103 | cards are drawn until the hand holds 3 or the deck is empty |
| Turns.Draw | card_game.py:101-104 | a hand of 3 or more leaves hand and deck as they were; the hand and deck together keep their number of cards; DrawLength, DrawTakesFromEnd and DrawConserves give the rest |
| Turns.DrawLength | card_game.py:101-104 | a hand of 3 or more is untouched; otherwise it grows to min(3, hand + deck); afterwards the hand has 3 or the deck is empty |
| Turns.DrawTakesFromEnd | card_game.py:103-104 | the old hand is kept as a prefix, and the drawn cards are the deck's last cards in reverse order |
| Turns.DrawConserves | card_game.py:101-104 | drawing loses no card |
| Rules.TopRank | card_game.py:106-110 | None exactly for an empty pile, otherwise the top card's rank |
| Rules.CanPlayCard | card_game.py:112-149 | an empty pile admits anything; in defence only 2, 3, 10 and Ace; otherwise wild ranks or the blind flag admit the card, a 7 on top admits 7 or lower, and any other top admits equal or higher |
| Rules.NormalLegality | card_game.py:138-149 | the non-blind, non-defence rule as one equivalence |
| Rules.DefenceIsStricter | card_game.py:117-136 | anything legal in defence is legal outside it |
| Rules.BlindFlagAdmitsAll | card_game.py:139-140 | with the blind flag, every card is admitted outside defence |
| Rules.BlindLegal | card_game.py:312-317 | the blind test admits exactly the normal plays of can_play_card, plus a card above 7 turned over on a 7 |
| Rules.CheckForBurn | card_game.py:151-166 | burns exactly when the pile is non-empty and its top is a 10, or its last four cards share a rank |
| Rules.TenBurns | card_game.py:157-158 | a 10 on top burns whatever lies below |
| Rules.FourOfAKindBurns | card_game.py:161-164 | four of a rank on top burn |
| Rules.BurnSeesOnlyLastFour | card_game.py:161-164 | once the pile has four cards on top, what lies below does not matter |
| Rules.ShortPileBurnsOnlyOnTen | card_game.py:151-166 | a pile of fewer than four burns only on a 10 |
| Moves.LegalCards | card_game.py:323 | exactly the playable cards that can_play_card admits |
| Moves.LowestRank | card_game.py:343 | a present rank no higher than any card's rank |
| Moves.FirstPresent | card_game.py:336-340 | the first priority rank present, with none before it, or None when none is present |
| Moves.SelectMoveNoneIff | card_game.py:300-326 | the player picks up exactly when it has nothing to play, or the blind card fails the blind test, or no card is legal |
| Moves.SelectMoveSound | card_game.py:300-344 | a move is non-empty, taken from the zone, all of one rank; blind moves are one card passing the blind test, and other moves are all legal |
| Moves.SelectMoveLowest | card_game.py:342-344 | outside defence, the move is every card of the lowest legal rank present |
| Moves.SelectMoveDefence | card_game.py:336-340 | in defence, the move is every card of the first legal rank in the order 2, 10, Ace, 3 |
| Moves.SelectMoveBlind | card_game.py:305-320 | blind, the move is the picked card alone if it passes the blind test, otherwise a pick-up |
| Moves.LegalGroupIsZoneGroup | card_game.py:323-333 | the group of a legal rank among the valid cards is that rank's group in the whole zone |
| Moves.GroupByRank | card_game.py:328-333 | the map holds, for each rank present, the cards of that rank in their order, and no other key |
| Moves.MinRank | card_game.py:343 | the lowest rank among the valid cards |
| Moves.FindDefence | card_game.py:336-340 | the first rank of the defence priority that has a group |
| Moves.GetPlayerMove | card_game.py:300-344 | the move equals SelectMove's |
| Turns.PlayAllFromHand | card_game.py:216-223 | playing hand cards appends them to the pile and removes exactly those cards from the hand |
| Turns.PlayAllFromFaceUp | card_game.py:216-223 | the same for the face-up zone when the hand is empty |
| Turns.PlayAllFromFaceDown | card_game.py:216-223 | the same for the face-down zone when the other two are empty |
| Turns.PlayAllConserves | card_game.py:216-223 | cards put down leave the player and join the pile, none lost |
| Turns.PlayerLoses | card_game.py:216-223 | the player's cards shrink by exactly the cards played |
| Turns.PlayAll | card_game.py:216-223 | the player keeps its name; PlayAllFromHand, PlayAllFromFaceUp, PlayAllFromFaceDown and PlayAllConserves say which zone loses which cards |
| Turns.Stack | card_game.py:215-223 | only the acting player changes, and it keeps its name; StackConserves gives the new pile and that no card is lost |
| Turns.StackConserves | card_game.py:215-223 | the pile becomes the old pile plus the cards, and the game holds the same cards |
| Engine.CardGame.PlaceCards | card_game.py:216-223 | the acting player and the pile become PlayAll's result |
| Engine.PutDown | card_game.py:216-223 | the loop's result equals PlayAll |
| Turns.Move | card_game.py:192-204 | a chosen move is never empty |
| Turns.SeatAfterIsModulo | card_game.py:181 | stepping one seat round the table is (i + 1) mod n |
| Turns.NextSeat | card_game.py:181 | the next seat is below the count fixed at creation and differs from the acting one |
| Turns.Turn | card_game.py:168-298 | the player list keeps its length; the next seat is counted modulo the count fixed at creation (NextSeat, SeatAfterIsModulo); TurnFrame, TurnSkip, TurnPickUp, TurnIsPlay, TurnAttack, TurnBurn, TurnSettles and TurnConserves characterise each branch |
| Turns.TurnWith | card_game.py:168-298 | the turn for a given next seat: the player list keeps its length; the same lemmas characterise it |
| Moves.SelectMove | card_game.py:300-344 | a move is never empty; SelectMoveNoneIff, SelectMoveSound, SelectMoveLowest, SelectMoveDefence and SelectMoveBlind characterise it |
| Turns.PickUp | card_game.py:206-213 | only the acting player changes; TurnPickUp and PickUpConserves say the pile joins its hand and empties, the attack ends and the next seat moves |
| Turns.Refill | card_game.py:238 | only the acting player changes, keeping its name, and the pile stays; Refilled and DrawLength give the refilled hand |
| Turns.PassOn | card_game.py:231-271 | player count, other players and the acting player's name are kept, and the index moves to the acting or the next seat; PassOnFacts gives the target and the refill |
| Turns.Settle | card_game.py:273-296 | the same frame as PassOn; SettleBurnFacts and SettleStayFacts give the burn and the stay branches |
| Turns.Play | card_game.py:215-298 | the same frame, for a play of any kind; TurnIsPlay ties it to the turn |
| Turns.TurnFrame | card_game.py:168-298 | a turn changes only the acting player, keeps the count and names, moves the index to the acting or the next seat, and ends exactly when the acting player holds nothing, leaving the state unchanged |
| Turns.TurnSkip | card_game.py:176-182 | with skips pending and no attack, the turn only uses up a skip and moves on |
| Turns.TurnPickUp | card_game.py:206-213 | with no legal play, the pile joins the hand, empties, the attack ends and the next seat moves |
| Turns.TurnPlays | card_game.py:192-223 | with a legal play, the move is taken from the active zone, all of one rank, blind moves are the picked card, and others are legal |
| Turns.TurnIsPlay | card_game.py:215-298 | a chosen move is played from the active zone, and the turn is Play of it |
| Turns.PassOnFacts | card_game.py:231-271 | an attack passed on targets the next seat and piles the cards; if that seat exists it moves next after a refill, and otherwise the turn fails |
| Turns.TurnAttack | card_game.py:231-271 | an Ace, or a 3 in defence, aims the attack at the next seat as PassOnFacts says |
| Turns.SettleBurnFacts | card_game.py:277-282 | a burn empties the pile, ends the attack, keeps the same player to move, and draws nothing |
| Turns.TurnBurn | card_game.py:273-282 | the same, for a whole turn |
| Turns.SettleStayFacts | card_game.py:283-296 | without a burn: an 8 sets skips to the number of cards; a defence or a 10 clears the attack; the hand is refilled and the next seat moves |
| Turns.TurnSettles | card_game.py:255-296 | the same, for a whole turn that does not pass an attack |
| Turns.PickUpConserves | card_game.py:206-213 | picking up loses no card |
| Turns.PassOnConserves | card_game.py:231-271 | passing an attack on loses no card |
| Turns.SettleConserves | card_game.py:273-296 | a play loses exactly the burnt pile |
| Turns.TurnConserves | card_game.py:168-298 | across any turn, the game's cards plus the burnt cards are the cards before it |
| Turns.TurnKeepsAttackOnMover | card_game.py:189-291 | when the attack targets the mover, it still does after a turn that goes on; a defender is never still the target |
| Turns.TurnFailsOnlyPastEnd | card_game.py:234-236 | a turn fails only when the next seat lies past the end of the player list |
| Turns.BlindDefenceEndsAttack | card_game.py:305-320 | a blind defender's 9, refused by the defence rule, passes the blind test, goes down on a 3 over an Ace, and the stay branch ends the attack |
| Engine.CardGame.PlayTurn | card_game.py:168-298 | status and new state are Turn of the old state |
| Engine.CardGame.PlayCards | card_game.py:215-298 | status and new state are Play of the old state with the cards |
| Engine.CardGame.PassAttack | card_game.py:232-271 | the next seat becomes the target; if it exists, the hand is refilled and that seat moves, otherwise the turn fails |
| Engine.CardGame.SettleCards | card_game.py:273-298 | status and new state are Settle of the state before the cards went down |
| Rounds.Compact | card_game.py:358-364 | the players become the survivors; the game goes on exactly when two or more remain |
| Rounds.Round | card_game.py:354-364 | a pass fails exactly when its turn fails and never adds players; RoundReady, RoundEnds and RoundConserves give the rest |
| Rounds.RoundReady | card_game.py:354-364 | a pass that goes on leaves at least two players, all holding cards, and a seat index in range |
| Rounds.RoundEnds | card_game.py:354-361 | the loop stops exactly when the mover holds nothing or at most one player survives a turn that went on |
| Rounds.RoundConserves | card_game.py:354-364 | across a pass, the game's cards plus the burnt cards are the cards before it |
| Engine.KeepHolders | card_game.py:359 | the loop keeps exactly the survivors, in order |
| Engine.CardGame.PlayRound | card_game.py:354-364 | status and new state are Round of the old state |
| Findings.RoundLosesAttack | card_game.py:363-364 | as written: on the three-player table the attacked player loses its turn and the target names a missing seat |
| Findings.TurnFailsAfterLeave | card_game.py:234-236 | as written: an Ace played after a player left names seat 2 of a two-player list, and the turn fails |
| Findings.CompactIndexFinds | card_game.py:363-364 | the corrected index names the first player holding cards, from the old seat on |
| Findings.CompactIndex | card_game.py:363-364 | corrected: an index within the survivors; CompactIndexFinds says which player it names |
| Findings.HolderAhead | card_game.py:363-364 | the survivor count before seat i is the survivor index of the next holder at or after i |
| Findings.HolderBehind | card_game.py:363-364 | with no holder from seat i on, the index wraps to the first survivor |
| Findings.FixedCompact | card_game.py:358-364 | corrected compaction: survivors kept, the game goes on exactly when two or more remain |
| Findings.FixedTurnNeverFails | card_game.py:234-236 | with the seat counted modulo the players left, a turn never fails and keeps the index in range |
| Findings.FixedTurn | card_game.py:234-236 | corrected turn: the player list keeps its length; FixedTurnNeverFails adds that it never fails |
| Findings.FixedRound | card_game.py:354-364 | corrected pass: never fails and never adds players; FixedRoundReady and FixedRoundMover give the rest |
| Findings.FixedRoundReady | card_game.py:354-364 | corrected pass: never fails, keeps the loop's invariant, and keeps the attack on the mover |
| Findings.FixedRoundMover | card_game.py:363-364 | corrected pass: the seat that moves next is the next player holding cards |
| Findings.FixedRoundDefends | card_game.py:363-364 | corrected: on the same table the attacked player moves and defends |
| Findings.FixedTurnAttacksAlice | card_game.py:234-236 | corrected: the same Ace targets seat 0, which exists |

## Left out

- Printing, the interactive prompt and the `__main__` block are not modelled. The
  "has won" message is the `Ends` status.
- Randomness becomes parameters. `random.shuffle` is the `shuffled` deck given to the
  constructor, which is any permutation of the standard deck where that matters.
  `random.choice` on a blind turn is the index `pick`.
- Suits and `__repr__` are left out: cards compare by rank only, so a card is its rank.
  `Rank` is an integer subtype 2..14 rather than an `IntEnum`.
- `play_game`'s `while True` is one pass (`Round`, `CardGame.PlayRound`) and the properties
  that hold across passes. Termination of the whole game is not modelled, and the source
  does not guarantee it.
- The `IndexError` that an attack on a missing seat raises is the `Fails` status, with the
  state at the moment it is raised. A turn passed to an index past the list without an
  attack is brought back in range by the main loop's `%`, so it never reaches `play_turn`.
- Engine.CardGame.SetupGame: requires a deck of at least 9 cards per player. With fewer,
  `pop` raises `IndexError`, which the model does not represent. After the constructor the
  deck always has 52 cards for at most 45 dealt.
- Engine.CardGame.constructor: requires 2 to 5 players. The refused counts (the
  `ValueError`) are modelled by `CardGame.Create` and `NewGame`.
- Engine.CardGame.PlayTurn: requires the game to be ready and `pick` to fit the face-down
  zone of a blind player, as `random.choice` guarantees. The main loop keeps readiness
  (`RoundReady`).
- `CardGame` follows the code as written. The corrected arithmetic of the findings is
  modelled by the functions `FixedTurn`, `FixedCompact` and `FixedRound`, not by a second
  class.

## Findings

| source | as written | input that shows it | evidently intended | confidence | as-written member | corrected member |
|---|---|---|---|---|---|---|
| card_game.py:363-364 | after finished players are removed, the index is reduced modulo the new count, and the attack target is kept as it was | three players, each with one card; seat 1 plays its last card, an Ace, at seat 2; seat 1 leaves, seat 2's player moves to position 1, and the index 2 becomes 2 mod 2 = 0 | the player who was due to move (or the next one holding cards) moves, and the attack target follows its player | not executed | Findings.RoundLosesAttack | Findings.FixedRoundDefends |
| card_game.py:234-236 | the attacked seat is `(current + 1) % num_players`, with the player count fixed at creation | two players left of three, the one at seat 1 plays an Ace: the target is seat 2 and `self.players[2]` raises `IndexError` | count the next seat modulo the players still at the table | not executed | Findings.TurnFailsAfterLeave | Findings.FixedTurnAttacksAlice |

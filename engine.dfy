/** The game object: its fields change in place as cards are dealt, drawn and played. Every
    method is proved against the functions of Setup, Turns and Rounds. */
module Engine {
  import opened Cards
  import opened Rules
  import opened Players
  import opened Moves
  import opened Turns
  import opened Rounds
  import opened Setup

  /** The players of a new game, "Player 1" to "Player n", none holding a card. */
  function Seats(n: nat): (ps: seq<Player>)
    ensures |ps| == n
    ensures forall i :: 0 <= i < n ==> ps[i].name == i + 1 && Empty(ps[i])
  {
    seq(n, i requires 0 <= i < n => Player(i + 1, [], [], []))
  }

  /** The source's player-count check: a game is created only for 2 to 5 players, from a
      shuffled standard deck, with an empty pile, seat 0 to act, no skips and no attack. */
  function NewGame(n: nat, shuffled: seq<Card>): (g: Option<Game>)
    ensures g.None? <==> n < 2 || n > 5
    ensures g.Some? ==> g.value.numPlayers == n && g.value.players == Seats(n) &&
                        g.value.deck == shuffled && g.value.pile == [] && g.value.current == 0 &&
                        g.value.skips == 0 && g.value.target == None
  {
    if n < 2 || n > 5 then None else Some(Game(n, Seats(n), shuffled, [], 0, 0, None))
  }

  /** A new game is ready to play once dealt: 2 to 5 seats and every card of the deck. */
  lemma NewGameReady(n: nat, shuffled: seq<Card>)
    requires multiset(shuffled) == multiset(StandardDeck())
    ensures var g := NewGame(n, shuffled);
            g.Some? ==> Ready(g.value) && AllCardsOf(g.value) == multiset(StandardDeck()) &&
                        |g.value.deck| == 52 && 9 * |g.value.players| <= |g.value.deck|
  {
    var g := NewGame(n, shuffled);
    if g.Some? {
      assert |shuffled| == |multiset(shuffled)|;
      NoneHeld(g.value.players);
    }
  }

  /** The state after dealing: the players as Dealt makes them, and the deck without the
      nine cards per player taken off its end. */
  function DealtGame(g: Game): (d: Game)
    requires 9 * |g.players| <= |g.deck|
    ensures |d.players| == |g.players| && |d.deck| == |g.deck| - 9 * |g.players|
  {
    g.(players := Dealt(g.players, g.deck), deck := g.deck[..|g.deck| - 9 * |g.players|])
  }

  /** A new game, once dealt, is ready for its first turn and still holds the whole standard
      deck, 52 - 9n cards of it in the deck. (What each player holds is DealtShape.) */
  lemma DealtGameReady(n: nat, shuffled: seq<Card>)
    requires 2 <= n <= 5 && |shuffled| == 52 && multiset(shuffled) == multiset(StandardDeck())
    ensures var d := DealtGame(NewGame(n, shuffled).value);
            Ready(d) && AllCardsOf(d) == multiset(StandardDeck()) && |d.deck| == 52 - 9 * n
  {
    var g := NewGame(n, shuffled).value;
    NewGameReady(n, shuffled);
    DealtKeepsCards(g);
  }

  /** Dealing from a game whose cards are all in the deck moves them into the players' zones
      and loses none. */
  lemma DealtKeepsCards(g: Game)
    requires 9 * |g.players| <= |g.deck| && g.pile == []
    requires forall i :: 0 <= i < |g.players| ==> Empty(g.players[i])
    ensures AllCardsOf(DealtGame(g)) == multiset(g.deck)
  {
    var held, rest := Dealt(g.players, g.deck), g.deck[..|g.deck| - 9 * |g.players|];
    DealtConserves(g.players, g.deck);
    assert DealtGame(g) == g.(players := held, deck := rest);
    NothingPiled(multiset(rest), HeldCards(held), multiset(g.deck));
  }

  lemma NothingPiled(deck: multiset<Card>, held: multiset<Card>, all: multiset<Card>)
    requires held + deck == all
    ensures deck + multiset([]) + held == all
  {
    forall c ensures (deck + multiset([]) + held)[c] == all[c] {
      assert (held + deck)[c] == all[c];
    }
  }

  /** Players holding no card hold nothing together. */
  lemma {:induction false} NoneHeld(ps: seq<Player>)
    requires forall i :: 0 <= i < |ps| ==> Empty(ps[i])
    ensures HeldCards(ps) == multiset{}
  {
    if ps != [] {
      NoneHeld(ps[..|ps| - 1]);
    }
  }

  class CardGame {
    var numPlayers: nat
    var players: seq<Player>
    var deck: seq<Card>
    var pile: seq<Card>
    var currentPlayerIdx: nat
    var skipsRemaining: nat
    var aceAttackTarget: Option<nat>

    /** The game state the fields hold. */
    function State(): Game
      reads this
    {
      Game(numPlayers, players, deck, pile, currentPlayerIdx, skipsRemaining, aceAttackTarget)
    }

    /** A game of `n` players over `shuffled`, the standard deck in the order the shuffle left
        it. The source rejects other player counts; see Create. */
    constructor (n: nat, shuffled: seq<Card>)
      requires 2 <= n <= 5
      ensures NewGame(n, shuffled) == Some(State())
    {
      numPlayers := n;
      players := Seats(n);
      deck := shuffled;
      pile := [];
      currentPlayerIdx := 0;
      skipsRemaining := 0;
      aceAttackTarget := None;
    }

    /** Creating a game: None where the source raises its ValueError. */
    static method Create(n: nat, shuffled: seq<Card>) returns (game: Option<CardGame>)
      ensures game.None? <==> NewGame(n, shuffled).None?
      ensures game.Some? ==> fresh(game.value) && NewGame(n, shuffled) == Some(game.value.State())
    {
      if n < 2 || n > 5 {
        return None;
      }
      var c := new CardGame(n, shuffled);
      return Some(c);
    }

    /** `k` successive pops of the deck: the cards come off its end, last card first. */
    method PopCards(k: nat) returns (cards: seq<Card>)
      requires k <= |deck|
      modifies this`deck
      ensures cards == Reversed(old(deck)[|old(deck)| - k..])
      ensures deck == old(deck)[..|old(deck)| - k]
    {
      ghost var d0 := deck;
      cards := [];
      var i := 0;
      while i < k
        invariant i <= k
        invariant deck == d0[..|d0| - i]
        invariant cards == Reversed(d0[|d0| - i..])
      {
        var c := deck[|deck| - 1];
        deck := deck[..|deck| - 1];
        cards := cards + [c];
        PopOne(d0, i);
        i := i + 1;
      }
    }

    /** The source's `draw_cards` for player `i`: while its hand holds fewer than 3 cards and
        the deck is not empty, the deck's last card moves to the end of the hand. */
    method DrawCards(i: nat)
      requires i < |players|
      modifies this`players, this`deck
      ensures var drawn := Draw(old(players[i].hand), old(deck));
              players == old(players)[i := old(players[i]).(hand := drawn.0)] && deck == drawn.1
    {
      ghost var h0, d0, p0 := players[i].hand, deck, players[i];
      ghost var n := 0;
      assert d0[|d0| - n..] == [] && h0 + [] == h0;
      assert players == old(players)[i := p0.(hand := h0)];
      while |players[i].hand| < 3 && deck != []
        invariant i < |players|
        invariant n <= |d0|
        invariant n <= DrawCount(h0, d0)
        invariant deck == d0[..|d0| - n]
        invariant players == old(players)[i := p0.(hand := h0 + Reversed(d0[|d0| - n..]))]
        decreases |deck|
      {
        var c := deck[|deck| - 1];
        deck := deck[..|deck| - 1];
        PopOne(d0, n);
        assert players[i].hand + [c] == h0 + Reversed(d0[|d0| - (n + 1)..]);
        players := players[i := players[i].(hand := players[i].hand + [c])];
        n := n + 1;
      }
    }

    /** The source's `play_turn`: one turn of the player at `currentPlayerIdx`. `pick` stands
        for the random choice of a face-down card. Fails stands for the index error the
        source raises when an attack names a seat the player list no longer has. */
    method PlayTurn(pick: nat) returns (status: Status)
      requires Ready(State()) && PickFits(State(), pick)
      modifies this
      ensures (status, State()) == Turn(old(State()), pick)
    {
      ghost var g := State();
      SeatAfterIsModulo(currentPlayerIdx, numPlayers);
      assert numPlayers > 0 && (currentPlayerIdx + 1) % numPlayers == NextSeat(g);
      var player := players[currentPlayerIdx];
      if !player.HasCards() {
        return Ends;
      }
      if skipsRemaining > 0 && aceAttackTarget.None? {
        skipsRemaining := skipsRemaining - 1;
        currentPlayerIdx := (currentPlayerIdx + 1) % numPlayers;
        return Continues;
      }
      var isDefendingAce := aceAttackTarget == Some(currentPlayerIdx);
      var playable := player.PlayableCards();
      var isBlind := player.IsPlayingBlind();
      var selected := GetPlayerMove(pile, playable, isBlind, isDefendingAce, pick);
      assert selected == Move(g, pick);
      if selected.None? {
        players := players[currentPlayerIdx := player.(hand := player.hand + pile)];
        pile := [];
        aceAttackTarget := None;
        currentPlayerIdx := (currentPlayerIdx + 1) % numPlayers;
        return Continues;
      }
      status := PlayCards(selected.value, isDefendingAce);
    }

    /** The rest of `play_turn` once the acting player has chosen `cards`: they go on the
        pile, then their effect is applied in the source's order: an Ace, or a 3 in defence,
        passes the attack on; a 2 in defence or a 10 ends the attack; a burn clears the pile
        and the same player moves again; otherwise 8s set the skips, a defence ends the
        attack, the hand is refilled and the next seat moves. */
    method PlayCards(cards: seq<Card>, isDefendingAce: bool) returns (status: Status)
      requires Ready(State()) && cards != [] && isDefendingAce == Defending(State())
      modifies this
      ensures (status, State()) == Play(old(State()), cards, NextSeat(old(State())))
    {
      ghost var g := State();
      SeatAfterIsModulo(currentPlayerIdx, numPlayers);
      assert numPlayers > 0 && (currentPlayerIdx + 1) % numPlayers == NextSeat(g);
      PlaceCards(cards);
      ghost var g1 := State();
      assert g1 == Stack(g, cards);
      var playedRank := cards[0].rank;
      var numCards := |cards|;
      if playedRank == Ace && !isDefendingAce {
        status := PassAttack();
        return;
      }
      if playedRank == Ace && isDefendingAce {
        status := PassAttack();
        return;
      }
      if playedRank == Two && isDefendingAce {
        aceAttackTarget := None;
      }
      if playedRank == Three && isDefendingAce {
        status := PassAttack();
        return;
      }
      status := SettleCards(g, cards, isDefendingAce);
    }

    /** The end of `play_turn` for a play that does not pass an attack on: a 10 ends the
        attack; a burn clears the pile and ends the attack, and the same player moves again;
        otherwise 8s set as many skips as were played, a defence ends the attack, the hand is
        refilled and the next seat moves. */
    method SettleCards(ghost g: Game, cards: seq<Card>, isDefendingAce: bool) returns (status: Status)
      requires Ready(g) && cards != [] && isDefendingAce == Defending(g) && !PassesAttack(g, cards)
      requires State() == Stack(g, cards).(target := if cards[0].rank == Two && isDefendingAce then None else g.target)
      modifies this
      ensures (status, State()) == Settle(g, cards, NextSeat(g))
    {
      SeatAfterIsModulo(currentPlayerIdx, numPlayers);
      assert numPlayers > 0 && (currentPlayerIdx + 1) % numPlayers == NextSeat(g);
      ghost var g1 := Stack(g, cards);
      var playedRank := cards[0].rank;
      var numCards := |cards|;
      if playedRank == Ten {
        aceAttackTarget := None;
      }
      if CheckForBurn(pile) {
        pile := [];
        aceAttackTarget := None;
        assert State() == g1.(pile := [], target := None);
      } else {
        if playedRank == Eight {
          skipsRemaining := numCards;
        }
        if isDefendingAce {
          aceAttackTarget := None;
        }
        DrawCards(currentPlayerIdx);
        currentPlayerIdx := (currentPlayerIdx + 1) % numPlayers;
      }
      return Continues;
    }

    /** What the Ace attack, the Ace counter-attack and the 3 in defence share: the next seat
        becomes the target, the acting player's hand is refilled and the target moves next.
        The announcement of the target reads its name before the refill, which fails when the
        seat is past the end of the player list. */
    method PassAttack() returns (status: Status)
      requires 0 < numPlayers && currentPlayerIdx < |players|
      modifies this
      ensures var next := (old(currentPlayerIdx) + 1) % old(numPlayers);
              if next < |old(players)| then
                status == Continues && State() == Refill(old(State())).(target := Some(next), current := next)
              else
                status == Fails && State() == old(State()).(target := Some(next))
    {
      var targetIdx := (currentPlayerIdx + 1) % numPlayers;
      aceAttackTarget := Some(targetIdx);
      if targetIdx >= |players| {
        return Fails;
      }
      DrawCards(currentPlayerIdx);
      currentPlayerIdx := targetIdx;
      return Continues;
    }

    /** The acting player's `cards` go on the pile, one by one. */
    method PlaceCards(cards: seq<Card>)
      requires currentPlayerIdx < |players|
      modifies this`players, this`pile
      ensures var r := PlayAll(old(players)[currentPlayerIdx], old(pile), cards);
              players == old(players)[currentPlayerIdx := r.0] && pile == r.1
    {
      var p, newPile := PutDown(players[currentPlayerIdx], pile, cards);
      players := players[currentPlayerIdx := p];
      pile := newPile;
    }

    /** One pass of the source's main loop: a turn; when it goes on, the players without cards
        leave, the game stops when at most one is left, and otherwise the seat index is
        reduced modulo the number left. */
    method PlayRound(pick: nat) returns (status: Status)
      requires Ready(State()) && PickFits(State(), pick)
      modifies this
      ensures (status, State()) == Round(old(State()), pick)
    {
      status := PlayTurn(pick);
      if status != Continues {
        return;
      }
      players := KeepHolders(players);
      if |players| <= 1 {
        return Ends;
      }
      currentPlayerIdx := currentPlayerIdx % |players|;
    }

    /** The source's `setup_game`: three cards per player popped face down, player by player;
        then six per player popped into the hand; then each player turns its three lowest
        hand cards face up. */
    method SetupGame()
      requires 9 * |players| <= |deck|
      modifies this`players, this`deck
      ensures State() == DealtGame(old(State()))
    {
      ghost var p0, d0 := players, deck;
      DealFaceDown();
      DealHands(p0, d0);
      PlaceAllFaceUp(p0, d0);
    }

    /** The first dealing loop: each player in turn gets three cards popped off the deck as its
        face-down cards. */
    method DealFaceDown()
      requires 9 * |players| <= |deck|
      modifies this`players, this`deck
      ensures |players| == |old(players)|
      ensures forall j :: 0 <= j < |players| ==>
                players[j] == old(players)[j].(faceDown := FaceDownFor(old(deck), j))
      ensures deck == old(deck)[..|old(deck)| - 3 * |players|]
    {
      ghost var p0, d0 := players, deck;
      var n := |players|;
      var i := 0;
      while i < n
        invariant i <= n && |players| == n
        invariant deck == d0[..|d0| - 3 * i]
        invariant forall j :: 0 <= j < i ==> players[j] == p0[j].(faceDown := FaceDownFor(d0, j))
        invariant forall j :: i <= j < n ==> players[j] == p0[j]
      {
        FirstPassPop(d0, n, i);
        var cards := PopCards(3);
        players := players[i := players[i].(faceDown := cards)];
        i := i + 1;
      }
    }

    /** The second dealing loop: each player in turn gets six cards popped off what is left as
        its hand. */
    method DealHands(ghost p0: seq<Player>, ghost d0: seq<Card>)
      requires 9 * |p0| <= |d0| && |players| == |p0|
      requires deck == d0[..|d0| - 3 * |p0|]
      requires forall j :: 0 <= j < |p0| ==> players[j] == p0[j].(faceDown := FaceDownFor(d0, j))
      modifies this`players, this`deck
      ensures |players| == |p0|
      ensures forall j :: 0 <= j < |p0| ==>
                players[j] == p0[j].(faceDown := FaceDownFor(d0, j), hand := HandFor(d0, |p0|, j))
      ensures deck == d0[..|d0| - 9 * |p0|]
    {
      var n := |players|;
      assert deck == d0[..|d0| - 3 * n - 6 * 0];
      var i := 0;
      while i < n
        invariant i <= n && |players| == n
        invariant deck == d0[..|d0| - 3 * n - 6 * i]
        invariant forall j :: 0 <= j < i ==>
                    players[j] == p0[j].(faceDown := FaceDownFor(d0, j), hand := HandFor(d0, n, j))
        invariant forall j :: i <= j < n ==> players[j] == p0[j].(faceDown := FaceDownFor(d0, j))
      {
        SecondPassPop(d0, n, i);
        var cards := PopCards(6);
        assert cards == HandFor(d0, n, i);
        players := players[i := players[i].(hand := cards)];
        i := i + 1;
      }
      assert |d0| - 3 * n - 6 * n == |d0| - 9 * n;
    }

    /** The third loop: each player in turn places its three lowest hand cards face up. */
    method PlaceAllFaceUp(ghost p0: seq<Player>, ghost d0: seq<Card>)
      requires 9 * |p0| <= |d0| && |players| == |p0|
      requires forall j :: 0 <= j < |p0| ==>
                 players[j] == p0[j].(faceDown := FaceDownFor(d0, j), hand := HandFor(d0, |p0|, j))
      modifies this`players
      ensures players == Dealt(p0, d0)
    {
      var n := |players|;
      var i := 0;
      while i < n
        invariant i <= n && |players| == n
        invariant forall j :: 0 <= j < i ==> players[j] == DealtPlayer(p0[j], d0, n, j)
        invariant forall j :: i <= j < n ==>
                    players[j] == p0[j].(faceDown := FaceDownFor(d0, j), hand := HandFor(d0, n, j))
      {
        PlaceFaceUp(i);
        i := i + 1;
      }
    }

    /** Player `i` turns its three lowest hand cards face up: the seats of the first three
        cards in stable rank order are popped from the hand, highest seat first, and each
        popped card is appended to the face-up cards. */
    method PlaceFaceUp(i: nat)
      requires i < |players| && |players[i].hand| >= 3
      modifies this`players
      ensures players == old(players)[i := TurnLowestFaceUp(old(players)[i])]
    {
      var p := players[i];
      var seats := Descending(ChooseFaceUp(p.hand), |p.hand|);
      var hand, faceUp := PopSeats(p.hand, p.faceUp, seats);
      players := players[i := p.(hand := hand, faceUp := faceUp)];
    }
  }

  /** The source's loop that puts the chosen cards on the pile one by one, each removed from
      the first zone of the player that holds a card of its rank. */
  method PutDown(p: Player, pile: seq<Card>, cards: seq<Card>) returns (q: Player, newPile: seq<Card>)
    ensures (q, newPile) == PlayAll(p, pile, cards)
  {
    q, newPile := p, pile;
    var k := 0;
    while k < |cards|
      invariant k <= |cards| && (q, newPile) == PlayAll(p, pile, cards[..k])
    {
      var card := cards[k];
      PlayAllStep(p, pile, cards, k);
      ghost var before := (q, newPile);
      newPile := newPile + [card];
      if card in q.hand {
        q := q.(hand := RemoveFirst(q.hand, card));
      } else if card in q.faceUp {
        q := q.(faceUp := RemoveFirst(q.faceUp, card));
      } else if card in q.faceDown {
        q := q.(faceDown := RemoveFirst(q.faceDown, card));
      }
      assert (q, newPile) == PlayOne(before.0, before.1, card);
      k := k + 1;
    }
    assert cards[..k] == cards;
  }

  /** Playing one more card of `cards` is playing it after the ones before. */
  lemma PlayAllStep(p: Player, pile: seq<Card>, cards: seq<Card>, k: nat)
    requires k < |cards|
    ensures PlayAll(p, pile, cards[..k + 1]) ==
              PlayOne(PlayAll(p, pile, cards[..k]).0, PlayAll(p, pile, cards[..k]).1, cards[k])
  {
    assert cards[..k + 1][..k] == cards[..k];
  }

  /** The source's filter of the player list: the players holding cards, in seating order. */
  method KeepHolders(ps: seq<Player>) returns (kept: seq<Player>)
    ensures kept == Survivors(ps)
  {
    kept := [];
    var k := 0;
    while k < |ps|
      invariant k <= |ps| && kept == Survivors(ps[..k])
    {
      assert ps[..k + 1][..k] == ps[..k];
      if ps[k].HasCards() {
        kept := kept + [ps[k]];
      }
      k := k + 1;
    }
    assert ps[..k] == ps;
  }

  /** The source's relocation loop over one hand: the chosen seats are popped from the hand,
      highest first, and each popped card is appended to the face-up cards. What is left in
      hand is the hand without those seats, in order, and the face-up cards gain the cards at
      those seats, in the order popped. */
  method PopSeats(h: seq<Card>, up: seq<Card>, seats: seq<nat>) returns (hand: seq<Card>, faceUp: seq<Card>)
    requires |h| >= 3 && seats == Descending(ChooseFaceUp(h), |h|)
    ensures hand == Keep(h, seats) && faceUp == up + At(h, seats)
  {
    PoppedSeats(h);
    KeepAll(h, []);
    hand, faceUp := h, up;
    assert seats[..0] == [] && up + At(h, []) == up;
    var k := 0;
    while k < |seats|
      invariant k <= |seats|
      invariant hand == Keep(h, seats[..k]) && faceUp == up + At(h, seats[..k])
    {
      var idx := seats[k];
      PopSeat(h, seats, k);
      faceUp := faceUp + [hand[idx]];
      hand := hand[..idx] + hand[idx + 1..];
      k := k + 1;
    }
    assert seats[..k] == seats;
  }

  /** One more pop: the popped card joins the reversed suffix, and the deck loses its end. */
  lemma PopOne(d0: seq<Card>, i: nat)
    requires i < |d0|
    ensures d0[..|d0| - i][..|d0| - i - 1] == d0[..|d0| - (i + 1)]
    ensures d0[..|d0| - i][|d0| - i - 1] == d0[|d0| - (i + 1)]
    ensures Reversed(d0[|d0| - (i + 1)..]) == Reversed(d0[|d0| - i..]) + [d0[|d0| - (i + 1)]]
  {
    var s := d0[|d0| - (i + 1)..];
    assert s[1..] == d0[|d0| - i..];
  }

  /** The first pass's pop for seat `i`: three cards off the end of what the earlier seats
      left. */
  lemma FirstPassPop(d0: seq<Card>, n: nat, i: nat)
    requires i < n && 9 * n <= |d0|
    ensures var deck := d0[..|d0| - 3 * i];
            3 <= |deck| && Reversed(deck[|deck| - 3..]) == FaceDownFor(d0, i) &&
            deck[..|deck| - 3] == d0[..|d0| - 3 * (i + 1)]
  {
  }

  /** The second pass's pop for seat `i`: six cards off the end of what the first pass and
      the earlier seats left. */
  lemma SecondPassPop(d0: seq<Card>, n: nat, i: nat)
    requires i < n && 9 * n <= |d0|
    ensures var deck := d0[..|d0| - 3 * n - 6 * i];
            6 <= |deck| && Reversed(deck[|deck| - 6..]) == HandFor(d0, n, i) &&
            deck[..|deck| - 6] == d0[..|d0| - 3 * n - 6 * (i + 1)]
  {
  }

  /** Popping the `k`-th chosen seat from what the earlier pops left. */
  lemma PopSeat(h: seq<Card>, seats: seq<nat>, k: nat)
    requires |h| >= 3 && seats == Descending(ChooseFaceUp(h), |h|) && k < |seats|
    ensures var r, m := Keep(h, seats[..k]), seats[k];
            m < |r| && r[m] == h[m] &&
            Keep(h, seats[..k + 1]) == r[..m] + r[m + 1..] &&
            At(h, seats[..k + 1]) == At(h, seats[..k]) + [h[m]]
  {
    var m := seats[k];
    EarlierSeatsHigher(seats, |h|, k);
    assert seats[..k + 1] == seats[..k] + [m];
    KeepPop(h, seats[..k], m);
  }

  /** In a descending list, the seats before position `k` are all above the one at `k`. */
  lemma EarlierSeatsHigher(seats: seq<nat>, n: nat, k: nat)
    requires k < |seats| && forall a, b :: 0 <= a < b < |seats| ==> seats[a] > seats[b]
    ensures forall t :: t in seats[..k] ==> t > seats[k]
  {
    forall t | t in seats[..k] ensures t > seats[k] {
      var a :| 0 <= a < k && seats[a] == t;
    }
  }
}

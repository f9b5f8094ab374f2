/** One turn of the game as a function of the game state: the specification that
    CardGame.PlayTurn is proved against. */
module Turns {
  import opened Cards
  import opened Rules
  import opened Players
  import opened Moves

  /** The state of a game. `numPlayers` is the count fixed when the game was created and is
      what every turn reduces the seat index by; `players` shrinks as players finish.
      `target` is the seat index an Ace attack is aimed at, if any. */
  datatype Game = Game(numPlayers: nat, players: seq<Player>, deck: seq<Card>, pile: seq<Card>,
                       current: nat, skips: nat, target: Option<nat>)

  /** What holds whenever a turn starts: a valid player count, no more seats than that count,
      and an index that names a seat. */
  predicate Ready(g: Game) {
    2 <= g.numPlayers <= 5 && |g.players| <= g.numPlayers && g.current < |g.players|
  }

  /** The blind pick, standing in for a random choice, names a face-down card whenever the
      player about to act is playing blind. */
  predicate PickFits(g: Game, pick: nat) {
    g.current < |g.players| &&
    (g.players[g.current].IsPlayingBlind() ==> pick < |g.players[g.current].faceDown|)
  }

  /** Every card in the game: the deck, the pile and all zones of all players. */
  function AllCardsOf(g: Game): multiset<Card> {
    multiset(g.deck) + multiset(g.pile) + HeldCards(g.players)
  }

  function Min(a: int, b: int): int { if a < b then a else b }

  /** How many cards a refill takes: enough to bring the hand up to 3, or the whole deck when
      that holds fewer. */
  function DrawCount(hand: seq<Card>, deck: seq<Card>): (k: nat)
    ensures k <= |deck|
    ensures |hand| >= 3 ==> k == 0
    ensures |hand| < 3 ==> |hand| + k == Min(3, |hand| + |deck|)
  {
    if |hand| >= 3 then 0 else Min(3 - |hand|, |deck|)
  }

  /** Refilling a hand: while it holds fewer than 3 cards and the deck is not empty, the last
      card of the deck moves to the end of the hand. Gives the new hand and the new deck. */
  function Draw(hand: seq<Card>, deck: seq<Card>): (r: (seq<Card>, seq<Card>))
    ensures |hand| >= 3 ==> r == (hand, deck)
    ensures |r.0| + |r.1| == |hand| + |deck|
  {
    var k := DrawCount(hand, deck);
    assert |hand| >= 3 ==> deck[|deck| - k..] == [] && deck[..|deck| - k] == deck && hand + [] == hand;
    (hand + Reversed(deck[|deck| - k..]), deck[..|deck| - k])
  }

  /** A refill tops a short hand up to 3 cards, or takes the whole deck when that is too few,
      and leaves a hand of 3 or more alone. */
  lemma DrawLength(hand: seq<Card>, deck: seq<Card>)
    ensures var r := Draw(hand, deck);
            |r.0| == (if |hand| >= 3 then |hand| else Min(3, |hand| + |deck|)) &&
            (|r.0| >= 3 || r.1 == [])
  {
    var k := DrawCount(hand, deck);
    assert |Draw(hand, deck).0| == |hand| + k;
  }

  /** The cards a refill adds are the deck's last ones, taken from the end. */
  lemma DrawTakesFromEnd(hand: seq<Card>, deck: seq<Card>)
    ensures var r := Draw(hand, deck);
            r.0[..|hand|] == hand && deck == r.1 + Reversed(r.0[|hand|..])
  {
    var k := DrawCount(hand, deck);
    var r := Draw(hand, deck);
    var taken := deck[|deck| - k..];
    assert r == (hand + Reversed(taken), deck[..|deck| - k]);
    assert r.0[..|hand|] == hand;
    assert r.0[|hand|..] == Reversed(taken);
    ReversedTwice(taken);
    assert deck == r.1 + taken;
  }

  /** A refill only moves cards from the deck into the hand. */
  lemma DrawConserves(hand: seq<Card>, deck: seq<Card>)
    ensures var r := Draw(hand, deck); multiset(r.0) + multiset(r.1) == multiset(hand) + multiset(deck)
  {
    var k := DrawCount(hand, deck);
    var taken := deck[|deck| - k..];
    assert deck == deck[..|deck| - k] + taken;
    ReversedMultiset(taken);
  }

  /** Putting one card on the pile: it is removed from the first zone (hand, face-up,
      face-down) holding a card of its rank. */
  function PlayOne(p: Player, pile: seq<Card>, c: Card): (Player, seq<Card>) {
    var p' :=
      if c in p.hand then p.(hand := RemoveFirst(p.hand, c))
      else if c in p.faceUp then p.(faceUp := RemoveFirst(p.faceUp, c))
      else if c in p.faceDown then p.(faceDown := RemoveFirst(p.faceDown, c))
      else p;
    (p', pile + [c])
  }

  /** Putting the chosen cards on the pile one by one, in order. */
  function PlayAll(p: Player, pile: seq<Card>, cards: seq<Card>): (r: (Player, seq<Card>))
    ensures r.0.name == p.name
  {
    if cards == [] then (p, pile)
    else
      var r := PlayAll(p, pile, cards[..|cards| - 1]);
      PlayOne(r.0, r.1, cards[|cards| - 1])
  }

  lemma TakeOneMore(a: multiset<Card>, init: seq<Card>, c: Card)
    requires multiset(init + [c]) <= a
    ensures c in a - multiset(init)
    ensures (a - multiset(init)) - multiset{c} == a - multiset(init + [c])
  {
    assert multiset(init + [c]) == multiset(init) + multiset{c};
    assert (a - multiset(init))[c] > 0;
    forall x ensures ((a - multiset(init)) - multiset{c})[x] == (a - multiset(init + [c]))[x] {
    }
  }

  /** Playing cards held in the hand takes them from the hand only, and stacks them on the
      pile in order. */
  lemma {:induction false} PlayAllFromHand(p: Player, pile: seq<Card>, cards: seq<Card>)
    requires multiset(cards) <= multiset(p.hand)
    ensures var r := PlayAll(p, pile, cards);
            r.1 == pile + cards && r.0 == p.(hand := r.0.hand) &&
            multiset(r.0.hand) == multiset(p.hand) - multiset(cards)
  {
    if cards != [] {
      var init, c := cards[..|cards| - 1], cards[|cards| - 1];
      assert cards == init + [c];
      assert multiset(init) <= multiset(cards);
      PlayAllFromHand(p, pile, init);
      var r0 := PlayAll(p, pile, init);
      TakeOneMore(multiset(p.hand), init, c);
      assert c in r0.0.hand;
      assert PlayAll(p, pile, cards) == (r0.0.(hand := RemoveFirst(r0.0.hand, c)), r0.1 + [c]);
      assert r0.1 + [c] == pile + cards by {
        assert r0.1 == pile + init;
      }
    }
  }

  /** With an empty hand, playing face-up cards takes them from the face-up zone only. */
  lemma {:induction false} PlayAllFromFaceUp(p: Player, pile: seq<Card>, cards: seq<Card>)
    requires p.hand == [] && multiset(cards) <= multiset(p.faceUp)
    ensures var r := PlayAll(p, pile, cards);
            r.1 == pile + cards && r.0 == p.(faceUp := r.0.faceUp) &&
            multiset(r.0.faceUp) == multiset(p.faceUp) - multiset(cards)
  {
    if cards != [] {
      var init, c := cards[..|cards| - 1], cards[|cards| - 1];
      assert cards == init + [c];
      assert multiset(init) <= multiset(cards);
      PlayAllFromFaceUp(p, pile, init);
      var r0 := PlayAll(p, pile, init);
      TakeOneMore(multiset(p.faceUp), init, c);
      assert c in r0.0.faceUp;
      assert PlayAll(p, pile, cards) == (r0.0.(faceUp := RemoveFirst(r0.0.faceUp, c)), r0.1 + [c]);
      assert r0.1 + [c] == pile + cards by {
        assert r0.1 == pile + init;
      }
    }
  }

  /** With the hand and the face-up zone empty, played cards come from the face-down zone. */
  lemma {:induction false} PlayAllFromFaceDown(p: Player, pile: seq<Card>, cards: seq<Card>)
    requires p.hand == [] && p.faceUp == [] && multiset(cards) <= multiset(p.faceDown)
    ensures var r := PlayAll(p, pile, cards);
            r.1 == pile + cards && r.0 == p.(faceDown := r.0.faceDown) &&
            multiset(r.0.faceDown) == multiset(p.faceDown) - multiset(cards)
  {
    if cards != [] {
      var init, c := cards[..|cards| - 1], cards[|cards| - 1];
      assert cards == init + [c];
      assert multiset(init) <= multiset(cards);
      PlayAllFromFaceDown(p, pile, init);
      var r0 := PlayAll(p, pile, init);
      TakeOneMore(multiset(p.faceDown), init, c);
      assert c in r0.0.faceDown;
      assert PlayAll(p, pile, cards) == (r0.0.(faceDown := RemoveFirst(r0.0.faceDown, c)), r0.1 + [c]);
      assert r0.1 + [c] == pile + cards by {
        assert r0.1 == pile + init;
      }
    }
  }

  /** Playing cards that the active zone holds moves them from the player to the pile. */
  lemma PlayAllConserves(p: Player, pile: seq<Card>, cards: seq<Card>)
    requires multiset(cards) <= multiset(p.PlayableCards())
    ensures var r := PlayAll(p, pile, cards);
            r.0.AllCards() + multiset(r.1) == p.AllCards() + multiset(pile)
  {
    if p.hand != [] {
      HandPlayConserves(p, pile, cards);
    } else if p.faceUp != [] {
      FaceUpPlayConserves(p, pile, cards);
    } else {
      FaceDownPlayConserves(p, pile, cards);
    }
  }

  lemma HandPlayConserves(p: Player, pile: seq<Card>, cards: seq<Card>)
    requires multiset(cards) <= multiset(p.hand)
    ensures var r := PlayAll(p, pile, cards);
            r.0.AllCards() + multiset(r.1) == p.AllCards() + multiset(pile)
  {
    var r := PlayAll(p, pile, cards);
    PlayAllFromHand(p, pile, cards);
    MovedToPile(p, r.0, pile, cards, multiset(p.hand), multiset(r.0.hand));
  }

  lemma FaceUpPlayConserves(p: Player, pile: seq<Card>, cards: seq<Card>)
    requires p.hand == [] && multiset(cards) <= multiset(p.faceUp)
    ensures var r := PlayAll(p, pile, cards);
            r.0.AllCards() + multiset(r.1) == p.AllCards() + multiset(pile)
  {
    var r := PlayAll(p, pile, cards);
    PlayAllFromFaceUp(p, pile, cards);
    MovedToPile(p, r.0, pile, cards, multiset(p.faceUp), multiset(r.0.faceUp));
  }

  lemma FaceDownPlayConserves(p: Player, pile: seq<Card>, cards: seq<Card>)
    requires p.hand == [] && p.faceUp == [] && multiset(cards) <= multiset(p.faceDown)
    ensures var r := PlayAll(p, pile, cards);
            r.0.AllCards() + multiset(r.1) == p.AllCards() + multiset(pile)
  {
    var r := PlayAll(p, pile, cards);
    PlayAllFromFaceDown(p, pile, cards);
    MovedToPile(p, r.0, pile, cards, multiset(p.faceDown), multiset(r.0.faceDown));
  }

  /** When one zone of a player loses `cards` and the others stay, the cards that left are the
      ones that arrive on the pile. */
  lemma MovedToPile(p: Player, q: Player, pile: seq<Card>, cards: seq<Card>,
                    zone: multiset<Card>, zone': multiset<Card>)
    requires multiset(cards) <= zone && zone' == zone - multiset(cards)
    requires q.AllCards() + zone == p.AllCards() + zone'
    ensures q.AllCards() + multiset(pile + cards) == p.AllCards() + multiset(pile)
  {
    var m, c := multiset(pile), multiset(cards);
    assert multiset(pile + cards) == m + c;
    forall x ensures (q.AllCards() + (m + c))[x] == (p.AllCards() + m)[x] {
      assert (q.AllCards() + zone)[x] == (p.AllCards() + zone')[x];
    }
  }

  /** Playing cards that the active zone holds stacks them on the pile in order and leaves
      the player's name alone. */
  lemma PlayAllStacks(p: Player, pile: seq<Card>, cards: seq<Card>)
    requires multiset(cards) <= multiset(p.PlayableCards())
    ensures var r := PlayAll(p, pile, cards); r.1 == pile + cards && r.0.name == p.name
  {
    if p.hand != [] {
      PlayAllFromHand(p, pile, cards);
    } else if p.faceUp != [] {
      PlayAllFromFaceUp(p, pile, cards);
    } else {
      PlayAllFromFaceDown(p, pile, cards);
    }
  }

  /** How a turn ends: the game goes on; the player to act holds no card (the source reports
      that it has won and stops); or an attack named a seat the shrunken player list no
      longer has, where the source fails with an index error while announcing the target. */
  datatype Status = Continues | Ends | Fails

  /** Whether the player to act is answering an Ace attack. */
  predicate Defending(g: Game) {
    g.target == Some(g.current)
  }

  /** The cards the player to act puts down, or None when it has to take the pile. */
  function Move(g: Game, pick: nat): (m: Option<seq<Card>>)
    requires Ready(g) && PickFits(g, pick)
    ensures m.Some? ==> m.value != []
  {
    var p := g.players[g.current];
    SelectMove(g.pile, p.PlayableCards(), p.IsPlayingBlind(), Defending(g), pick)
  }

  /** Whether a play hands the attack on to the next seat: an Ace, or a 3 played in defence. */
  predicate PassesAttack(g: Game, cards: seq<Card>)
    requires cards != []
  {
    cards[0].rank == Ace || (cards[0].rank == Three && Defending(g))
  }

  /** Taking the pile: it goes to the end of the acting player's hand, any attack is over,
      and the turn passes on. */
  function PickUp(g: Game, next: nat): (g': Game)
    requires Ready(g)
    ensures |g'.players| == |g.players|
    ensures forall j :: 0 <= j < |g.players| && j != g.current ==> g'.players[j] == g.players[j]
  {
    var player := g.players[g.current];
    g.(players := g.players[g.current := player.(hand := player.hand + g.pile)],
       pile := [], target := None, current := next)
  }

  /** The acting player's `cards` taken from its zones and put on the pile. */
  function Stack(g: Game, cards: seq<Card>): (g': Game)
    requires g.current < |g.players|
    ensures |g'.players| == |g.players|
    ensures forall j :: 0 <= j < |g.players| && j != g.current ==> g'.players[j] == g.players[j]
    ensures g'.players[g.current].name == g.players[g.current].name
  {
    var played := PlayAll(g.players[g.current], g.pile, cards);
    g.(players := g.players[g.current := played.0], pile := played.1)
  }

  /** The source's `draw_cards` for the acting player: its hand is refilled from the deck. */
  function Refill(g: Game): (g': Game)
    requires g.current < |g.players|
    ensures |g'.players| == |g.players|
    ensures forall j :: 0 <= j < |g.players| && j != g.current ==> g'.players[j] == g.players[j]
    ensures g'.players[g.current].name == g.players[g.current].name
    ensures g'.pile == g.pile
  {
    var p := g.players[g.current];
    var drawn := Draw(p.hand, g.deck);
    g.(players := g.players[g.current := p.(hand := drawn.0)], deck := drawn.1)
  }

  /** Putting down `cards` that pass an attack on: the attack is aimed at the next seat,
      which moves next after the hand is refilled. When that seat is past the end of the
      player list, the source fails while announcing the target, after the cards are down and
      the target is set but before the refill. No card leaves the game. */
  function PassOn(g: Game, cards: seq<Card>, next: nat): (r: (Status, Game))
    requires Ready(g)
    ensures r.1.numPlayers == g.numPlayers
    ensures |r.1.players| == |g.players|
    ensures forall j :: 0 <= j < |g.players| && j != g.current ==> r.1.players[j] == g.players[j]
    ensures r.1.players[g.current].name == g.players[g.current].name
    ensures r.1.current == g.current || r.1.current == next
  {
    var g1 := Stack(g, cards);
    if next >= |g.players| then (Fails, g1.(target := Some(next)))
    else (Continues, Refill(g1).(target := Some(next), current := next))
  }

  /** Putting down any other `cards`: a 10, or a 2 in defence, ends the attack; then either
      the pile burns and the same player moves again without a refill, or an 8 sets as many
      skips as 8s were played, a defence ends the attack, the hand is refilled and the next
      seat moves. Cards leave the game only when the pile burns. */
  function Settle(g: Game, cards: seq<Card>, next: nat): (r: (Status, Game))
    requires Ready(g) && cards != []
    ensures r.1.numPlayers == g.numPlayers
    ensures |r.1.players| == |g.players|
    ensures forall j :: 0 <= j < |g.players| && j != g.current ==> r.1.players[j] == g.players[j]
    ensures r.1.players[g.current].name == g.players[g.current].name
    ensures r.1.current == g.current || r.1.current == next
  {
    var rank := cards[0].rank;
    var g1 := Stack(g, cards);
    var target1 := if (rank == Two && Defending(g)) || rank == Ten then None else g.target;
    if CheckForBurn(g1.pile) then (Continues, g1.(pile := [], target := None))
    else
      (Continues, Refill(g1).(skips := if rank == Eight then |cards| else g.skips,
                              target := if Defending(g) then None else target1,
                              current := next))
  }

  /** The cards a play burns: the whole pile with the played cards on top, when the play does
      not pass an attack on and the pile then burns; nothing otherwise. */
  function BurntBy(g: Game, cards: seq<Card>): seq<Card>
    requires cards != []
  {
    if !PassesAttack(g, cards) && CheckForBurn(g.pile + cards) then g.pile + cards else []
  }

  /** Putting `cards` down and applying their effect. */
  function Play(g: Game, cards: seq<Card>, next: nat): (r: (Status, Game))
    requires Ready(g) && cards != []
    ensures r.1.numPlayers == g.numPlayers
    ensures |r.1.players| == |g.players|
    ensures forall j :: 0 <= j < |g.players| && j != g.current ==> r.1.players[j] == g.players[j]
    ensures r.1.players[g.current].name == g.players[g.current].name
    ensures r.1.current == g.current || r.1.current == next
  {
    if PassesAttack(g, cards) then PassOn(g, cards, next) else Settle(g, cards, next)
  }

  /** One turn, following the source's branches in order, where `next` is the seat that
      moves after the acting one. Gives how the turn ended, and the new state. */
  function TurnWith(g: Game, pick: nat, next: nat): (r: (Status, Game))
    requires Ready(g) && PickFits(g, pick)
    ensures |r.1.players| == |g.players|
  {
    if !g.players[g.current].HasCards() then (Ends, g)
    else if g.skips > 0 && g.target.None? then
      (Continues, g.(skips := g.skips - 1, current := next))
    else
      match Move(g, pick)
      case None => (Continues, PickUp(g, next))
      case Some(cards) => Play(g, cards, next)
  }

  /** The seat after seat `i` at a table of `n` seats, wrapping to seat 0 after the last. */
  function SeatAfter(i: nat, n: nat): (j: nat)
    requires i < n
    ensures j < n && (n >= 2 ==> j != i)
  {
    if i + 1 < n then i + 1 else 0
  }

  /** Stepping to the next seat is adding one modulo the number of seats. */
  lemma SeatAfterIsModulo(i: nat, n: nat)
    requires i < n
    ensures SeatAfter(i, n) == (i + 1) % n
  {
  }

  /** The seat after the acting one as the source counts it: modulo the player count fixed at
      creation. */
  function NextSeat(g: Game): (i: nat)
    requires Ready(g)
    ensures i < g.numPlayers && i != g.current
  {
    SeatAfter(g.current, g.numPlayers)
  }

  /** A turn as the source plays it: the next seat is counted modulo the player count fixed at
      creation, even after players have left the table. */
  function Turn(g: Game, pick: nat): (r: (Status, Game))
    requires Ready(g) && PickFits(g, pick)
    ensures |r.1.players| == |g.players|
  {
    TurnWith(g, pick, NextSeat(g))
  }

  /** The cards a turn burns: the whole pile with the played cards on top, when a play that
      does not pass an attack on makes the pile burn; nothing otherwise. */
  function Burnt(g: Game, pick: nat): seq<Card>
    requires Ready(g) && PickFits(g, pick)
  {
    if !g.players[g.current].HasCards() || (g.skips > 0 && g.target.None?) then []
    else
      match Move(g, pick)
      case None => []
      case Some(cards) => BurntBy(g, cards)
  }

  /** Putting down cards the active zone holds moves them onto the pile, in order, and loses
      none. */
  lemma StackConserves(g: Game, cards: seq<Card>)
    requires g.current < |g.players|
    requires multiset(cards) <= multiset(g.players[g.current].PlayableCards())
    ensures Stack(g, cards).pile == g.pile + cards
    ensures AllCardsOf(Stack(g, cards)) == AllCardsOf(g)
  {
    var p := g.players[g.current];
    var g1 := Stack(g, cards);
    var q := g1.players[g.current];
    PlayAllStacks(p, g.pile, cards);
    assert multiset(g1.deck) + multiset(g1.pile) + q.AllCards() ==
           multiset(g.deck) + multiset(g.pile) + p.AllCards() by {
      PlayAllConserves(p, g.pile, cards);
      Regroup(multiset(g.deck), q.AllCards(), multiset(g1.pile), p.AllCards(), multiset(g.pile));
    }
    HeldCardsUpdate(g.players, g.current, q);
    Rebalance(HeldCards(g1.players), HeldCards(g.players), p.AllCards(), q.AllCards(),
              multiset(g1.deck), multiset(g1.pile), multiset(g.deck), multiset(g.pile));
  }

  /** A refill only moves cards from the deck to the acting player. */
  lemma RefillConserves(g: Game)
    requires g.current < |g.players|
    ensures AllCardsOf(Refill(g)) == AllCardsOf(g)
  {
    var p := g.players[g.current];
    var g1 := Refill(g);
    var q := g1.players[g.current];
    assert multiset(g1.deck) + multiset(g1.pile) + q.AllCards() ==
           multiset(g.deck) + multiset(g.pile) + p.AllCards() by {
      DrawnConserves(p, g.deck);
      Regroup(multiset(g.pile), q.AllCards(), multiset(g1.deck), p.AllCards(), multiset(g.deck));
    }
    HeldCardsUpdate(g.players, g.current, q);
    Rebalance(HeldCards(g1.players), HeldCards(g.players), p.AllCards(), q.AllCards(),
              multiset(g1.deck), multiset(g1.pile), multiset(g.deck), multiset(g.pile));
  }

  /** Refilling a player's hand moves cards from the deck to that player. */
  lemma DrawnConserves(p: Player, deck: seq<Card>)
    ensures var drawn := Draw(p.hand, deck);
            p.(hand := drawn.0).AllCards() + multiset(drawn.1) == p.AllCards() + multiset(deck)
  {
    var drawn := Draw(p.hand, deck);
    DrawConserves(p.hand, deck);
    var h, u, f := multiset(p.hand), multiset(p.faceUp), multiset(p.faceDown);
    var h1, d1, d := multiset(drawn.0), multiset(drawn.1), multiset(deck);
    forall c ensures (h1 + u + f + d1)[c] == (h + u + f + d)[c] {
      assert (h1 + d1)[c] == (h + d)[c];
    }
  }

  /** Multiset bookkeeping: when `q + y' == p + y`, adding `x` on both sides in another order
      keeps them equal. */
  lemma Regroup(x: multiset<Card>, q: multiset<Card>, y': multiset<Card>, p: multiset<Card>, y: multiset<Card>)
    requires q + y' == p + y
    ensures x + y' + q == x + y + p && y' + x + q == y + x + p
  {
    forall c ensures (x + y' + q)[c] == (x + y + p)[c] {
      assert (q + y')[c] == (p + y)[c];
    }
    forall c ensures (y' + x + q)[c] == (y + x + p)[c] {
      assert (q + y')[c] == (p + y)[c];
    }
  }

  /** Multiset bookkeeping for replacing one player: the held cards change by what the player
      gained, and the deck and the pile by what it lost. */
  lemma Rebalance(h': multiset<Card>, h: multiset<Card>, a: multiset<Card>, b: multiset<Card>,
                  d': multiset<Card>, y': multiset<Card>, d: multiset<Card>, y: multiset<Card>)
    requires h' + a == h + b
    requires d' + y' + b == d + y + a
    ensures d' + y' + h' == d + y + h
  {
    forall c ensures (d' + y' + h')[c] == (d + y + h)[c] {
      assert (h' + a)[c] == (h + b)[c];
      assert (d' + y' + b)[c] == (d + y + a)[c];
    }
  }

  /** Taking the pile moves it into the acting player's hand. */
  lemma PickUpConserves(g: Game, next: nat)
    requires Ready(g)
    ensures AllCardsOf(PickUp(g, next)) == AllCardsOf(g)
  {
    var p := g.players[g.current];
    var g1 := PickUp(g, next);
    var q := g1.players[g.current];
    assert multiset(g1.deck) + multiset(g1.pile) + q.AllCards() ==
           multiset(g.deck) + multiset(g.pile) + p.AllCards() by {
      assert q.AllCards() + multiset(g1.pile) == p.AllCards() + multiset(g.pile);
      Regroup(multiset(g.deck), q.AllCards(), multiset(g1.pile), p.AllCards(), multiset(g.pile));
    }
    HeldCardsUpdate(g.players, g.current, q);
    Rebalance(HeldCards(g1.players), HeldCards(g.players), p.AllCards(), q.AllCards(),
              multiset(g1.deck), multiset(g1.pile), multiset(g.deck), multiset(g.pile));
  }

  /** Passing an attack on keeps every card in the game. */
  lemma PassOnConserves(g: Game, cards: seq<Card>, next: nat)
    requires Ready(g)
    requires multiset(cards) <= multiset(g.players[g.current].PlayableCards())
    ensures AllCardsOf(PassOn(g, cards, next).1) == AllCardsOf(g)
  {
    var g1 := Stack(g, cards);
    var r := PassOn(g, cards, next).1;
    assert AllCardsOf(g1) == AllCardsOf(g) by {
      StackConserves(g, cards);
    }
    if next < |g.players| {
      var g2 := Refill(g1);
      assert AllCardsOf(g2) == AllCardsOf(g1) by {
        RefillConserves(g1);
      }
      assert r.deck == g2.deck && r.pile == g2.pile && r.players == g2.players;
    } else {
      assert r.deck == g1.deck && r.pile == g1.pile && r.players == g1.players;
    }
  }

  /** Any other play keeps every card in the game unless the pile burns, which takes the
      whole pile out of the game. */
  lemma SettleConserves(g: Game, cards: seq<Card>, next: nat)
    requires Ready(g) && cards != []
    requires multiset(cards) <= multiset(g.players[g.current].PlayableCards())
    ensures AllCardsOf(Settle(g, cards, next).1) +
              multiset(if CheckForBurn(g.pile + cards) then g.pile + cards else []) == AllCardsOf(g)
  {
    var g1 := Stack(g, cards);
    var r := Settle(g, cards, next).1;
    assert AllCardsOf(g1) == AllCardsOf(g) && g1.pile == g.pile + cards by {
      StackConserves(g, cards);
    }
    if CheckForBurn(g1.pile) {
      assert r.deck == g1.deck && r.pile == [] && r.players == g1.players;
    } else {
      var g2 := Refill(g1);
      assert AllCardsOf(g2) == AllCardsOf(g1) by {
        RefillConserves(g1);
      }
      assert r.deck == g2.deck && r.pile == g2.pile && r.players == g2.players;
    }
  }

  /** Cards leave the game only by burning: whatever a turn does not burn is still in the deck,
      the pile or some player's zones afterwards. */
  lemma TurnConserves(g: Game, pick: nat, next: nat)
    requires Ready(g) && PickFits(g, pick)
    ensures AllCardsOf(TurnWith(g, pick, next).1) + multiset(Burnt(g, pick)) == AllCardsOf(g)
  {
    var player := g.players[g.current];
    if player.HasCards() && !(g.skips > 0 && g.target.None?) {
      var m := Move(g, pick);
      if m.None? {
        PickUpConserves(g, next);
      } else {
        SelectMoveSound(g.pile, player.PlayableCards(), player.IsPlayingBlind(), Defending(g), pick);
        if PassesAttack(g, m.value) {
          PassOnConserves(g, m.value, next);
        } else {
          SettleConserves(g, m.value, next);
        }
      }
    }
  }

  /** What a turn touches: only the acting player's zones (never its name), the deck, the pile,
      the counters and the index, which stays or moves one seat on. The game ends exactly when
      the acting player holds nothing, and then nothing changes. */
  lemma TurnFrame(g: Game, pick: nat, next: nat)
    requires Ready(g) && PickFits(g, pick)
    ensures var r := TurnWith(g, pick, next);
            r.1.numPlayers == g.numPlayers &&
            |r.1.players| == |g.players| &&
            (forall j :: 0 <= j < |g.players| && j != g.current ==> r.1.players[j] == g.players[j]) &&
            r.1.players[g.current].name == g.players[g.current].name &&
            (r.1.current == g.current || r.1.current == next) &&
            (r.0 == Ends <==> !g.players[g.current].HasCards()) &&
            (r.0 == Ends ==> r.1 == g)
  {
    var r := TurnWith(g, pick, next);
    if g.players[g.current].HasCards() && !(g.skips > 0 && g.target.None?) {
      match Move(g, pick)
      case None =>
        assert r.1 == PickUp(g, next);
      case Some(cards) =>
        assert r == Play(g, cards, next);
    }
  }

  /** Whether the acting player makes a move this turn: it holds cards and is not skipped. */
  predicate MakesMove(g: Game)
    requires Ready(g)
  {
    g.players[g.current].HasCards() && !(g.skips > 0 && g.target.None?)
  }

  /** An 8's skip passes the turn without touching any card: only the skip counter drops and
      the next seat moves. Skips wait while an attack is pending. */
  lemma TurnSkip(g: Game, pick: nat, next: nat)
    requires Ready(g) && PickFits(g, pick)
    requires g.players[g.current].HasCards() && g.skips > 0 && g.target.None?
    ensures var r := TurnWith(g, pick, next);
            r.0 == Continues && r.1.players == g.players && r.1.deck == g.deck &&
            r.1.pile == g.pile && r.1.skips == g.skips - 1 && r.1.current == next &&
            r.1.target == None
  {
  }

  /** A player with no legal move (its blind pick fails the blind test, or no card of its
      active zone may be played) adds the whole pile to the end of its hand; the pile is
      empty, any attack is over and the next seat moves. */
  lemma TurnPickUp(g: Game, pick: nat, next: nat)
    requires Ready(g) && PickFits(g, pick) && MakesMove(g)
    requires var p := g.players[g.current];
             if p.IsPlayingBlind() then !BlindLegal(g.pile, p.faceDown[pick])
             else forall c :: c in p.PlayableCards() ==> !CanPlayCard(g.pile, c, false, Defending(g))
    ensures var r := TurnWith(g, pick, next);
            var p := g.players[g.current];
            r.0 == Continues && r.1.players == g.players[g.current := p.(hand := p.hand + g.pile)] &&
            r.1.pile == [] && r.1.deck == g.deck && r.1.target == None && r.1.current == next &&
            r.1.skips == g.skips
  {
    var p := g.players[g.current];
    SelectMoveNoneIff(g.pile, p.PlayableCards(), p.IsPlayingBlind(), Defending(g), pick);
  }

  /** A player with a legal move does not take the pile: it puts down a non-empty group of one
      rank taken from its active zone, each card legal (by the blind test when blind). */
  lemma TurnPlays(g: Game, pick: nat)
    requires Ready(g) && PickFits(g, pick) && MakesMove(g)
    requires var p := g.players[g.current];
             if p.IsPlayingBlind() then BlindLegal(g.pile, p.faceDown[pick])
             else exists c :: c in p.PlayableCards() && CanPlayCard(g.pile, c, false, Defending(g))
    ensures var p := g.players[g.current];
            var m := Move(g, pick);
            m.Some? && multiset(m.value) <= multiset(p.PlayableCards()) &&
            (forall c :: c in m.value ==> c == m.value[0]) &&
            (p.IsPlayingBlind() ==> m.value == [p.faceDown[pick]]) &&
            (!p.IsPlayingBlind() ==> forall c :: c in m.value ==> CanPlayCard(g.pile, c, false, Defending(g)))
  {
    var p := g.players[g.current];
    SelectMoveNoneIff(g.pile, p.PlayableCards(), p.IsPlayingBlind(), Defending(g), pick);
    SelectMoveSound(g.pile, p.PlayableCards(), p.IsPlayingBlind(), Defending(g), pick);
  }

  /** After a refill, the hand of player `i` holds at least 3 cards unless the deck ran out. */
  predicate Refilled(g: Game, i: nat)
    requires i < |g.players|
  {
    |g.players[i].hand| >= 3 || g.deck == []
  }

  /** A turn in which the acting player puts `cards` down is that play. */
  lemma TurnIsPlay(g: Game, pick: nat, next: nat, cards: seq<Card>)
    requires Ready(g) && PickFits(g, pick) && MakesMove(g) && Move(g, pick) == Some(cards)
    ensures multiset(cards) <= multiset(g.players[g.current].PlayableCards())
    ensures TurnWith(g, pick, next) == Play(g, cards, next)
  {
    var p := g.players[g.current];
    SelectMoveSound(g.pile, p.PlayableCards(), p.IsPlayingBlind(), Defending(g), pick);
  }

  lemma PassOnFacts(g: Game, cards: seq<Card>, next: nat)
    requires Ready(g)
    requires multiset(cards) <= multiset(g.players[g.current].PlayableCards())
    ensures var r := PassOn(g, cards, next);
            r.1.target == Some(next) && r.1.pile == g.pile + cards && r.1.skips == g.skips &&
            (next < |g.players| ==> r.0 == Continues && r.1.current == next && Refilled(r.1, g.current)) &&
            (next >= |g.players| ==> r.0 == Fails && r.1.current == g.current && r.1.deck == g.deck)
  {
    var g1 := Stack(g, cards);
    assert g1.pile == g.pile + cards by {
      StackConserves(g, cards);
    }
    if next < |g.players| {
      var g2 := Refill(g1);
      assert Refilled(g2, g.current) by {
        DrawLength(g1.players[g.current].hand, g1.deck);
      }
    }
  }

  /** An Ace, or a 3 played in defence, aims an attack at the next seat and hands it the turn
      after the player refills its hand; the pile keeps the played cards and cannot burn on
      this play. If the next seat is past the end of the player list, the turn fails. */
  lemma TurnAttack(g: Game, pick: nat, next: nat, cards: seq<Card>)
    requires Ready(g) && PickFits(g, pick) && MakesMove(g)
    requires Move(g, pick) == Some(cards) && PassesAttack(g, cards)
    ensures var r := TurnWith(g, pick, next);
            r.1.target == Some(next) && r.1.pile == g.pile + cards && r.1.skips == g.skips &&
            (next < |g.players| ==> r.0 == Continues && r.1.current == next && Refilled(r.1, g.current)) &&
            (next >= |g.players| ==> r.0 == Fails && r.1.current == g.current && r.1.deck == g.deck)
  {
    TurnIsPlay(g, pick, next, cards);
    PassOnFacts(g, cards, next);
  }

  lemma SettleBurnFacts(g: Game, cards: seq<Card>, next: nat)
    requires Ready(g) && cards != []
    requires multiset(cards) <= multiset(g.players[g.current].PlayableCards())
    requires CheckForBurn(g.pile + cards)
    ensures var r := Settle(g, cards, next);
            r.0 == Continues && r.1.pile == [] && r.1.target == None && r.1.current == g.current &&
            r.1.deck == g.deck && r.1.skips == g.skips &&
            r.1.players[g.current].AllCards() + multiset(cards) == g.players[g.current].AllCards()
  {
    var p := g.players[g.current];
    var g1 := Stack(g, cards);
    assert g1.pile == g.pile + cards by {
      StackConserves(g, cards);
    }
    PlayerLoses(p, g.pile, cards);
    var r := Settle(g, cards, next);
    assert r.1.players == g1.players && r.1.deck == g.deck && r.1.pile == [];
  }

  /** The player who plays `cards` from its active zone holds exactly those cards fewer. */
  lemma PlayerLoses(p: Player, pile: seq<Card>, cards: seq<Card>)
    requires multiset(cards) <= multiset(p.PlayableCards())
    ensures PlayAll(p, pile, cards).0.AllCards() + multiset(cards) == p.AllCards()
  {
    var q := PlayAll(p, pile, cards).0;
    var m, c := multiset(pile), multiset(cards);
    PlayAllConserves(p, pile, cards);
    PlayAllStacks(p, pile, cards);
    assert multiset(pile + cards) == m + c;
    forall x ensures (q.AllCards() + c)[x] == p.AllCards()[x] {
      assert (q.AllCards() + (m + c))[x] == (p.AllCards() + m)[x];
    }
  }

  lemma SettleStayFacts(g: Game, cards: seq<Card>, next: nat)
    requires Ready(g) && cards != []
    requires multiset(cards) <= multiset(g.players[g.current].PlayableCards())
    requires !CheckForBurn(g.pile + cards)
    ensures var r := Settle(g, cards, next);
            r.0 == Continues && r.1.pile == g.pile + cards && r.1.current == next &&
            r.1.skips == (if cards[0].rank == Eight then |cards| else g.skips) &&
            r.1.target == (if Defending(g) || cards[0].rank == Ten then None else g.target) &&
            Refilled(r.1, g.current)
  {
    var g1 := Stack(g, cards);
    assert g1.pile == g.pile + cards by {
      StackConserves(g, cards);
    }
    var g2 := Refill(g1);
    assert Refilled(g2, g.current) by {
      DrawLength(g1.players[g.current].hand, g1.deck);
    }
    var r := Settle(g, cards, next);
    assert r.1.players == g2.players && r.1.deck == g2.deck && r.1.pile == g2.pile;
  }

  /** A play that burns the pile (a 10 on top, or four of a rank on top) empties it and ends
      any attack; the same player moves again, and it draws nothing: the deck is untouched
      and the player holds what it held less the cards it played. */
  lemma TurnBurn(g: Game, pick: nat, next: nat, cards: seq<Card>)
    requires Ready(g) && PickFits(g, pick) && MakesMove(g)
    requires Move(g, pick) == Some(cards) && !PassesAttack(g, cards)
    requires CheckForBurn(g.pile + cards)
    ensures var r := TurnWith(g, pick, next);
            r.0 == Continues && r.1.pile == [] && r.1.target == None &&
            r.1.current == g.current && r.1.deck == g.deck && r.1.skips == g.skips &&
            r.1.players[g.current].AllCards() + multiset(cards) == g.players[g.current].AllCards()
  {
    TurnIsPlay(g, pick, next, cards);
    SettleBurnFacts(g, cards, next);
  }

  /** Any other play stays on the pile and passes the turn after a refill. Playing 8s sets one
      skip per 8; a defence, or a 10, ends the attack; otherwise the attack state is kept. */
  lemma TurnSettles(g: Game, pick: nat, next: nat, cards: seq<Card>)
    requires Ready(g) && PickFits(g, pick) && MakesMove(g)
    requires Move(g, pick) == Some(cards) && !PassesAttack(g, cards)
    requires !CheckForBurn(g.pile + cards)
    ensures var r := TurnWith(g, pick, next);
            r.0 == Continues && r.1.pile == g.pile + cards && r.1.current == next &&
            r.1.skips == (if cards[0].rank == Eight then |cards| else g.skips) &&
            r.1.target == (if Defending(g) || cards[0].rank == Ten then None else g.target) &&
            Refilled(r.1, g.current)
  {
    TurnIsPlay(g, pick, next, cards);
    SettleStayFacts(g, cards, next);
  }

  /** Whether any pending attack is aimed at the player about to act. */
  predicate AttackOnMover(g: Game) {
    g.target.Some? ==> g.target.value == g.current
  }

  /** A turn that goes on leaves any attack aimed at the player who moves next; and a
      defender is never still the target afterwards. */
  lemma TurnKeepsAttackOnMover(g: Game, pick: nat, next: nat)
    requires Ready(g) && PickFits(g, pick) && AttackOnMover(g) && next != g.current
    ensures var r := TurnWith(g, pick, next);
            (r.0 == Continues ==> AttackOnMover(r.1)) &&
            (Defending(g) && g.players[g.current].HasCards() ==> r.1.target != Some(g.current))
  {
    if MakesMove(g) {
      match Move(g, pick)
      case None =>
      case Some(cards) =>
        TurnIsPlay(g, pick, next, cards);
        if PassesAttack(g, cards) {
          PassOnFacts(g, cards, next);
        } else if CheckForBurn(g.pile + cards) {
          SettleBurnFacts(g, cards, next);
        } else {
          SettleStayFacts(g, cards, next);
        }
    }
  }

  /** A turn fails only by aiming an attack at a seat past the end of the player list. */
  lemma TurnFailsOnlyPastEnd(g: Game, pick: nat, next: nat)
    requires Ready(g) && PickFits(g, pick)
    ensures TurnWith(g, pick, next).0 == Fails ==> next >= |g.players|
  {
    if MakesMove(g) {
      match Move(g, pick)
      case None =>
      case Some(cards) =>
        TurnIsPlay(g, pick, next, cards);
        if PassesAttack(g, cards) {
          PassOnFacts(g, cards, next);
        }
    }
  }

  /** Three players; seat 1 holds only a face-down 9 and is the target of an attack, with a
      3 on an Ace on top of the pile. */
  const BlindDefence := Game(3, [Player(1, [Card(5)], [], []), Player(2, [], [], [Card(9)]),
                                 Player(3, [Card(5)], [], [])],
                             [], [Card(Ace), Card(Three)], 1, 0, Some(1))

  /** A blind defender's card is judged by the blind test alone, which does not look at the
      attack: the 9, which the defence rule refuses, goes down and ends the attack. */
  lemma BlindDefenceEndsAttack()
    ensures !CanPlayCard(BlindDefence.pile, Card(9), false, true)
    ensures Move(BlindDefence, 0) == Some([Card(9)])
    ensures var r := Turn(BlindDefence, 0);
            r.0 == Continues && r.1.target == None && r.1.current == 2 &&
            r.1.pile == [Card(Ace), Card(Three), Card(9)]
  {
    var g := BlindDefence;
    SelectMoveBlind(g.pile, [Card(9)], true, 0);
    assert Move(g, 0) == Some([Card(9)]);
    assert !CheckForBurn(g.pile + [Card(9)]) by {
      ShortPileBurnsOnlyOnTen(g.pile + [Card(9)]);
    }
    TurnSettles(g, 0, 2, [Card(9)]);
  }
}

/** One pass of the main loop: a turn, then the players without cards leave the table and the
    seat index is brought back into range. */
module Rounds {
  import opened Cards
  import opened Players
  import opened Turns

  /** Every seat at the table still holds a card. */
  predicate AllHoldCards(ps: seq<Player>) {
    forall i :: 0 <= i < |ps| ==> ps[i].HasCards()
  }

  /** What the main loop does after a turn that went on: it keeps only the players who hold
      cards, stops when at most one is left, and otherwise reduces the seat index modulo the
      number left. The attack target is left as it was. */
  function Compact(g: Game): (r: (Status, Game))
    ensures r.1.players == Survivors(g.players)
    ensures r.0 == Continues <==> |Survivors(g.players)| >= 2
    ensures r.0 != Fails
  {
    var s := Survivors(g.players);
    if |s| <= 1 then (Ends, g.(players := s))
    else (Continues, g.(players := s, current := g.current % |s|))
  }

  /** One pass of the main loop as written: the turn, and when it went on, the compaction. */
  function Round(g: Game, pick: nat): (r: (Status, Game))
    requires Ready(g) && PickFits(g, pick)
    ensures r.0 == Fails <==> Turn(g, pick).0 == Fails
    ensures |r.1.players| <= |g.players|
  {
    var t := Turn(g, pick);
    if t.0 == Continues then Compact(t.1) else t
  }

  /** The loop's invariant: a pass that goes on leaves at least two players, all holding
      cards, no more of them than the count fixed at creation, and a seat index in range. */
  lemma RoundReady(g: Game, pick: nat)
    requires Ready(g) && PickFits(g, pick)
    ensures var r := Round(g, pick);
            r.1.numPlayers == g.numPlayers &&
            (r.0 == Continues ==> Ready(r.1) && AllHoldCards(r.1.players) && |r.1.players| >= 2)
  {
    TurnFrame(g, pick, NextSeat(g));
  }

  /** A pass ends the game when the player to act holds nothing, or when at most one player
      still holds cards after the turn. */
  lemma RoundEnds(g: Game, pick: nat)
    requires Ready(g) && PickFits(g, pick)
    ensures var r := Round(g, pick);
            r.0 == Ends <==> !g.players[g.current].HasCards() ||
                             (Turn(g, pick).0 == Continues && |Survivors(Turn(g, pick).1.players)| <= 1)
  {
    TurnFrame(g, pick, NextSeat(g));
  }

  /** Players leave the table only with empty hands, so a pass loses no card but the ones its
      turn burns. */
  lemma RoundConserves(g: Game, pick: nat)
    requires Ready(g) && PickFits(g, pick)
    ensures AllCardsOf(Round(g, pick).1) + multiset(Burnt(g, pick)) == AllCardsOf(g)
  {
    var t := Turn(g, pick);
    TurnConserves(g, pick, NextSeat(g));
    if t.0 == Continues {
      SurvivorsHoldEverything(t.1.players);
      var r := Compact(t.1).1;
      assert r.deck == t.1.deck && r.pile == t.1.pile;
    }
  }
}

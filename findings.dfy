/** Two places where the main loop's seat arithmetic does not do what the game intends, each
    shown on a concrete table, and the corrected arithmetic with what it guarantees. */
module Findings {
  import opened Cards
  import opened Players
  import opened Moves
  import opened Turns
  import opened Rounds

  /** Seat `j` is where the first player holding cards sits, looking from seat `i` onwards
      and wrapping round to the start of the table. */
  predicate NextHolder(ps: seq<Player>, i: nat, j: nat) {
    j < |ps| && ps[j].HasCards() &&
    if i <= j then forall m :: i <= m < j ==> !ps[m].HasCards()
    else (forall m :: i <= m < |ps| ==> !ps[m].HasCards()) &&
         (forall m :: 0 <= m < j ==> !ps[m].HasCards())
  }

  /** Seat `i` of `ps` carried over to the list of players who hold cards: the number of
      holders seated before `i`, wrapping to 0 when nobody holds cards from `i` on. */
  function CompactIndex(ps: seq<Player>, i: nat): (k: nat)
    requires i < |ps| && Survivors(ps) != []
    ensures k < |Survivors(ps)|
  {
    assert ps == ps[..i] + ps[i..];
    SurvivorsAppend(ps[..i], ps[i..]);
    var before := |Survivors(ps[..i])|;
    if before < |Survivors(ps)| then before else 0
  }

  /** The carried-over seat is the first holder's seat from `i` on, wrapping round. */
  lemma CompactIndexFinds(ps: seq<Player>, i: nat, j: nat)
    requires i < |ps| && NextHolder(ps, i, j)
    ensures Survivors(ps) != []
    ensures Survivors(ps)[CompactIndex(ps, i)] == ps[j]
  {
    if i <= j {
      HolderAhead(ps, i, j);
    } else {
      HolderBehind(ps, i, j);
    }
  }

  /** Splitting the table at seat `j` splits the holders there, and a holder in seat `j`
      heads the second part. */
  lemma SplitAtHolder(ps: seq<Player>, j: nat)
    requires j < |ps| && ps[j].HasCards()
    ensures Survivors(ps) == Survivors(ps[..j]) + Survivors(ps[j..])
    ensures Survivors(ps[j..]) != [] && Survivors(ps[j..])[0] == ps[j]
  {
    assert ps == ps[..j] + ps[j..];
    SurvivorsAppend(ps[..j], ps[j..]);
    SurvivorsHead(ps[j..]);
  }

  lemma HolderAhead(ps: seq<Player>, i: nat, j: nat)
    requires i <= j < |ps| && ps[j].HasCards()
    requires forall m :: i <= m < j ==> !ps[m].HasCards()
    ensures Survivors(ps) != []
    ensures |Survivors(ps[..i])| < |Survivors(ps)| && Survivors(ps)[|Survivors(ps[..i])|] == ps[j]
  {
    var a, b := Survivors(ps[..i]), Survivors(ps[j..]);
    SplitAtHolder(ps, j);
    assert Survivors(ps[..j]) == a by {
      assert ps[..j] == ps[..i] + ps[i..j];
      SurvivorsAppend(ps[..i], ps[i..j]);
      SurvivorsNone(ps[i..j]);
    }
    assert Survivors(ps) == a + b;
    assert (a + b)[|a|] == b[0];
  }

  lemma HolderBehind(ps: seq<Player>, i: nat, j: nat)
    requires j < i < |ps| && ps[j].HasCards()
    requires forall m :: i <= m < |ps| ==> !ps[m].HasCards()
    requires forall m :: 0 <= m < j ==> !ps[m].HasCards()
    ensures Survivors(ps) != []
    ensures |Survivors(ps[..i])| == |Survivors(ps)| && Survivors(ps)[0] == ps[j]
  {
    var b := Survivors(ps[j..]);
    SplitAtHolder(ps, j);
    assert Survivors(ps) == b by {
      SurvivorsNone(ps[..j]);
    }
    assert Survivors(ps[..i]) == b by {
      assert ps == ps[..i] + ps[i..];
      SurvivorsAppend(ps[..i], ps[i..]);
      SurvivorsNone(ps[i..]);
    }
  }

  /** The main loop's compaction, corrected: the seat index, and the attack target, keep
      naming the same player when players before them leave, and a seat whose player left
      passes to the next holder. */
  function FixedCompact(g: Game): (r: (Status, Game))
    requires g.current < |g.players|
    ensures r.1.players == Survivors(g.players)
    ensures r.0 == Continues <==> |Survivors(g.players)| >= 2
    ensures r.0 != Fails
  {
    var s := Survivors(g.players);
    if |s| <= 1 then (Ends, g.(players := s))
    else
      var k := CompactIndex(g.players, g.current);
      var target := match g.target
        case None => None
        case Some(t) => if t < |g.players| then Some(CompactIndex(g.players, t)) else None;
      (Continues, g.(players := s, current := k, target := target))
  }

  /** A turn whose next seat is counted modulo the players still at the table. */
  function FixedTurn(g: Game, pick: nat): (r: (Status, Game))
    requires Ready(g) && PickFits(g, pick)
    ensures |r.1.players| == |g.players|
  {
    TurnWith(g, pick, SeatAfter(g.current, |g.players|))
  }

  /** The corrected turn never fails, and a turn that goes on leaves a seat index in range. */
  lemma FixedTurnNeverFails(g: Game, pick: nat)
    requires Ready(g) && PickFits(g, pick)
    ensures var r := FixedTurn(g, pick);
            r.0 != Fails && (r.0 == Continues ==> Ready(r.1))
  {
    var next := SeatAfter(g.current, |g.players|);
    TurnFrame(g, pick, next);
    TurnFailsOnlyPastEnd(g, pick, next);
  }

  /** One pass of the main loop with both corrections. */
  function FixedRound(g: Game, pick: nat): (r: (Status, Game))
    requires Ready(g) && PickFits(g, pick)
    ensures r.0 != Fails
    ensures |r.1.players| <= |g.players|
  {
    var t := FixedTurn(g, pick);
    FixedTurnNeverFails(g, pick);
    if t.0 == Continues then FixedCompact(t.1) else t
  }

  /** The corrected pass keeps the loop's invariant, never fails, and keeps any pending
      attack aimed at the player who moves next. */
  lemma FixedRoundReady(g: Game, pick: nat)
    requires Ready(g) && PickFits(g, pick) && |g.players| >= 2 && AttackOnMover(g)
    ensures var r := FixedRound(g, pick);
            r.0 != Fails && r.1.numPlayers == g.numPlayers &&
            (r.0 == Continues ==>
               Ready(r.1) && AllHoldCards(r.1.players) && |r.1.players| >= 2 && AttackOnMover(r.1))
  {
    var next := SeatAfter(g.current, |g.players|);
    FixedTurnNeverFails(g, pick);
    TurnFrame(g, pick, next);
    TurnKeepsAttackOnMover(g, pick, next);
  }

  /** After a corrected pass, the player to move is the first one still holding cards from
      the seat the turn handed over to, wrapping round. */
  lemma FixedRoundMover(g: Game, pick: nat, j: nat)
    requires Ready(g) && PickFits(g, pick)
    requires var t := FixedTurn(g, pick);
             t.0 == Continues && NextHolder(t.1.players, t.1.current, j)
    ensures var t, r := FixedTurn(g, pick), FixedRound(g, pick);
            r.0 == Continues ==> r.1.players[r.1.current] == t.1.players[j]
  {
    var t := FixedTurn(g, pick);
    FixedTurnNeverFails(g, pick);
    CompactIndexFinds(t.1.players, t.1.current, j);
  }

  const Alice := Player(1, [Card(5)], [], [])
  const Bob := Player(2, [Card(Ace)], [], [])
  const Carol := Player(3, [Card(5)], [], [])

  /** Three players; Bob, in seat 1, plays his last card, an Ace, at Carol in seat 2. */
  const LastAce := Game(3, [Alice, Bob, Carol], [], [], 1, 0, None)

  lemma LastAceMove()
    ensures Move(LastAce, 0) == Some([Card(Ace)])
  {
    assert LegalCards([], [Card(Ace)], false) == [Card(Ace)];
    assert OfRank([Card(Ace)], Ace) == [Card(Ace)];
  }

  /** The state after Bob's turn: his hand is empty, the Ace is on the pile, and seat 2 is
      both the target and the next to move. */
  const AfterLastAce := LastAce.(players := [Alice, Bob.(hand := []), Carol], pile := [Card(Ace)],
                                 current := 2, target := Some(2))

  lemma LastAceTurn()
    ensures Turn(LastAce, 0) == (Continues, AfterLastAce)
    ensures FixedTurn(LastAce, 0) == (Continues, AfterLastAce)
  {
    LastAceMove();
    TurnIsPlay(LastAce, 0, 2, [Card(Ace)]);
    LastAcePlay();
  }

  lemma LastAcePlay()
    ensures Play(LastAce, [Card(Ace)], 2) == (Continues, AfterLastAce)
  {
    var g1 := LastAce.(players := [Alice, Bob.(hand := []), Carol], pile := [Card(Ace)]);
    assert Stack(LastAce, [Card(Ace)]) == g1 by {
      var r := PlayAll(Bob, [], [Card(Ace)]);
      PlayAllFromHand(Bob, [], [Card(Ace)]);
      assert r.0 == Bob.(hand := []) && r.1 == [Card(Ace)];
    }
    assert Refill(g1) == g1 by {
      DrawLength([], []);
    }
  }

  lemma AfterLastAceSurvivors()
    ensures Survivors(AfterLastAce.players) == [Alice, Carol]
  {
    var ps := AfterLastAce.players;
    assert Survivors([Alice]) == [Alice] by {
      assert [Alice][..0] == [];
    }
    assert Survivors(ps[..2]) == [Alice] by {
      assert ps[..2][..1] == [Alice];
    }
  }

  /** As written, Bob leaves, Carol's seat 2 becomes 2 mod 2 = 0, and Alice moves: Carol loses
      her turn, and the attack stays aimed at seat 2, which no longer exists. */
  lemma RoundLosesAttack()
    ensures NextHolder(Turn(LastAce, 0).1.players, 2, 2)
    ensures var r := Round(LastAce, 0);
            r.0 == Continues && r.1.players == [Alice, Carol] &&
            r.1.players[r.1.current] == Alice && r.1.target == Some(2) && !AttackOnMover(r.1)
  {
    LastAceTurn();
    AfterLastAceSurvivors();
  }

  /** Corrected, Carol moves and defends against the attack. */
  lemma FixedRoundDefends()
    ensures var r := FixedRound(LastAce, 0);
            r.0 == Continues && r.1.players == [Alice, Carol] &&
            r.1.players[r.1.current] == Carol && r.1.target == Some(r.1.current)
  {
    LastAceTurn();
    AfterLastAceSurvivors();
    CompactIndexFinds(AfterLastAce.players, 2, 2);
  }

  /** Two players left of three; Carol, now in seat 1, plays an Ace. */
  const AceAfterLeave := Game(3, [Alice, Carol.(hand := [Card(Ace)])], [], [], 1, 0, None)

  /** As written, the target seat is 2 mod 3 = 2, past the end of the two-player list: the
      turn fails. */
  lemma TurnFailsAfterLeave()
    ensures Turn(AceAfterLeave, 0).0 == Fails
  {
    assert LegalCards([], [Card(Ace)], false) == [Card(Ace)];
    assert OfRank([Card(Ace)], Ace) == [Card(Ace)];
    TurnAttack(AceAfterLeave, 0, 2, [Card(Ace)]);
  }

  /** Corrected, the attack goes to Alice in seat 0, who moves next. */
  lemma FixedTurnAttacksAlice()
    ensures var r := FixedTurn(AceAfterLeave, 0);
            r.0 == Continues && r.1.current == 0 && r.1.target == Some(0)
  {
    assert LegalCards([], [Card(Ace)], false) == [Card(Ace)];
    assert OfRank([Card(Ace)], Ace) == [Card(Ace)];
    TurnAttack(AceAfterLeave, 0, 0, [Card(Ace)]);
  }
}

/** What may be played on the pile, and when the pile burns. */
module Rules {
  import opened Cards

  /** The rank of the most recently played card, or None on an empty pile. */
  function TopRank(pile: seq<Card>): (t: Option<Rank>)
    ensures t.None? <==> pile == []
    ensures t.Some? ==> Card(t.value) == pile[|pile| - 1]
  {
    if pile == [] then None else Some(pile[|pile| - 1].rank)
  }

  /** Whether `card` may be played on `pile`. The flags are the source's: `isAceDefense`
      restricts the answer to the defensive ranks, and `isBlind` admits every card once the
      wild ranks have been checked. */
  function CanPlayCard(pile: seq<Card>, card: Card, isBlind: bool, isAceDefense: bool): (ok: bool)
    ensures pile == [] ==> ok
    ensures pile != [] && isAceDefense ==> (ok <==> IsWild(card.rank))
    ensures pile != [] && !isAceDefense && (IsWild(card.rank) || isBlind) ==> ok
    ensures pile != [] && !isAceDefense && !isBlind && !IsWild(card.rank) ==>
              (ok <==> if pile[|pile| - 1].rank == Seven then card.rank <= Seven
                       else card.rank >= pile[|pile| - 1].rank)
  {
    if pile == [] then true
    else if isAceDefense then
      card.rank in [Two, Ten, Three, Ace]
    else if card.rank == Ten then true
    else if card.rank == Two then true
    else if card.rank == Three then true
    else if card.rank == Ace then true
    else if isBlind then true
    else
      var top := TopRank(pile).value;
      if top == Seven then card.rank <= Seven
      else card.rank >= top
  }

  /** The test a blind (face-down) pick has to pass once it has been turned over. It passes
      whenever a normal play would, and in exactly one more situation: a non-wild card above 7
      turned over on a 7. */
  function BlindLegal(pile: seq<Card>, card: Card): (ok: bool)
    ensures ok <==> CanPlayCard(pile, card, false, false) ||
                    (pile != [] && pile[|pile| - 1].rank == Seven && card.rank > Seven)
  {
    if pile == [] then true
    else
      var top := TopRank(pile).value;
      card.rank >= top || card.rank in [Two, Three, Ten, Ace] || (top == Seven && card.rank <= Seven)
  }

  /** Whether the pile burns: its top card is a 10, or its last four cards share one rank. */
  function CheckForBurn(pile: seq<Card>): (burn: bool)
    ensures burn <==> |pile| > 0 && (pile[|pile| - 1].rank == Ten ||
                        (|pile| >= 4 && pile[|pile| - 4] == pile[|pile| - 3] == pile[|pile| - 2] == pile[|pile| - 1]))
  {
    if pile == [] then false
    else if pile[|pile| - 1].rank == Ten then true
    else if |pile| >= 4 then
      var lastFour := pile[|pile| - 4..];
      forall k | 0 <= k < 4 :: lastFour[k].rank == lastFour[0].rank
    else false
  }

  /** Outside a defence, the legal cards are the wild ranks plus, on a 7, the ranks up to 7,
      and on any other top, the ranks from the top upwards. */
  lemma NormalLegality(pile: seq<Card>, card: Card)
    requires pile != []
    ensures CanPlayCard(pile, card, false, false) <==>
              IsWild(card.rank) ||
              (pile[|pile| - 1].rank == Seven && card.rank <= Seven) ||
              (pile[|pile| - 1].rank != Seven && card.rank >= pile[|pile| - 1].rank)
  {
  }

  /** A defence admits a subset of what a normal turn admits. */
  lemma DefenceIsStricter(pile: seq<Card>, card: Card)
    ensures CanPlayCard(pile, card, false, true) ==> CanPlayCard(pile, card, false, false)
  {
  }

  /** The `isBlind` flag of CanPlayCard admits every card outside a defence. */
  lemma BlindFlagAdmitsAll(pile: seq<Card>, card: Card)
    ensures CanPlayCard(pile, card, true, false)
  {
  }

  /** A 10 on top burns the pile, whatever lies beneath it. */
  lemma TenBurns(below: seq<Card>)
    ensures CheckForBurn(below + [Card(Ten)])
  {
  }

  /** Four cards of one rank on top burn the pile, whatever lies beneath them. */
  lemma FourOfAKindBurns(below: seq<Card>, r: Rank)
    ensures CheckForBurn(below + [Card(r), Card(r), Card(r), Card(r)])
  {
  }

  /** Only the last four cards matter: two piles that end in the same four cards burn alike. */
  lemma BurnSeesOnlyLastFour(p: seq<Card>, q: seq<Card>, top: seq<Card>)
    requires |top| >= 4
    ensures CheckForBurn(p + top) == CheckForBurn(q + top)
  {
    var s, t := p + top, q + top;
    assert s[|s| - 4..] == top[|top| - 4..] == t[|t| - 4..];
  }

  /** With fewer than four cards, only a 10 on top burns; an empty pile never burns. */
  lemma ShortPileBurnsOnlyOnTen(pile: seq<Card>)
    requires |pile| < 4
    ensures CheckForBurn(pile) <==> pile != [] && pile[|pile| - 1].rank == Ten
  {
  }
}

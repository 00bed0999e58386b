/**
 The records of the odds provider's payload, as the arbitrage finder sees them
 after decoding: sports, matches, per-bookmaker markets and their outcomes,
 and the arbitrage records the finder produces.

 Prices and the implied-probability sum are float64 in the program; they are
 carried here as `real` and never computed on, because the routines that read
 them are outside this model.
 */
module Odds {

  /** A sport listed by the provider. Outright (tournament-winner) sports are never evaluated. */
  datatype Sport = Sport(sportKey: string, hasOutrights: bool)

  /** One priced result of a market. `bookmakerKey` is not part of the payload:
      the program fills it in after decoding. */
  datatype Outcome = Outcome(bookmakerKey: string, name: string, price: real)

  datatype Market = Market(outcomes: seq<Outcome>)

  /** One bookmaker's quotes for a match; only its first market is ever looked at. */
  datatype Bookmaker = Bookmaker(bookmakerKey: string, markets: seq<Market>)

  datatype Match = Match(
    matchId: string,
    sportKey: string,
    sportTitle: string,
    commenceTime: string,
    homeTeam: string,
    awayTeam: string,
    bookmakers: seq<Bookmaker>)

  /** An arbitrage opportunity: match metadata, the chosen outcomes and their
      implied-probability sum `r` (below 1 for a genuine arbitrage). */
  datatype Arb = Arb(
    matchId: string,
    sportKey: string,
    sportTitle: string,
    commenceTime: string,
    homeTeam: string,
    awayTeam: string,
    outcomes: seq<Outcome>,
    r: real)

  /** The classifier reads `Markets[0]` of every bookmaker without a check, so a
      bookmaker with no market makes the program fail. */
  predicate HasMarket(b: Bookmaker) {
    |b.markets| > 0
  }

  /** Every bookmaker of the match can be classified. */
  predicate WellFormed(m: Match) {
    forall i :: 0 <= i < |m.bookmakers| ==> HasMarket(m.bookmakers[i])
  }

  predicate AllWellFormed(ms: seq<Match>) {
    forall i :: 0 <= i < |ms| ==> WellFormed(ms[i])
  }

  /** The number of outcomes of a bookmaker's first market. */
  function FirstMarketSize(b: Bookmaker): nat
    requires HasMarket(b)
  {
    |b.markets[0].outcomes|
  }
}

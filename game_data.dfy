/**
 * The game session, reduced to the two parts the stock-market service uses:
 * the players in seating order and the game's stock market.
 */
module GameData {
  import opened PlayerData
  import opened StockMarketData

  class Game {
    var Players: seq<Player>
    var StockMarket: StockMarket

    constructor (players: seq<Player>, market: StockMarket)
      ensures Players == players && StockMarket == market
    {
      Players, StockMarket := players, market;
    }
  }
}

/**
 * The stock market's data: the catalog entry of a security, its live state
 * (with the derived change figures) and a player's position in it.
 */
module StockMarketData {
  import opened Wrappers
  import opened Money

  datatype StockCategory = Penny | BlueChip | ETF

  /** A catalog entry. `StdDev` only feeds the random price walk. */
  datatype StockDefinition = StockDefinition(
    Ticker: string,
    Name: string,
    Category: StockCategory,
    StartingPrice: real,
    StdDev: real,
    DividendYield: real,
    ComponentTickers: Option<seq<string>>)

  /** A security as it trades in one game. */
  datatype StockState = StockState(
    Ticker: string,
    Name: string,
    Category: StockCategory,
    CurrentPrice: real,
    PreviousPrice: real,
    DividendYield: real,
    ComponentTickers: Option<seq<string>>)
  {
    /** How much the price moved on the last update. */
    function Change(): (c: real)
      ensures PreviousPrice + c == CurrentPrice
      ensures c > 0.0 <==> CurrentPrice > PreviousPrice
    {
      CurrentPrice - PreviousPrice
    }

    /** The last move in percent of the previous price, rounded to two places; 0 when there was no previous price. */
    function ChangePercent(): (p: real)
      ensures IsCents(p)
      ensures PreviousPrice == 0.0 ==> p == 0.0
      ensures PreviousPrice != 0.0 ==> p == Round2((CurrentPrice - PreviousPrice) / PreviousPrice * 100.0)
    {
      if PreviousPrice != 0.0 then Round2((CurrentPrice - PreviousPrice) / PreviousPrice * 100.0) else 0.0
    }
  }

  /**
   * With a positive previous price, the percentage never has the opposite
   * sign to the change: a rise never shows as a negative percentage and a
   * fall never as a positive one.
   */
  lemma ChangePercentFollowsChange(s: StockState)
    requires s.PreviousPrice > 0.0
    ensures s.Change() >= 0.0 ==> s.ChangePercent() >= 0.0
    ensures s.Change() <= 0.0 ==> s.ChangePercent() <= 0.0
  {
    var d := s.CurrentPrice - s.PreviousPrice;
    var ratio := d / s.PreviousPrice * 100.0;
    assert ratio * s.PreviousPrice == d * 100.0;
    assert d >= 0.0 ==> ratio >= 0.0;
    assert d <= 0.0 ==> ratio <= 0.0;
    Round2Sign(ratio);
  }

  /** A player's holding in one security, with its volume-weighted average cost. */
  datatype StockPosition = StockPosition(Ticker: string, Quantity: int, AverageCost: real)

  class StockMarket {
    var Stocks: seq<StockState>
    var TurnNumber: int

    constructor ()
      ensures Stocks == [] && TurnNumber == 0
    {
      Stocks, TurnNumber := [], 0;
    }
  }
}

/**
 * The stock market of a game: the fixed catalog of ten securities, the
 * per-turn random walk of prices, ETF prices derived from their components,
 * buying and selling shares, and the monthly dividend income of holdings.
 *
 * Every operation that changes state is a method that follows the server's
 * loop step by step; each is proved equal to a function on values
 * (`RecalculatedETFs`, `SteppedPrices`, `Buy`, `Sell`, `DividendTotal`), and
 * the properties of the market are proved about those functions.
 */
module StockMarketService {
  import opened Wrappers
  import opened Money
  import opened Collections
  import opened StockMarketData
  import opened PlayerData
  import opened GameData

  /** The catalog, in listing order: two penny stocks, six blue chips and two ETFs. */
  const Definitions: seq<StockDefinition> := [
    StockDefinition("MEME", "MemeKing Inc.", Penny, 8.0, 0.15, 0.0, None),
    StockDefinition("YOLO", "YOLO Therapeutics", Penny, 14.0, 0.18, 0.02, None),
    StockDefinition("BURG", "BurgerVerse Corp.", BlueChip, 45.0, 0.04, 0.03, None),
    StockDefinition("SOCK", "SockDraw Holdings", BlueChip, 62.0, 0.03, 0.025, None),
    StockDefinition("BEAN", "MagicBean Financial", BlueChip, 38.0, 0.05, 0.0, None),
    StockDefinition("NAPS", "NapTime Industries", BlueChip, 75.0, 0.035, 0.02, None),
    StockDefinition("GLUE", "SuperGlue Systems", BlueChip, 55.0, 0.04, 0.0, None),
    StockDefinition("DUCK", "RubberDuck Energy", BlueChip, 50.0, 0.045, 0.0, None),
    StockDefinition("TOTL", "Total Chaos ETF", ETF, 0.0, 0.0, 0.0,
                    Some(["MEME", "YOLO", "BURG", "SOCK", "BEAN", "NAPS", "GLUE", "DUCK"])),
    StockDefinition("BLUE", "Blue Chip Bliss ETF", ETF, 0.0, 0.0, 0.0,
                    Some(["BURG", "SOCK", "BEAN", "NAPS", "GLUE", "DUCK"]))
  ]

  /** The smallest price a security can fall to. */
  const MIN_PRICE: real := 0.01
  /** Bounds of the per-turn relative price change. */
  const MIN_CHANGE: real := -0.90
  const MAX_CHANGE: real := 9.0

  // ---------------------------------------------------------------------------
  // Looking things up by ticker

  function StockTickers(stocks: seq<StockState>): (t: seq<string>)
    ensures |t| == |stocks| && forall i :: 0 <= i < |stocks| ==> t[i] == stocks[i].Ticker
  {
    seq(|stocks|, i requires 0 <= i < |stocks| => stocks[i].Ticker)
  }

  function PositionTickers(ps: seq<StockPosition>): (t: seq<string>)
    ensures |t| == |ps| && forall i :: 0 <= i < |ps| ==> t[i] == ps[i].Ticker
  {
    seq(|ps|, i requires 0 <= i < |ps| => ps[i].Ticker)
  }

  function CatalogTickers(): (t: seq<string>)
    ensures |t| == |Definitions| && forall i :: 0 <= i < |Definitions| ==> t[i] == Definitions[i].Ticker
  {
    seq(|Definitions|, i requires 0 <= i < |Definitions| => Definitions[i].Ticker)
  }

  /** Index of the first security with the ticker (`FirstOrDefault`), or `|stocks|` when none has it. */
  function FindStock(stocks: seq<StockState>, ticker: string): (k: nat)
    ensures k <= |stocks|
    ensures k < |stocks| ==> stocks[k].Ticker == ticker
    ensures forall j :: 0 <= j < k ==> stocks[j].Ticker != ticker
  {
    IndexOf(StockTickers(stocks), ticker)
  }

  /** Index of the first position in the ticker, or `|ps|` when the player holds none. */
  function FindPosition(ps: seq<StockPosition>, ticker: string): (k: nat)
    ensures k <= |ps|
    ensures k < |ps| ==> ps[k].Ticker == ticker
    ensures forall j :: 0 <= j < k ==> ps[j].Ticker != ticker
  {
    IndexOf(PositionTickers(ps), ticker)
  }

  /** The current price of the first security with the ticker, if the market lists it. */
  function Quote(stocks: seq<StockState>, ticker: string): (q: Option<real>)
    ensures q.Some? <==> ticker in StockTickers(stocks)
  {
    var k := FindStock(stocks, ticker);
    if k < |stocks| then Some(stocks[k].CurrentPrice) else None
  }

  /** How many shares of the ticker the first matching position holds (0 without a position). */
  function HeldQuantity(ps: seq<StockPosition>, ticker: string): int
  {
    var k := FindPosition(ps, ticker);
    if k < |ps| then ps[k].Quantity else 0
  }

  /** Positions with the same tickers in the same order are searched identically. */
  lemma FindPositionByTickers(a: seq<StockPosition>, b: seq<StockPosition>, ticker: string)
    requires PositionTickers(a) == PositionTickers(b)
    ensures FindPosition(a, ticker) == FindPosition(b, ticker)
  {
  }

  // ---------------------------------------------------------------------------
  // ETF prices

  /** The securities whose ticker is listed, in market order (`Where(... Contains ...)`). */
  function Components(stocks: seq<StockState>, tickers: seq<string>): (c: seq<StockState>)
    ensures |c| <= |stocks|
  {
    if |stocks| == 0 then []
    else if stocks[0].Ticker in tickers then [stocks[0]] + Components(stocks[1..], tickers)
    else Components(stocks[1..], tickers)
  }

  /** The components are exactly the listed securities whose ticker is among the tickers. */
  lemma {:induction false} ComponentsMembers(stocks: seq<StockState>, tickers: seq<string>)
    ensures forall x :: x in Components(stocks, tickers) <==> x in stocks && x.Ticker in tickers
  {
    if |stocks| > 0 {
      ComponentsMembers(stocks[1..], tickers);
      assert forall x :: x in stocks <==> x == stocks[0] || x in stocks[1..];
    }
  }

  function SumPrices(c: seq<StockState>): real
  {
    if |c| == 0 then 0.0 else c[0].CurrentPrice + SumPrices(c[1..])
  }

  function SumYields(c: seq<StockState>): real
  {
    if |c| == 0 then 0.0 else c[0].DividendYield + SumYields(c[1..])
  }

  /** `Average(s => s.CurrentPrice)` over a non-empty list. */
  function MeanPrice(c: seq<StockState>): (r: real)
    requires |c| > 0
    ensures r * |c| as real == SumPrices(c)
  {
    SumPrices(c) / |c| as real
  }

  /** `Average(s => s.DividendYield)` over a non-empty list. */
  function MeanYield(c: seq<StockState>): real
    requires |c| > 0
  {
    SumYields(c) / |c| as real
  }

  /** An ETF with a non-empty list of component tickers; others are skipped. */
  predicate IsPricedETF(s: StockState)
  {
    s.Category == ETF && s.ComponentTickers.Some? && |s.ComponentTickers.value| > 0
  }

  /** Some listed security has the ticker. */
  predicate Listed(stocks: seq<StockState>, ticker: string)
  {
    exists j :: 0 <= j < |stocks| && stocks[j].Ticker == ticker
  }

  /**
   * Every priced ETF lists at least one security that the market carries:
   * otherwise averaging its (empty) components throws.
   */
  predicate ComponentsPresent(stocks: seq<StockState>)
  {
    forall i :: 0 <= i < |stocks| && IsPricedETF(stocks[i]) ==>
      |Components(stocks, stocks[i].ComponentTickers.value)| > 0
  }

  /** Which securities are components depends only on the tickers, so their number does too. */
  lemma {:induction false} ComponentsCountByTickers(a: seq<StockState>, b: seq<StockState>, tickers: seq<string>)
    requires |a| == |b| && forall k :: 0 <= k < |a| ==> a[k].Ticker == b[k].Ticker
    ensures |Components(a, tickers)| == |Components(b, tickers)|
  {
    if |a| > 0 {
      ComponentsCountByTickers(a[1..], b[1..], tickers);
    }
  }

  /** Whenever an ETF's component tickers name a listed security, its components are not empty. */
  lemma ComponentsNonEmpty(stocks: seq<StockState>, tickers: seq<string>, t: string)
    requires t in tickers && Listed(stocks, t)
    ensures |Components(stocks, tickers)| > 0
  {
    var j :| 0 <= j < |stocks| && stocks[j].Ticker == t;
    ComponentsMembers(stocks, tickers);
    assert stocks[j] in Components(stocks, tickers);
  }

  /** The one update an ETF receives: its price becomes the rounded mean of its components' prices. */
  function ETFUpdate(stocks: seq<StockState>, etf: StockState): (u: StockState)
    requires IsPricedETF(etf) ==> |Components(stocks, etf.ComponentTickers.value)| > 0
    ensures u.Ticker == etf.Ticker && u.Name == etf.Name && u.Category == etf.Category
    ensures u.ComponentTickers == etf.ComponentTickers
    ensures !IsPricedETF(etf) ==> u == etf
  {
    if !IsPricedETF(etf) then etf
    else
      var c := Components(stocks, etf.ComponentTickers.value);
      etf.(PreviousPrice := etf.CurrentPrice,
           CurrentPrice := Round2(MeanPrice(c)),
           DividendYield := MeanYield(c))
  }

  /** Same tickers, categories and component lists, position by position. */
  predicate SameShape(a: seq<StockState>, b: seq<StockState>)
  {
    |a| == |b| &&
    forall i :: 0 <= i < |a| ==>
      a[i].Ticker == b[i].Ticker && a[i].Category == b[i].Category && a[i].ComponentTickers == b[i].ComponentTickers
  }

  lemma SameShapeKeepsPresence(a: seq<StockState>, b: seq<StockState>)
    requires SameShape(a, b) && ComponentsPresent(a)
    ensures ComponentsPresent(b)
  {
    forall i | 0 <= i < |b| && IsPricedETF(b[i])
      ensures |Components(b, b[i].ComponentTickers.value)| > 0
    {
      ComponentsCountByTickers(a, b, b[i].ComponentTickers.value);
    }
  }

  /**
   * The ETF pass from index `i` on: ETFs are updated in market order, each
   * against the market as the pass has left it so far.
   */
  function RecalcFrom(stocks: seq<StockState>, i: nat): (r: seq<StockState>)
    requires i <= |stocks| && ComponentsPresent(stocks)
    ensures SameShape(stocks, r)
    ensures forall k :: 0 <= k < |r| && (k < i || !IsPricedETF(stocks[k])) ==> r[k] == stocks[k]
    decreases |stocks| - i
  {
    if i == |stocks| then stocks
    else
      var next := stocks[i := ETFUpdate(stocks, stocks[i])];
      SameShapeKeepsPresence(stocks, next);
      RecalcFrom(next, i + 1)
  }

  /** The market after `RecalculateETFPrices`. */
  function RecalculatedETFs(stocks: seq<StockState>): (r: seq<StockState>)
    requires ComponentsPresent(stocks)
    ensures SameShape(stocks, r)
    ensures forall k :: 0 <= k < |r| && !IsPricedETF(stocks[k]) ==> r[k] == stocks[k]
  {
    RecalcFrom(stocks, 0)
  }

  /** No priced ETF lists another ETF among its components. */
  predicate NoNestedETFs(stocks: seq<StockState>)
  {
    forall i, j ::
      (0 <= i < |stocks| && 0 <= j < |stocks| && IsPricedETF(stocks[i]) &&
       stocks[j].Ticker in stocks[i].ComponentTickers.value) ==> stocks[j].Category != ETF
  }

  /** Two markets that agree on every security with a listed ticker yield the same components. */
  lemma {:induction false} ComponentsAgree(a: seq<StockState>, b: seq<StockState>, tickers: seq<string>)
    requires |a| == |b|
    requires forall k :: 0 <= k < |a| ==> a[k].Ticker == b[k].Ticker && (a[k].Ticker in tickers ==> a[k] == b[k])
    ensures Components(a, tickers) == Components(b, tickers)
  {
    if |a| > 0 {
      ComponentsAgree(a[1..], b[1..], tickers);
    }
  }

  /** An ETF sees the same components in a market whose only changes so far are to other ETFs. */
  lemma UpdateAgainstOriginal(orig: seq<StockState>, cur: seq<StockState>, e: StockState)
    requires ComponentsPresent(orig) && NoNestedETFs(orig) && e in orig
    requires |orig| == |cur| && ComponentsPresent(cur)
    requires forall k :: 0 <= k < |cur| ==> cur[k].Ticker == orig[k].Ticker
    requires forall k :: 0 <= k < |cur| && orig[k].Category != ETF ==> cur[k] == orig[k]
    requires IsPricedETF(e) ==> |Components(cur, e.ComponentTickers.value)| > 0
    ensures ETFUpdate(cur, e) == ETFUpdate(orig, e)
  {
    if IsPricedETF(e) {
      var tickers := e.ComponentTickers.value;
      forall k | 0 <= k < |cur| && cur[k].Ticker in tickers
        ensures cur[k] == orig[k]
      {
        var i :| 0 <= i < |orig| && orig[i] == e;
        assert orig[k].Category != ETF;
      }
      ComponentsAgree(cur, orig, tickers);
    }
  }

  /**
   * The market part-way through the pass, as the claim below describes it:
   * the first `i` securities updated against the original market, the rest
   * untouched.
   */
  function Partial(orig: seq<StockState>, i: nat): (p: seq<StockState>)
    requires ComponentsPresent(orig) && i <= |orig|
    ensures |p| == |orig|
    ensures forall k :: 0 <= k < |orig| ==> p[k] == if k < i then ETFUpdate(orig, orig[k]) else orig[k]
  {
    seq(|orig|, k requires 0 <= k < |orig| && ComponentsPresent(orig) => if k < i then ETFUpdate(orig, orig[k]) else orig[k])
  }

  lemma PartialPresent(orig: seq<StockState>, i: nat)
    requires ComponentsPresent(orig) && i <= |orig|
    ensures SameShape(orig, Partial(orig, i)) && ComponentsPresent(Partial(orig, i))
  {
    SameShapeKeepsPresence(orig, Partial(orig, i));
  }

  /** Updating the next ETF of the partial market against that market yields the next partial market. */
  lemma PartialStep(orig: seq<StockState>, i: nat)
    requires ComponentsPresent(orig) && NoNestedETFs(orig) && i < |orig|
    ensures ComponentsPresent(Partial(orig, i))
    ensures var p := Partial(orig, i); p[i := ETFUpdate(p, p[i])] == Partial(orig, i + 1)
  {
    var p := Partial(orig, i);
    PartialPresent(orig, i);
    UpdateAgainstOriginal(orig, p, orig[i]);
    assert p[i := ETFUpdate(p, p[i])] == Partial(orig, i + 1);
  }

  /** The pass from `i` on turns the partial market at `i` into the fully updated one. */
  lemma {:induction false} RecalcFromPartial(orig: seq<StockState>, i: nat)
    requires ComponentsPresent(orig) && NoNestedETFs(orig) && i <= |orig|
    ensures ComponentsPresent(Partial(orig, i))
    ensures RecalcFrom(Partial(orig, i), i) == Partial(orig, |orig|)
    decreases |orig| - i
  {
    PartialPresent(orig, i);
    if i < |orig| {
      var p := Partial(orig, i);
      PartialStep(orig, i);
      RecalcFromStep(p, i);
      RecalcFromPartial(orig, i + 1);
    }
  }

  /** One step of the pass. */
  lemma RecalcFromStep(stocks: seq<StockState>, i: nat)
    requires i < |stocks| && ComponentsPresent(stocks)
    ensures ComponentsPresent(stocks[i := ETFUpdate(stocks, stocks[i])])
    ensures RecalcFrom(stocks, i) == RecalcFrom(stocks[i := ETFUpdate(stocks, stocks[i])], i + 1)
  {
    SameShapeKeepsPresence(stocks, stocks[i := ETFUpdate(stocks, stocks[i])]);
  }

  /**
   * When no ETF is built from other ETFs, updating them one after the other
   * is the same as updating each against the market as it stood before the
   * pass: every priced ETF gets the rounded mean price and the mean yield of
   * its components, its old price becomes its previous price, and every
   * other security is left as it was.
   */
  lemma ETFsTrackComponents(stocks: seq<StockState>)
    requires ComponentsPresent(stocks) && NoNestedETFs(stocks)
    ensures |RecalculatedETFs(stocks)| == |stocks|
    ensures forall k :: 0 <= k < |stocks| ==> RecalculatedETFs(stocks)[k] == ETFUpdate(stocks, stocks[k])
  {
    RecalcFromPartial(stocks, 0);
    assert Partial(stocks, 0) == stocks;
  }

  /** `RecalculateETFPrices`: re-prices every priced ETF in market order. */
  method RecalculateETFPrices(market: StockMarket)
    requires ComponentsPresent(market.Stocks)
    modifies market
    ensures market.Stocks == RecalculatedETFs(old(market.Stocks))
    ensures market.TurnNumber == old(market.TurnNumber)
  {
    var i := 0;
    while i < |market.Stocks|
      invariant i <= |market.Stocks| && ComponentsPresent(market.Stocks)
      invariant RecalcFrom(market.Stocks, i) == RecalculatedETFs(old(market.Stocks))
      invariant market.TurnNumber == old(market.TurnNumber)
    {
      ghost var before := market.Stocks;
      var etf := market.Stocks[i];
      if etf.Category == ETF && etf.ComponentTickers.Some? && |etf.ComponentTickers.value| > 0 {
        var components := Components(market.Stocks, etf.ComponentTickers.value);
        var oldPrice := etf.CurrentPrice;
        market.Stocks := market.Stocks[i := etf.(PreviousPrice := oldPrice,
                                                 CurrentPrice := Round2(MeanPrice(components)),
                                                 DividendYield := MeanYield(components))];
      }
      assert market.Stocks == before[i := ETFUpdate(before, etf)];
      SameShapeKeepsPresence(before, market.Stocks);
      i := i + 1;
    }
  }

  lemma {:induction false} SumPricesAtLeast(c: seq<StockState>, lo: real)
    requires forall x :: x in c ==> x.CurrentPrice >= lo
    ensures SumPrices(c) >= lo * |c| as real
  {
    if |c| > 0 {
      assert forall x :: x in c[1..] ==> x in c;
      SumPricesAtLeast(c[1..], lo);
      ScaleStep(lo, |c[1..]|);
    }
  }

  /** Every component of a list of tickers costs at least what every listed security with such a ticker costs. */
  lemma ComponentsAtLeast(stocks: seq<StockState>, tickers: seq<string>, lo: real)
    requires forall j :: 0 <= j < |stocks| && stocks[j].Ticker in tickers ==> stocks[j].CurrentPrice >= lo
    ensures forall x :: x in Components(stocks, tickers) ==> x.CurrentPrice >= lo
  {
    ComponentsMembers(stocks, tickers);
    forall x | x in Components(stocks, tickers)
      ensures x.CurrentPrice >= lo
    {
      var j :| 0 <= j < |stocks| && stocks[j] == x;
    }
  }

  /**
   * A priced ETF is never cheaper than its cheapest component, to the cent:
   * when every listed component costs at least `lo` (a whole number of
   * cents), the ETF costs at least `lo`.
   */
  lemma ETFPriceAtLeastComponents(stocks: seq<StockState>, etf: StockState, lo: real)
    requires IsPricedETF(etf) && |Components(stocks, etf.ComponentTickers.value)| > 0
    requires IsCents(lo)
    requires forall j :: 0 <= j < |stocks| && stocks[j].Ticker in etf.ComponentTickers.value ==> stocks[j].CurrentPrice >= lo
    ensures ETFUpdate(stocks, etf).CurrentPrice >= lo
  {
    var c := Components(stocks, etf.ComponentTickers.value);
    ComponentsAtLeast(stocks, etf.ComponentTickers.value, lo);
    MeanPriceAtLeast(c, lo);
    Round2AtLeast(MeanPrice(c), lo);
  }

  /** The mean price of securities that each cost at least `lo` is at least `lo`. */
  lemma MeanPriceAtLeast(c: seq<StockState>, lo: real)
    requires |c| > 0 && forall x :: x in c ==> x.CurrentPrice >= lo
    ensures MeanPrice(c) >= lo
  {
    SumPricesAtLeast(c, lo);
    MeanAtLeast(SumPrices(c), |c| as real, lo);
  }

  /** The mean price of securities that each cost at most `hi` is at most `hi`. */
  lemma MeanPriceAtMost(c: seq<StockState>, hi: real)
    requires |c| > 0 && forall x :: x in c ==> x.CurrentPrice <= hi
    ensures MeanPrice(c) <= hi
  {
    SumPricesAtMost(c, hi);
    MeanAtMost(SumPrices(c), |c| as real, hi);
  }

  lemma {:induction false} SumPricesAtMost(c: seq<StockState>, hi: real)
    requires forall x :: x in c ==> x.CurrentPrice <= hi
    ensures SumPrices(c) <= hi * |c| as real
  {
    if |c| > 0 {
      assert forall x :: x in c[1..] ==> x in c;
      SumPricesAtMost(c[1..], hi);
      ScaleStep(hi, |c[1..]|);
    }
  }

  lemma ScaleStep(lo: real, n: nat)
    ensures lo * (n + 1) as real == lo + lo * n as real
  {
  }

  lemma MeanAtLeast(total: real, n: real, lo: real)
    requires n > 0.0 && total >= lo * n
    ensures total / n >= lo
  {
    var m := total / n;
    assert m * n == total;
    if m < lo {
      assert (lo - m) * n == lo * n - total;
      assert (lo - m) * n > 0.0;
    }
  }

  lemma MeanAtMost(total: real, n: real, hi: real)
    requires n > 0.0 && total <= hi * n
    ensures total / n <= hi
  {
    var m := total / n;
    assert m * n == total;
    if m > hi {
      assert (m - hi) * n == total - hi * n;
      assert (m - hi) * n > 0.0;
    }
  }

  // ---------------------------------------------------------------------------
  // The per-turn random walk

  /** The unrounded price after a move by `change`, clamped to [-90%, +900%]. */
  function Moved(current: real, change: real): real
  {
    current * (1.0 + Clamp(change, MIN_CHANGE, MAX_CHANGE))
  }

  /**
   * The new price of a security that moves by `change` (a normal draw with a
   * drift of half a percent): the change is clamped to [-90%, +900%], the
   * price rounded to the cent and floored at one cent.
   */
  function NextPrice(current: real, change: real): (p: real)
    ensures p >= MIN_PRICE && IsCents(p)
    ensures p == Max(MIN_PRICE, Round2(Moved(current, change)))
  {
    assert IsCents(MIN_PRICE);
    Max(MIN_PRICE, Round2(Moved(current, change)))
  }

  /** One turn moves a non-negative price by at most a factor of ten either way, up to rounding and the floor. */
  lemma NextPriceBounds(current: real, change: real)
    requires current >= 0.0
    ensures NextPrice(current, change) >= current / 10.0 - 0.005
    ensures NextPrice(current, change) <= Max(MIN_PRICE, current * 10.0 + 0.005)
  {
    MovedWithinTenfold(current, change);
  }

  /** Scaling by `1 + c` with `c` in [-0.9, 9] stays within a factor of ten of a non-negative amount. */
  lemma MovedWithinTenfold(current: real, change: real)
    requires current >= 0.0
    ensures current / 10.0 <= Moved(current, change) <= current * 10.0
  {
    var c := Clamp(change, MIN_CHANGE, MAX_CHANGE);
    var lo, hi := c + 0.9, 9.0 - c;
    assert current * lo >= 0.0;
    assert current * hi >= 0.0;
    assert current * (1.0 + c) == current / 10.0 + current * lo;
    assert current * (1.0 + c) == current * 10.0 - current * hi;
  }

  /** One security's step: ETFs are skipped here, everything else takes its next price. */
  function PriceStep(s: StockState, change: real): (r: StockState)
    ensures r.Ticker == s.Ticker && r.Name == s.Name && r.Category == s.Category
    ensures r.DividendYield == s.DividendYield && r.ComponentTickers == s.ComponentTickers
    ensures s.Category == ETF ==> r == s
    ensures s.Category != ETF ==> r.PreviousPrice == s.CurrentPrice && r.CurrentPrice >= MIN_PRICE && IsCents(r.CurrentPrice)
  {
    if s.Category == ETF then s
    else s.(PreviousPrice := s.CurrentPrice, CurrentPrice := NextPrice(s.CurrentPrice, change))
  }

  /** Every security stepped with its own draw. */
  function SteppedPrices(stocks: seq<StockState>, changes: seq<real>): (r: seq<StockState>)
    requires |changes| == |stocks|
    ensures SameShape(stocks, r)
    ensures forall k :: 0 <= k < |r| ==> r[k] == PriceStep(stocks[k], changes[k])
  {
    seq(|stocks|, k requires 0 <= k < |stocks| => PriceStep(stocks[k], changes[k]))
  }

  /** Every security the market trades, ETFs excepted, is in the catalog (otherwise `First` throws). */
  predicate InCatalog(stocks: seq<StockState>)
  {
    forall k :: 0 <= k < |stocks| && stocks[k].Category != ETF ==> stocks[k].Ticker in CatalogTickers()
  }

  /**
   * `UpdatePrices`: one turn of the market. `changes[k]` stands for the
   * normal draw of security `k` (drawn with its catalog deviation); the
   * draws of ETFs are not used.
   */
  method UpdatePrices(market: StockMarket, changes: seq<real>)
    requires |changes| == |market.Stocks|
    requires InCatalog(market.Stocks) && ComponentsPresent(market.Stocks)
    modifies market
    ensures ComponentsPresent(SteppedPrices(old(market.Stocks), changes))
    ensures market.Stocks == RecalculatedETFs(SteppedPrices(old(market.Stocks), changes))
    ensures market.TurnNumber == old(market.TurnNumber)
  {
    var i := 0;
    while i < |market.Stocks|
      invariant |market.Stocks| == |changes| && i <= |market.Stocks|
      invariant forall k :: 0 <= k < i ==> market.Stocks[k] == PriceStep(old(market.Stocks)[k], changes[k])
      invariant forall k :: i <= k < |market.Stocks| ==> market.Stocks[k] == old(market.Stocks)[k]
      invariant market.TurnNumber == old(market.TurnNumber)
    {
      ghost var before := market.Stocks;
      var stock := market.Stocks[i];
      if stock.Category != ETF {
        var price := NextPrice(stock.CurrentPrice, changes[i]);
        market.Stocks := market.Stocks[i := stock.(PreviousPrice := stock.CurrentPrice, CurrentPrice := price)];
      }
      assert market.Stocks == before[i := PriceStep(stock, changes[i])];
      i := i + 1;
    }
    assert market.Stocks == SteppedPrices(old(market.Stocks), changes);
    SameShapeKeepsPresence(old(market.Stocks), market.Stocks);
    RecalculateETFPrices(market);
  }

  /**
   * After a turn every security that is not an ETF is priced at a whole
   * number of cents and at least one cent, its previous price is its price
   * before the turn, and (when no ETF is built from ETFs) every priced ETF
   * is worth at least one cent too.
   */
  lemma PricesStayPositive(stocks: seq<StockState>, changes: seq<real>)
    requires |changes| == |stocks| && ComponentsPresent(stocks) && NoNestedETFs(stocks)
    ensures ComponentsPresent(SteppedPrices(stocks, changes))
    ensures var r := RecalculatedETFs(SteppedPrices(stocks, changes));
            |r| == |stocks| &&
            (forall k :: 0 <= k < |r| && stocks[k].Category != ETF ==>
               r[k].CurrentPrice >= MIN_PRICE && IsCents(r[k].CurrentPrice) &&
               r[k].PreviousPrice == stocks[k].CurrentPrice) &&
            (forall k :: 0 <= k < |r| && IsPricedETF(stocks[k]) ==> r[k].CurrentPrice >= MIN_PRICE)
  {
    var s := SteppedPrices(stocks, changes);
    SameShapeKeepsPresence(stocks, s);
    assert NoNestedETFs(s);
    ETFsTrackComponents(s);
    assert IsCents(MIN_PRICE);
    forall k | 0 <= k < |s| && IsPricedETF(stocks[k])
      ensures RecalculatedETFs(s)[k].CurrentPrice >= MIN_PRICE
    {
      ETFPriceAtLeastComponents(s, s[k], MIN_PRICE);
    }
  }

  // ---------------------------------------------------------------------------
  // Opening the market

  function InitialState(d: StockDefinition): StockState
  {
    StockState(d.Ticker, d.Name, d.Category, d.StartingPrice, d.StartingPrice, d.DividendYield, d.ComponentTickers)
  }

  /** The market as listed, before ETFs are priced. */
  function InitialStates(): (r: seq<StockState>)
    ensures |r| == |Definitions| && forall k :: 0 <= k < |r| ==> r[k] == InitialState(Definitions[k])
  {
    seq(|Definitions|, k requires 0 <= k < |Definitions| => InitialState(Definitions[k]))
  }

  /** Only the last two catalog entries are ETFs. */
  lemma CatalogCategory(k: nat)
    requires k < |Definitions|
    ensures Definitions[k].Category == ETF <==> k >= 8
  {
    if k == 0 {} else if k == 1 {} else if k == 2 {} else if k == 3 {} else if k == 4 {}
    else if k == 5 {} else if k == 6 {} else if k == 7 {} else if k == 8 {} else {}
  }

  /** Neither ETF lists an ETF ticker among its components. */
  lemma CatalogComponentsAreStocks(i: nat, j: nat)
    requires 8 <= i < |Definitions| && j < |Definitions|
    requires Definitions[j].Ticker in Definitions[i].ComponentTickers.value
    ensures j < 8
  {
    if j >= 8 {
      assert false;
    }
  }

  /** The catalog is well formed: both ETFs list carried, non-ETF securities only, and every stock is in it. */
  lemma CatalogWellFormed()
    ensures ComponentsPresent(InitialStates()) && NoNestedETFs(InitialStates()) && InCatalog(InitialStates())
  {
    var s := InitialStates();
    assert Listed(s, "BURG") by { assert s[2].Ticker == "BURG"; }
    forall i | 0 <= i < |s| && IsPricedETF(s[i])
      ensures |Components(s, s[i].ComponentTickers.value)| > 0
    {
      CatalogCategory(i);
      if i == 8 {
        assert "BURG" in s[8].ComponentTickers.value;
      } else {
        assert "BURG" in s[9].ComponentTickers.value;
      }
      ComponentsNonEmpty(s, s[i].ComponentTickers.value, "BURG");
    }
    forall i, j | 0 <= i < |s| && 0 <= j < |s| && IsPricedETF(s[i]) && s[j].Ticker in s[i].ComponentTickers.value
      ensures s[j].Category != ETF
    {
      CatalogCategory(i);
      CatalogComponentsAreStocks(i, j);
      CatalogCategory(j);
    }
    forall k | 0 <= k < |s| && s[k].Category != ETF
      ensures s[k].Ticker in CatalogTickers()
    {
      assert CatalogTickers()[k] == s[k].Ticker;
    }
  }

  /** `InitializeMarket`: lists every catalog security at its starting price, then prices the ETFs. */
  method InitializeMarket() returns (market: StockMarket)
    ensures fresh(market) && market.TurnNumber == 0
    ensures ComponentsPresent(InitialStates())
    ensures market.Stocks == RecalculatedETFs(InitialStates())
  {
    market := new StockMarket();
    var i := 0;
    while i < |Definitions|
      invariant i <= |Definitions| && market.Stocks == InitialStates()[..i] && market.TurnNumber == 0
    {
      var def := Definitions[i];
      market.Stocks := market.Stocks + [StockState(def.Ticker, def.Name, def.Category, def.StartingPrice,
                                                   def.StartingPrice, def.DividendYield, def.ComponentTickers)];
      assert InitialStates()[..i + 1] == InitialStates()[..i] + [InitialState(def)];
      i := i + 1;
    }
    assert market.Stocks == InitialStates();
    CatalogWellFormed();
    RecalculateETFPrices(market);
  }

  // ---------------------------------------------------------------------------
  // Trading

  /** What a trade changes: the player's cash and stock positions. */
  datatype Holdings = Holdings(Cash: real, Positions: seq<StockPosition>)

  predicate PositiveQuantities(ps: seq<StockPosition>)
  {
    forall k :: 0 <= k < |ps| ==> ps[k].Quantity > 0
  }

  predicate UniqueTickers(ps: seq<StockPosition>)
  {
    forall i, j :: 0 <= i < j < |ps| ==> ps[i].Ticker != ps[j].Ticker
  }

  lemma HeldAfterUpdate(ps: seq<StockPosition>, k: nat, p: StockPosition, t: string)
    requires k < |ps| && p.Ticker == ps[k].Ticker
    ensures HeldQuantity(ps[k := p], t) == if t == p.Ticker && FindPosition(ps, t) == k then p.Quantity else HeldQuantity(ps, t)
  {
    assert PositionTickers(ps[k := p]) == PositionTickers(ps);
    FindPositionByTickers(ps[k := p], ps, t);
  }

  lemma HeldAfterAppend(ps: seq<StockPosition>, p: StockPosition, t: string)
    requires FindPosition(ps, p.Ticker) == |ps|
    ensures HeldQuantity(ps + [p], t) == if t == p.Ticker then p.Quantity else HeldQuantity(ps, t)
  {
    assert PositionTickers(ps + [p]) == PositionTickers(ps) + [p.Ticker];
    IndexOfAppend(PositionTickers(ps), p.Ticker, t);
  }

  lemma HeldAfterRemove(ps: seq<StockPosition>, k: nat, t: string)
    requires k < |ps| && UniqueTickers(ps)
    ensures UniqueTickers(ps[..k] + ps[k + 1..])
    ensures HeldQuantity(ps[..k] + ps[k + 1..], t) == if t == ps[k].Ticker then 0 else HeldQuantity(ps, t)
  {
    RemoveTickers(ps, k);
    if t != ps[k].Ticker {
      HeldAfterRemoveOther(ps, k, t);
    }
  }

  /** Dropping a position in another ticker keeps the holding of `t`. */
  lemma HeldAfterRemoveOther(ps: seq<StockPosition>, k: nat, t: string)
    requires k < |ps| && ps[k].Ticker != t
    ensures HeldQuantity(ps[..k] + ps[k + 1..], t) == HeldQuantity(ps, t)
  {
    var rest := ps[..k] + ps[k + 1..];
    RemoveKeepsOtherTickers(ps, k);
    IndexOfRemove(PositionTickers(ps), k, t);
    var f := FindPosition(ps, t);
    if f < k {
      assert rest[f] == ps[f];
    } else if f < |ps| {
      assert rest[f - 1] == ps[f];
    }
  }

  /** Dropping a position drops one ticker from the list of tickers. */
  lemma RemoveKeepsOtherTickers(ps: seq<StockPosition>, k: nat)
    requires k < |ps|
    ensures var ts := PositionTickers(ps);
            PositionTickers(ps[..k] + ps[k + 1..]) == ts[..k] + ts[k + 1..]
  {
    var rest := ps[..k] + ps[k + 1..];
    assert forall i :: 0 <= i < |rest| ==> rest[i] == if i < k then ps[i] else ps[i + 1];
  }

  /** Dropping a position drops its ticker and keeps the other tickers distinct. */
  lemma RemoveTickers(ps: seq<StockPosition>, k: nat)
    requires k < |ps| && UniqueTickers(ps)
    ensures ps[k].Ticker !in PositionTickers(ps[..k] + ps[k + 1..])
    ensures UniqueTickers(ps[..k] + ps[k + 1..])
  {
    var rest := ps[..k] + ps[k + 1..];
    assert forall i :: 0 <= i < |rest| ==> rest[i] == if i < k then ps[i] else ps[i + 1];
  }

  /** What `qty` shares at `price` cost. */
  function Cost(price: real, qty: int): real
  {
    price * qty as real
  }

  /**
   * A position after buying `qty` more shares at `price`: the quantity grows
   * and the average cost becomes the total cost over the new quantity,
   * rounded to the cent.
   */
  function Grown(p: StockPosition, price: real, qty: int): (g: StockPosition)
    requires p.Quantity + qty != 0
    ensures g.Ticker == p.Ticker && g.Quantity == p.Quantity + qty
    ensures IsCents(g.AverageCost)
    ensures g.Quantity > 0 ==>
              var total := Cost(p.AverageCost, p.Quantity) + Cost(price, qty);
              -0.005 * g.Quantity as real <= g.AverageCost * g.Quantity as real - total <= 0.005 * g.Quantity as real
  {
    var q := p.Quantity + qty;
    var total := Cost(p.AverageCost, p.Quantity) + Cost(price, qty);
    var avg := Round2(total / q as real);
    if q > 0 then
      RoundingErrorScales(total, q as real, avg);
      StockPosition(p.Ticker, q, avg)
    else
      StockPosition(p.Ticker, q, avg)
  }

  /** Rounding a quotient to the cent moves the product back by at most half a cent per unit of the divisor. */
  lemma RoundingErrorScales(total: real, q: real, avg: real)
    requires q > 0.0 && -0.005 <= avg - total / q <= 0.005
    ensures -0.005 * q <= avg * q - total <= 0.005 * q
  {
    var x := total / q;
    assert x * q == total;
    var d := avg - x;
    assert d * q == avg * q - total;
    if d >= 0.0 {
      assert d * q <= 0.005 * q;
    } else {
      assert d * q >= -0.005 * q;
    }
  }

  /**
   * Buying `qty` shares at the current price: rejected unless the quantity is
   * positive, the market lists the ticker and the player can pay. An existing
   * position grows and re-averages its cost (rounded to the cent); otherwise a
   * new position at the current price is added at the end.
   */
  function Buy(h: Holdings, stocks: seq<StockState>, ticker: string, qty: int): (r: Option<Holdings>)
    requires qty <= 0 || HeldQuantity(h.Positions, ticker) + qty != 0  // otherwise the average-cost division throws
    ensures r.Some? <==> qty > 0 && Quote(stocks, ticker).Some? && Cost(Quote(stocks, ticker).value, qty) <= h.Cash
    ensures r.Some? ==> r.value.Cash == h.Cash - Cost(Quote(stocks, ticker).value, qty)
    ensures r.Some? && FindPosition(h.Positions, ticker) == |h.Positions| ==>
              r.value.Positions == h.Positions + [StockPosition(ticker, qty, Quote(stocks, ticker).value)]
    ensures r.Some? && FindPosition(h.Positions, ticker) < |h.Positions| ==>
              var j := FindPosition(h.Positions, ticker);
              var p := h.Positions[j];
              |r.value.Positions| == |h.Positions| &&
              r.value.Positions[j] == Grown(p, Quote(stocks, ticker).value, qty) &&
              forall k :: 0 <= k < |h.Positions| && k != j ==> r.value.Positions[k] == h.Positions[k]
  {
    if qty <= 0 then None
    else
      var k := FindStock(stocks, ticker);
      if k == |stocks| then None
      else
        var price := stocks[k].CurrentPrice;
        var cost := Cost(price, qty);
        if cost > h.Cash then None
        else
          assert Quote(stocks, ticker) == Some(price);
          var j := FindPosition(h.Positions, ticker);
          if j < |h.Positions| then
            Some(Holdings(h.Cash - cost, h.Positions[j := Grown(h.Positions[j], price, qty)]))
          else
            Some(Holdings(h.Cash - cost, h.Positions + [StockPosition(ticker, qty, price)]))
  }

  /**
   * A purchase adds exactly `qty` shares to the ticker's holding and leaves
   * every other ticker's holding alone; it keeps quantities positive and
   * tickers unique.
   */
  lemma BuyHoldings(h: Holdings, stocks: seq<StockState>, ticker: string, qty: int)
    requires qty <= 0 || HeldQuantity(h.Positions, ticker) + qty != 0
    requires Buy(h, stocks, ticker, qty).Some?
    ensures var ps := Buy(h, stocks, ticker, qty).value.Positions;
            HeldQuantity(ps, ticker) == HeldQuantity(h.Positions, ticker) + qty &&
            (forall t :: t != ticker ==> HeldQuantity(ps, t) == HeldQuantity(h.Positions, t)) &&
            (PositiveQuantities(h.Positions) ==> PositiveQuantities(ps)) &&
            (UniqueTickers(h.Positions) ==> UniqueTickers(ps))
  {
    var ps := Buy(h, stocks, ticker, qty).value.Positions;
    var j := FindPosition(h.Positions, ticker);
    if j < |h.Positions| {
      assert ps == h.Positions[j := ps[j]];
      HeldAfterUpdateAll(h.Positions, j, ps[j]);
    } else {
      HeldAfterAppendAll(h.Positions, ps[|h.Positions|]);
    }
  }

  lemma HeldAfterUpdateAll(ps: seq<StockPosition>, k: nat, p: StockPosition)
    requires k < |ps| && p.Ticker == ps[k].Ticker && FindPosition(ps, p.Ticker) == k
    ensures HeldQuantity(ps[k := p], p.Ticker) == p.Quantity
    ensures forall t :: t != p.Ticker ==> HeldQuantity(ps[k := p], t) == HeldQuantity(ps, t)
    ensures UniqueTickers(ps) ==> UniqueTickers(ps[k := p])
  {
    HeldAfterUpdate(ps, k, p, p.Ticker);
    forall t | t != p.Ticker
      ensures HeldQuantity(ps[k := p], t) == HeldQuantity(ps, t)
    {
      HeldAfterUpdate(ps, k, p, t);
    }
  }

  lemma HeldAfterAppendAll(ps: seq<StockPosition>, p: StockPosition)
    requires FindPosition(ps, p.Ticker) == |ps|
    ensures HeldQuantity(ps + [p], p.Ticker) == p.Quantity
    ensures forall t :: t != p.Ticker ==> HeldQuantity(ps + [p], t) == HeldQuantity(ps, t)
    ensures UniqueTickers(ps) ==> UniqueTickers(ps + [p])
  {
    HeldAfterAppend(ps, p, p.Ticker);
    forall t | t != p.Ticker
      ensures HeldQuantity(ps + [p], t) == HeldQuantity(ps, t)
    {
      HeldAfterAppend(ps, p, t);
    }
  }

  /**
   * Selling `qty` shares at the current price: rejected unless the quantity
   * is positive, the player holds at least that many and the market lists
   * the ticker. The position shrinks, and is dropped when it reaches zero.
   */
  function Sell(h: Holdings, stocks: seq<StockState>, ticker: string, qty: int): (r: Option<Holdings>)
    ensures r.Some? <==> qty > 0 && HeldQuantity(h.Positions, ticker) >= qty && Quote(stocks, ticker).Some?
    ensures r.Some? ==> r.value.Cash == h.Cash + Cost(Quote(stocks, ticker).value, qty)
    ensures r.Some? ==>
              var j := FindPosition(h.Positions, ticker);
              var p := h.Positions[j];
              j < |h.Positions| &&
              r.value.Positions == if p.Quantity == qty then h.Positions[..j] + h.Positions[j + 1..]
                                   else h.Positions[j := p.(Quantity := p.Quantity - qty)]
  {
    if qty <= 0 then None
    else
      var j := FindPosition(h.Positions, ticker);
      if j == |h.Positions| || h.Positions[j].Quantity < qty then None
      else
        var k := FindStock(stocks, ticker);
        if k == |stocks| then None
        else
          var p := h.Positions[j];
          var q := p.Quantity - qty;
          var cash := h.Cash + Cost(stocks[k].CurrentPrice, qty);
          if q == 0 then Some(Holdings(cash, h.Positions[..j] + h.Positions[j + 1..]))
          else Some(Holdings(cash, h.Positions[j := p.(Quantity := q)]))
  }

  /**
   * A sale takes exactly `qty` shares off the ticker's holding, leaves every
   * other ticker's holding alone, keeps quantities positive and tickers
   * unique, and drops the position exactly when it is sold out.
   */
  lemma SellHoldings(h: Holdings, stocks: seq<StockState>, ticker: string, qty: int)
    requires Sell(h, stocks, ticker, qty).Some?
    ensures var ps := Sell(h, stocks, ticker, qty).value.Positions;
            (PositiveQuantities(h.Positions) ==> PositiveQuantities(ps)) &&
            (|ps| < |h.Positions| <==> HeldQuantity(h.Positions, ticker) == qty) &&
            (UniqueTickers(h.Positions) ==>
               UniqueTickers(ps) &&
               HeldQuantity(ps, ticker) == HeldQuantity(h.Positions, ticker) - qty &&
               forall t :: t != ticker ==> HeldQuantity(ps, t) == HeldQuantity(h.Positions, t))
  {
    var j := FindPosition(h.Positions, ticker);
    var p := h.Positions[j];
    if p.Quantity == qty {
      HeldAfterRemoveAll(h.Positions, j);
    } else {
      HeldAfterUpdateAll(h.Positions, j, p.(Quantity := p.Quantity - qty));
    }
  }

  lemma HeldAfterRemoveAll(ps: seq<StockPosition>, k: nat)
    requires k < |ps|
    ensures PositiveQuantities(ps) ==> PositiveQuantities(ps[..k] + ps[k + 1..])
    ensures UniqueTickers(ps) ==>
              UniqueTickers(ps[..k] + ps[k + 1..]) &&
              HeldQuantity(ps[..k] + ps[k + 1..], ps[k].Ticker) == 0 &&
              forall t :: t != ps[k].Ticker ==> HeldQuantity(ps[..k] + ps[k + 1..], t) == HeldQuantity(ps, t)
  {
    var rest := ps[..k] + ps[k + 1..];
    assert forall i :: 0 <= i < |rest| ==> rest[i] == if i < k then ps[i] else ps[i + 1];
    if UniqueTickers(ps) {
      HeldAfterRemove(ps, k, ps[k].Ticker);
      forall t | t != ps[k].Ticker
        ensures HeldQuantity(rest, t) == HeldQuantity(ps, t)
      {
        HeldAfterRemove(ps, k, t);
      }
    }
  }

  /**
   * Buying shares of a ticker the player does not hold and selling them all
   * again at an unchanged price gives back exactly the cash and the
   * positions the player had.
   */
  lemma BuyThenSellRestores(h: Holdings, stocks: seq<StockState>, ticker: string, qty: int)
    requires FindPosition(h.Positions, ticker) == |h.Positions|
    requires Buy(h, stocks, ticker, qty).Some?
    ensures Sell(Buy(h, stocks, ticker, qty).value, stocks, ticker, qty) == Some(h)
  {
    var b := Buy(h, stocks, ticker, qty).value;
    var ps := h.Positions;
    assert b.Positions == ps + [StockPosition(ticker, qty, Quote(stocks, ticker).value)];
    assert PositionTickers(b.Positions) == PositionTickers(ps) + [ticker];
    IndexOfAppend(PositionTickers(ps), ticker, ticker);
    assert FindPosition(b.Positions, ticker) == |ps|;
    assert b.Positions[..|ps|] + b.Positions[|ps| + 1..] == ps;
  }

  /**
   * For any position, new or existing, buying shares and selling the same
   * number again at an unchanged price gives back exactly the cash, and with
   * one position per ticker leaves every ticker's held quantity as it was.
   * Only the average cost of an existing position can differ, since buying
   * re-averages it and rounds to the cent.
   */
  lemma BuyThenSellRestoresCash(h: Holdings, stocks: seq<StockState>, ticker: string, qty: int)
    requires HeldQuantity(h.Positions, ticker) >= 0
    requires Buy(h, stocks, ticker, qty).Some?
    ensures var s := Sell(Buy(h, stocks, ticker, qty).value, stocks, ticker, qty);
            s.Some? && s.value.Cash == h.Cash &&
            (UniqueTickers(h.Positions) ==>
               forall t :: HeldQuantity(s.value.Positions, t) == HeldQuantity(h.Positions, t))
  {
    BuyHoldings(h, stocks, ticker, qty);
    var b := Buy(h, stocks, ticker, qty).value;
    SellHoldings(b, stocks, ticker, qty);
  }

  /**
   * Trading never overdraws: a successful purchase leaves the cash it started
   * with minus the cost, which is never negative, and a sale at a
   * non-negative price never lowers the cash.
   */
  lemma TradesKeepCashNonNegative(h: Holdings, stocks: seq<StockState>, ticker: string, qty: int)
    requires qty <= 0 || HeldQuantity(h.Positions, ticker) + qty != 0
    requires h.Cash >= 0.0
    requires forall k :: 0 <= k < |stocks| ==> stocks[k].CurrentPrice >= 0.0
    ensures Buy(h, stocks, ticker, qty).Some? ==> Buy(h, stocks, ticker, qty).value.Cash >= 0.0
    ensures Sell(h, stocks, ticker, qty).Some? ==> Sell(h, stocks, ticker, qty).value.Cash >= h.Cash
  {
    if Sell(h, stocks, ticker, qty).Some? {
      var k := FindStock(stocks, ticker);
      assert Cost(stocks[k].CurrentPrice, qty) >= 0.0;
    }
  }

  /** `BuyStock`: the purchase as the server performs it, followed by a dividend refresh. */
  method BuyStock(game: Game, player: Player, ticker: string, quantity: int) returns (ok: bool)
    requires quantity <= 0 || HeldQuantity(player.StockPositions, ticker) + quantity != 0
    modifies player`Cash, player`StockPositions, player`DividendIncome
    ensures var r := Buy(Holdings(old(player.Cash), old(player.StockPositions)), game.StockMarket.Stocks, ticker, quantity);
            ok == r.Some? &&
            (ok ==> player.Cash == r.value.Cash && player.StockPositions == r.value.Positions &&
                    player.DividendIncome == Round2(DividendTotal(player.StockPositions, game.StockMarket.Stocks))) &&
            (!ok ==> player.Cash == old(player.Cash) && player.StockPositions == old(player.StockPositions) &&
                     player.DividendIncome == old(player.DividendIncome))
    ensures player.Assets == old(player.Assets) && player.Liabilities == old(player.Liabilities)
    ensures player.Profession == old(player.Profession) && player.NumberOfChildren == old(player.NumberOfChildren)
    ensures player.Id == old(player.Id) && player.Name == old(player.Name) && player.BoardSpaceId == old(player.BoardSpaceId)
  {
    ghost var h := Holdings(player.Cash, player.StockPositions);
    if quantity <= 0 {
      return false;
    }
    var stocks := game.StockMarket.Stocks;
    var k := FindStock(stocks, ticker);
    if k == |stocks| {
      return false;
    }
    var stock := stocks[k];
    var totalCost := Cost(stock.CurrentPrice, quantity);
    if totalCost > player.Cash {
      return false;
    }
    player.Cash := player.Cash - totalCost;
    var positions := player.StockPositions;
    var j := FindPosition(positions, ticker);
    assert Quote(stocks, ticker) == Some(stock.CurrentPrice);
    assert h.Cash == old(player.Cash) && h.Positions == positions;
    assert Buy(h, stocks, ticker, quantity).Some?;
    assert Buy(h, stocks, ticker, quantity).value.Cash == h.Cash - totalCost;
    if j < |positions| {
      var position := positions[j];
      positions := positions[j := Grown(position, stock.CurrentPrice, quantity)];
      assert Buy(h, stocks, ticker, quantity) == Some(Holdings(h.Cash - totalCost, positions));
    } else {
      positions := positions + [StockPosition(ticker, quantity, stock.CurrentPrice)];
      assert Buy(h, stocks, ticker, quantity) == Some(Holdings(h.Cash - totalCost, positions));
    }
    player.StockPositions := positions;
    RecalculatePlayerDividends(player, game.StockMarket);
    return true;
  }

  /** `SellStock`: the sale as the server performs it, followed by a dividend refresh. */
  method SellStock(game: Game, player: Player, ticker: string, quantity: int) returns (ok: bool)
    modifies player`Cash, player`StockPositions, player`DividendIncome
    ensures var r := Sell(Holdings(old(player.Cash), old(player.StockPositions)), game.StockMarket.Stocks, ticker, quantity);
            ok == r.Some? &&
            (ok ==> player.Cash == r.value.Cash && player.StockPositions == r.value.Positions &&
                    player.DividendIncome == Round2(DividendTotal(player.StockPositions, game.StockMarket.Stocks))) &&
            (!ok ==> player.Cash == old(player.Cash) && player.StockPositions == old(player.StockPositions) &&
                     player.DividendIncome == old(player.DividendIncome))
    ensures player.Assets == old(player.Assets) && player.Liabilities == old(player.Liabilities)
    ensures player.Profession == old(player.Profession) && player.NumberOfChildren == old(player.NumberOfChildren)
    ensures player.Id == old(player.Id) && player.Name == old(player.Name) && player.BoardSpaceId == old(player.BoardSpaceId)
  {
    ghost var h := Holdings(player.Cash, player.StockPositions);
    if quantity <= 0 {
      return false;
    }
    var positions := player.StockPositions;
    var j := FindPosition(positions, ticker);
    if j == |positions| || positions[j].Quantity < quantity {
      return false;
    }
    var stocks := game.StockMarket.Stocks;
    var k := FindStock(stocks, ticker);
    if k == |stocks| {
      return false;
    }
    var proceeds := Cost(stocks[k].CurrentPrice, quantity);
    player.Cash := player.Cash + proceeds;
    var position := positions[j];
    position := position.(Quantity := position.Quantity - quantity);
    if position.Quantity == 0 {
      positions := positions[..j] + positions[j + 1..];
    } else {
      positions := positions[j := position];
    }
    assert Quote(stocks, ticker) == Some(stocks[k].CurrentPrice);
    assert Sell(h, stocks, ticker, quantity).Some?;
    assert Sell(h, stocks, ticker, quantity).value == Holdings(h.Cash + proceeds, positions);
    player.StockPositions := positions;
    RecalculatePlayerDividends(player, game.StockMarket);
    return true;
  }

  // ---------------------------------------------------------------------------
  // Dividends

  /** A month's dividend on `quantity` shares at `price` with the annual yield `rate`. */
  function MonthlyDividend(quantity: int, price: real, rate: real): real
  {
    quantity as real * price * rate / 12.0
  }

  lemma MonthlyDividendNonNegative(quantity: int, price: real, rate: real)
    requires quantity >= 0 && price >= 0.0 && rate >= 0.0
    ensures MonthlyDividend(quantity, price, rate) >= 0.0
  {
    assert quantity as real * price >= 0.0;
    assert quantity as real * price * rate >= 0.0;
  }

  /** The monthly dividend of one position: nothing for an unlisted ticker or a zero yield. */
  function PositionDividend(p: StockPosition, stocks: seq<StockState>): real
  {
    var k := FindStock(stocks, p.Ticker);
    if k == |stocks| || stocks[k].DividendYield == 0.0 then 0.0
    else MonthlyDividend(p.Quantity, stocks[k].CurrentPrice, stocks[k].DividendYield)
  }

  /**
   * A position earns nothing when its ticker is not listed or pays no
   * dividend, and never a negative amount when its quantity, the price and
   * the yield are not negative.
   */
  lemma PositionDividendCases(p: StockPosition, stocks: seq<StockState>)
    ensures var k := FindStock(stocks, p.Ticker);
            (k == |stocks| || stocks[k].DividendYield == 0.0 ==> PositionDividend(p, stocks) == 0.0) &&
            (k < |stocks| && p.Quantity >= 0 && stocks[k].CurrentPrice >= 0.0 && stocks[k].DividendYield >= 0.0 ==>
               PositionDividend(p, stocks) >= 0.0)
  {
    var k := FindStock(stocks, p.Ticker);
    if k < |stocks| && p.Quantity >= 0 && stocks[k].CurrentPrice >= 0.0 && stocks[k].DividendYield >= 0.0 {
      MonthlyDividendNonNegative(p.Quantity, stocks[k].CurrentPrice, stocks[k].DividendYield);
    }
  }

  /** The unrounded monthly dividend of all positions, summed in holding order. */
  function DividendTotal(ps: seq<StockPosition>, stocks: seq<StockState>): real
  {
    if |ps| == 0 then 0.0 else DividendTotal(ps[..|ps| - 1], stocks) + PositionDividend(ps[|ps| - 1], stocks)
  }

  /** Positions none of which is listed with a non-zero yield bring no dividend income at all. */
  lemma {:induction false} DividendTotalZero(ps: seq<StockPosition>, stocks: seq<StockState>)
    requires forall k :: 0 <= k < |ps| ==>
               FindStock(stocks, ps[k].Ticker) == |stocks| || stocks[FindStock(stocks, ps[k].Ticker)].DividendYield == 0.0
    ensures DividendTotal(ps, stocks) == 0.0
    decreases |ps|
  {
    if |ps| > 0 {
      DividendTotalZero(ps[..|ps| - 1], stocks);
      PositionDividendCases(ps[|ps| - 1], stocks);
    }
  }

  /** The dividend total is additive over the positions. */
  lemma {:induction false} DividendTotalAppend(a: seq<StockPosition>, b: seq<StockPosition>, stocks: seq<StockState>)
    ensures DividendTotal(a + b, stocks) == DividendTotal(a, stocks) + DividendTotal(b, stocks)
    decreases |b|
  {
    if |b| == 0 {
      assert a + b == a;
    } else {
      assert (a + b)[..|a + b| - 1] == a + b[..|b| - 1];
      DividendTotalAppend(a, b[..|b| - 1], stocks);
    }
  }

  /** With no negative quantities, prices or yields, dividend income is never negative. */
  lemma {:induction false} DividendTotalNonNegative(ps: seq<StockPosition>, stocks: seq<StockState>)
    requires forall k :: 0 <= k < |ps| ==> ps[k].Quantity >= 0
    requires forall k :: 0 <= k < |stocks| ==> stocks[k].CurrentPrice >= 0.0 && stocks[k].DividendYield >= 0.0
    ensures DividendTotal(ps, stocks) >= 0.0
    ensures Round2(DividendTotal(ps, stocks)) >= 0.0
    decreases |ps|
  {
    if |ps| > 0 {
      DividendTotalNonNegative(ps[..|ps| - 1], stocks);
      var p := ps[|ps| - 1];
      var k := FindStock(stocks, p.Ticker);
      if k < |stocks| {
        MonthlyDividendNonNegative(p.Quantity, stocks[k].CurrentPrice, stocks[k].DividendYield);
      }
    }
    Round2Sign(DividendTotal(ps, stocks));
  }

  /** `RecalculatePlayerDividends`: the player's dividend income, rounded to the cent. */
  method RecalculatePlayerDividends(player: Player, market: StockMarket)
    modifies player`DividendIncome
    ensures player.DividendIncome == Round2(DividendTotal(player.StockPositions, market.Stocks))
    ensures player.Cash == old(player.Cash) && player.StockPositions == old(player.StockPositions)
    ensures player.Assets == old(player.Assets) && player.Liabilities == old(player.Liabilities)
    ensures player.Profession == old(player.Profession) && player.NumberOfChildren == old(player.NumberOfChildren)
    ensures player.Id == old(player.Id) && player.Name == old(player.Name) && player.BoardSpaceId == old(player.BoardSpaceId)
  {
    var totalDividendIncome := 0.0;
    var ps := player.StockPositions;
    var i := 0;
    while i < |ps|
      invariant i <= |ps| && totalDividendIncome == DividendTotal(ps[..i], market.Stocks)
    {
      var position := ps[i];
      assert ps[..i + 1][..i] == ps[..i];
      var k := FindStock(market.Stocks, position.Ticker);
      if k == |market.Stocks| || market.Stocks[k].DividendYield == 0.0 {
        i := i + 1;
        continue;
      }
      var stock := market.Stocks[k];
      totalDividendIncome := totalDividendIncome + MonthlyDividend(position.Quantity, stock.CurrentPrice, stock.DividendYield);
      i := i + 1;
    }
    assert ps[..i] == ps;
    player.DividendIncome := Round2(totalDividendIncome);
  }

  /** `RecalculateAllDividends`: refreshes every player's dividend income against the game's market. */
  method RecalculateAllDividends(game: Game)
    modifies game.Players`DividendIncome
    ensures forall p :: p in game.Players ==>
              p.DividendIncome == Round2(DividendTotal(p.StockPositions, game.StockMarket.Stocks))
    ensures forall p :: p in game.Players ==>
              unchanged(p`StockPositions, p`Cash, p`Id, p`Name, p`BoardSpaceId, p`Assets, p`Liabilities, p`Profession, p`NumberOfChildren)
  {
    RecalculateEach(game.Players, game.StockMarket);
  }

  /** A player's dividend income agrees with their positions priced at `stocks`. */
  predicate Refreshed(p: Player, stocks: seq<StockState>)
    reads p`DividendIncome, p`StockPositions
  {
    p.DividendIncome == Round2(DividendTotal(p.StockPositions, stocks))
  }

  /** The loop of `RecalculateAllDividends`, over a list of players and one market. */
  method RecalculateEach(players: seq<Player>, market: StockMarket)
    modifies players`DividendIncome
    ensures forall p :: p in players ==> Refreshed(p, market.Stocks)
  {
    var i := 0;
    while i < |players|
      invariant i <= |players|
      invariant forall k :: 0 <= k < i ==> Refreshed(players[k], market.Stocks)
    {
      RecalculatePlayerDividends(players[i], market);
      i := i + 1;
    }
  }
}

/**
 * Market offers: a buyer for one type of asset, chosen by weight, who names
 * a price drawn from the range for that type. As for deals, the random draws
 * are parameters.
 */
module MarketGenerator {
  import opened Wrappers
  import opened FinancialData
  import opened AssetGenerator

  /** The offer weights; the first-tier multi-level-marketing stake has no buyers. */
  const OfferWeights: Weights :=
    [(apartment, 8), (business, 4), (threeTwo, 10), (land, 4), (cd, 4), (gold, 1), (mlm2, 1), (twoOne, 6)]

  /** The half-open price range a buyer of each type offers from; none for `mlm1`, where the server throws. */
  function OfferPriceRange(t: AssetType): (r: Option<(int, int)>)
    ensures r.Some? <==> t != mlm1
    ensures r.Some? ==> 0 < r.value.0 < r.value.1
  {
    match t
    case mlm1 => None
    case mlm2 => Some((20, 500))
    case business => Some((8000, 1000000))
    case twoOne => Some((8000, 150000))
    case threeTwo => Some((8000, 500000))
    case apartment => Some((8000, 100000))
    case cd => Some((500, 8000))
    case land => Some((1000, 50000))
    case gold => Some((500, 8000))
  }

  /** The text of an offer for each type; none for `mlm1`, where the server throws. */
  function OfferName(t: AssetType): (n: Option<string>)
    ensures n.Some? <==> t != mlm1
  {
    match t
    case mlm1 => None
    case mlm2 => Some("Someone offers to buy your downstream!")
    case business => Some("Business buyer approaches you")
    case twoOne => Some("Condo buyer")
    case threeTwo => Some("House buyer")
    case apartment => Some("Apartment buyer, price offered is per unit")
    case cd => Some("Certificate of Deposit buyer")
    case land => Some("Land buyer, price offered is per 10 acres")
    case gold => Some("Gold buyer")
  }

  /**
   * The offer pool has 38 slots and no entry of the table is `mlm1`, so the
   * pick never reaches the throwing branches.
   */
  lemma OfferPickNeverMlm1(d: nat)
    ensures TotalWeight(OfferWeights) == 38
    ensures PickWeighted(OfferWeights, d) != mlm1
  {
    PickHasWeight(OfferWeights, d);
  }

  /**
   * `GenerateAssetOffer`: never an `mlm1` buyer; the price is a whole amount
   * in the range for the type and the name is the text for the type.
   */
  function GenerateAssetOffer(typeDraw: nat, priceDraw: nat): (o: PurchaseOffer)
    ensures o.Type != mlm1
    ensures var (lo, hi) := OfferPriceRange(o.Type).value;
            lo as real <= o.Price < hi as real && o.Price.Floor as real == o.Price
    ensures OfferName(o.Type) == Some(o.Name)
  {
    OfferPickNeverMlm1(typeDraw);
    var t := PickWeighted(OfferWeights, typeDraw);
    var (lo, hi) := OfferPriceRange(t).value;
    PurchaseOffer(OfferName(t).value, t, Next(lo, hi, priceDraw) as real)
  }

  /** Every type but `mlm1` is offered at every whole price of its range by some pair of draws. */
  lemma EveryOfferReachable(t: AssetType, price: int)
    requires t != mlm1 && OfferPriceRange(t).value.0 <= price < OfferPriceRange(t).value.1
    ensures exists a: nat, b: nat :: GenerateAssetOffer(a, b) == PurchaseOffer(OfferName(t).value, t, price as real)
  {
    var ws := OfferWeights;
    var j := match t
      case apartment => 0 case business => 1 case threeTwo => 2 case land => 3 case cd => 4
      case gold => 5 case mlm2 => 6 case twoOne => 7;
    PickEntry(ws, j);
    var (lo, hi) := OfferPriceRange(t).value;
    NextReaches(lo, hi, price);
    assert GenerateAssetOffer(TotalWeight(ws[..j]), price - lo) == PurchaseOffer(OfferName(t).value, t, price as real);
  }
}

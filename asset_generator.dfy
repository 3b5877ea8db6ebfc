/**
 * Random deals: a weighted choice of asset type, then a quantity, equity,
 * value, rate of return and display name that depend on the type. The
 * server draws every number from `System.Random`; here each draw is a
 * parameter, and `Random.Next` becomes the total function `Next` below, which
 * can produce every value the real generator can.
 */
module AssetGenerator {
  import opened Wrappers
  import opened FinancialData

  const BIG_DEAL_MIN_COST: int := 5000
  const BIG_DEAL_MAX_COST: int := 100000
  const SMALL_DEAL_MIN_COST: int := 500
  const SMALL_DEAL_MAX_COST: int := 8000

  // ---------------------------------------------------------------------------
  // Random numbers

  /**
   * `Random.Next(lo, hi)` fed with the raw draw `d`: a number in `[lo, hi)`,
   * or `lo` itself when the range is empty. `lo > hi` throws.
   */
  function Next(lo: int, hi: int, d: nat): (r: int)
    requires lo <= hi
    ensures lo == hi ==> r == lo
    ensures lo < hi ==> lo <= r < hi
  {
    if lo == hi then lo else lo + d % (hi - lo)
  }

  /** Every value of the range is some draw's outcome. */
  lemma NextReaches(lo: int, hi: int, v: int)
    requires lo <= v < hi
    ensures Next(lo, hi, v - lo) == v
  {
  }

  // ---------------------------------------------------------------------------
  // Weighted choice

  /** A weight table, in the order its entries were written (a `Dictionary<AssetType, int>`). */
  type Weights = seq<(AssetType, nat)>

  /** `Enumerable.Repeat(x, n)`. */
  function Repeat(x: AssetType, n: nat): (r: seq<AssetType>)
    ensures |r| == n && forall i :: 0 <= i < n ==> r[i] == x
  {
    if n == 0 then [] else Repeat(x, n - 1) + [x]
  }

  function TotalWeight(ws: Weights): nat
  {
    if |ws| == 0 then 0 else ws[0].1 + TotalWeight(ws[1..])
  }

  /** The sum of the weights given to `x` in the table. */
  function WeightOf(ws: Weights, x: AssetType): nat
  {
    if |ws| == 0 then 0 else (if ws[0].0 == x then ws[0].1 else 0) + WeightOf(ws[1..], x)
  }

  /** The weighted pool: each type repeated as often as its weight says, entry after entry. */
  function Flatten(ws: Weights): (pool: seq<AssetType>)
    ensures |pool| == TotalWeight(ws)
  {
    if |ws| == 0 then [] else Repeat(ws[0].0, ws[0].1) + Flatten(ws[1..])
  }

  /**
   * The type owning slot `i` of the pool, found by walking the table: the
   * first entry whose run of slots reaches past `i`.
   */
  function Slot(ws: Weights, i: nat): AssetType
    requires i < TotalWeight(ws)
  {
    if i < ws[0].1 then ws[0].0 else Slot(ws[1..], i - ws[0].1)
  }

  /** Walking the table finds exactly the entry the flattened pool holds at that slot. */
  lemma {:induction false} SlotIsPoolEntry(ws: Weights, i: nat)
    requires i < TotalWeight(ws)
    ensures Slot(ws, i) == Flatten(ws)[i]
  {
    if i >= ws[0].1 {
      SlotIsPoolEntry(ws[1..], i - ws[0].1);
    }
  }

  /**
   * `GetRandomWeightedAsset`: the pool entry at the index drawn from
   * `[0, pool size)`. An empty pool throws.
   */
  function PickWeighted(ws: Weights, d: nat): (t: AssetType)
    requires TotalWeight(ws) > 0
    ensures WeightOf(ws, t) > 0
  {
    SlotWeight(ws, Next(0, TotalWeight(ws), d));
    Slot(ws, Next(0, TotalWeight(ws), d))
  }

  /** The type owning a slot of the pool has a positive total weight in the table. */
  lemma {:induction false} SlotWeight(ws: Weights, i: nat)
    requires i < TotalWeight(ws)
    ensures WeightOf(ws, Slot(ws, i)) > 0
  {
    if i >= ws[0].1 {
      SlotWeight(ws[1..], i - ws[0].1);
    }
  }

  /** The pick is the flattened pool indexed by the draw, as the server computes it. */
  lemma PickIsPoolIndex(ws: Weights, d: nat)
    requires TotalWeight(ws) > 0
    ensures PickWeighted(ws, d) == Flatten(ws)[Next(0, |Flatten(ws)|, d)]
  {
    SlotIsPoolEntry(ws, Next(0, TotalWeight(ws), d));
  }

  /** Each type occupies exactly as many slots of the pool as its weight. */
  lemma {:induction false} FlattenCounts(ws: Weights, x: AssetType)
    ensures multiset(Flatten(ws))[x] == WeightOf(ws, x)
  {
    if |ws| > 0 {
      FlattenCounts(ws[1..], x);
      RepeatCounts(ws[0].0, ws[0].1, x);
      assert multiset(Flatten(ws)) == multiset(Repeat(ws[0].0, ws[0].1)) + multiset(Flatten(ws[1..]));
    }
  }

  lemma {:induction false} RepeatCounts(y: AssetType, n: nat, x: AssetType)
    ensures multiset(Repeat(y, n))[x] == if x == y then n else 0
  {
    if n > 0 {
      RepeatCounts(y, n - 1, x);
      assert multiset(Repeat(y, n)) == multiset(Repeat(y, n - 1)) + multiset{y};
    }
  }

  /**
   * Slot `i` belongs to the entry whose cumulative-weight interval
   * `[before, before + weight)` contains `i`; in particular that entry has a
   * positive weight.
   */
  lemma {:induction false} SlotInterval(ws: Weights, i: nat)
    requires i < TotalWeight(ws)
    ensures exists j :: 0 <= j < |ws| && TotalWeight(ws[..j]) <= i < TotalWeight(ws[..j]) + ws[j].1 &&
                        Slot(ws, i) == ws[j].0
  {
    if i < ws[0].1 {
      assert TotalWeight(ws[..0]) == 0;
    } else {
      SlotInterval(ws[1..], i - ws[0].1);
      var j :| 0 <= j < |ws[1..]| && TotalWeight(ws[1..][..j]) <= i - ws[0].1 < TotalWeight(ws[1..][..j]) + ws[1..][j].1 &&
               Slot(ws[1..], i - ws[0].1) == ws[1..][j].0;
      assert ws[..j + 1][1..] == ws[1..][..j];
      assert TotalWeight(ws[..j + 1]) == ws[0].1 + TotalWeight(ws[1..][..j]);
    }
  }

  /** The first slot of an entry with a positive weight is that entry's. */
  lemma {:induction false} EntrySlot(ws: Weights, j: nat)
    requires j < |ws| && ws[j].1 > 0
    ensures TotalWeight(ws[..j]) < TotalWeight(ws) && Slot(ws, TotalWeight(ws[..j])) == ws[j].0
  {
    if j == 0 {
      assert TotalWeight(ws[..0]) == 0;
    } else {
      EntrySlot(ws[1..], j - 1);
      assert ws[..j][1..] == ws[1..][..j - 1];
      assert TotalWeight(ws[..j]) == ws[0].1 + TotalWeight(ws[1..][..j - 1]);
    }
  }

  /** Drawing the first slot of an entry with a positive weight picks that entry's type. */
  lemma PickEntry(ws: Weights, j: nat)
    requires j < |ws| && ws[j].1 > 0
    ensures TotalWeight(ws) > 0 && PickWeighted(ws, TotalWeight(ws[..j])) == ws[j].0
  {
    EntrySlot(ws, j);
    NextReaches(0, TotalWeight(ws), TotalWeight(ws[..j]));
  }

  /** The weighted pick only ever returns a type the table gives a positive weight. */
  lemma PickHasWeight(ws: Weights, d: nat)
    requires TotalWeight(ws) > 0
    ensures exists j :: 0 <= j < |ws| && ws[j].0 == PickWeighted(ws, d) && ws[j].1 > 0
  {
    SlotInterval(ws, Next(0, TotalWeight(ws), d));
  }

  // ---------------------------------------------------------------------------
  // Decimal numerals, as string interpolation writes integers

  function Digit(d: nat): char
    requires d < 10
  {
    "0123456789"[d]
  }

  predicate IsDigit(c: char)
  {
    '0' <= c <= '9'
  }

  function DigitValue(c: char): nat
    requires IsDigit(c)
  {
    (c as int - '0' as int) as nat
  }

  /** The decimal numeral of `n`, without leading zeros. */
  function NatToString(n: nat): (s: string)
    ensures |s| > 0 && forall i :: 0 <= i < |s| ==> IsDigit(s[i])
    ensures |s| > 1 ==> s[0] != '0'
  {
    if n < 10 then [Digit(n)] else NatToString(n / 10) + [Digit(n % 10)]
  }

  /** Reads a string of digits back as a number. */
  function ParseNat(s: string): nat
    requires forall i :: 0 <= i < |s| ==> IsDigit(s[i])
  {
    if |s| == 0 then 0 else ParseNat(s[..|s| - 1]) * 10 + DigitValue(s[|s| - 1])
  }

  /** The numeral reads back as the number it was written from. */
  lemma {:induction false} ParseNatToString(n: nat)
    ensures ParseNat(NatToString(n)) == n
  {
    if n >= 10 {
      var s := NatToString(n);
      assert s[..|s| - 1] == NatToString(n / 10);
      ParseNatToString(n / 10);
    }
  }

  /** Interpolating a positive `q` followed by a literal `0` writes the numeral of ten times `q`. */
  lemma TimesTenNumeral(q: nat)
    requires q > 0
    ensures NatToString(10 * q) == NatToString(q) + "0"
  {
    assert (10 * q) / 10 == q && (10 * q) % 10 == 0;
  }

  /** `{i}` in an interpolated string: a minus sign for negative numbers. */
  function IntToString(i: int): (s: string)
    ensures i >= 0 ==> s == NatToString(i)
    ensures i < 0 ==> s == "-" + NatToString(-i)
  {
    if i < 0 then "-" + NatToString(-i) else NatToString(i)
  }

  /** `{q}` for an `int?`: a null quantity interpolates as nothing. */
  function OptionToString(q: Option<int>): string
  {
    if q.Some? then IntToString(q.value) else ""
  }

  // ---------------------------------------------------------------------------
  // The deal rules

  /** A whole number of percent, as `random.Next(min, max) / 100.0M` writes a rate. */
  function Percent(k: int): real
  {
    k as real / 100.0
  }

  /** The equity scaled by a whole multiplier. */
  function Times(equity: real, k: int): real
  {
    equity * k as real
  }

  /** Types that earn a rate of return. */
  predicate EarnsReturn(t: AssetType)
  {
    t in {apartment, business, threeTwo, twoOne, cd, land}
  }

  /** Types whose value is a multiple of the equity (the rest of the value is borrowed). */
  predicate IsLeveraged(t: AssetType)
  {
    t in {apartment, business, threeTwo, twoOne, land}
  }

  /** `GenerateRoR`: a whole percentage in `[min, max)` for earning types, nothing for the rest. */
  function GenerateRoR(d: nat, min: int, max: int, t: AssetType): (r: real)
    requires min < max
    ensures EarnsReturn(t) ==> exists k :: min <= k < max && r == Percent(k)
    ensures !EarnsReturn(t) ==> r == 0.0
  {
    if EarnsReturn(t) then
      var k := Next(min, max, d);
      assert min <= k < max && Percent(k) == Percent(k);
      Percent(k)
    else 0.0
  }

  /** `GenerateValue`: the equity times a multiplier in `[min, max)` for leveraged types, the equity itself otherwise. */
  function GenerateValue(d: nat, min: int, max: int, t: AssetType, equity: real): (v: real)
    requires min < max
    ensures IsLeveraged(t) ==> exists k :: min <= k < max && v == Times(equity, k)
    ensures !IsLeveraged(t) ==> v == equity
  {
    if IsLeveraged(t) then
      var k := Next(min, max, d);
      assert min <= k < max && Times(equity, k) == Times(equity, k);
      Times(equity, k)
    else equity
  }

  /**
   * `GenerateEquityAmount`: a whole amount in `[min, max)`, or in
   * `[min * multiplier, max)` when there is a multiplier.
   */
  function GenerateEquityAmount(d: nat, min: int, max: int, multiplier: Option<int>): (e: real)
    requires multiplier.None? ==> min <= max
    requires multiplier.Some? ==> min * multiplier.value <= max
    ensures var lo := if multiplier.Some? then min * multiplier.value else min;
            (lo < max ==> lo as real <= e < max as real) && (lo == max ==> e == lo as real)
    ensures e.Floor as real == e
  {
    (if multiplier.None? then Next(min, max, d) else Next(min * multiplier.value, max, d)) as real
  }

  /** `GenerateAssetName`: the display name of a deal of the given type and quantity. */
  function GenerateAssetName(t: AssetType, quantity: Option<int>, isBig: bool): (name: string)
    ensures t == apartment ==> name == if quantity == Some(2) then "Duplex" else OptionToString(quantity) + "-Plex"
    ensures t == land ==> name == "Land - " + OptionToString(quantity) + "0 acres"
    ensures t == business ==> name == if isBig then "Business" else "Small Business"
  {
    match t
    case mlm1 => "Direct 2 You - Level 1"
    case mlm2 => "Direct 2 You - Level 2"
    case business => if isBig then "Business" else "Small Business"
    case twoOne => "Condo - 2br/1ba"
    case threeTwo => "House - 3br/2ba"
    case apartment => if quantity == Some(2) then "Duplex" else OptionToString(quantity) + "-Plex"
    case cd => "Certificate of Deposit"
    case land => "Land - " + OptionToString(quantity) + "0 acres"
    case gold => "Gold Coins"
  }

  /** The raw draws one deal consumes, one per `Random.Next` call. */
  datatype Draws = Draws(Type: nat, Quantity: nat, Equity: nat, Value: nat, RateOfReturn: nat)

  const BigDealWeights: Weights := [(apartment, 3), (business, 3), (threeTwo, 3), (land, 1)]

  const SmallDealWeights: Weights :=
    [(apartment, 2), (business, 1), (threeTwo, 2), (land, 2), (cd, 2), (gold, 1), (mlm1, 1), (mlm2, 1), (twoOne, 3)]

  /** The quantity of a big deal: 4 to 15 units for an apartment block, 10 to 99 (tens of acres) for land. */
  function BigDealQuantity(t: AssetType, d: nat): (q: Option<int>)
    ensures t == apartment ==> q.Some? && 4 <= q.value < 16
    ensures t == land ==> q.Some? && 10 <= q.value < 100
    ensures t != apartment && t != land ==> q == None
  {
    match t
    case apartment => Some(Next(4, 16, d))
    case land => Some(Next(10, 100, d))
    case _ => None
  }

  /** The multiplier of the minimum equity: the unit count, or the number of hundred-acre blocks of land. */
  function BigDealMultiplier(t: AssetType, q: Option<int>): (r: Option<int>)
    ensures r.Some? <==> q.Some?
    ensures t != land ==> r == q
    ensures t == land && q.Some? && q.value >= 0 ==> 0 <= 10 * r.value <= q.value < 10 * (r.value + 1)
  {
    if t == land then (if q.Some? then Some(q.value / 10) else None) else q
  }

  /**
   * A big deal once its type `t` is chosen: 4 to 15 apartment units or 10 to
   * 99 tens of acres of land, a whole-dollar equity of at least 5000 per
   * unit (per hundred acres of land) and below 100000, a value of one to
   * nine times the equity for leveraged types and a whole percentage from 0
   * to 4 a year for earning types.
   */
  function BigDealOf(id: Guid, t: AssetType, d: Draws): (a: Asset)
    ensures a.Id == id && a.Type == t
    ensures t == apartment ==>
              a.Quantity.Some? && 4 <= a.Quantity.value < 16 && a.Name == NatToString(a.Quantity.value) + "-Plex"
    ensures t == land ==>
              a.Quantity.Some? && 10 <= a.Quantity.value < 100 && a.Name == "Land - " + NatToString(10 * a.Quantity.value) + " acres"
    ensures t != apartment && t != land ==> a.Quantity == None
    ensures t == business ==> a.Name == "Business"
    ensures t == threeTwo ==> a.Name == "House - 3br/2ba"
    ensures var units := if t == apartment then a.Quantity.value else if t == land then a.Quantity.value / 10 else 1;
            (BIG_DEAL_MIN_COST * units) as real <= a.Equity < BIG_DEAL_MAX_COST as real && a.Equity.Floor as real == a.Equity
    ensures IsLeveraged(t) ==> exists k :: 1 <= k < 10 && a.Value == Times(a.Equity, k)
    ensures EarnsReturn(t) ==> exists k :: 0 <= k < 5 && a.RateOfReturn == Percent(k)
  {
    var q := BigDealQuantity(t, d.Quantity);
    var name := BigDealName(t, q);
    var equity := GenerateEquityAmount(d.Equity, BIG_DEAL_MIN_COST, BIG_DEAL_MAX_COST, BigDealMultiplier(t, q));
    var value := GenerateValue(d.Value, 1, 10, t, equity);
    var ror := GenerateRoR(d.RateOfReturn, 0, 5, t);
    Asset(id, name, t, q, equity, value, ror)
  }

  /** The big-deal name of an apartment block or a plot of land spells out its size. */
  function BigDealName(t: AssetType, q: Option<int>): (name: string)
    requires t == apartment ==> q.Some? && q.value > 2
    requires t == land ==> q.Some? && q.value > 0
    ensures name == GenerateAssetName(t, q, true)
    ensures t == apartment ==> name == NatToString(q.value) + "-Plex"
    ensures t == land ==> name == "Land - " + NatToString(10 * q.value) + " acres"
  {
    var name := GenerateAssetName(t, q, true);
    if t == land then
      TimesTenNumeral(q.value);
      assert name == "Land - " + (NatToString(q.value) + "0") + " acres";
      name
    else
      name
  }

  /**
   * `GenerateBigDeal`: only apartment blocks, businesses, houses and land
   * come out, each built as `BigDealOf` says; all four are leveraged and
   * earn a return.
   */
  function GenerateBigDeal(id: Guid, d: Draws): (a: Asset)
    ensures a.Type in {apartment, business, threeTwo, land}
    ensures a == BigDealOf(id, a.Type, d)
    ensures IsLeveraged(a.Type) && EarnsReturn(a.Type)
  {
    PickHasWeight(BigDealWeights, d.Type);
    BigDealOf(id, PickWeighted(BigDealWeights, d.Type), d)
  }

  /** The quantity of a small deal: a duplex, or a single ten-acre plot of land. */
  function SmallDealQuantity(t: AssetType): (q: Option<int>)
    ensures q.Some? <==> t == apartment || t == land
    ensures q.Some? ==> q.value > 0
  {
    match t
    case apartment => Some(2)
    case land => Some(1)
    case _ => None
  }

  /**
   * A small deal once its type `t` is chosen: a duplex or ten acres of land,
   * a whole-dollar equity of at least 500 per unit and below 8000, a value of
   * 8 to 19 times the equity for leveraged types and exactly the equity for
   * the rest, a whole percentage from -1 to 4 for earning types. The name is
   * generated twice in the server; the second, small-deal name stays.
   */
  function SmallDealOf(id: Guid, t: AssetType, d: Draws): (a: Asset)
    ensures a.Id == id && a.Type == t
    ensures t == apartment ==> a.Quantity == Some(2) && a.Name == "Duplex"
    ensures t == land ==> a.Quantity == Some(1) && a.Name == "Land - 10 acres"
    ensures t != apartment && t != land ==> a.Quantity == None
    ensures t == business ==> a.Name == "Small Business"
    ensures var units := if t == apartment then 2 else 1;
            (SMALL_DEAL_MIN_COST * units) as real <= a.Equity < SMALL_DEAL_MAX_COST as real && a.Equity.Floor as real == a.Equity
    ensures IsLeveraged(t) ==> exists k :: 8 <= k < 20 && a.Value == Times(a.Equity, k)
    ensures !IsLeveraged(t) ==> a.Value == a.Equity && a.LoanAmount() == 0.0
    ensures EarnsReturn(t) ==> exists k :: -1 <= k < 5 && a.RateOfReturn == Percent(k)
    ensures !EarnsReturn(t) ==> a.RateOfReturn == 0.0 && a.Income() == 0.0
  {
    var q := SmallDealQuantity(t);
    var equity := GenerateEquityAmount(d.Equity, SMALL_DEAL_MIN_COST, SMALL_DEAL_MAX_COST, q);
    var value := GenerateValue(d.Value, 8, 20, t, equity);
    var ror := GenerateRoR(d.RateOfReturn, -1, 5, t);
    Asset(id, GenerateAssetName(t, q, false), t, q, equity, value, ror)
  }

  /** `GenerateSmallDeal`: a small deal of the type the weighted pick chooses. */
  function GenerateSmallDeal(id: Guid, d: Draws): (a: Asset)
    ensures a == SmallDealOf(id, a.Type, d)
  {
    SmallDealOf(id, PickWeighted(SmallDealWeights, d.Type), d)
  }

  /**
   * Big deals weigh apartments, businesses, houses and land 3 : 3 : 3 : 1 in
   * a pool of 10 (by `FlattenCounts`, each type fills that many slots).
   */
  lemma BigDealProportions()
    ensures TotalWeight(BigDealWeights) == 10
    ensures WeightOf(BigDealWeights, apartment) == 3 && WeightOf(BigDealWeights, business) == 3
    ensures WeightOf(BigDealWeights, threeTwo) == 3 && WeightOf(BigDealWeights, land) == 1
  {
  }

  /** Every one of the nine types comes out of some small deal. */
  lemma SmallDealAnyType(id: Guid, t: AssetType)
    ensures exists d: Draws :: GenerateSmallDeal(id, d).Type == t
  {
    var ws := SmallDealWeights;
    var j := match t
      case apartment => 0 case business => 1 case threeTwo => 2 case land => 3 case cd => 4
      case gold => 5 case mlm1 => 6 case mlm2 => 7 case twoOne => 8;
    PickEntry(ws, j);
    assert GenerateSmallDeal(id, Draws(TotalWeight(ws[..j]), 0, 0, 0, 0)).Type == t;
  }
}

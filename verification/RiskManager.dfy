/** Oracle prices (PriceOracle.sol) and the USD valuations built on them (RiskManager.sol). */
module RiskManager {
  import opened Results
  import opened FixedPoint
  import opened Ledgers

  const WETH_LTV_BPS: nat := 7_500
  const WETH_LIQUIDATION_THRESHOLD_BPS: nat := 8_000

  /** The two tokens of the market. */
  datatype Market = Market(weth: Address, usdc: Address)

  /** One asset's row in the oracle; an asset that is not registered has no row. */
  datatype AssetPrice = AssetPrice(price: nat, updatedAt: nat, maxPriceAge: nat, latestRoundId: nat)

  type Oracle = map<Address, AssetPrice>

  function GetPrice(oracle: Oracle, asset: Address, now: nat): Result<nat> {
    if asset !in oracle then Failure(UnsupportedAsset) else
    var data := oracle[asset];
    if data.price == 0 then Failure(PriceNotSet) else
    var age :- Sub(now, data.updatedAt);
    if age > data.maxPriceAge then Failure(StalePrice) else Success(data.price)
  }

  /** What the oracle answers for the two tokens during one transaction. */
  datatype Prices = Prices(weth: Result<nat>, usdc: Result<nat>) {
    predicate Positive() {
      && (weth.Success? ==> weth.value > 0)
      && (usdc.Success? ==> usdc.value > 0)
    }
  }

  function PricesAt(m: Market, oracle: Oracle, now: nat): (r: Prices)
    ensures r.Positive()
  {
    Prices(GetPrice(oracle, m.weth, now), GetPrice(oracle, m.usdc, now))
  }

  function CollateralValue(prices: Prices, wethAmount: nat): Result<nat> {
    var wethPrice :- prices.weth;
    MulDivDown(wethAmount, wethPrice, ORACLE_PRICE_SCALE)
  }

  /** A USDC amount in USD WAD: exact, because the six decimals cancel. */
  function DebtValue(prices: Prices, usdcAmount: nat): Result<nat> {
    var usdcPrice :- prices.usdc;
    var product :- Mul(usdcAmount, usdcPrice);
    Mul(product, 10_000)
  }

  function CollateralAmountForValueDown(prices: Prices, usdValueWad: nat): Result<nat> {
    var wethPrice :- prices.weth;
    MulDivDown(usdValueWad, ORACLE_PRICE_SCALE, wethPrice)
  }

  function DebtAmountForValueDown(prices: Prices, usdValueWad: nat): Result<nat> {
    var usdcPrice :- prices.usdc;
    var valueAtTokenPrecision :- MulDivDown(usdValueWad, 1, usdcPrice);
    MulDivDown(valueAtTokenPrecision, 1, BPS)
  }

  function MaxBorrow(prices: Prices, wethCollateral: nat): Result<nat> {
    var value :- CollateralValue(prices, wethCollateral);
    MulDivDown(value, WETH_LTV_BPS, BPS)
  }

  function HealthFactor(prices: Prices, wethCollateral: nat, usdcDebt: nat): Result<nat> {
    if usdcDebt == 0 then Success(MAX_UINT256) else
    var value :- CollateralValue(prices, wethCollateral);
    var adjusted :- MulDivDown(value, WETH_LIQUIDATION_THRESHOLD_BPS, BPS);
    var debtValue :- DebtValue(prices, usdcDebt);
    MulDivDown(adjusted, WAD, debtValue)
  }

  /** Nothing can be borrowed, and no debt is healthy, without collateral. */
  lemma DebtNeedsCollateral(prices: Prices, debt: nat)
    requires debt > 0 && prices.Positive()
    ensures MaxBorrow(prices, 0).Success? && DebtValue(prices, debt).Success? ==>
              DebtValue(prices, debt).value > MaxBorrow(prices, 0).value
    ensures HealthFactor(prices, 0, debt).Success? ==> HealthFactor(prices, 0, debt).value < WAD
  {
    hide Floor;
    if prices.weth.Success? {
      ZeroProduct(prices.weth.value, ORACLE_PRICE_SCALE);
      ZeroProduct(WETH_LTV_BPS, BPS);
      ZeroProduct(WETH_LIQUIDATION_THRESHOLD_BPS, BPS);
      if DebtValue(prices, debt).Success? {
        assert debt * prices.usdc.value > 0;
        ZeroProduct(WAD, DebtValue(prices, debt).value);
      }
    }
  }

  // What the valuations mean -----------------------------------------------------------------

  /** Collateral is valued at the price with eight decimals, rounded down. */
  lemma ValueMeaning(prices: Prices, wethAmount: nat)
    requires CollateralValue(prices, wethAmount).Success?
    ensures prices.weth.Success?
    ensures var value := CollateralValue(prices, wethAmount).value;
            value * 100_000_000 <= wethAmount * prices.weth.value < (value + 1) * 100_000_000
  {
    hide Floor;
    FloorBounds(wethAmount, prices.weth.value, ORACLE_PRICE_SCALE);
  }

  /** A debt is within the borrow limit if and only if it is worth at most 75% of the collateral's value. */
  lemma CapacityMeaning(value: nat, debtValue: nat)
    ensures debtValue <= Floor(value, WETH_LTV_BPS, BPS) <==> debtValue * 10_000 <= value * 7_500
  {
    hide Floor;
    FloorBounds(value, WETH_LTV_BPS, BPS);
    if debtValue * 10_000 <= value * 7_500 {
      FloorGreatest(value, WETH_LTV_BPS, BPS, debtValue);
    }
  }

  /** A health factor is at least one if and only if the debt is worth at most 80% of the collateral's value. */
  lemma HealthMeaning(value: nat, debtValue: nat)
    requires debtValue > 0
    ensures Floor(Floor(value, WETH_LIQUIDATION_THRESHOLD_BPS, BPS), WAD, debtValue) >= WAD <==>
            debtValue * 10_000 <= value * 8_000
  {
    hide Floor;
    var adjusted := Floor(value, WETH_LIQUIDATION_THRESHOLD_BPS, BPS);
    FloorBounds(value, WETH_LIQUIDATION_THRESHOLD_BPS, BPS);
    FloorBounds(adjusted, WAD, debtValue);
    if debtValue * 10_000 <= value * 8_000 {
      FloorGreatest(value, WETH_LIQUIDATION_THRESHOLD_BPS, BPS, debtValue);
      FloorGreatest(adjusted, WAD, debtValue, WAD);
    } else if Floor(adjusted, WAD, debtValue) >= WAD {
      MulMono(WAD, Floor(adjusted, WAD, debtValue), debtValue);
    }
  }
}

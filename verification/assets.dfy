/**
 * The asset record: the persisted Asset entity, the AssetDTO exchanged with
 * clients with its Bean Validation constraints, and the derived money values
 * every read of an asset carries.
 */
module Assets {
  import opened Wrappers
  import opened Decimals
  import opened Text

  /** The asset categories; their Java names are the upper-case constants. */
  datatype AssetType = Stock | Bond | Etf | Crypto | Cash

  function TypeName(t: AssetType): string {
    match t
    case Stock => "STOCK"
    case Bond => "BOND"
    case Etf => "ETF"
    case Crypto => "CRYPTO"
    case Cash => "CASH"
  }

  /** AssetType.valueOf: the constant with exactly this name, if any. */
  function ValueOf(s: string): (r: Option<AssetType>)
    ensures forall t :: r == Some(t) <==> TypeName(t) == s
  {
    if s == "STOCK" then Some(Stock)
    else if s == "BOND" then Some(Bond)
    else if s == "ETF" then Some(Etf)
    else if s == "CRYPTO" then Some(Crypto)
    else if s == "CASH" then Some(Cash)
    else None
  }

  /** A stored asset. Symbol, name, type, quantity and average price are non-null columns. */
  datatype Asset = Asset(
    id: int,
    symbol: string,
    name: string,
    assetType: AssetType,
    quantity: Decimal,
    avgBuyPrice: Decimal,
    currentPrice: Option<Decimal>)

  /** AssetDTO: every field may be null; the last two are computed by the service. */
  datatype AssetDto = AssetDto(
    id: Option<int>,
    symbol: Option<string>,
    name: Option<string>,
    assetType: Option<AssetType>,
    quantity: Option<Decimal>,
    avgBuyPrice: Option<Decimal>,
    currentPrice: Option<Decimal>,
    currentValue: Option<Decimal>,
    investedValue: Option<Decimal>)

  /** @NotBlank: present and not empty once trimmed. */
  predicate NotBlank(s: Option<string>): (b: bool)
    ensures b <==> s.Some? && exists i :: 0 <= i < |s.value| && !IsTrimmed(s.value[i])
  {
    s.Some? && (BlankIffAllTrimmed(s.value); !IsBlank(s.value))
  }

  /**
   * @Digits(integer, fraction) on a BigDecimal: precision minus scale is the
   * number of integer digits, and a negative scale counts as no fraction digits.
   */
  predicate DigitsWithin(d: Decimal, integer: int, fraction: int): (b: bool)
    ensures d.unscaled != 0 && integer + d.scale >= 0 ==>
      (b <==> Abs(d.unscaled) < Pow10(integer + d.scale) && Max(d.scale, 0) <= fraction)
    ensures d.unscaled != 0 && integer + d.scale < 0 ==> !b
    ensures d.unscaled == 0 ==> (b <==> integer + d.scale >= 1 && Max(d.scale, 0) <= fraction)
  {
    DigitsBelow(Abs(d.unscaled), integer + d.scale);
    Precision(d) - d.scale <= integer && Max(d.scale, 0) <= fraction
  }

  /** The value of @DecimalMin("0.0001") on the quantity. */
  const MinQuantity: Decimal := Decimal(1, 4)

  /** The value of @DecimalMin("0.00") on the prices. */
  const ZeroPrice: Decimal := Decimal(0, 2)

  /** The lower bounds of the three @DecimalMin constraints, read as signs. */
  lemma MinimumSigns(d: AssetDto)
    ensures d.quantity.Some? && Compare(d.quantity.value, MinQuantity) >= 0 ==> d.quantity.value.unscaled > 0
    ensures d.avgBuyPrice.Some? && Compare(d.avgBuyPrice.value, ZeroPrice) > 0 ==> d.avgBuyPrice.value.unscaled > 0
    ensures d.currentPrice.Some? && Compare(d.currentPrice.value, ZeroPrice) >= 0 ==> d.currentPrice.value.unscaled >= 0
  {
    if d.quantity.Some? {
      var q := d.quantity.value;
      var t := Max(q.scale, MinQuantity.scale);
      assert AtScale(MinQuantity, t) >= 1;
      SignAtScale(q, t);
    }
    if d.avgBuyPrice.Some? {
      var p := d.avgBuyPrice.value;
      var t := Max(p.scale, ZeroPrice.scale);
      assert AtScale(ZeroPrice, t) == 0;
      SignAtScale(p, t);
    }
    if d.currentPrice.Some? {
      var c := d.currentPrice.value;
      var t := Max(c.scale, ZeroPrice.scale);
      assert AtScale(ZeroPrice, t) == 0;
      SignAtScale(c, t);
    }
  }

  /**
   * The request constraints of AssetDTO; a null value satisfies @DecimalMin
   * and @Digits. A valid request has a visible symbol and name, a type, a
   * positive quantity and average buy price, and a current price that is
   * absent or not negative.
   */
  predicate ValidAssetDto(d: AssetDto): (b: bool)
    ensures b ==> d.symbol.Some? && !IsBlank(d.symbol.value) && d.name.Some? && !IsBlank(d.name.value)
    ensures b ==> d.assetType.Some?
    ensures b ==> d.quantity.Some? && d.quantity.value.unscaled > 0 && d.quantity.value.scale <= 4
    ensures b ==> d.avgBuyPrice.Some? && d.avgBuyPrice.value.unscaled > 0 && d.avgBuyPrice.value.scale <= 2
    ensures b && d.currentPrice.Some? ==> d.currentPrice.value.unscaled >= 0 && d.currentPrice.value.scale <= 2
  {
    MinimumSigns(d);
    && NotBlank(d.symbol)
    && NotBlank(d.name)
    && d.assetType.Some?
    && d.quantity.Some?
    && Compare(d.quantity.value, MinQuantity) >= 0
    && DigitsWithin(d.quantity.value, 11, 4)
    && d.avgBuyPrice.Some?
    && Compare(d.avgBuyPrice.value, ZeroPrice) > 0
    && DigitsWithin(d.avgBuyPrice.value, 13, 2)
    && (d.currentPrice.Some? ==>
          Compare(d.currentPrice.value, ZeroPrice) >= 0 && DigitsWithin(d.currentPrice.value, 13, 2))
  }

  /** Market value: quantity times the current price, an absent price counting as zero. */
  function CurrentValue(a: Asset): (r: Decimal)
    ensures r.scale == a.quantity.scale + a.currentPrice.GetOr(Zero).scale
  {
    Multiply(a.quantity, a.currentPrice.GetOr(Zero))
  }

  /** Cost basis: quantity times the average buy price. */
  function InvestedValue(a: Asset): (r: Decimal)
    ensures r.scale == a.quantity.scale + a.avgBuyPrice.scale
  {
    Multiply(a.quantity, a.avgBuyPrice)
  }

  /**
   * Both money values are exact products, read at any finer pair of scales;
   * a missing current price makes the market value zero, and positive
   * factors give a positive value.
   */
  lemma ValuesAreProducts(a: Asset, s: int, t: int)
    requires s >= a.quantity.scale
    ensures t >= a.avgBuyPrice.scale ==>
      AtScale(InvestedValue(a), s + t) == AtScale(a.quantity, s) * AtScale(a.avgBuyPrice, t)
    ensures a.currentPrice.Some? && t >= a.currentPrice.value.scale ==>
      AtScale(CurrentValue(a), s + t) == AtScale(a.quantity, s) * AtScale(a.currentPrice.value, t)
    ensures a.currentPrice.None? ==> CurrentValue(a).unscaled == 0
    ensures a.quantity.unscaled > 0 && a.avgBuyPrice.unscaled > 0 ==> InvestedValue(a).unscaled > 0
    ensures a.quantity.unscaled > 0 && a.currentPrice.Some? && a.currentPrice.value.unscaled > 0 ==>
      CurrentValue(a).unscaled > 0
  {
    var q, p := a.quantity, a.avgBuyPrice;
    assert AtScale(InvestedValue(a), q.scale + p.scale) == AtScale(q, q.scale) * AtScale(p, p.scale);
    if a.currentPrice.Some? {
      var c := a.currentPrice.value;
      assert AtScale(CurrentValue(a), q.scale + c.scale) == AtScale(q, q.scale) * AtScale(c, c.scale);
    } else {
      assert AtScale(CurrentValue(a), q.scale) == AtScale(q, q.scale) * AtScale(Zero, 0);
    }
  }

  /** Gain: market value minus cost basis, unrounded. */
  function Gain(a: Asset): (r: Decimal)
    ensures r.scale == Max(CurrentValue(a).scale, InvestedValue(a).scale)
    ensures forall t :: t >= r.scale ==> AtScale(r, t) == AtScale(CurrentValue(a), t) - AtScale(InvestedValue(a), t)
  {
    Subtract(CurrentValue(a), InvestedValue(a))
  }

  /** scaleMoney: rounding to cents, HALF_UP. */
  function ScaleMoney(v: Decimal): (r: Decimal)
    ensures RoundedTo(v, 2, r)
  {
    SetScaleHalfUp(v, 2)
  }

  /** The response form of a stored asset: its fields and its two money values in cents. */
  function ToDto(a: Asset): (r: AssetDto)
    ensures r.id == Some(a.id) && r.symbol == Some(a.symbol) && r.name == Some(a.name)
    ensures r.assetType == Some(a.assetType) && r.quantity == Some(a.quantity)
    ensures r.avgBuyPrice == Some(a.avgBuyPrice) && r.currentPrice == a.currentPrice
    ensures r.currentValue.Some? && RoundedTo(CurrentValue(a), 2, r.currentValue.value)
    ensures r.investedValue.Some? && RoundedTo(InvestedValue(a), 2, r.investedValue.value)
  {
    AssetDto(
      Some(a.id), Some(a.symbol), Some(a.name), Some(a.assetType),
      Some(a.quantity), Some(a.avgBuyPrice), a.currentPrice,
      Some(ScaleMoney(CurrentValue(a))), Some(ScaleMoney(InvestedValue(a))))
  }

  /** With at most two fraction digits between quantity and price, the money values are exact. */
  lemma ToDtoExactInCents(a: Asset)
    requires a.quantity.scale + a.avgBuyPrice.scale <= 2
    requires a.quantity.scale + a.currentPrice.GetOr(Zero).scale <= 2
    ensures AtScale(CurrentValue(a), 2) == ToDto(a).currentValue.value.unscaled
    ensures AtScale(InvestedValue(a), 2) == ToDto(a).investedValue.value.unscaled
  {
  }

  /** 10.0000 units at 170.00 and 150.00 are worth 1700.00 and cost 1500.00, at two places. */
  lemma ToDtoExample()
    ensures var a := Asset(1, "AAPL", "Apple", Stock, Decimal(100000, 4), Decimal(15000, 2), Some(Decimal(17000, 2)));
      ToDto(a).currentValue == Some(Decimal(170000, 2)) && ToDto(a).investedValue == Some(Decimal(150000, 2))
  {
  }
}

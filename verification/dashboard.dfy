/**
 * DashboardService.getPortfolioSummary: total market value, best and worst
 * asset by gain, and each asset type's share of the total in percent, over
 * the list of stored assets.
 */
module Dashboard {
  import opened Wrappers
  import opened Decimals
  import opened Assets

  /** new BigDecimal("100") */
  const OneHundred: Decimal := Decimal(100, 0)

  /** PortfolioSummaryDTO */
  datatype PortfolioSummary = PortfolioSummary(
    totalValue: Decimal,
    bestPerformer: Option<AssetDto>,
    worstPerformer: Option<AssetDto>,
    allocationByType: map<AssetType, Decimal>,
    assetCount: int)

  /** Every decimal of xs has scale at most t. */
  predicate ScalesAtMost(xs: seq<Decimal>, t: int) {
    forall i :: 0 <= i < |xs| ==> xs[i].scale <= t
  }

  /** The exact sum of xs, each written at scale t: the reference for every sum below. */
  function SumAt(xs: seq<Decimal>, t: int): int
    requires ScalesAtMost(xs, t)
  {
    if |xs| == 0 then 0 else SumAt(xs[..|xs| - 1], t) + AtScale(xs[|xs| - 1], t)
  }

  /** The larger of zero and every scale in xs. */
  function MaxScale(xs: seq<Decimal>): (r: int)
    ensures r >= 0 && ScalesAtMost(xs, r)
  {
    if |xs| == 0 then 0 else Max(MaxScale(xs[..|xs| - 1]), xs[|xs| - 1].scale)
  }

  /** reduce(ZERO, BigDecimal::add): the exact sum, at the largest scale involved. */
  function SumValues(xs: seq<Decimal>): (r: Decimal)
    ensures r.scale == MaxScale(xs)
    ensures forall t :: t >= r.scale ==> AtScale(r, t) == SumAt(xs, t)
  {
    if |xs| == 0 then Zero
    else
      var init := xs[..|xs| - 1];
      var r := Add(SumValues(init), xs[|xs| - 1]);
      assert forall t :: t >= r.scale ==> ScalesAtMost(init, t);
      r
  }

  /** The market values of the assets, in list order. */
  function Values(assets: seq<Asset>): (r: seq<Decimal>)
    ensures |r| == |assets| && forall i :: 0 <= i < |assets| ==> r[i] == CurrentValue(assets[i])
  {
    seq(|assets|, i requires 0 <= i < |assets| => CurrentValue(assets[i]))
  }

  /** The gains of the assets, in list order. */
  function Gains(assets: seq<Asset>): (r: seq<Decimal>)
    ensures |r| == |assets| && forall i :: 0 <= i < |assets| ==> r[i] == Gain(assets[i])
  {
    seq(|assets|, i requires 0 <= i < |assets| => Gain(assets[i]))
  }

  /**
   * BinaryOperator.maxBy folded from the left, as Stream.max does: the current
   * maximum stays unless the next value is strictly larger.
   */
  function MaxIndex(xs: seq<Decimal>): (r: nat)
    requires |xs| > 0
    ensures r < |xs|
    ensures Compare(xs[0], xs[r]) <= 0 && Compare(xs[|xs| - 1], xs[r]) <= 0
  {
    if |xs| == 1 then 0
    else
      var n := |xs| - 1;
      var m := MaxIndex(xs[..n]);
      if Compare(xs[m], xs[n]) >= 0 then
        CompareAntisymmetric(xs[m], xs[n]);
        m
      else
        CompareAntisymmetric(xs[m], xs[n]);
        CompareTransitive(xs[0], xs[m], xs[n]);
        n
  }

  /** BinaryOperator.minBy folded from the left: the current minimum stays on ties. */
  function MinIndex(xs: seq<Decimal>): (r: nat)
    requires |xs| > 0
    ensures r < |xs|
    ensures Compare(xs[r], xs[0]) <= 0 && Compare(xs[r], xs[|xs| - 1]) <= 0
  {
    if |xs| == 1 then 0
    else
      var n := |xs| - 1;
      var m := MinIndex(xs[..n]);
      if Compare(xs[m], xs[n]) <= 0 then m
      else
        CompareAntisymmetric(xs[m], xs[n]);
        CompareTransitive(xs[n], xs[m], xs[0]);
        n
  }

  /** No value exceeds the one MaxIndex picks, and none before it equals it. */
  lemma {:induction false} MaxIndexIsFirstMaximum(xs: seq<Decimal>)
    requires |xs| > 0
    ensures forall i :: 0 <= i < |xs| ==> Compare(xs[i], xs[MaxIndex(xs)]) <= 0
    ensures forall i :: 0 <= i < MaxIndex(xs) ==> Compare(xs[i], xs[MaxIndex(xs)]) < 0
  {
    var n := |xs|;
    var b := MaxIndex(xs);
    if n > 1 {
      var init := xs[..n - 1];
      var m := MaxIndex(init);
      MaxIndexIsFirstMaximum(init);
      CompareAntisymmetric(xs[m], xs[n - 1]);
      forall i | 0 <= i < n
        ensures Compare(xs[i], xs[b]) <= 0
        ensures i < b ==> Compare(xs[i], xs[b]) < 0
      {
        CompareAntisymmetric(xs[i], xs[i]);
        if i < n - 1 {
          assert xs[i] == init[i];
          if b == n - 1 {
            CompareTransitive(xs[i], xs[m], xs[n - 1]);
          }
        }
      }
    } else {
      CompareAntisymmetric(xs[0], xs[0]);
    }
  }

  /** No value is below the one MinIndex picks, and none before it equals it. */
  lemma {:induction false} MinIndexIsFirstMinimum(xs: seq<Decimal>)
    requires |xs| > 0
    ensures forall i :: 0 <= i < |xs| ==> Compare(xs[MinIndex(xs)], xs[i]) <= 0
    ensures forall i :: 0 <= i < MinIndex(xs) ==> Compare(xs[MinIndex(xs)], xs[i]) < 0
  {
    var n := |xs|;
    var w := MinIndex(xs);
    if n > 1 {
      var init := xs[..n - 1];
      var m := MinIndex(init);
      MinIndexIsFirstMinimum(init);
      CompareAntisymmetric(xs[m], xs[n - 1]);
      forall i | 0 <= i < n
        ensures Compare(xs[w], xs[i]) <= 0
        ensures i < w ==> Compare(xs[w], xs[i]) < 0
      {
        CompareAntisymmetric(xs[i], xs[i]);
        if i < n - 1 {
          assert xs[i] == init[i];
          if w == n - 1 {
            CompareTransitive(xs[n - 1], xs[m], xs[i]);
          }
        }
      }
    } else {
      CompareAntisymmetric(xs[0], xs[0]);
    }
  }

  /** The asset types present in the list. */
  function TypesPresent(assets: seq<Asset>): set<AssetType> {
    set i | 0 <= i < |assets| :: assets[i].assetType
  }

  /** The market values of the assets of type k, in list order. */
  function ValuesOfType(assets: seq<Asset>, k: AssetType): seq<Decimal> {
    if |assets| == 0 then []
    else
      var init := ValuesOfType(assets[..|assets| - 1], k);
      if assets[|assets| - 1].assetType == k then init + [CurrentValue(assets[|assets| - 1])] else init
  }

  /**
   * The first loop of calculateAllocation: EnumMap.merge of each asset's
   * market value under its type, so a type's total starts from its first value.
   */
  function TypeTotals(assets: seq<Asset>): (m: map<AssetType, Decimal>)
    ensures m.Keys == TypesPresent(assets)
  {
    if |assets| == 0 then map[]
    else
      var init := assets[..|assets| - 1];
      var a := assets[|assets| - 1];
      var m := TypeTotals(init);
      var v := CurrentValue(a);
      assert TypesPresent(assets) == TypesPresent(init) + {a.assetType} by {
        forall k | k in TypesPresent(assets)
          ensures k in TypesPresent(init) + {a.assetType}
        {
          var i :| 0 <= i < |assets| && assets[i].assetType == k;
          if i < |assets| - 1 {
            assert init[i] == assets[i];
          }
        }
        forall k | k in TypesPresent(init)
          ensures k in TypesPresent(assets)
        {
          var i :| 0 <= i < |init| && init[i].assetType == k;
          assert assets[i] == init[i];
        }
      }
      if a.assetType in m then m[a.assetType := Add(m[a.assetType], v)] else m[a.assetType := v]
  }

  /** Dropping the last asset keeps every remaining value. */
  lemma ValuesPrefix(assets: seq<Asset>, t: int)
    requires |assets| > 0 && ScalesAtMost(Values(assets), t)
    ensures ScalesAtMost(Values(assets[..|assets| - 1]), t)
    ensures CurrentValue(assets[|assets| - 1]).scale <= t
  {
    var init := assets[..|assets| - 1];
    forall i | 0 <= i < |init|
      ensures Values(init)[i].scale <= t
    {
      assert Values(init)[i] == Values(assets)[i];
    }
    assert Values(assets)[|assets| - 1] == CurrentValue(assets[|assets| - 1]);
  }

  /** The exact sum of a sequence extended by one value. */
  lemma SumAtSnoc(xs: seq<Decimal>, v: Decimal, t: int)
    requires ScalesAtMost(xs, t) && v.scale <= t
    ensures ScalesAtMost(xs + [v], t)
    ensures SumAt(xs + [v], t) == SumAt(xs, t) + AtScale(v, t)
  {
    assert (xs + [v])[..|xs|] == xs;
  }

  /** The values of one type, extended by the last asset when it has that type. */
  lemma ValuesOfTypeLast(assets: seq<Asset>, k: AssetType)
    requires |assets| > 0
    ensures var n := |assets| - 1;
      ValuesOfType(assets, k) == ValuesOfType(assets[..n], k) + if assets[n].assetType == k then [CurrentValue(assets[n])] else []
  {
  }

  /** The values of one type are among the values of the list. */
  lemma {:induction false} ValuesOfTypeScales(assets: seq<Asset>, k: AssetType, t: int)
    requires ScalesAtMost(Values(assets), t)
    ensures ScalesAtMost(ValuesOfType(assets, k), t)
  {
    if |assets| > 0 {
      var n := |assets| - 1;
      ValuesPrefix(assets, t);
      ValuesOfTypeScales(assets[..n], k, t);
      ValuesOfTypeLast(assets, k);
    }
  }

  /** A type's total is the exact sum of the market values of that type, at any scale fine enough. */
  lemma {:induction false} TypeTotalIsSum(assets: seq<Asset>, k: AssetType, t: int)
    requires k in TypeTotals(assets)
    requires ScalesAtMost(Values(assets), t)
    ensures ScalesAtMost(ValuesOfType(assets, k), t)
    ensures TypeTotals(assets)[k].scale <= t
    ensures AtScale(TypeTotals(assets)[k], t) == SumAt(ValuesOfType(assets, k), t)
  {
    ValuesOfTypeScales(assets, k, t);
    var n := |assets| - 1;
    var init := assets[..n];
    var a := assets[n];
    var v := CurrentValue(a);
    ValuesPrefix(assets, t);
    ValuesOfTypeLast(assets, k);
    ValuesOfTypeScales(init, k, t);
    var vs := ValuesOfType(init, k);
    if k in TypeTotals(init) {
      TypeTotalIsSum(init, k, t);
      if a.assetType == k {
        SumAtSnoc(vs, v, t);
      }
    } else {
      assert a.assetType == k;
      NoneOfType(init, k);
      SumAtSnoc([], v, t);
    }
  }

  /** A type absent from the totals has no values. */
  lemma {:induction false} NoneOfType(assets: seq<Asset>, k: AssetType)
    requires k !in TypeTotals(assets)
    ensures ValuesOfType(assets, k) == []
  {
    if |assets| > 0 {
      var init := assets[..|assets| - 1];
      assert assets[|assets| - 1].assetType in TypesPresent(assets);
      assert TypesPresent(init) <= TypesPresent(assets) by {
        forall j | j in TypesPresent(init)
          ensures j in TypesPresent(assets)
        {
          var i :| 0 <= i < |init| && init[i].assetType == j;
          assert assets[i] == init[i];
        }
      }
      NoneOfType(init, k);
    }
  }

  /**
   * The second loop of calculateAllocation: value * 100 / total rounded HALF_UP
   * to two places, or zero when the total compares equal to zero.
   */
  function Percent(v: Decimal, total: Decimal): (r: Decimal)
    ensures total.unscaled == 0 ==> r == Zero
    ensures total.unscaled != 0 ==> r.scale == 2 && forall t :: t >= v.scale && t >= total.scale ==>
      AtScale(total, t) != 0 && RoundsQuotient(AtScale(v, t) * 10000, AtScale(total, t), r.unscaled)
  {
    CompareWithZero(total);
    if Compare(total, Zero) == 0 then Zero
    else
      var r := DivideHalfUp(Multiply(v, OneHundred), total, 2);
      PercentQuotient(v, total, r);
      r
  }

  /** Times one hundred, the value at any scale at least its own is a hundred times larger. */
  lemma TimesHundred(v: Decimal, t: int)
    requires t >= v.scale
    ensures Multiply(v, OneHundred).scale == v.scale
    ensures AtScale(Multiply(v, OneHundred), t) * Pow10(2) == AtScale(v, t) * 10000
  {
    var scaled := Multiply(v, OneHundred);
    assert AtScale(scaled, t + 0) == AtScale(v, t) * AtScale(OneHundred, 0);
    assert Pow10(2) == 100;
  }

  lemma PercentQuotient(v: Decimal, total: Decimal, r: Decimal)
    requires total.unscaled != 0
    requires r == DivideHalfUp(Multiply(v, OneHundred), total, 2)
    ensures r.scale == 2 && forall t :: t >= v.scale && t >= total.scale ==>
      AtScale(total, t) != 0 && RoundsQuotient(AtScale(v, t) * 10000, AtScale(total, t), r.unscaled)
  {
    forall t | t >= v.scale && t >= total.scale
      ensures AtScale(total, t) != 0 && RoundsQuotient(AtScale(v, t) * 10000, AtScale(total, t), r.unscaled)
    {
      TimesHundred(v, t);
    }
  }

  /** The percentage of every type present, against the unrounded total. */
  function Allocation(assets: seq<Asset>, total: Decimal): (m: map<AssetType, Decimal>)
    ensures m.Keys == TypesPresent(assets)
  {
    var totals := TypeTotals(assets);
    map k | k in totals :: Percent(totals[k], total)
  }

  /** getPortfolioSummary over the stored assets. */
  function PortfolioSummaryOf(assets: seq<Asset>): (r: PortfolioSummary)
    ensures r.assetCount == |assets|
    ensures r.allocationByType.Keys == TypesPresent(assets)
    ensures |assets| == 0 ==> r.totalValue == Zero && r.bestPerformer.None? && r.worstPerformer.None?
    ensures |assets| > 0 ==>
      var t := MaxScale(Values(assets));
      && RoundedTo(SumValues(Values(assets)), 2, r.totalValue)
      && AtScale(SumValues(Values(assets)), t) == SumAt(Values(assets), t)
      && r.bestPerformer == Some(ToDto(assets[MaxIndex(Gains(assets))]))
      && r.worstPerformer == Some(ToDto(assets[MinIndex(Gains(assets))]))
  {
    if |assets| == 0 then PortfolioSummary(Zero, None, None, map[], 0)
    else
      var total := SumValues(Values(assets));
      PortfolioSummary(
        ScaleMoney(total),
        Some(ToDto(assets[MaxIndex(Gains(assets))])),
        Some(ToDto(assets[MinIndex(Gains(assets))])),
        Allocation(assets, total),
        |assets|)
  }

  /**
   * Each allocation entry is the type's exact market value times 100 over the
   * exact total, rounded HALF_UP to cents, or zero when the total is zero.
   */
  lemma AllocationEntry(assets: seq<Asset>, k: AssetType)
    requires k in TypesPresent(assets)
    ensures var t := MaxScale(Values(assets));
      var p := PortfolioSummaryOf(assets).allocationByType[k];
      && ScalesAtMost(ValuesOfType(assets, k), t)
      && (SumAt(Values(assets), t) == 0 ==> p == Zero)
      && (SumAt(Values(assets), t) != 0 ==>
            p.scale == 2 && RoundsQuotient(SumAt(ValuesOfType(assets, k), t) * 10000, SumAt(Values(assets), t), p.unscaled))
  {
    var t := MaxScale(Values(assets));
    var total := SumValues(Values(assets));
    var v := TypeTotals(assets)[k];
    TypeTotalIsSum(assets, k, t);
    SignAtScale(total, t);
  }

  /** The best performer is the first asset whose gain no other asset exceeds. */
  lemma BestPerformer(assets: seq<Asset>)
    requires |assets| > 0
    ensures var b := MaxIndex(Gains(assets));
      && PortfolioSummaryOf(assets).bestPerformer == Some(ToDto(assets[b]))
      && (forall i :: 0 <= i < |assets| ==> Compare(Gain(assets[i]), Gain(assets[b])) <= 0)
      && (forall i :: 0 <= i < b ==> Compare(Gain(assets[i]), Gain(assets[b])) < 0)
  {
    MaxIndexIsFirstMaximum(Gains(assets));
  }

  /** The worst performer is the first asset whose gain no other asset is below. */
  lemma WorstPerformer(assets: seq<Asset>)
    requires |assets| > 0
    ensures var w := MinIndex(Gains(assets));
      && PortfolioSummaryOf(assets).worstPerformer == Some(ToDto(assets[w]))
      && (forall i :: 0 <= i < |assets| ==> Compare(Gain(assets[w]), Gain(assets[i])) <= 0)
      && (forall i :: 0 <= i < w ==> Compare(Gain(assets[w]), Gain(assets[i])) < 0)
  {
    MinIndexIsFirstMinimum(Gains(assets));
  }
}

/**
 * AssetService: the business rules a request must pass, and create, update,
 * delete and read over the asset repository, modelled as a map from id to
 * asset with the next identity value.
 */
module AssetService {
  import opened Wrappers
  import opened Decimals
  import opened Text
  import opened Assets

  /**
   * What the service throws: IllegalArgumentException, ResourceNotFoundException,
   * or a null required field, which fails when trim dereferences it (symbol,
   * name) or at the database's not-null constraint (type, quantity, average price).
   */
  datatype ServiceError =
    | IllegalArgument(message: string)
    | ResourceNotFound(message: string)
    | NullField

  const AssetNotFound: string := "Asset not found"
  const NegativePrice: string := "Current price cannot be negative"
  const QuantityNotPositive: string := "Quantity must be greater than zero"
  const AvgPriceNotPositive: string := "Average buy price must be greater than zero"

  predicate PriceNotNegative(d: AssetDto) {
    d.currentPrice.None? || d.currentPrice.value.unscaled >= 0
  }

  predicate QuantityPositive(d: AssetDto) {
    d.quantity.None? || d.quantity.value.unscaled > 0
  }

  predicate AvgPricePositive(d: AssetDto) {
    d.avgBuyPrice.None? || d.avgBuyPrice.value.unscaled > 0
  }

  /** The business rules by sign; a null field is not checked. */
  predicate BusinessRulesHold(d: AssetDto) {
    PriceNotNegative(d) && QuantityPositive(d) && AvgPricePositive(d)
  }

  lemma RulesBySign(d: AssetDto)
    ensures d.currentPrice.Some? ==> (Compare(d.currentPrice.value, Zero) < 0 <==> d.currentPrice.value.unscaled < 0)
    ensures d.quantity.Some? ==> (Compare(d.quantity.value, Zero) <= 0 <==> d.quantity.value.unscaled <= 0)
    ensures d.avgBuyPrice.Some? ==> (Compare(d.avgBuyPrice.value, Zero) <= 0 <==> d.avgBuyPrice.value.unscaled <= 0)
  {
    if d.currentPrice.Some? {
      CompareWithZero(d.currentPrice.value);
    }
    if d.quantity.Some? {
      CompareWithZero(d.quantity.value);
    }
    if d.avgBuyPrice.Some? {
      CompareWithZero(d.avgBuyPrice.value);
    }
  }

  /**
   * validateBusinessRules: the first broken rule's message, checking the
   * current price, then the quantity, then the average buy price.
   */
  function ValidateBusinessRules(d: AssetDto): (e: Option<string>)
    ensures e.None? <==> BusinessRulesHold(d)
    ensures e == Some(NegativePrice) <==> !PriceNotNegative(d)
    ensures e == Some(QuantityNotPositive) <==> PriceNotNegative(d) && !QuantityPositive(d)
    ensures e == Some(AvgPriceNotPositive) <==> PriceNotNegative(d) && QuantityPositive(d) && !AvgPricePositive(d)
  {
    RulesBySign(d);
    if d.currentPrice.Some? && Compare(d.currentPrice.value, Zero) < 0 then Some(NegativePrice)
    else if d.quantity.Some? && Compare(d.quantity.value, Zero) <= 0 then Some(QuantityNotPositive)
    else if d.avgBuyPrice.Some? && Compare(d.avgBuyPrice.value, Zero) <= 0 then Some(AvgPriceNotPositive)
    else None
  }

  /** A request meeting the AssetDTO constraints passes the business rules. */
  lemma ValidDtoPassesRules(d: AssetDto)
    requires ValidAssetDto(d)
    ensures ValidateBusinessRules(d).None?
  {
    var q, p := d.quantity.value, d.avgBuyPrice.value;
    var tq := Max(q.scale, MinQuantity.scale);
    assert AtScale(MinQuantity, tq) >= 1;
    SignAtScale(q, tq);
    var tp := Max(p.scale, ZeroPrice.scale);
    assert AtScale(ZeroPrice, tp) == 0;
    SignAtScale(p, tp);
    if d.currentPrice.Some? {
      var c := d.currentPrice.value;
      var tc := Max(c.scale, ZeroPrice.scale);
      assert AtScale(ZeroPrice, tc) == 0;
      SignAtScale(c, tc);
    }
  }

  /** The converse fails: a blank symbol and a quantity below 0.0001 pass the business rules. */
  lemma RulesDoNotImplyValid()
    ensures var d := AssetDto(None, Some(" "), Some("Gold"), Some(Cash), Some(Decimal(1, 5)),
                              Some(Decimal(1, 0)), None, None, None);
      ValidateBusinessRules(d).None? && !ValidAssetDto(d)
  {
    var d := AssetDto(None, Some(" "), Some("Gold"), Some(Cash), Some(Decimal(1, 5)),
                      Some(Decimal(1, 0)), None, None, None);
    assert Trim(" ") == "";
  }

  /** The repository: assets by id, and the next value of the identity column. */
  datatype Store = Store(assets: map<int, Asset>, nextId: int)

  const EmptyStore: Store := Store(map[], 1)

  /** Every asset sits under its own id, and every id is below the next one to be issued. */
  predicate Valid(s: Store) {
    && s.nextId >= 1
    && forall id :: id in s.assets ==> s.assets[id].id == id && 1 <= id < s.nextId
  }

  /** Saving a new entity under the next id keeps the store valid. */
  lemma InsertKeepsValid(s: Store, a: Asset)
    ensures Valid(s) ==> s.nextId !in s.assets
    ensures Valid(s) && a.id == s.nextId ==> Valid(Store(s.assets[s.nextId := a], s.nextId + 1))
  {
  }

  /** Saving an entity over a stored one with the same id keeps the store valid. */
  lemma ReplaceKeepsValid(s: Store, a: Asset)
    ensures Valid(s) && a.id in s.assets ==> Valid(s.(assets := s.assets[a.id := a]))
  {
  }

  /** The fields the entity cannot hold as null. */
  predicate Complete(d: AssetDto) {
    d.symbol.Some? && d.name.Some? && d.assetType.Some? && d.quantity.Some? && d.avgBuyPrice.Some?
  }

  /** The entity a complete request is saved as: symbol and name trimmed, the rest as given. */
  function Stored(id: int, d: AssetDto): (a: Asset)
    requires Complete(d)
    ensures a.id == id && a.symbol == Trim(d.symbol.value) && a.name == Trim(d.name.value)
    ensures a.assetType == d.assetType.value && a.quantity == d.quantity.value
    ensures a.avgBuyPrice == d.avgBuyPrice.value && a.currentPrice == d.currentPrice
  {
    Asset(id, Trim(d.symbol.value), Trim(d.name.value), d.assetType.value,
          d.quantity.value, d.avgBuyPrice.value, d.currentPrice)
  }

  /** createAsset: validate, then save the trimmed request under a fresh id and return it as a response. */
  function CreateAsset(s: Store, request: AssetDto): (r: (Store, Result<AssetDto, ServiceError>))
    ensures r.1.Failure? ==> r.0 == s
    ensures !BusinessRulesHold(request) ==> r.1 == Failure(IllegalArgument(ValidateBusinessRules(request).value))
    ensures BusinessRulesHold(request) && !Complete(request) ==> r.1 == Failure(NullField)
    ensures r.1.Success? <==> BusinessRulesHold(request) && Complete(request)
    ensures r.1.Success? ==>
      && r.1.value.id == Some(s.nextId)
      && r.0.assets.Keys == s.assets.Keys + {s.nextId}
      && r.0.assets[s.nextId] == Stored(s.nextId, request)
      && r.1.value == ToDto(r.0.assets[s.nextId])
      && (forall id :: id in s.assets && id != s.nextId ==> r.0.assets[id] == s.assets[id])
    ensures Valid(s) ==> Valid(r.0) && s.nextId !in s.assets
  {
    match ValidateBusinessRules(request)
    case Some(message) => (s, Failure(IllegalArgument(message)))
    case None =>
      if !Complete(request) then (s, Failure(NullField))
      else
        var asset := Stored(s.nextId, request);
        InsertKeepsValid(s, asset);
        (Store(s.assets[s.nextId := asset], s.nextId + 1), Success(ToDto(asset)))
  }

  /**
   * updateAsset: validate first, then look the id up, then replace all six
   * data fields, keeping the id.
   */
  function UpdateAsset(s: Store, id: int, request: AssetDto): (r: (Store, Result<AssetDto, ServiceError>))
    ensures r.1.Failure? ==> r.0 == s
    ensures !BusinessRulesHold(request) ==> r.1 == Failure(IllegalArgument(ValidateBusinessRules(request).value))
    ensures BusinessRulesHold(request) && id !in s.assets ==> r.1 == Failure(ResourceNotFound(AssetNotFound))
    ensures BusinessRulesHold(request) && id in s.assets && !Complete(request) ==> r.1 == Failure(NullField)
    ensures r.1.Success? <==> BusinessRulesHold(request) && id in s.assets && Complete(request)
    ensures r.1.Success? ==>
      && r.0.nextId == s.nextId
      && r.0.assets.Keys == s.assets.Keys
      && r.0.assets[id] == Stored(id, request)
      && r.1.value == ToDto(r.0.assets[id])
      && (forall k :: k in s.assets && k != id ==> r.0.assets[k] == s.assets[k])
    ensures Valid(s) ==> Valid(r.0)
  {
    match ValidateBusinessRules(request)
    case Some(message) => (s, Failure(IllegalArgument(message)))
    case None =>
      if id !in s.assets then (s, Failure(ResourceNotFound(AssetNotFound)))
      else if !Complete(request) then (s, Failure(NullField))
      else
        var asset := Stored(id, request);
        ReplaceKeepsValid(s, asset);
        (s.(assets := s.assets[id := asset]), Success(ToDto(asset)))
  }

  /** deleteAsset: remove exactly the asset with this id. */
  function DeleteAsset(s: Store, id: int): (r: (Store, Result<(), ServiceError>))
    ensures id !in s.assets ==> r == (s, Failure(ResourceNotFound(AssetNotFound)))
    ensures id in s.assets ==>
      && r.1.Success?
      && r.0.nextId == s.nextId
      && r.0.assets.Keys == s.assets.Keys - {id}
      && (forall k :: k in r.0.assets ==> r.0.assets[k] == s.assets[k])
    ensures Valid(s) ==> Valid(r.0)
  {
    if id !in s.assets then (s, Failure(ResourceNotFound(AssetNotFound)))
    else (s.(assets := s.assets - {id}), Success(()))
  }

  /** getAssetById */
  function GetAssetById(s: Store, id: int): (r: Result<AssetDto, ServiceError>)
    ensures r.Success? <==> id in s.assets
    ensures r.Failure? ==> r.error == ResourceNotFound(AssetNotFound)
    ensures r.Success? ==> r.value == ToDto(s.assets[id])
    ensures r.Success? && Valid(s) ==> r.value.id == Some(id)
  {
    if id in s.assets then Success(ToDto(s.assets[id])) else Failure(ResourceNotFound(AssetNotFound))
  }

  /** Reading back a created asset returns what creation returned. */
  lemma CreateThenGet(s: Store, request: AssetDto)
    requires Valid(s)
    requires CreateAsset(s, request).1.Success?
    ensures var (s', created) := CreateAsset(s, request);
      GetAssetById(s', created.value.id.value) == created
  {
  }

  /** Reading back an updated asset returns what the update returned. */
  lemma UpdateThenGet(s: Store, id: int, request: AssetDto)
    requires UpdateAsset(s, id, request).1.Success?
    ensures var (s', updated) := UpdateAsset(s, id, request);
      GetAssetById(s', id) == updated
  {
  }

  /** After a delete, the id is not found, and deleting it again fails. */
  lemma DeleteThenGet(s: Store, id: int)
    requires id in s.assets
    ensures var s' := DeleteAsset(s, id).0;
      GetAssetById(s', id) == Failure(ResourceNotFound(AssetNotFound))
      && DeleteAsset(s', id) == (s', Failure(ResourceNotFound(AssetNotFound)))
  {
  }

  /** Whether an asset is listed under a type filter: findByAssetType, or findAll without one. */
  predicate Matches(a: Asset, filter: Option<AssetType>) {
    filter.None? || a.assetType == filter.value
  }

  /** The ids of the assets listed under a filter, ascending. */
  method ListedIds(s: Store, filter: Option<AssetType>) returns (ids: seq<int>)
    requires Valid(s)
    ensures forall i :: 0 <= i < |ids| ==> ids[i] in s.assets && Matches(s.assets[ids[i]], filter)
    ensures forall id :: id in s.assets && Matches(s.assets[id], filter) ==> id in ids
    ensures forall i, j :: 0 <= i < j < |ids| ==> ids[i] < ids[j]
  {
    ids := [];
    var next := 1;
    while next < s.nextId
      invariant 1 <= next <= s.nextId
      invariant forall i :: 0 <= i < |ids| ==> ids[i] in s.assets && ids[i] < next && Matches(s.assets[ids[i]], filter)
      invariant forall id :: id in s.assets && id < next && Matches(s.assets[id], filter) ==> id in ids
      invariant forall i, j :: 0 <= i < j < |ids| ==> ids[i] < ids[j]
    {
      if next in s.assets && Matches(s.assets[next], filter) {
        ids := ids + [next];
      }
      next := next + 1;
    }
  }

  /** The response forms of the assets with the given ids, in the same order. */
  function Responses(s: Store, ids: seq<int>): (r: seq<AssetDto>)
    requires forall i :: 0 <= i < |ids| ==> ids[i] in s.assets
    ensures |r| == |ids| && forall i :: 0 <= i < |ids| ==> r[i] == ToDto(s.assets[ids[i]])
  {
    seq(|ids|, i requires 0 <= i < |ids| => ToDto(s.assets[ids[i]]))
  }

  /** Each response is that of a stored asset the filter admits, under its own id. */
  lemma ResponsesAdmitted(s: Store, filter: Option<AssetType>, ids: seq<int>)
    requires Valid(s)
    requires forall i :: 0 <= i < |ids| ==> ids[i] in s.assets && Matches(s.assets[ids[i]], filter)
    ensures forall i :: 0 <= i < |ids| ==> Responses(s, ids)[i].id == Some(ids[i])
  {
    var r := Responses(s, ids);
    forall i | 0 <= i < |ids|
      ensures r[i].id == Some(ids[i])
    {
      var a := s.assets[ids[i]];
      assert a.id == ids[i];
      assert r[i] == ToDto(a);
    }
  }

  /** Every admitted asset has its response listed. */
  lemma ResponsesComplete(s: Store, filter: Option<AssetType>, ids: seq<int>)
    requires forall i :: 0 <= i < |ids| ==> ids[i] in s.assets
    requires forall id :: id in s.assets && Matches(s.assets[id], filter) ==> id in ids
    ensures forall id :: id in s.assets && Matches(s.assets[id], filter) ==> ToDto(s.assets[id]) in Responses(s, ids)
  {
    var r := Responses(s, ids);
    forall id | id in s.assets && Matches(s.assets[id], filter)
      ensures ToDto(s.assets[id]) in r
    {
      var i :| 0 <= i < |ids| && ids[i] == id;
      assert r[i] == ToDto(s.assets[id]);
    }
  }

  /** Distinct ids give responses with distinct ids. */
  lemma ResponsesDistinct(s: Store, ids: seq<int>)
    requires Valid(s)
    requires forall i :: 0 <= i < |ids| ==> ids[i] in s.assets
    requires forall i, j :: 0 <= i < j < |ids| ==> ids[i] < ids[j]
    ensures forall i, j :: 0 <= i < j < |ids| ==> Responses(s, ids)[i].id != Responses(s, ids)[j].id
  {
    var r := Responses(s, ids);
    assert forall i :: 0 <= i < |ids| ==> r[i].id == Some(ids[i]);
  }

  /**
   * getAssets: the response form of every stored asset of the requested
   * type, or of all assets, each once. The repository gives no order; the
   * model lists by ascending id.
   */
  method GetAssets(s: Store, filter: Option<AssetType>) returns (r: seq<AssetDto>)
    requires Valid(s)
    ensures forall i :: 0 <= i < |r| ==>
      r[i].id.Some? && r[i].id.value in s.assets
      && Matches(s.assets[r[i].id.value], filter)
      && r[i] == ToDto(s.assets[r[i].id.value])
    ensures forall id :: id in s.assets && Matches(s.assets[id], filter) ==> ToDto(s.assets[id]) in r
    ensures forall i, j :: 0 <= i < j < |r| ==> r[i].id != r[j].id
  {
    var ids := ListedIds(s, filter);
    r := Responses(s, ids);
    ResponsesAdmitted(s, filter, ids);
    ResponsesComplete(s, filter, ids);
    ResponsesDistinct(s, ids);
  }
}

/** Builds the batch request that writes records (Factories/BatchPutAttributeRequestFactory.cs). */
module BatchPutAttributeRequestFactory {
  import opened Results
  import opened SimpleDbModel
  import opened EntityMapper
  import ReplaceableItemAdapter

  /** Every record converted, in order; the first conversion that throws aborts the whole list. */
  function ConvertAll(records: seq<Record>, t: EntityType): (r: Result<seq<ReplaceableItem>, MappingError>)
    ensures r.Success? ==>
      && |r.value| == |records|
      && forall i | 0 <= i < |records| :: ReplaceableItemAdapter.Convert(records[i], t) == Success(r.value[i])
    ensures r.Failure? ==> exists i | 0 <= i < |records| ::
      && ReplaceableItemAdapter.Convert(records[i], t) == Failure(r.error)
      && forall j | 0 <= j < i :: ReplaceableItemAdapter.Convert(records[j], t).Success?
    ensures r.Success? <==> forall i | 0 <= i < |records| :: ReplaceableItemAdapter.Convert(records[i], t).Success?
  {
    if records == [] then Success([])
    else
      match ReplaceableItemAdapter.Convert(records[0], t)
      case Failure(e) => Failure(e)
      case Success(item) =>
        match ConvertAll(records[1..], t)
        case Failure(e) => Failure(e)
        case Success(items) => Success([item] + items)
  }

  /** A put request for `domainName` with the converted records, or the error converting
      them raises; a non-empty batch fails exactly when the type's conversion does. */
  function CreateRequest(records: seq<Record>, t: EntityType, domainName: string): (r: Result<BatchPutAttributesRequest, MappingError>)
    ensures r.Success? ==>
      && r.value.domainName == domainName
      && |r.value.items| == |records|
      && forall i | 0 <= i < |records| :: ReplaceableItemAdapter.Convert(records[i], t) == Success(r.value.items[i])
    ensures records != [] ==> (r.Failure? <==> ReplaceableItemAdapter.ConvertError(t).Some?)
    ensures r.Failure? ==>
      ReplaceableItemAdapter.ConvertError(t).Some? && r.error == ReplaceableItemAdapter.ConvertError(t).value
    ensures records != [] && CreateMap(t).Failure? ==> r == Failure(CreateMap(t).error)
  {
    match ConvertAll(records, t)
    case Failure(e) => Failure(e)
    case Success(items) => Success(BatchPutAttributesRequest(domainName, items))
  }

  /** An empty batch needs no entity map, so it never fails, even for a type without a key. */
  lemma EmptyBatchNeverFails(t: EntityType, domainName: string)
    ensures CreateRequest([], t, domainName) == Success(BatchPutAttributesRequest(domainName, []))
  {
  }
}

/** Builds the batch request that deletes items (Factories/BatchDeleteAttributeRequestFactory.cs). */
module BatchDeleteAttributeRequestFactory {
  import opened SimpleDbModel
  import DeleteableItemAdapter

  /** A delete request for `domainName` holding one whole-item deletion per identifier, in order. */
  function CreateRequest(identifiers: seq<string>, domainName: string): (r: BatchDeleteAttributesRequest)
    ensures r.domainName == domainName
    ensures |r.items| == |identifiers|
    ensures forall i | 0 <= i < |r.items| :: r.items[i] == DeleteableItem(identifiers[i], [])
    ensures identifiers == [] ==> r.items == []
  {
    BatchDeleteAttributesRequest(domainName, DeleteableItemAdapter.Convert(identifiers, DeleteableItemAdapter.StringForm))
  }
}

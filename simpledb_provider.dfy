/** The persistence provider for one record type (Providers/SimpleDBProvider.cs). */
module SimpleDbProvider {
  import opened Results
  import opened SimpleDbModel
  import opened EntityMapper
  import SelectRequestFactory
  import BatchPutAttributeRequestFactory
  import BatchDeleteAttributeRequestFactory

  /** One select response: a page of items and the token of the next page, if any. */
  datatype Page = Page(items: seq<Item>, nextToken: Option<string>)

  /** The responses the store gives to one query: every page but the last carries a token. */
  ghost predicate IsPageSequence(pages: seq<Page>)
  {
    && |pages| > 0
    && (forall i | 0 <= i < |pages| - 1 :: pages[i].nextToken.Some?)
    && pages[|pages| - 1].nextToken.None?
  }

  /** The items of the pages, page after page. */
  function Concat(pages: seq<Page>): seq<Item>
  {
    if pages == [] then [] else Concat(pages[..|pages| - 1]) + pages[|pages| - 1].items
  }

  /** Concatenation splits at any page boundary. */
  lemma {:induction false} ConcatAppend(front: seq<Page>, back: seq<Page>)
    ensures Concat(front + back) == Concat(front) + Concat(back)
  {
    if back != [] {
      var n := |back| - 1;
      ConcatAppend(front, back[..n]);
      assert (front + back)[..|front| + n] == front + back[..n];
    } else {
      assert front + back == front;
    }
  }

  /** An item is in the result exactly when some page holds it, and every page's items are a contiguous part of it. */
  lemma {:induction false} ConcatHoldsEveryPage(pages: seq<Page>, k: nat)
    requires k < |pages|
    ensures Concat(pages) == Concat(pages[..k]) + pages[k].items + Concat(pages[k + 1..])
  {
    assert pages == pages[..k] + ([pages[k]] + pages[k + 1..]);
    ConcatAppend(pages[..k], [pages[k]] + pages[k + 1..]);
    ConcatAppend([pages[k]], pages[k + 1..]);
    assert [pages[k]][..0] == [];
  }

  /** The token the i-th select of a query sends: none first, then the previous page's token. */
  function TokenFor(pages: seq<Page>, i: nat): Option<string>
    requires i <= |pages|
  {
    if i == 0 then None else pages[i - 1].nextToken
  }

  /** The domain name of a type: its [DomainName] override when it declares one, otherwise its name. */
  function GetDomainNameForType(t: EntityType): (r: string)
    ensures t.domainNameOverride.Some? ==> r == t.domainNameOverride.value
    ensures t.domainNameOverride.None? ==> r == t.name
  {
    match t.domainNameOverride
    case Some(name) => name
    case None => t.name
  }

  /** The store client's write side: it records every batch request sent to it. */
  class SimpleDbClient {
    var putRequests: seq<BatchPutAttributesRequest>
    var deleteRequests: seq<BatchDeleteAttributesRequest>

    constructor ()
      ensures putRequests == [] && deleteRequests == []
    {
      putRequests, deleteRequests := [], [];
    }

    method BatchPutAttributes(request: BatchPutAttributesRequest)
      modifies this
      ensures putRequests == old(putRequests) + [request]
      ensures deleteRequests == old(deleteRequests)
    {
      putRequests := putRequests + [request];
    }

    method BatchDeleteAttributes(request: BatchDeleteAttributesRequest)
      modifies this
      ensures deleteRequests == old(deleteRequests) + [request]
      ensures putRequests == old(putRequests)
    {
      deleteRequests := deleteRequests + [request];
    }
  }

  class Provider {
    const entity: EntityType
    const domainName: string
    const client: SimpleDbClient

    /** The domain name is resolved here, once. */
    constructor (entity: EntityType, client: SimpleDbClient)
      ensures this.entity == entity && this.client == client
      ensures domainName == GetDomainNameForType(entity)
    {
      this.entity := entity;
      this.client := client;
      domainName := GetDomainNameForType(entity);
    }

    /** Runs selects until a response carries no token; `pages` are the store's responses
        in order. Returns every page's items in page order and the requests sent. */
    method QueryDomain(identifier: Option<string>, pages: seq<Page>) returns (items: seq<Item>, requests: seq<SelectRequest>)
      requires IsPageSequence(pages)
      ensures items == Concat(pages)
      ensures |requests| == |pages|
      ensures forall i | 0 <= i < |requests| ::
        requests[i] == SelectRequestFactory.CreateRequest(domainName, TokenFor(pages, i), identifier)
    {
      var isComplete := false;
      var nextToken: Option<string> := None;
      items, requests := [], [];
      var served := 0;
      while !isComplete
        invariant 0 <= served <= |pages|
        invariant isComplete <==> served == |pages|
        invariant nextToken == TokenFor(pages, served)
        invariant items == Concat(pages[..served])
        invariant |requests| == served
        invariant forall i | 0 <= i < served ::
          requests[i] == SelectRequestFactory.CreateRequest(domainName, TokenFor(pages, i), identifier)
        decreases |pages| - served
      {
        var request := SelectRequestFactory.CreateRequest(domainName, nextToken, identifier);
        var response := pages[served];
        isComplete := response.nextToken.None?;
        nextToken := response.nextToken;
        assert pages[..served + 1][..served] == pages[..served];
        items := items + response.items;
        requests := requests + [request];
        served := served + 1;
      }
      assert pages[..served] == pages;
    }

    /** `Get(id)`: the conversion of the first item the query filtered by `identifier`
        returns, or `None`; `requests` are the selects it sends. */
    method Get<R>(identifier: string, pages: seq<Page>, convert: Item -> R) returns (r: Option<R>, requests: seq<SelectRequest>)
      requires IsPageSequence(pages)
      ensures r.None? <==> Concat(pages) == []
      ensures r.Some? ==> r.value == convert(Concat(pages)[0])
      ensures |requests| == |pages|
      ensures forall i | 0 <= i < |requests| ::
        requests[i] == SelectRequestFactory.CreateRequest(domainName, TokenFor(pages, i), Some(identifier))
    {
      var items;
      items, requests := QueryDomain(Some(identifier), pages);
      r := if items == [] then None else Some(convert(items[0]));
    }

    /** `Get()`: the conversion of every item of the unfiltered query, in order;
        `requests` are the selects it sends. */
    method GetAll<R>(pages: seq<Page>, convert: Item -> R) returns (records: seq<R>, requests: seq<SelectRequest>)
      requires IsPageSequence(pages)
      ensures |records| == |Concat(pages)|
      ensures forall i | 0 <= i < |records| :: records[i] == convert(Concat(pages)[i])
      ensures |requests| == |pages|
      ensures forall i | 0 <= i < |requests| ::
        requests[i] == SelectRequestFactory.CreateRequest(domainName, TokenFor(pages, i), None)
    {
      var items;
      items, requests := QueryDomain(None, pages);
      records := seq(|items|, i requires 0 <= i < |items| => convert(items[i]));
    }

    /** One batch put for the provider's domain; a mapping error aborts before any call. */
    method Save(records: seq<Record>) returns (outcome: Outcome<MappingError>)
      modifies client
      ensures client.deleteRequests == old(client.deleteRequests)
      ensures match BatchPutAttributeRequestFactory.CreateRequest(records, entity, domainName)
        case Failure(e) => outcome == Fail(e) && client.putRequests == old(client.putRequests)
        case Success(request) => outcome == Pass && client.putRequests == old(client.putRequests) + [request]
    {
      var request := BatchPutAttributeRequestFactory.CreateRequest(records, entity, domainName);
      if request.Failure? {
        return Fail(request.error);
      }
      client.BatchPutAttributes(request.value);
      outcome := Pass;
    }

    /** One batch delete for the provider's domain, naming every identifier in order. */
    method Delete(identifiers: seq<string>)
      modifies client
      ensures client.putRequests == old(client.putRequests)
      ensures client.deleteRequests == old(client.deleteRequests)
        + [BatchDeleteAttributeRequestFactory.CreateRequest(identifiers, domainName)]
    {
      var request := BatchDeleteAttributeRequestFactory.CreateRequest(identifiers, domainName);
      client.BatchDeleteAttributes(request);
    }
  }
}

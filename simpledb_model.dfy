/** The request and response records of the SimpleDB client library that the
    core builds and reads. Only the fields the core sets or reads are kept. */
module SimpleDbModel {
  import opened Results

  /** A stored attribute as a select response returns it. */
  datatype Attribute = Attribute(name: string, value: string)

  /** A stored item: its name and its attributes, in response order. A name may repeat. */
  datatype Item = Item(name: string, attributes: seq<Attribute>)

  /** An attribute to write; `replace` asks the store to drop the old values of that name first. */
  datatype ReplaceableAttribute = ReplaceableAttribute(name: string, value: Option<string>, replace: bool)

  /** An item to write. A `None` name or value stands for a C# `null`. */
  datatype ReplaceableItem = ReplaceableItem(itemName: Option<string>, attributes: seq<ReplaceableAttribute>)

  /** An item to delete; an empty attribute list deletes the whole item. */
  datatype DeleteableItem = DeleteableItem(itemName: string, attributes: seq<Attribute>)

  datatype SelectRequest = SelectRequest(selectExpression: string, nextToken: Option<string>, consistentRead: bool)

  datatype BatchPutAttributesRequest = BatchPutAttributesRequest(domainName: string, items: seq<ReplaceableItem>)

  datatype BatchDeleteAttributesRequest = BatchDeleteAttributesRequest(domainName: string, items: seq<DeleteableItem>)
}

/** Converts identifiers to items to delete (Adapters/DeleteableItemAdapter.cs). */
module DeleteableItemAdapter {
  import opened SimpleDbModel

  /** `ToString` of a string: the string itself. */
  function StringForm(s: string): string { s }

  /** One whole-item deletion per identifier, named by the identifier's string form, in order. */
  function Convert<I>(identifiers: seq<I>, toString: I -> string): (r: seq<DeleteableItem>)
    ensures |r| == |identifiers|
    ensures forall i | 0 <= i < |r| :: r[i].itemName == toString(identifiers[i]) && r[i].attributes == []
  {
    if identifiers == [] then []
    else [DeleteableItem(toString(identifiers[0]), [])] + Convert(identifiers[1..], toString)
  }

  /** The names of some items to delete. */
  function ItemNames(items: seq<DeleteableItem>): (r: seq<string>)
    ensures |r| == |items| && forall i | 0 <= i < |r| :: r[i] == items[i].itemName
  {
    if items == [] then [] else [items[0].itemName] + ItemNames(items[1..])
  }

  /** For string identifiers the item names are the identifiers themselves, in order. */
  lemma ConvertStringsKeepsNames(identifiers: seq<string>)
    ensures ItemNames(Convert(identifiers, StringForm)) == identifiers
  {
  }
}

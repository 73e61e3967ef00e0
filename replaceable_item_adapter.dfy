/** Converts a record instance to an item to write (Adapters/ReplaceableitemAdapter.cs). */
module ReplaceableItemAdapter {
  import opened Results
  import opened SimpleDbModel
  import opened EntityMapper

  /** The string form of a property's value, `None` when the value is `null`.
      A property the instance holds no value for reads as `null`. */
  function ValueOf(instance: Record, property: Property): (r: Option<string>)
    ensures r.Some? <==> property.name in instance && instance[property.name].Some?
    ensures r.Some? ==> r == instance[property.name]
  {
    if property.name in instance then instance[property.name] else None
  }

  /** Reading a property by reflection: it throws when the property has no getter, and
      otherwise gives the string form of the value. */
  function GetPropertyValue(instance: Record, property: Property): (r: Result<Option<string>, MappingError>)
    ensures r.Failure? <==> !property.canRead
    ensures r.Failure? ==> r.error == GetMethodNotFound(property.name)
    ensures r.Success? ==> r.value == ValueOf(instance, property)
  {
    if property.canRead then Success(ValueOf(instance, property))
    else Failure(GetMethodNotFound(property.name))
  }

  /** The exception reading the properties in order raises first: that of the first property
      without a getter, if any. It depends on the properties alone, not on the values. */
  function ReadError(properties: seq<Property>): (r: Option<MappingError>)
    ensures r.None? <==> forall i | 0 <= i < |properties| :: properties[i].canRead
    ensures r.Some? ==> exists i | 0 <= i < |properties| ::
      && !properties[i].canRead
      && r.value == GetMethodNotFound(properties[i].name)
      && forall j | 0 <= j < i :: properties[j].canRead
  {
    if properties == [] then None
    else if !properties[0].canRead then Some(GetMethodNotFound(properties[0].name))
    else
      var rest := ReadError(properties[1..]);
      assert forall i | 1 <= i < |properties| :: properties[i] == properties[1..][i - 1];
      rest
  }

  /** One replacing attribute per property, in the order of the properties; reading a
      property without a getter aborts the whole list. */
  function GetReplaceableAttributes(instance: Record, properties: seq<Property>): (r: Result<seq<ReplaceableAttribute>, MappingError>)
    ensures r.Failure? <==> ReadError(properties).Some?
    ensures r.Failure? ==> r.error == ReadError(properties).value
    ensures r.Success? ==>
      && |r.value| == |properties|
      && forall i | 0 <= i < |properties| ::
        r.value[i] == ReplaceableAttribute(properties[i].name, ValueOf(instance, properties[i]), true)
  {
    if properties == [] then Success([])
    else
      match GetPropertyValue(instance, properties[0])
      case Failure(e) => Failure(e)
      case Success(value) =>
        match GetReplaceableAttributes(instance, properties[1..])
        case Failure(e) => Failure(e)
        case Success(rest) => Success([ReplaceableAttribute(properties[0].name, value, true)] + rest)
  }

  /** The exception converting any instance of `t` raises: the mapping error, else that of
      reading the key, else that of reading the persistable properties in order. */
  function ConvertError(t: EntityType): Option<MappingError>
  {
    match CreateMap(t)
    case Failure(e) => Some(e)
    case Success(m) => ReadError([m.keyProperty] + m.persistableProperties)
  }

  /** The item to write for `instance`: named by the key property's value, with one
      replacing attribute per persistable property. It fails, for every instance alike,
      when the type has no entity map or a property it reads has no getter. */
  function Convert(instance: Record, t: EntityType): (r: Result<ReplaceableItem, MappingError>)
    ensures r.Failure? <==> ConvertError(t).Some?
    ensures r.Failure? ==> r.error == ConvertError(t).value
    ensures CreateMap(t).Failure? ==> r == Failure(CreateMap(t).error)
    ensures r.Success? ==>
      var m := CreateMap(t).value;
      && r.value.itemName == ValueOf(instance, m.keyProperty)
      && |r.value.attributes| == |m.persistableProperties|
      && forall i | 0 <= i < |m.persistableProperties| ::
        r.value.attributes[i] ==
          ReplaceableAttribute(m.persistableProperties[i].name, ValueOf(instance, m.persistableProperties[i]), true)
  {
    match CreateMap(t)
    case Failure(e) => Failure(e)
    case Success(m) =>
      assert ([m.keyProperty] + m.persistableProperties)[1..] == m.persistableProperties;
      match GetPropertyValue(instance, m.keyProperty)
      case Failure(e) => Failure(e)
      case Success(itemName) =>
        match GetReplaceableAttributes(instance, m.persistableProperties)
        case Failure(e) => Failure(e)
        case Success(attributes) => Success(ReplaceableItem(itemName, attributes))
  }
}

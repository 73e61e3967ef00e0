/** Reflection over a record type, and the entity map derived from it
    (Mappers/EntityMapper.cs, Mappers/EntityMap.cs). */
module EntityMapper {
  import opened Results
  import opened Sequences

  /** One public property of a record type, as reflection reports it:
      whether it carries the [Key] or [DoNotPersist] marker, whether it has a getter
      and whether it has a setter. */
  datatype Property = Property(name: string, isKey: bool, doNotPersist: bool, canRead: bool, canWrite: bool)

  /** The values of an instance's properties by property name; `None` is `null`.
      Property values are strings, so `ToString` and `ChangeType` are the identity. */
  type Record = map<string, Option<string>>

  /** What reflection tells about a record type `T`: its short and full names, the
      domain name its [DomainName] marker declares, its properties in declaration
      order, and the property values of a fresh `new T()`. */
  datatype EntityType = EntityType(
    name: string,
    fullName: string,
    domainNameOverride: Option<string>,
    properties: seq<Property>,
    defaults: Record)

  datatype EntityMap = EntityMap(keyProperty: Property, persistableProperties: seq<Property>)

  /** The exceptions mapping a type and converting its instances raise: the two key checks,
      and reflection reading a property without a getter or writing one without a setter. */
  datatype MappingError =
    | KeyPropertyNotFound(typeName: string)
    | MoreThanOneKeyProperty(typeName: string)
    | GetMethodNotFound(propertyName: string)
    | SetMethodNotFound(propertyName: string)

  predicate IsKey(p: Property) { p.isKey }

  predicate IsPersistable(p: Property) { !p.doNotPersist && !p.isKey && p.canWrite }

  /** No property carries the [Key] marker. */
  ghost predicate NoKey(properties: seq<Property>)
  {
    forall i | 0 <= i < |properties| :: !properties[i].isKey
  }

  /** At least two properties carry the [Key] marker. */
  ghost predicate SeveralKeys(properties: seq<Property>)
  {
    KeptTwice(properties, IsKey)
  }

  /** The property at `i` is the one and only [Key]-marked property. */
  ghost predicate OnlyKeyAt(properties: seq<Property>, i: int)
  {
    && 0 <= i < |properties|
    && properties[i].isKey
    && forall j | 0 <= j < |properties| && j != i :: !properties[j].isKey
  }

  /** The single [Key]-marked property, or the error naming the type. */
  function GetKeyProperty(typeName: string, properties: seq<Property>): (r: Result<Property, MappingError>)
    ensures r == Failure(KeyPropertyNotFound(typeName)) <==> NoKey(properties)
    ensures r == Failure(MoreThanOneKeyProperty(typeName)) <==> SeveralKeys(properties)
    ensures r.Success? ==> exists i :: OnlyKeyAt(properties, i) && properties[i] == r.value
  {
    var keyProperties := Filter(properties, IsKey);
    FilterEmpty(properties, IsKey);
    FilterSeveral(properties, IsKey);
    if |keyProperties| == 0 then Failure(KeyPropertyNotFound(typeName))
    else if |keyProperties| > 1 then Failure(MoreThanOneKeyProperty(typeName))
    else FilterSingle(properties, IsKey); Success(keyProperties[0])
  }

  /** The properties without [DoNotPersist], without [Key] and with a setter, in declaration order. */
  function GetPersistableProperties(properties: seq<Property>): (r: seq<Property>)
    ensures forall p | p in r :: p in properties && IsPersistable(p)
    ensures forall p | p in properties && IsPersistable(p) :: p in r
    ensures forall p | p in r :: !p.isKey
    ensures IsSubsequence(r, properties)
  {
    Filter(properties, IsPersistable)
  }

  /** The entity map of a type; fails when the type has no key or several. */
  function CreateMap(t: EntityType): (r: Result<EntityMap, MappingError>)
    ensures NoKey(t.properties) ==> r == Failure(KeyPropertyNotFound(t.fullName))
    ensures SeveralKeys(t.properties) ==> r == Failure(MoreThanOneKeyProperty(t.fullName))
    ensures !NoKey(t.properties) && !SeveralKeys(t.properties) ==> r.Success?
    ensures r.Success? ==>
      && (exists i :: OnlyKeyAt(t.properties, i) && t.properties[i] == r.value.keyProperty)
      && r.value.keyProperty !in r.value.persistableProperties
      && r.value.persistableProperties == GetPersistableProperties(t.properties)
  {
    match GetKeyProperty(t.fullName, t.properties)
    case Failure(e) => Failure(e)
    case Success(keyProperty) =>
      Success(EntityMap(keyProperty, GetPersistableProperties(t.properties)))
  }

  /** Each persistable property survives as often as it is declared; nothing else survives. */
  lemma PersistableMultiplicity(properties: seq<Property>, p: Property)
    ensures multiset(GetPersistableProperties(properties))[p] ==
      if IsPersistable(p) then multiset(properties)[p] else 0
  {
    FilterMultiplicity(properties, IsPersistable, p);
  }
}

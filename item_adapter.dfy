/** Rebuilds a record instance from a stored item (Adapters/ItemAdapter.cs). */
module ItemAdapter {
  import opened Results
  import opened Sequences
  import opened SimpleDbModel
  import opened EntityMapper

  /** A property the adapter fills: no [DoNotPersist] marker and a setter. The key is not excluded. */
  predicate IsFillable(p: Property) { !p.doNotPersist && p.canWrite }

  /** The state an `ItemAdapter<T>` keeps after construction: the key property,
      the properties to fill, and what `new T()` holds. */
  datatype Adapter = Adapter(keyProperty: Property, propertiesToFill: seq<Property>, defaults: Record)

  /** The adapter's constructor: the fillable properties in declaration order and the
      single key property; fails like the entity mapper on zero or several keys. */
  function DeterminePropertiesToFill(t: EntityType): (r: Result<Adapter, MappingError>)
    ensures NoKey(t.properties) ==> r == Failure(KeyPropertyNotFound(t.fullName))
    ensures SeveralKeys(t.properties) ==> r == Failure(MoreThanOneKeyProperty(t.fullName))
    ensures !NoKey(t.properties) && !SeveralKeys(t.properties) ==> r.Success?
    ensures r.Success? ==>
      && (exists i :: OnlyKeyAt(t.properties, i) && t.properties[i] == r.value.keyProperty)
      && (forall p | p in r.value.propertiesToFill :: p in t.properties && IsFillable(p))
      && (forall p | p in t.properties && IsFillable(p) :: p in r.value.propertiesToFill)
      && IsSubsequence(r.value.propertiesToFill, t.properties)
      && r.value.defaults == t.defaults
  {
    var propertiesToFill := Filter(t.properties, IsFillable);
    match GetKeyProperty(t.fullName, t.properties)
    case Failure(e) => Failure(e)
    case Success(keyProperty) => Success(Adapter(keyProperty, propertiesToFill, t.defaults))
  }

  /** The adapter fills what the entity mapper persists, plus the key when the key itself
      has a setter and no [DoNotPersist] marker. */
  lemma FillableIsPersistableOrKey(t: EntityType)
    requires DeterminePropertiesToFill(t).Success?
    ensures CreateMap(t).Success?
    ensures DeterminePropertiesToFill(t).value.keyProperty == CreateMap(t).value.keyProperty
    ensures forall p :: p in DeterminePropertiesToFill(t).value.propertiesToFill <==>
      p in CreateMap(t).value.persistableProperties
      || (p == CreateMap(t).value.keyProperty && IsFillable(p))
  {
    var adapter, m := DeterminePropertiesToFill(t).value, CreateMap(t).value;
    var i :| OnlyKeyAt(t.properties, i) && t.properties[i] == m.keyProperty;
    var j :| OnlyKeyAt(t.properties, j) && t.properties[j] == adapter.keyProperty;
    assert i == j;
  }

  /** Each fillable property is filled as often as it is declared; nothing else is. */
  lemma FillableMultiplicity(t: EntityType, p: Property)
    requires DeterminePropertiesToFill(t).Success?
    ensures multiset(DeterminePropertiesToFill(t).value.propertiesToFill)[p] ==
      if IsFillable(p) then multiset(t.properties)[p] else 0
  {
    FilterMultiplicity(t.properties, IsFillable, p);
  }

  /** The names of some properties. */
  function Names(properties: seq<Property>): set<string>
  {
    set p | p in properties :: p.name
  }

  /** The value of the last attribute called `name`, if any. */
  function LastValue(attributes: seq<Attribute>, name: string): Option<string>
  {
    if attributes == [] then None
    else
      var n := |attributes| - 1;
      if attributes[n].name == name then Some(attributes[n].value)
      else LastValue(attributes[..n], name)
  }

  /** `LastValue` finds the attribute of that name with no later namesake, and only misses when there is none. */
  lemma {:induction false} LastValueIsLast(attributes: seq<Attribute>, name: string)
    ensures LastValue(attributes, name).None? <==> forall i | 0 <= i < |attributes| :: attributes[i].name != name
    ensures LastValue(attributes, name).Some? ==> exists i | 0 <= i < |attributes| ::
      && attributes[i].name == name && attributes[i].value == LastValue(attributes, name).value
      && forall j | i < j < |attributes| :: attributes[j].name != name
  {
    if attributes != [] {
      var n := |attributes| - 1;
      var init := attributes[..n];
      LastValueIsLast(init, name);
      assert forall i | 0 <= i < n :: init[i] == attributes[i];
    }
  }

  /** The inner loop of `Convert`: set `property` from every attribute of its name, in list order. */
  function Assign(fields: Record, property: Property, attributes: seq<Attribute>): Record
    decreases |attributes|
  {
    if attributes == [] then fields
    else
      var n := |attributes| - 1;
      var before := Assign(fields, property, attributes[..n]);
      if attributes[n].name == property.name then before[property.name := Some(attributes[n].value)]
      else before
  }

  /** The outer loop of `Convert`: run the inner loop for each property to fill, in order. */
  function Fill(fields: Record, properties: seq<Property>, attributes: seq<Attribute>): Record
    decreases |properties|
  {
    if properties == [] then fields
    else
      var n := |properties| - 1;
      Assign(Fill(fields, properties[..n], attributes), properties[n], attributes)
  }

  /** The record `Convert` builds: the defaults, then the key from the item name, then the attributes. */
  function Converted(adapter: Adapter, item: Item): Record
  {
    Fill(adapter.defaults[adapter.keyProperty.name := Some(item.name)], adapter.propertiesToFill, item.attributes)
  }

  /** What the attributes of a fillable property name settle it to. */
  function Updates(properties: seq<Property>, attributes: seq<Attribute>): map<string, Option<string>>
  {
    map n | n in Names(properties) && LastValue(attributes, n).Some? :: LastValue(attributes, n)
  }

  /** A record instance, the object `new T()` allocates and `Convert` mutates. */
  class Instance {
    var fields: Record

    constructor (defaults: Record)
      ensures fields == defaults
    {
      fields := defaults;
    }

    /** `PropertyInfo.SetValue`, for a property that has a setter. */
    method SetValue(property: Property, value: Option<string>)
      requires property.canWrite
      modifies this
      ensures fields == old(fields)[property.name := value]
    {
      fields := fields[property.name := value];
    }
  }

  /** The outcome `Convert` yields: reflection throws when the key has no setter; otherwise
      the record `Converted` describes. */
  function ConvertItem(adapter: Adapter, item: Item): Result<Record, MappingError>
  {
    if adapter.keyProperty.canWrite then Success(Converted(adapter, item))
    else Failure(SetMethodNotFound(adapter.keyProperty.name))
  }

  /** `ItemAdapter<T>.Convert`: a fresh instance, its key set from the item name, then
      every fillable property set from each attribute of its name, in order. Setting a key
      without a setter throws. The properties to fill all have setters, as the
      constructor picks them. */
  method Convert(adapter: Adapter, item: Item) returns (r: Result<Instance, MappingError>)
    requires forall p | p in adapter.propertiesToFill :: p.canWrite
    ensures r.Failure? <==> !adapter.keyProperty.canWrite
    ensures r.Failure? ==> r.error == SetMethodNotFound(adapter.keyProperty.name)
    ensures r.Success? ==> fresh(r.value) && r.value.fields == Converted(adapter, item)
  {
    var instance := new Instance(adapter.defaults);
    if !adapter.keyProperty.canWrite {
      return Failure(SetMethodNotFound(adapter.keyProperty.name));
    }
    instance.SetValue(adapter.keyProperty, Some(item.name));
    ghost var start := instance.fields;
    var properties := adapter.propertiesToFill;
    var attributes := item.attributes;
    var i := 0;
    while i < |properties|
      invariant 0 <= i <= |properties|
      invariant instance.fields == Fill(start, properties[..i], attributes)
    {
      var p := properties[i];
      ghost var before := instance.fields;
      var j := 0;
      while j < |attributes|
        invariant 0 <= j <= |attributes|
        invariant instance.fields == Assign(before, p, attributes[..j])
      {
        var a := attributes[j];
        assert attributes[..j + 1][..j] == attributes[..j];
        if a.name == p.name {
          instance.SetValue(p, Some(a.value));
        }
        j := j + 1;
      }
      assert attributes[..j] == attributes;
      assert properties[..i + 1][..i] == properties[..i];
      i := i + 1;
    }
    assert properties[..i] == properties;
    r := Success(instance);
  }

  /** The inner loop leaves the property at the value of the last attribute of its name, if any. */
  lemma {:induction false} AssignSetsLastValue(fields: Record, property: Property, attributes: seq<Attribute>)
    ensures Assign(fields, property, attributes) ==
      match LastValue(attributes, property.name)
      case Some(v) => fields[property.name := Some(v)]
      case None => fields
  {
    if attributes != [] {
      AssignSetsLastValue(fields, property, attributes[..|attributes| - 1]);
    }
  }

  /** Adding one more property to fill adds at most its own name to the updates. */
  lemma UpdatesSnoc(init: seq<Property>, p: Property, attributes: seq<Attribute>)
    ensures Updates(init + [p], attributes) ==
      match LastValue(attributes, p.name)
      case Some(v) => Updates(init, attributes)[p.name := Some(v)]
      case None => Updates(init, attributes)
  {
    assert Names(init + [p]) == Names(init) + {p.name};
  }

  /** Filling leaves each fillable name at its last attribute value and every other field alone. */
  lemma {:induction false} FillIsUpdate(fields: Record, properties: seq<Property>, attributes: seq<Attribute>)
    ensures Fill(fields, properties, attributes) == fields + Updates(properties, attributes)
  {
    if properties == [] {
      assert Updates(properties, attributes) == map[];
    } else {
      var n := |properties| - 1;
      var init, p := properties[..n], properties[n];
      assert properties == init + [p];
      FillIsUpdate(fields, init, attributes);
      AssignSetsLastValue(fields + Updates(init, attributes), p, attributes);
      UpdatesSnoc(init, p, attributes);
    }
  }

  /** What `Convert` produces, name by name: the last attribute of a fillable property's
      name wins; otherwise the key holds the item name and every other field its default. */
  lemma ConvertedFields(adapter: Adapter, item: Item)
    ensures var r := Converted(adapter, item);
      var key := adapter.keyProperty.name;
      var fill := Names(adapter.propertiesToFill);
      && (forall n :: n in r <==> n in adapter.defaults || n == key || (n in fill && LastValue(item.attributes, n).Some?))
      && (forall p | p in adapter.propertiesToFill && LastValue(item.attributes, p.name).Some? ::
            r[p.name] == LastValue(item.attributes, p.name))
      && (key !in fill || LastValue(item.attributes, key).None? ==> r[key] == Some(item.name))
      && (forall n | n in adapter.defaults && n != key && (n !in fill || LastValue(item.attributes, n).None?) ::
            r[n] == adapter.defaults[n])
  {
    FillIsUpdate(adapter.defaults[adapter.keyProperty.name := Some(item.name)], adapter.propertiesToFill, item.attributes);
  }

  /** An attribute whose name is not that of another attribute does not change which value is last. */
  lemma {:induction false} LastValueSkips(xs: seq<Attribute>, a: Attribute, ys: seq<Attribute>, name: string)
    requires a.name != name
    ensures LastValue(xs + [a] + ys, name) == LastValue(xs + ys, name)
  {
    var long, short := xs + [a] + ys, xs + ys;
    if ys == [] {
      assert long[..|long| - 1] == xs && long[|long| - 1] == a;
      assert short == xs;
    } else {
      var n := |ys| - 1;
      LastValueSkips(xs, a, ys[..n], name);
      assert long[..|long| - 1] == xs + [a] + ys[..n] && long[|long| - 1] == ys[n];
      assert short[..|short| - 1] == xs + ys[..n] && short[|short| - 1] == ys[n];
    }
  }

  /** An attribute whose name matches no fillable property is ignored, wherever it appears. */
  lemma UnmatchedAttributeIgnored(adapter: Adapter, name: string, xs: seq<Attribute>, a: Attribute, ys: seq<Attribute>)
    requires a.name !in Names(adapter.propertiesToFill)
    ensures Converted(adapter, Item(name, xs + [a] + ys)) == Converted(adapter, Item(name, xs + ys))
  {
    var base := adapter.defaults[adapter.keyProperty.name := Some(name)];
    FillIsUpdate(base, adapter.propertiesToFill, xs + [a] + ys);
    FillIsUpdate(base, adapter.propertiesToFill, xs + ys);
    forall n | n in Names(adapter.propertiesToFill)
      ensures LastValue(xs + [a] + ys, n) == LastValue(xs + ys, n)
    {
      LastValueSkips(xs, a, ys, n);
    }
    assert Updates(adapter.propertiesToFill, xs + [a] + ys) == Updates(adapter.propertiesToFill, xs + ys);
  }
}

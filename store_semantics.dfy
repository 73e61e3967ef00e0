/** How the store applies a replacing write, and what a record reads back as after
    being written and converted again. The store itself is not part of the source;
    this is the behaviour the integration tests rely on. */
module StoreSemantics {
  import opened Results
  import opened Sequences
  import opened SimpleDbModel
  import opened EntityMapper
  import ReplaceableItemAdapter
  import ItemAdapter

  /** A domain's content: the attributes stored under each item name. */
  type Domain = map<string, seq<Attribute>>

  predicate AllValuesSet(attributes: seq<ReplaceableAttribute>)
  {
    forall i | 0 <= i < |attributes| :: attributes[i].value.Some?
  }

  /** The attributes a write stores, in order. */
  function Written(attributes: seq<ReplaceableAttribute>): (r: seq<Attribute>)
    requires AllValuesSet(attributes)
    ensures |r| == |attributes|
    ensures forall i | 0 <= i < |r| :: r[i] == Attribute(attributes[i].name, attributes[i].value.value)
  {
    if attributes == [] then []
    else [Attribute(attributes[0].name, attributes[0].value.value)] + Written(attributes[1..])
  }

  /** The names whose old values a write drops. */
  function ReplacedNames(attributes: seq<ReplaceableAttribute>): set<string>
  {
    set a | a in attributes && a.replace :: a.name
  }

  /** Writing one item: the store refuses a missing item name or value; otherwise it drops
      the old values of every replaced name and adds the new attributes. */
  function PutItem(domain: Domain, item: ReplaceableItem): Option<Domain>
  {
    if item.itemName.None? || !AllValuesSet(item.attributes) then None
    else
      var name := item.itemName.value;
      var existing := if name in domain then domain[name] else [];
      var replaced := ReplacedNames(item.attributes);
      Some(domain[name := Filter(existing, (a: Attribute) => a.name !in replaced) + Written(item.attributes)])
  }

  /** No attribute stored under `itemName` carries the key's name, unless a persistable
      property of that name will replace it. */
  ghost predicate KeyNameClear(domain: Domain, itemName: string, m: EntityMap)
  {
    itemName in domain ==>
      forall a | a in domain[itemName] && a.name == m.keyProperty.name ::
        exists p :: p in m.persistableProperties && p.name == a.name
  }

  /** When every attribute of a name holds the same value, that value is the last one. */
  lemma LastValueUniform(attributes: seq<Attribute>, name: string, value: string)
    requires exists a :: a in attributes && a.name == name
    requires forall a | a in attributes && a.name == name :: a.value == value
    ensures ItemAdapter.LastValue(attributes, name) == Some(value)
  {
    ItemAdapter.LastValueIsLast(attributes, name);
    var a :| a in attributes && a.name == name;
    var k :| 0 <= k < |attributes| && attributes[k] == a;
  }

  /** `after` is `domain` once the item `instance` converts to has been written, and the
      stored item held no stray attribute of the key's name. */
  ghost predicate SavedAs(t: EntityType, instance: Record, item: ReplaceableItem, domain: Domain, after: Domain)
  {
    && ReplaceableItemAdapter.Convert(instance, t) == Success(item)
    && PutItem(domain, item) == Some(after)
    && KeyNameClear(domain, item.itemName.value, CreateMap(t).value)
  }

  /** After the write, an attribute of a persisted name (the key's name included) stored
      under the item holds the instance's value of the property of that name. */
  lemma StoredValue(t: EntityType, instance: Record, item: ReplaceableItem, domain: Domain, after: Domain, a: Attribute)
    requires SavedAs(t, instance, item, domain, after)
    requires a in after[item.itemName.value]
    requires a.name == CreateMap(t).value.keyProperty.name ||
      exists p :: p in CreateMap(t).value.persistableProperties && p.name == a.name
    ensures exists p :: p in CreateMap(t).value.persistableProperties && p.name == a.name
    ensures a.name in instance && instance[a.name] == Some(a.value)
  {
    var m := CreateMap(t).value;
    var k := item.itemName.value;
    var existing := if k in domain then domain[k] else [];
    var replaced := ReplacedNames(item.attributes);
    var kept := Filter(existing, (a: Attribute) => a.name !in replaced);
    var written := Written(item.attributes);
    assert after[k] == kept + written;
    var i :| 0 <= i < |written| && written[i] == a;
    var p := m.persistableProperties[i];
    assert p in m.persistableProperties && p.name == a.name;
  }

  /** A persistable property reads back as written. */
  lemma PersistableReadsBack(t: EntityType, instance: Record, item: ReplaceableItem, domain: Domain, after: Domain,
                             returned: seq<Attribute>, p: Property)
    requires SavedAs(t, instance, item, domain, after)
    requires multiset(returned) == multiset(after[item.itemName.value])
    requires p in CreateMap(t).value.persistableProperties
    ensures ItemAdapter.DeterminePropertiesToFill(t).Success?
    ensures
      var read := ItemAdapter.ConvertItem(ItemAdapter.DeterminePropertiesToFill(t).value, Item(item.itemName.value, returned));
      && (read.Success? <==> CreateMap(t).value.keyProperty.canWrite)
      && (read.Success? ==> p.name in read.value && read.value[p.name] == ReplaceableItemAdapter.ValueOf(instance, p))
  {
    var m := CreateMap(t).value;
    var adapter := ItemAdapter.DeterminePropertiesToFill(t).value;
    var k := item.itemName.value;
    ItemAdapter.ConvertedFields(adapter, Item(k, returned));
    var i :| 0 <= i < |m.persistableProperties| && m.persistableProperties[i] == p;
    var v := ReplaceableItemAdapter.ValueOf(instance, p);
    var w := Written(item.attributes)[i];
    assert w in after[k];
    assert w in multiset(after[k]);
    assert w in returned && w.name == p.name && Some(w.value) == v;
    forall a | a in returned && a.name == p.name
      ensures a.value == v.value
    {
      assert a in multiset(after[k]);
      StoredValue(t, instance, item, domain, after, a);
    }
    LastValueUniform(returned, p.name, v.value);
    assert p in adapter.propertiesToFill;
  }

  /** The key reads back as the item name, which is the key's value as written; reading
      fails, whatever was stored, when the key has no setter. */
  lemma KeyReadsBack(t: EntityType, instance: Record, item: ReplaceableItem, domain: Domain, after: Domain,
                     returned: seq<Attribute>)
    requires SavedAs(t, instance, item, domain, after)
    requires multiset(returned) == multiset(after[item.itemName.value])
    ensures ItemAdapter.DeterminePropertiesToFill(t).Success?
    ensures
      var key := CreateMap(t).value.keyProperty;
      var read := ItemAdapter.ConvertItem(ItemAdapter.DeterminePropertiesToFill(t).value, Item(item.itemName.value, returned));
      && (read.Success? <==> CreateMap(t).value.keyProperty.canWrite)
      && (read.Success? ==> key.name in read.value && read.value[key.name] == ReplaceableItemAdapter.ValueOf(instance, key))
  {
    var key := CreateMap(t).value.keyProperty;
    var adapter := ItemAdapter.DeterminePropertiesToFill(t).value;
    var k := item.itemName.value;
    ItemAdapter.ConvertedFields(adapter, Item(k, returned));
    assert adapter.keyProperty == key;
    if ItemAdapter.LastValue(returned, key.name).Some? {
      ItemAdapter.LastValueIsLast(returned, key.name);
      var j :| 0 <= j < |returned| && returned[j].name == key.name;
      assert returned[j] in multiset(after[k]);
      forall a | a in returned && a.name == key.name
        ensures a.value == k
      {
        assert a in multiset(after[k]);
        StoredValue(t, instance, item, domain, after, a);
      }
      LastValueUniform(returned, key.name, k);
    }
  }

  /** A property neither persisted nor the key reads back as the type's default. */
  lemma UnsavedReadsDefault(t: EntityType, instance: Record, item: ReplaceableItem, domain: Domain, after: Domain,
                            returned: seq<Attribute>, n: string)
    requires SavedAs(t, instance, item, domain, after)
    requires n in t.defaults && n != CreateMap(t).value.keyProperty.name
    requires n !in ItemAdapter.Names(CreateMap(t).value.persistableProperties)
    ensures ItemAdapter.DeterminePropertiesToFill(t).Success?
    ensures
      var read := ItemAdapter.ConvertItem(ItemAdapter.DeterminePropertiesToFill(t).value, Item(item.itemName.value, returned));
      && (read.Success? <==> CreateMap(t).value.keyProperty.canWrite)
      && (read.Success? ==> n in read.value && read.value[n] == t.defaults[n])
  {
    var m := CreateMap(t).value;
    var adapter := ItemAdapter.DeterminePropertiesToFill(t).value;
    ItemAdapter.ConvertedFields(adapter, Item(item.itemName.value, returned));
    assert adapter.keyProperty == m.keyProperty;
  }

  /** A write leaves the item ready for the next one: a later save of a record with the
      same key value reads back as that record, as the update tests expect. */
  lemma SaveKeepsKeyNameClear(t: EntityType, instance: Record, item: ReplaceableItem, domain: Domain, after: Domain)
    requires SavedAs(t, instance, item, domain, after)
    ensures KeyNameClear(after, item.itemName.value, CreateMap(t).value)
  {
    var m := CreateMap(t).value;
    var k := item.itemName.value;
    forall a | a in after[k] && a.name == m.keyProperty.name
      ensures exists p :: p in m.persistableProperties && p.name == a.name
    {
      StoredValue(t, instance, item, domain, after, a);
    }
  }

  /** Saving a record, then saving a changed record with the same key value: the item
      reads back with the changed values. */
  lemma ResaveReadsLatest(t: EntityType, first: Record, firstItem: ReplaceableItem, second: Record,
                          secondItem: ReplaceableItem, domain: Domain, middle: Domain, after: Domain,
                          returned: seq<Attribute>, p: Property)
    requires SavedAs(t, first, firstItem, domain, middle)
    requires ReplaceableItemAdapter.Convert(second, t) == Success(secondItem)
    requires secondItem.itemName == firstItem.itemName
    requires PutItem(middle, secondItem) == Some(after)
    requires multiset(returned) == multiset(after[secondItem.itemName.value])
    requires p in CreateMap(t).value.persistableProperties
    ensures ItemAdapter.DeterminePropertiesToFill(t).Success?
    ensures
      var read := ItemAdapter.ConvertItem(ItemAdapter.DeterminePropertiesToFill(t).value, Item(secondItem.itemName.value, returned));
      && (read.Success? <==> CreateMap(t).value.keyProperty.canWrite)
      && (read.Success? ==> p.name in read.value && read.value[p.name] == ReplaceableItemAdapter.ValueOf(second, p))
  {
    SaveKeepsKeyNameClear(t, first, firstItem, domain, middle);
    PersistableReadsBack(t, second, secondItem, middle, after, returned, p);
  }
}

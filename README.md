# Directus.SimpleDb, modelled in Dafny

Directus.SimpleDb is a small object-to-attribute mapper over Amazon SimpleDB. A
`SimpleDBProvider<T, I>` stores plain records ("POCOs") of one type `T` in a SimpleDB
domain. It does four things:

- **Resolve the domain.** The domain is named by the type's `[DomainName]` marker, or
  else by the type's name.
- **Save records.** Each record becomes a `ReplaceableItem`. The item is named by the
  value of the single `[Key]` property and carries one replacing attribute per
  persistable property. The items go out in one `BatchPutAttributes` call.
- **Delete items.** Identifiers become whole-item deletions, sent in one
  `BatchDeleteAttributes` call.
- **Read records back.** The provider runs `Select` queries, following continuation
  tokens page by page. It then rebuilds each record with `ItemAdapter<T>`: the key comes
  from the item name, every fillable property takes the value of the last attribute of
  its name, and everything else keeps the value a fresh `new T()` holds.

This project models that core with the store client and reflection replaced by data:

- **Types.** A record type is an `EntityType`: its names, its `[DomainName]` override,
  its property descriptors in declaration order, and the values of a fresh instance.
- **Records.** A record is a map from property name to an optional string (`None` is
  `null`).
- **Reading.** The store's answers to a query are the sequence of pages it returns.
- **Writing.** The client records the batch requests sent to it.

One module per source file:

| module | source file |
|---|---|
| `EntityMapper` | `Mappers/EntityMapper.cs` |
| `ReplaceableItemAdapter` | `Adapters/ReplaceableitemAdapter.cs` |
| `ItemAdapter` | `Adapters/ItemAdapter.cs` |
| `SelectRequestFactory` | `Factories/SelectRequestFactory.cs` |
| `BatchPutAttributeRequestFactory` | `Factories/BatchPutAttributeRequestFactory.cs` |
| `BatchDeleteAttributeRequestFactory` | `Factories/BatchDeleteAttributeRequestFactory.cs` |
| `DeleteableItemAdapter` | `Adapters/DeleteableItemAdapter.cs` |
| `SimpleDbProvider` | `Providers/SimpleDBProvider.cs` |

Supporting modules:

- `Results` holds `Option` and `Result`. An exception the source throws is a `Failure`.
- `Sequences` holds the LINQ `Where` filter and its laws.
- `SimpleDbModel` holds the SimpleDB request and item shapes.
- `StoreSemantics` models how SimpleDB applies a replacing write. The integration tests
  rely on it to read a saved record back. It exists only to state that round trip.

The adapters differ in how they treat the key:

- The entity mapper excludes the key from the persisted properties.
- `ItemAdapter<T>` does not exclude it. A stored attribute named like the key therefore
  overrides the value taken from the item name.

`ItemAdapter.Convert` and `SimpleDbProvider.Provider.QueryDomain` are imperative
methods, as in the source. Each is proved equal to a specification function.

## Model

| member | source | states |
|---|---|---|
| EntityMapper.GetKeyProperty | Directus.SimpleDb/Mappers/EntityMapper.cs:56-74 | fails with "key not found" (naming the type) exactly when no property is `[Key]`, with "more than one key" exactly when two or more are; on success returns the one and only `[Key]` property |
| EntityMapper.GetPersistableProperties | Directus.SimpleDb/Mappers/EntityMapper.cs:39-48 | exactly the properties without `[DoNotPersist]`, without `[Key]` and with a setter, in declaration order (a subsequence of the input); never a key |
| EntityMapper.PersistableMultiplicity | Directus.SimpleDb/Mappers/EntityMapper.cs:41-45 | each persistable property occurs in the map as often as it is declared, and no other property occurs at all |
| EntityMapper.CreateMap | Directus.SimpleDb/Mappers/EntityMapper.cs:20-31 | key errors as above, success otherwise; the map's key is the unique `[Key]` property and is not among the persistable properties, which are exactly the persistable ones |
| ReplaceableItemAdapter.ValueOf | Directus.SimpleDb/Adapters/ReplaceableitemAdapter.cs:73 | a `null` (or absent) value gives `null`, any other value its string form |
| ReplaceableItemAdapter.GetPropertyValue | Directus.SimpleDb/Adapters/ReplaceableitemAdapter.cs:69-74 | reading a property without a getter throws "get method not found"; otherwise the value's string form, or `null` |
| ReplaceableItemAdapter.ReadError | Directus.SimpleDb/Adapters/ReplaceableitemAdapter.cs:54-59 | reading properties in order fails exactly when one has no getter, with the error of the first such property |
| ReplaceableItemAdapter.GetReplaceableAttributes | Directus.SimpleDb/Adapters/ReplaceableitemAdapter.cs:52-60 | fails exactly when a property has no getter, with the first one's error; otherwise one attribute per property, in order, named like the property, holding its value and flagged to replace |
| ReplaceableItemAdapter.Convert | Directus.SimpleDb/Adapters/ReplaceableitemAdapter.cs:30-43 | fails, for every instance of the type alike, exactly when the type has no entity map (that error, unchanged) or the key or a persistable property has no getter (the first such, key first); otherwise the item is named by the key's value and holds one replacing attribute per persistable property, in map order |
| ItemAdapter.DeterminePropertiesToFill | Directus.SimpleDb/Adapters/ItemAdapter.cs:23-42 | the same two key errors as the entity mapper; on success the unique key, exactly the properties without `[DoNotPersist]` and with a setter in declaration order (the key not excluded), and the fresh instance's values |
| ItemAdapter.FillableMultiplicity | Directus.SimpleDb/Adapters/ItemAdapter.cs:27-30 | each fillable property is filled as often as it is declared, and no other property at all |
| ItemAdapter.FillableIsPersistableOrKey | Directus.SimpleDb/Adapters/ItemAdapter.cs:27-34 | the adapter and the entity mapper agree on the key, and the adapter fills exactly the persistable properties plus the key when the key is fillable |
| ItemAdapter.Instance.constructor | Directus.SimpleDb/Adapters/ItemAdapter.cs:46 | a new instance holds the type's default values |
| ItemAdapter.Instance.SetValue | Directus.SimpleDb/Adapters/ItemAdapter.cs:48-52 | setting a property that has a setter changes that property's value only |
| ItemAdapter.Convert | Directus.SimpleDb/Adapters/ItemAdapter.cs:44-57 | fails with "set method not found" exactly when the key has no setter; otherwise returns a fresh instance whose values are the defaults, then the key from the item name, then each fillable property from each attribute of its name in list order |
| ItemAdapter.LastValueIsLast | Directus.SimpleDb/Adapters/ItemAdapter.cs:50-53 | the last value of a name is absent exactly when no attribute has that name, and otherwise is the value of an attribute of that name with no later namesake |
| ItemAdapter.AssignSetsLastValue | Directus.SimpleDb/Adapters/ItemAdapter.cs:50-53 | the inner loop leaves a property at the value of the last attribute of its name, and unchanged when there is none |
| ItemAdapter.FillIsUpdate | Directus.SimpleDb/Adapters/ItemAdapter.cs:50-53 | both loops together set each fillable name that has an attribute to its last value and leave every other field as it was |
| ItemAdapter.ConvertedFields | Directus.SimpleDb/Adapters/ItemAdapter.cs:46-53 | name by name: the last attribute wins for a fillable property; the key holds the item name unless an attribute of its name overrides it; every other default is kept; nothing else appears |
| ItemAdapter.LastValueSkips | Directus.SimpleDb/Adapters/ItemAdapter.cs:51 | an attribute of another name, wherever it sits, does not change which value of a name is last |
| ItemAdapter.UnmatchedAttributeIgnored | Directus.SimpleDb/Adapters/ItemAdapter.cs:50-52 | removing an attribute whose name matches no fillable property leaves the converted record unchanged |
| SelectRequestFactory.CreateRequest | Directus.SimpleDb/Factories/SelectRequestFactory.cs:19-25 | the expression is the one built as written; for a plain domain name and an identifier without a quote it asks for exactly the whole domain, or the item named by the identifier; the next token is passed through unchanged; consistent read defaults to true and otherwise is the argument |
| SelectRequestFactory.EscapeRoundTrip | Directus.SimpleDb/Factories/SelectRequestFactory.cs:37 | a quoted, escaped identifier reads back as the identifier itself |
| SelectRequestFactory.EscapedExpressionRoundTrip | Directus.SimpleDb/Factories/SelectRequestFactory.cs:33-38 | the escaped expression reads back as exactly the domain and identifier it was built from |
| SelectRequestFactory.EscapeWithoutQuotes | Directus.SimpleDb/Factories/SelectRequestFactory.cs:37 | escaping leaves a value without quotes unchanged |
| SelectRequestFactory.VerbatimAgreesWithoutQuotes | Directus.SimpleDb/Factories/SelectRequestFactory.cs:33-38 | when the identifier holds no quote, the expression as written equals the escaped one: `"Select * from " + domain`, or that followed by `" where itemName() = '" + id + "'"` |
| SelectRequestFactory.QuoteInIdentifierBreaksFilter | Directus.SimpleDb/Factories/SelectRequestFactory.cs:37 | as written, the identifier `a'b` yields an expression that is not an item-name filter at all |
| BatchPutAttributeRequestFactory.ConvertAll | Directus.SimpleDb/Factories/BatchPutAttributeRequestFactory.cs:34-36 | on success, exactly one item per record, the i-th the conversion of the i-th record; it fails exactly when some conversion fails, with the error of the first one |
| BatchPutAttributeRequestFactory.CreateRequest | Directus.SimpleDb/Factories/BatchPutAttributeRequestFactory.cs:31-43 | on success the request is for the given domain and holds the records' conversions in order; a non-empty batch fails exactly when converting the type fails (no entity map, or a read property without a getter), with that error |
| BatchPutAttributeRequestFactory.EmptyBatchNeverFails | Directus.SimpleDb/Factories/BatchPutAttributeRequestFactory.cs:34-41 | an empty batch converts nothing, so it yields an empty request even for a type without a key |
| DeleteableItemAdapter.Convert | Directus.SimpleDb/Adapters/DeleteableItemAdapter.cs:18-22 | one item per identifier, in order, named by the identifier's string form and with no attribute list (the whole item is deleted) |
| DeleteableItemAdapter.ConvertStringsKeepsNames | Directus.SimpleDb/Adapters/DeleteableItemAdapter.cs:21 | for string identifiers the item names are the identifiers themselves, in order |
| BatchDeleteAttributeRequestFactory.CreateRequest | Directus.SimpleDb/Factories/BatchDeleteAttributeRequestFactory.cs:31-44 | the request is for the given domain and holds one whole-item deletion per identifier, named by it, in order; no identifiers give no items |
| SimpleDbProvider.GetDomainNameForType | Directus.SimpleDb/Providers/SimpleDBProvider.cs:129-138 | the `[DomainName]` override when the type declares one, otherwise the type's name |
| SimpleDbProvider.Provider.constructor | Directus.SimpleDb/Providers/SimpleDBProvider.cs:30-33 | the domain name is resolved once, at construction, from the type; it is a constant afterwards |
| SimpleDbProvider.ConcatAppend | Directus.SimpleDb/Providers/SimpleDBProvider.cs:165 | collecting the items of two runs of pages gives the items of the first run followed by those of the second |
| SimpleDbProvider.ConcatHoldsEveryPage | Directus.SimpleDb/Providers/SimpleDBProvider.cs:165 | every page's items appear whole in the result, after those of the earlier pages and before those of the later ones |
| SimpleDbProvider.Provider.QueryDomain | Directus.SimpleDb/Providers/SimpleDBProvider.cs:145-169 | the result is every page's items in page order; one select per page; the first select has no token and each later one the previous page's token; every select is for the provider's domain and the same identifier |
| SimpleDbProvider.Provider.Get | Directus.SimpleDb/Providers/SimpleDBProvider.cs:76-83 | the conversion of the first item returned, or nothing when none is; every select it sends is filtered by the identifier, one per page, with the previous page's token |
| SimpleDbProvider.Provider.GetAll | Directus.SimpleDb/Providers/SimpleDBProvider.cs:89-96 | one conversion per item returned, in order; every select it sends is unfiltered, one per page, with the previous page's token |
| SimpleDbProvider.Provider.Save | Directus.SimpleDb/Providers/SimpleDBProvider.cs:102-109 | exactly one batch put, of the request built for the provider's domain, and no delete; a mapping error is raised before anything is sent |
| SimpleDbProvider.Provider.Delete | Directus.SimpleDb/Providers/SimpleDBProvider.cs:115-123 | exactly one batch delete, of the request built from the identifiers for the provider's domain, and no put |
| StoreSemantics.StoredValue | Directus.SimpleDb/Adapters/ReplaceableitemAdapter.cs:54-58 | after a write, every stored attribute whose name is persisted (or is the key's) holds the record's value of that property, because every written attribute replaces the old ones |
| StoreSemantics.PersistableReadsBack | Directus.SimpleDb.IntegrationTest/Given_the_TestDomain/When_persisting_a_test_POCO.cs:29-50 | reading a saved record back fails exactly when the key has no setter; otherwise every persistable property equals the value saved, whatever order the store returns the attributes in |
| StoreSemantics.KeyReadsBack | Directus.SimpleDb.IntegrationTest/Given_the_TestDomain/When_persisting_a_test_POCO.cs:40-44 | reading a saved record back fails exactly when the key has no setter; otherwise the key equals the value saved |
| StoreSemantics.UnsavedReadsDefault | Directus.SimpleDb/Adapters/ItemAdapter.cs:46-53 | reading a saved record back fails exactly when the key has no setter; otherwise a property that is neither persisted nor the key holds the fresh instance's default |
| StoreSemantics.SaveKeepsKeyNameClear | Directus.SimpleDb.IntegrationTest/Given_the_TestDomain/When_persisting_an_existing_POCO.cs:32-40 | after a save the item holds no stray attribute of the key's name, so a later save of the same key meets the round trip's condition |
| StoreSemantics.ResaveReadsLatest | Directus.SimpleDb.IntegrationTest/Given_the_TestDomain/When_persisting_an_existing_POCO.cs:32-42 | saving a record, then saving it again with changed values, then reading it gives the changed values (or fails, when the key has no setter) |

## Left out

- The AWS client and its construction from credentials (`SimpleDBProvider.cs:40-48`) are
  not modelled. Selects are answered by a given page sequence. Puts and deletes are
  recorded by `SimpleDbClient`. A failing or slow store call is not modelled.
- The dependency-injection constructor (`SimpleDBProvider.cs:58-69`) only stores its
  arguments. In the model these are the client and the type.
- Reflection is replaced by explicit property descriptors (`EntityMapper.Property`) and a
  map from property name to value. Of its exceptions, the model keeps reading a property
  without a getter and writing one without a setter.
- `System.Convert.ChangeType` and `ToString` coercion are not modelled. Property values
  are strings, so both are the identity. The integration tests' checks of DateTime,
  decimal, bool and int fields fall outside the model.
- `SimpleDbProvider.Provider.Get`, `SimpleDbProvider.Provider.GetAll`: the provider
  calls a non-generic `ItemAdapter` with `Convert<T>` (`SimpleDBProvider.cs:22,46,82`),
  which is not part of this model; the adapter shown is `ItemAdapter<T>`. The
  conversion is therefore a function parameter. Identifiers are strings, so `I` is
  `string` and `ToString` is the identity.
- `SimpleDbProvider.Provider.GetAll` converts every item at once. The source returns a
  deferred `Select` (`SimpleDBProvider.cs:95`) that converts each item when it is
  enumerated, and again on every enumeration.
- `SimpleDbProvider.Provider.Get`, `SimpleDbProvider.Provider.GetAll` return the selects
  they send as a second result, which the source does not; it stands for the store's
  view of the calls.
- `SimpleDbProvider.Provider.QueryDomain` requires the store's pages to end with the
  only page that has no token. It does not model a store that never stops handing out
  tokens, for which the loop would not end.
- Evaluating a select expression against the stored items is not modelled.
  `SelectRequestFactory.ParseSelectExpression` only reads back which domain and item
  name an expression asks for. It accepts only domain names made of letters, digits,
  `_` and `$` that do not start with a digit.
- `EntityMapper.CreateMap` returns equal maps for equal types because it is a function.
  No lemma states this.
- `DomainRequestFactory` and the domain-creation test are not part of this model. The
  test calls provider members the shown provider does not have.
- There is no value chunking: the code writes one attribute per property
  (`ReplaceableitemAdapter.cs:54-59`).
- `StoreSemantics.PersistableReadsBack`, `StoreSemantics.KeyReadsBack`,
  `StoreSemantics.ResaveReadsLatest`:
  - They cover only records whose key and persisted values are all non-null. The store
    model refuses a write with a missing name or value.
  - They cover only items that held no stray attribute of the key's name before the
    first save (`StoreSemantics.KeyNameClear`). `ItemAdapter<T>` fills the key from such
    an attribute too.

## Findings

| source | as written | input that shows it | evidently intended | confidence | as-written member | corrected member |
|---|---|---|---|---|---|---|
| Directus.SimpleDb/Factories/SelectRequestFactory.cs:37 | the identifier is pasted between single quotes verbatim | identifier `a'b` for domain `TestDomain` gives `Select * from TestDomain where itemName() = 'a'b'`, which is not an item-name filter | quotes inside the identifier doubled, so the filter asks for the item named by the identifier | medium, not executed | SelectRequestFactory.QuoteInIdentifierBreaksFilter | SelectRequestFactory.EscapedExpressionRoundTrip |

The select requests of the model use the expression as written
(`SelectRequestFactory.CreateRequest`), as the source does. The escaped expression
(`SelectRequestFactory.CreateEscapedSelectExpression`) is the corrected definition. For
identifiers without a quote, such as the GUIDs the tests use, the two are equal
(`SelectRequestFactory.VerbatimAgreesWithoutQuotes`), so the requests ask for the item
named by the identifier.

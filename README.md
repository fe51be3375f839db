# datanucleus-appengine: record mapping core in Dafny

This project models the record-mapping layer of the DataNucleus plugin for the
App Engine datastore. The layer moves field values between managed Java
objects and datastore entities. It also holds the small pieces of mutable
state that sit around that layer. Each part is one Dafny module:

- `Datastore` (datastore.dfy): keys, property values, entities and queries.
  It also holds a reversible key-to-string encoding that stands in for
  `KeyFactory.keyToString` / `stringToKey`.
- `Framework` (framework.dfy): what the host framework hands to the plugin.
  This covers declared Java types, member and class metadata, state managers,
  the API adapter's identity view, the exceptions raised, and `Result` /
  `Outcome`.
- `Serialization` (serialization.dfy): `SerializationManager`.
  - Selects the strategy configured on a member.
  - Keeps the guard checks of the default (object stream) strategy.
  - Treats the byte format as opaque: it is supplied as a pair of functions.
- `FieldManager` (field_manager.dfy): `DatastoreFieldManager`, a class.
  - It owns the entity and the frame stack that is pushed around embedded objects.
  - It enforces the key and ancestor rules.
  - It establishes entity groups.
  - It converts values on store and fetch.
  - It writes the list-index columns.
- `FKStore` (fk_store.dfy): the read path of `AbstractFKStore`.
  - It builds the children query.
  - It reads children through the owner's key list or through an ancestor query.
  - It provides `size`, `contains` and element validation.
- `CollectionSpecialization` (collection_specialization.dfy): owned-collection
  containment by key parentage, plus the two operations that are not supported.
- `Property` (datastore_property.dfy): `DatastoreProperty`, a mutable column
  descriptor whose answers are fixed.
- `XAResource` (xa_resource.dfy): `DatastoreXAResource`, a two-state
  transaction resource.

Operations that change state in the source are class methods or loop methods.
Each is specified by a pure function of the old state. The properties the code
promises are proved as lemmas about those functions.

## Model

| member | source | states |
|---|---|---|
| Datastore.KeyStringRoundTrip | trunk/src/org/datanucleus/store/appengine/DatastoreFieldManager.java:394-399 | decoding the string encoding of a key gives back that key, so an identity held as a key string names the same key |
| Datastore.KeyToStringInjective | trunk/src/org/datanucleus/store/appengine/DatastoreFieldManager.java:141-153 | distinct keys have distinct string encodings, so a pk read as a String determines the entity key |
| Datastore.DecodeKeyRoundTrip | trunk/src/org/datanucleus/store/appengine/DatastoreFieldManager.java:394-399 | decoding the encoding of a key followed by any text reads exactly that key and leaves the text |
| Serialization.FirstStrategyExtension | branches/1_0_0/src/org/datanucleus/store/appengine/SerializationManager.java:153-159 | the index found is the first extension keyed `serialization-strategy`; none is found iff no extension has that key |
| Serialization.GetSerializationStrategy | branches/1_0_0/src/org/datanucleus/store/appengine/SerializationManager.java:151-179 | default strategy iff the member has no strategy extension; otherwise the first such extension names the class; an unresolvable class or one not implementing SerializationStrategy is an error naming it (and the member) |
| Serialization.DefaultSerialize | branches/1_0_0/src/org/datanucleus/store/appengine/SerializationManager.java:57-81 | null gives NullPointerException; success iff the value is non-null and the stream writes it, and the blob is what the stream wrote |
| Serialization.DefaultDeserialize | branches/1_0_0/src/org/datanucleus/store/appengine/SerializationManager.java:90-125 | a null blob gives NullPointerException; a target that is not Serializable is refused first; success iff the stream reads a non-null object whose class is assignable to the target, and that object is returned |
| Serialization.Serialize | branches/1_0_0/src/org/datanucleus/store/appengine/SerializationManager.java:134-137 | without a strategy extension, the default strategy serializes; a strategy that cannot be selected gives its error; a selected custom class serializes |
| Serialization.Deserialize | branches/1_0_0/src/org/datanucleus/store/appengine/SerializationManager.java:145-148 | without a strategy extension, the default strategy deserializes to the member's type; a strategy that cannot be selected gives its error; a selected custom class deserializes |
| Serialization.SerializeNullByDefault | branches/1_0_0/src/org/datanucleus/store/appengine/SerializationManager.java:134-137 | with no strategy extension, serializing null raises NullPointerException |
| Serialization.StrategyErrorsAreShared | branches/1_0_0/src/org/datanucleus/store/appengine/SerializationManager.java:134-148 | a strategy that cannot be selected makes serialize and deserialize fail with the same error |
| Serialization.DefaultRoundTrip | branches/1_0_0/src/org/datanucleus/store/appengine/SerializationManager.java:134-148 | with the default strategy, deserialize(serialize(v)) == v when the stream reads back what it wrote and the declared type is a Serializable supertype of v's class |
| Serialization.DeserializedValueFitsMember | branches/1_0_0/src/org/datanucleus/store/appengine/SerializationManager.java:145-148 | whatever the default strategy returns is non-null and an instance of the member's declared type |
| Serialization.CustomRoundTrip | branches/1_0_0/src/org/datanucleus/store/appengine/SerializationManager.java:134-148 | a selected custom strategy is used in both directions, so its own round trip carries over |
| FieldManager.Recreated | trunk/src/org/datanucleus/store/appengine/DatastoreFieldManager.java:448-457 | the rebuilt entity has the same kind and name, no id, the given parent and exactly the old properties |
| FieldManager.AfterStoreKeyPK | trunk/src/org/datanucleus/store/appengine/DatastoreFieldManager.java:459-474 | on a complete key only an equal key is accepted and nothing changes, any other is "Primary keys are immutable"; on an incomplete key a non-null key gives an entity of the same kind named after it, with no parent and the same properties; null changes nothing |
| FieldManager.AfterStoreAncestorKeyPK | trunk/src/org/datanucleus/store/appengine/DatastoreFieldManager.java:605-631 | with a parent, only the same ancestor is accepted and nothing changes, any other is "Ancestors are immutable"; without one, null changes nothing, and a new ancestor recreates the entity under it iff the manager made its own entity, else it is a user error |
| FieldManager.StringPKKey | trunk/src/org/datanucleus/store/appengine/DatastoreFieldManager.java:318-327 | a String pk builds a complete key of the entity's kind, named by the string, under the entity's parent |
| FieldManager.PrimaryKeyFixedOnceNamed | trunk/src/org/datanucleus/store/appengine/DatastoreFieldManager.java:459-474 | after a named key is stored the key is complete and only that key is accepted afterwards |
| FieldManager.StringPKStoreIdempotent | trunk/src/org/datanucleus/store/appengine/DatastoreFieldManager.java:317-328 | storing the same String pk twice leaves the entity as the first store made it |
| FieldManager.AncestorFixedOnceStored | trunk/src/org/datanucleus/store/appengine/DatastoreFieldManager.java:605-631 | after an ancestor is stored the entity has that parent, the same kind and properties, and accepts only that ancestor again |
| FieldManager.IdForObject | trunk/src/org/datanucleus/store/appengine/DatastoreFieldManager.java:394-399 | the key is the object's identity target, either a Key or a string that decodes to it; an undecodable string is IllegalArgumentException |
| FieldManager.IdForObjectDecodesString | trunk/src/org/datanucleus/store/appengine/DatastoreFieldManager.java:394-399 | an identity held as the string encoding of k yields k |
| FieldManager.FirstAssociated | trunk/src/org/datanucleus/store/appengine/DatastoreFieldManager.java:410-425 | the index found is the first external FK mapping with a non-null value; none iff all are null |
| FieldManager.EntityGroupParent | trunk/src/org/datanucleus/store/appengine/DatastoreFieldManager.java:366-392 | a registered key wins; otherwise the first external FK with a value decides; no parent iff registry, FK mappings and ancestor field are all empty |
| FieldManager.AncestorFieldValue | trunk/src/org/datanucleus/store/appengine/DatastoreFieldManager.java:384-391 | null iff no ancestor field was seen; the parent Key for a Key-typed field, its string encoding otherwise |
| FieldManager.AncestorFieldValueNamesParent | trunk/src/org/datanucleus/store/appengine/DatastoreFieldManager.java:384-391 | the value returned for the ancestor field always names the new parent, as a key or a string that decodes to it |
| FieldManager.EstablishedGroupFixesAncestor | trunk/src/org/datanucleus/store/appengine/DatastoreFieldManager.java:448-457 | once an entity group is established only the same ancestor can be stored afterwards |
| FieldManager.ApplyOrderValuesWrites | trunk/src/org/datanucleus/store/appengine/DatastoreFieldManager.java:717-732 | writing the order values keeps the key, keeps every old property name, and leaves each property with the last non-null order value written to it, or its old value |
| FieldManager.DelayWrite | trunk/src/org/datanucleus/store/appengine/DatastoreFieldManager.java:717-732 | no order mappings means no delay |
| FieldManager.DelayWriteDecidedByLast | trunk/src/org/datanucleus/store/appengine/DatastoreFieldManager.java:717-732 | the verdict depends on the last order mapping alone |
| FieldManager.NotDelayedMeansLastIndexWritten | trunk/src/org/datanucleus/store/appengine/DatastoreFieldManager.java:717-732 | when the write is not delayed, the last order mapping's value is in the entity |
| FieldManager.ConvertArrayValue | trunk/src/org/datanucleus/store/appengine/DatastoreFieldManager.java:564-575 | byte[] becomes a Blob holding the same bytes in order; an enum array becomes a list of the constants' names, element by element; any other array becomes a list of the same elements; on a member whose declared type is not an array the component type is null and the call fails with NullPointerException |
| FieldManager.ConvertCollectionValue | trunk/src/org/datanucleus/store/appengine/DatastoreFieldManager.java:546-562 | a collection of Characters becomes a list of the longs of their 16-bit values, element by element; a collection of enums becomes a list of their names; any other collection is unchanged; a member without collection metadata fails with NullPointerException |
| FieldManager.ToDatastoreValue | trunk/src/org/datanucleus/store/appengine/DatastoreFieldManager.java:519-534 | null stays null; a stored non-null value is never a Character or an array; a serialized member stores a Blob; an enum member accepts exactly enum values and stores the constant's name; a Character of a plain member is stored as the long of its 16-bit value |
| FieldManager.PojoFromDatastore | trunk/src/org/datanucleus/store/appengine/DatastoreFieldManager.java:196-201 | a char or Character member turns any long into the char holding its low 16 bits, as Java's narrowing cast does, so a long in 0..0xFFFF reads back as that very char; every other value is unchanged |
| FieldManager.ToPojoValue | trunk/src/org/datanucleus/store/appengine/DatastoreFieldManager.java:194-220 | null stays null; a serialized member's value must be a Blob; an enum member reads back exactly the named constants; a char member reads a long back as the character; any other value is returned unchanged |
| FieldManager.EnumRoundTrip | trunk/src/org/datanucleus/store/appengine/DatastoreFieldManager.java:200-205 | an enum field reads back the constant stored |
| FieldManager.SerializedRoundTrip | trunk/src/org/datanucleus/store/appengine/DatastoreFieldManager.java:213-220 | a serialized field reads back the value stored, under the default strategy's round-trip conditions |
| FieldManager.PlainRoundTrip | trunk/src/org/datanucleus/store/appengine/DatastoreFieldManager.java:194-208 | any other scalar of a member that is not a char member is stored and read back unchanged |
| FieldManager.CharacterStoredAsLong | trunk/src/org/datanucleus/store/appengine/DatastoreFieldManager.java:529-532 | every one of the 65536 Java chars, surrogates included, is stored as the long of its 16-bit value, the same value a char field stores, and a char member reads that long back as the same char |
| FieldManager.CopyProperties | trunk/src/org/datanucleus/store/appengine/DatastoreFieldManager.java:476-480 | the destination keeps its key and gets every source property, overriding same-named ones |
| FieldManager.KeyCast | trunk/src/org/datanucleus/store/appengine/DatastoreFieldManager.java:498-506 | null is no key, a Key is itself, and any other value is a ClassCastException |
| FieldManager.StringCast | trunk/src/org/datanucleus/store/appengine/DatastoreFieldManager.java:154 | a fetched result passes iff it is an error, null or a String; any other value is a ClassCastException naming its class |
| FieldManager.FetchedValue | trunk/src/org/datanucleus/store/appengine/DatastoreFieldManager.java:275-315 | a plain member reads its property converted as ToPojoValue says; a primitive that reads as null is a NullPointerException, with the field-naming message except for short; a String member must hold a String |
| FieldManager.StoredValue | trunk/src/org/datanucleus/store/appengine/DatastoreFieldManager.java:512-544 | a plain member writes null as null; a char field writes the long of its 16-bit value; a String field given a non-String is a ClassCastException; otherwise the value converted as ToDatastoreValue says, never a Character or an array |
| FieldManager.StoreThenFetch | trunk/src/org/datanucleus/store/appengine/DatastoreFieldManager.java:173-220 | a value that reads back (ReadsBack) is accepted by the store methods, and an entity holding what they wrote fetches exactly that value |
| FieldManager.EmbeddedReadBack | trunk/src/org/datanucleus/store/appengine/DatastoreFieldManager.java:235-269 | one field per embedded member, each the value stored for it; a null embedded object gives the Java default values; a complete embedded object gives itself |
| FieldManager.EmbeddedRoundTrip | trunk/src/org/datanucleus/store/appengine/DatastoreFieldManager.java:235-269 | when every member's value reads back, an entity holding what storing the embedded object wrote fetches each member's stored value, so the fetched object is the one stored, or the defaults for null |
| FieldManager.StoredPrefixStep | trunk/src/org/datanucleus/store/appengine/DatastoreFieldManager.java:596-603 | storing one more member of a flat embedded class sets its property and leaves the earlier members' properties and every other property as they were |
| FieldManager.DefaultsReadBack | trunk/src/org/datanucleus/store/appengine/DatastoreFieldManager.java:236-251 | the Java default value of any member that is not serialized reads back as it was stored |
| FieldManager.DatastoreFieldManager.constructor | trunk/src/org/datanucleus/store/appengine/DatastoreFieldManager.java:93-107 | one frame for the state manager on the stack, the given entity, no ancestor member seen |
| FieldManager.DatastoreFieldManager.Create | trunk/src/org/datanucleus/store/appengine/DatastoreFieldManager.java:109-116 | construction succeeds iff the class's kind is the entity's kind |
| FieldManager.DatastoreFieldManager.CreateForInsert | trunk/src/org/datanucleus/store/appengine/DatastoreFieldManager.java:134-137 | the insert manager makes its own fresh, incomplete entity of the kind |
| FieldManager.DatastoreFieldManager.IsAncestorPK | trunk/src/org/datanucleus/store/appengine/DatastoreFieldManager.java:482-490 | true iff the member has the ancestor-pk extension, in which case the member is remembered |
| FieldManager.DatastoreFieldManager.IsPK | trunk/src/org/datanucleus/store/appengine/DatastoreFieldManager.java:661-665 | true exactly for the class's primary-key position; a class has at most one such position, which is the source's single-field pk assumption (line 663) |
| FieldManager.DatastoreFieldManager.CheckAssignmentToNotNullField | trunk/src/org/datanucleus/store/appengine/DatastoreFieldManager.java:275-287 | a non-null value passes unchanged; null raises NullPointerException naming kind, key, property and field |
| FieldManager.DatastoreFieldManager.RecreateEntityWithAncestor | trunk/src/org/datanucleus/store/appengine/DatastoreFieldManager.java:448-457 | the entity becomes Recreated(old entity, ancestor) |
| FieldManager.DatastoreFieldManager.StoreKeyPK | trunk/src/org/datanucleus/store/appengine/DatastoreFieldManager.java:459-474 | the entity moves as AfterStoreKeyPK says, or stays and the error is returned |
| FieldManager.DatastoreFieldManager.StoreAncestorKeyPK | trunk/src/org/datanucleus/store/appengine/DatastoreFieldManager.java:605-631 | the entity moves as AfterStoreAncestorKeyPK says, or stays and the error is returned |
| FieldManager.DatastoreFieldManager.GetParentKeyFromExternalFKMappings | trunk/src/org/datanucleus/store/appengine/DatastoreFieldManager.java:410-425 | the loop returns the identity of the first FK mapping with a value |
| FieldManager.DatastoreFieldManager.GetParentKeyFromAncestorField | trunk/src/org/datanucleus/store/appengine/DatastoreFieldManager.java:401-408 | no ancestor field or a null value gives no parent; otherwise the value's identity |
| FieldManager.DatastoreFieldManager.EstablishEntityGroup | trunk/src/org/datanucleus/store/appengine/DatastoreFieldManager.java:366-392 | an entity with a parent is left alone and null returned; otherwise the entity is recreated under EntityGroupParent's key and AncestorFieldValue is returned |
| FieldManager.DatastoreFieldManager.HandleIndexFields | trunk/src/org/datanucleus/store/appengine/DatastoreFieldManager.java:717-732 | returns DelayWrite and leaves the entity as ApplyOrderValues |
| FieldManager.DatastoreFieldManager.FetchField | trunk/src/org/datanucleus/store/appengine/DatastoreFieldManager.java:289-315 | a plain member reads exactly FetchedValue of the entity, including the NullPointerException for a primitive read as null; a primitive field never reads as null; the entity is untouched and the frame stack restored |
| FieldManager.DatastoreFieldManager.FetchStringField | trunk/src/org/datanucleus/store/appengine/DatastoreFieldManager.java:141-155 | a String pk reads as the encoding of the entity key; a String ancestor reads as null without parent, else the encoding of the parent; any other member reads its converted property through the String cast; every successful read is null or a String |
| FieldManager.DatastoreFieldManager.FetchObjectField | trunk/src/org/datanucleus/store/appengine/DatastoreFieldManager.java:161-211 | embedded and relation members are delegated; a pk or ancestor field that is not a Key raises IllegalStateException; others are read and converted; the entity is untouched |
| FieldManager.DatastoreFieldManager.FetchEmbeddedField | trunk/src/org/datanucleus/store/appengine/DatastoreFieldManager.java:261-269 | one field per embedded member; each plain member's field is FetchedValue of the entity; with only plain members, success iff each of them reads; the frame is pushed and popped, so the stack is restored |
| FieldManager.DatastoreFieldManager.StoreField | trunk/src/org/datanucleus/store/appengine/DatastoreFieldManager.java:633-659 | a plain member sets exactly its property to StoredValue, or fails with StoredValue's error and leaves the entity; the kind is kept, no property is lost, and the frame stack is restored on success |
| FieldManager.DatastoreFieldManager.StoreCharField | trunk/src/org/datanucleus/store/appengine/DatastoreFieldManager.java:649-651 | a plain member stores the long of the char's 16-bit value, converted as for any long; a plain char field stores that long itself |
| FieldManager.DatastoreFieldManager.StoreStringField | trunk/src/org/datanucleus/store/appengine/DatastoreFieldManager.java:317-343 | a String pk goes through storeKeyPK with StringPKKey; an ancestor string that is not a key string is a user error; any other member sets its property to StoredValue of the String |
| FieldManager.DatastoreFieldManager.StoreObjectField | trunk/src/org/datanucleus/store/appengine/DatastoreFieldManager.java:496-544 | a pk or ancestor field that is not a Key raises IllegalStateException; a value that is not a Key is a ClassCastException and changes nothing; Key values go through the key rules; other members are handled as StoreConvertedField says |
| FieldManager.DatastoreFieldManager.StoreConvertedField | trunk/src/org/datanucleus/store/appengine/DatastoreFieldManager.java:518-542 | a conversion error changes nothing; a relation value is handed to the relation manager unchanged in entity; any other value sets exactly the member's property to the converted value |
| FieldManager.DatastoreFieldManager.StoreEmbeddedField | trunk/src/org/datanucleus/store/appengine/DatastoreFieldManager.java:596-603 | for a flat embedded class: success iff every member's value can be stored; then each member's property holds its StoredValue, taken from the object or from the defaults when it is null, the key is kept and every other property is untouched; in all cases the stack is restored and no property is lost |
| FKStore.PrepareChildrenQuery | src/com/google/appengine/datanucleus/scostore/AbstractFKStore.java:320-340 | the query has the given kind and ancestor, all filters and sorts in order, and is keys-only iff requested |
| FKStore.DirectChildren | src/com/google/appengine/datanucleus/scostore/AbstractFKStore.java:262-266 | exactly the results whose immediate parent is the given key |
| FKStore.DirectChildrenAppend | src/com/google/appengine/datanucleus/scostore/AbstractFKStore.java:262-266 | filtering a concatenation filters each part in turn, so query order is kept |
| FKStore.GetChildrenUsingParentQuery | src/com/google/appengine/datanucleus/scostore/AbstractFKStore.java:258-275 | the loop returns DirectChildren of the children query's results, in query order |
| FKStore.ChildKeyList | src/com/google/appengine/datanucleus/scostore/AbstractFKStore.java:283-292 | no list iff the owner property is absent or null; a non-list value is a ClassCastException |
| FKStore.FirstNonKey | src/com/google/appengine/datanucleus/scostore/AbstractFKStore.java:293-296 | the first element of the key list that is not a Key; none iff every element is a Key |
| FKStore.BatchGetError | src/com/google/appengine/datanucleus/scostore/AbstractFKStore.java:296 | a non-null element that is not a Key fails the cast to Key with ClassCastException; a null element is a NullPointerException |
| FKStore.LookupChild | src/com/google/appengine/datanucleus/scostore/AbstractFKStore.java:296-302 | the child is found iff the element is a Key with an entity; a non-Key is a ClassCastException; a missing entity is a fatal data-integrity error naming owner and key |
| FKStore.LookupChildren | src/com/google/appengine/datanucleus/scostore/AbstractFKStore.java:297-305 | one child per element in list order, and the first element whose lookup fails decides the error |
| FKStore.ChildrenOfKeys | src/com/google/appengine/datanucleus/scostore/AbstractFKStore.java:294-306 | the batch get sees the whole list first, so the first element that is not a Key is a ClassCastException (NullPointerException for null) before any lookup; otherwise one child per key in list order, and the first key without an entity is a fatal data-integrity error naming owner and key; success iff every element is a Key with an entity |
| FKStore.GetChildrenFromParentField | src/com/google/appengine/datanucleus/scostore/AbstractFKStore.java:283-309 | no key list gives no children and a non-list value its ClassCastException; otherwise the element check of the batch get and then the lookup loop return exactly ChildrenOfKeys |
| FKStore.ValidateElementType | src/com/google/appengine/datanucleus/scostore/AbstractFKStore.java:389-405 | null passes; a boxed primitive is checked against the wrapper of a primitive element type; others must be assignable to the element type |
| FKStore.BoxedFitsPrimitiveAndWrapper | src/com/google/appengine/datanucleus/scostore/AbstractFKStore.java:394-401 | a boxed value fits collections declared over its primitive and over its wrapper |
| FKStore.ValidateElementForReading | src/com/google/appengine/datanucleus/scostore/AbstractFKStore.java:368-381 | valid iff the type is valid and the element is null, detached, or persistent in this execution context |
| FKStore.ValidateElementForWriting | src/com/google/appengine/datanucleus/scostore/AbstractFKStore.java:350-359 | ClassCastException naming element class, field and element type iff the type is invalid and not a persistent interface |
| FKStore.WritableElementsAreReadableType | src/com/google/appengine/datanucleus/scostore/AbstractFKStore.java:350-381 | a managed element accepted for writing is also valid for reading |
| FKStore.UpdateEmbeddedElement | src/com/google/appengine/datanucleus/scostore/AbstractFKStore.java:165-168 | never updates |
| FKStore.Size | src/com/google/appengine/datanucleus/scostore/AbstractFKStore.java:173-205 | key-list mode: 0 for an absent or null list, else its length; owned mode: the number of direct children among the keys-only query's results; otherwise 0 |
| FKStore.Contains | src/com/google/appengine/datanucleus/scostore/AbstractFKStore.java:210-247 | false for an invalid or unkeyed element; key-list mode: list membership; owned mode: the key's parent is the owner key; otherwise false |
| FKStore.KeysOfDistinctCard | src/com/google/appengine/datanucleus/scostore/AbstractFKStore.java:195-201 | entities with distinct keys have as many keys as entities |
| FKStore.DirectChildrenDistinct | src/com/google/appengine/datanucleus/scostore/AbstractFKStore.java:195-201 | filtering keeps keys distinct |
| FKStore.SizeCountsStoredChildren | src/com/google/appengine/datanucleus/scostore/AbstractFKStore.java:188-204 | with a faithful ancestor query, the count equals the number of stored entities of the element kind whose parent is the owner |
| FKStore.ContainsAgreesWithChildren | src/com/google/appengine/datanucleus/scostore/AbstractFKStore.java:236-243 | in owned mode, contains is true iff the element's key is among the direct children the query lists |
| FKStore.KeyListSizeAndContainsMatchChildren | src/com/google/appengine/datanucleus/scostore/AbstractFKStore.java:176-187 | in key-list mode, the children read number the size, and a contained element's entity is among them |
| CollectionSpecialization.Contains | branches/1_0_4_1/src/org/datanucleus/store/appengine/DatastoreAbstractCollectionStoreSpecialization.java:52-64 | false without a key or a parent; otherwise true iff the key's parent is the owner key |
| CollectionSpecialization.UpdateEmbeddedElement | branches/1_0_4_1/src/org/datanucleus/store/appengine/DatastoreAbstractCollectionStoreSpecialization.java:46-50 | always UnsupportedOperationException |
| CollectionSpecialization.InternalRemove | branches/1_0_4_1/src/org/datanucleus/store/appengine/DatastoreAbstractCollectionStoreSpecialization.java:66-72 | always UnsupportedOperationException |
| CollectionSpecialization.AgreesWithOwnedStore | branches/1_0_4_1/src/org/datanucleus/store/appengine/DatastoreAbstractCollectionStoreSpecialization.java:52-64 | it answers as the foreign-key store does for an owned relation |
| CollectionSpecialization.ContainsMeansStoredChild | branches/1_0_4_1/src/org/datanucleus/store/appengine/DatastoreAbstractCollectionStoreSpecialization.java:52-64 | containment by key parentage is membership among the stored direct children |
| Property.InitialColumnMetaData | branches/1_0_0/src/org/datanucleus/store/appengine/DatastoreProperty.java:56-67 | none gives the default metadata; unique metadata is UnsupportedOperationException; the result is never unique |
| Property.DatastoreProperty.constructor | branches/1_0_0/src/org/datanucleus/store/appengine/DatastoreProperty.java:49-68 | identifier and column metadata set; not a primary key, no mapping, no member metadata |
| Property.DatastoreProperty.New | branches/1_0_0/src/org/datanucleus/store/appengine/DatastoreProperty.java:49-68 | fails iff the column metadata asks for uniqueness |
| Property.DatastoreProperty.SetAsPrimaryKey | branches/1_0_0/src/org/datanucleus/store/appengine/DatastoreProperty.java:74-80 | primary key and identity become true; nothing else changes |
| Property.DatastoreProperty.IsPrimaryKey | branches/1_0_0/src/org/datanucleus/store/appengine/DatastoreProperty.java:78-80 | the primary-key flag of the property's state |
| Property.DatastoreProperty.IsNullable | branches/1_0_0/src/org/datanucleus/store/appengine/DatastoreProperty.java:82-85 | always nullable |
| Property.DatastoreProperty.SetNullable | branches/1_0_0/src/org/datanucleus/store/appengine/DatastoreProperty.java:108-111 | returns this unchanged |
| Property.DatastoreProperty.SetDatastoreMapping | branches/1_0_0/src/org/datanucleus/store/appengine/DatastoreProperty.java:87-93 | the mapping read back is the one set; nothing else changes |
| Property.DatastoreProperty.GetDatastoreMapping | branches/1_0_0/src/org/datanucleus/store/appengine/DatastoreProperty.java:87-89 | the datastore mapping of the property's state, the one last set |
| Property.DatastoreProperty.ApplySelectFunction | branches/1_0_0/src/org/datanucleus/store/appengine/DatastoreProperty.java:99-101 | always UnsupportedOperationException |
| Property.DatastoreProperty.CopyConfigurationTo | branches/1_0_0/src/org/datanucleus/store/appengine/DatastoreProperty.java:103-106 | the target takes the primary-key flag and nothing else |
| Property.DatastoreProperty.SetDefaultable | branches/1_0_0/src/org/datanucleus/store/appengine/DatastoreProperty.java:113-115 | always UnsupportedOperationException |
| Property.DatastoreProperty.SetIdentifier | branches/1_0_0/src/org/datanucleus/store/appengine/DatastoreProperty.java:117-127 | the identifier read back is the one set; nothing else changes |
| Property.DatastoreProperty.GetIdentifier | branches/1_0_0/src/org/datanucleus/store/appengine/DatastoreProperty.java:125-127 | the identifier of the property's state, the one last set |
| Property.DatastoreProperty.IsDefaultable | branches/1_0_0/src/org/datanucleus/store/appengine/DatastoreProperty.java:129-131 | never defaultable |
| Property.DatastoreProperty.SetUnique | branches/1_0_0/src/org/datanucleus/store/appengine/DatastoreProperty.java:133-135 | returns this unchanged and still not unique |
| Property.DatastoreProperty.IsUnique | branches/1_0_0/src/org/datanucleus/store/appengine/DatastoreProperty.java:137-139 | never unique |
| Property.DatastoreProperty.SetIdentity | branches/1_0_0/src/org/datanucleus/store/appengine/DatastoreProperty.java:141-144 | primary key and identity both become b; returns this |
| Property.DatastoreProperty.IsIdentity | branches/1_0_0/src/org/datanucleus/store/appengine/DatastoreProperty.java:146-148 | identity is the primary-key flag |
| Property.DatastoreProperty.SetDefaultValue | branches/1_0_0/src/org/datanucleus/store/appengine/DatastoreProperty.java:150-152 | always UnsupportedOperationException |
| Property.DatastoreProperty.GetDefaultValue | branches/1_0_0/src/org/datanucleus/store/appengine/DatastoreProperty.java:154-156 | always null |
| Property.DatastoreProperty.SetColumnMetaData | branches/1_0_0/src/org/datanucleus/store/appengine/DatastoreProperty.java:158-164 | the column metadata read back is the one set; nothing else changes |
| Property.DatastoreProperty.GetColumnMetaData | branches/1_0_0/src/org/datanucleus/store/appengine/DatastoreProperty.java:162-164 | the column metadata of the property's state, the one last set |
| Property.DatastoreProperty.GetMemberMetaData | branches/1_0_0/src/org/datanucleus/store/appengine/DatastoreProperty.java:170-178 | explicit member metadata wins; else the column metadata's parent when it is a member; else null |
| Property.DatastoreProperty.SetMemberMetaData | branches/1_0_0/src/org/datanucleus/store/appengine/DatastoreProperty.java:180-182 | getMemberMetaData then returns the member set |
| Property.MemberMetaDataPrecedence | branches/1_0_0/src/org/datanucleus/store/appengine/DatastoreProperty.java:170-182 | the column's member is reported until one is set explicitly, which then wins |
| Property.CopyMakesIdentityAgree | branches/1_0_0/src/org/datanucleus/store/appengine/DatastoreProperty.java:103-106 | after copying, the target's identity equals the source's primary-key flag |
| XAResource.StartStep | branches/1_0_0/src/org/datanucleus/store/appengine/DatastoreXAResource.java:41-53 | succeeds iff idle, making the begun transaction current; otherwise "nested transactions" XAException and no change |
| XAResource.CommitStep | branches/1_0_0/src/org/datanucleus/store/appengine/DatastoreXAResource.java:55-66 | succeeds iff a transaction is current: it is committed and the resource is idle; otherwise XAException |
| XAResource.RollbackStep | branches/1_0_0/src/org/datanucleus/store/appengine/DatastoreXAResource.java:68-79 | succeeds iff a transaction is current: it is rolled back and the resource is idle; otherwise XAException |
| XAResource.TransitionsPreserveConsistency | branches/1_0_0/src/org/datanucleus/store/appengine/DatastoreXAResource.java:41-79 | every successful transition keeps the current transaction equal to the one the datastore calls left open, with calls well bracketed |
| XAResource.EveryTransactionEnds | branches/1_0_0/src/org/datanucleus/store/appengine/DatastoreXAResource.java:41-79 | in a well-bracketed log the number of transactions begun equals the number of commits and rollbacks, plus one while a transaction is open |
| XAResource.EndedTransactionAllowsStart | branches/1_0_0/src/org/datanucleus/store/appengine/DatastoreXAResource.java:46-75 | after a successful commit or rollback, start succeeds |
| XAResource.DatastoreXAResource.constructor | branches/1_0_0/src/org/datanucleus/store/appengine/DatastoreXAResource.java:32-34 | starts idle, with no calls made |
| XAResource.DatastoreXAResource.GetCurrentTransaction | branches/1_0_0/src/org/datanucleus/store/appengine/DatastoreXAResource.java:36-39 | the current transaction is the one the last begin call left open |
| XAResource.DatastoreXAResource.Start | branches/1_0_0/src/org/datanucleus/store/appengine/DatastoreXAResource.java:41-53 | the state moves as StartStep says, or stays with the error |
| XAResource.DatastoreXAResource.Commit | branches/1_0_0/src/org/datanucleus/store/appengine/DatastoreXAResource.java:55-66 | the state moves as CommitStep says, or stays with the error |
| XAResource.DatastoreXAResource.Rollback | branches/1_0_0/src/org/datanucleus/store/appengine/DatastoreXAResource.java:68-79 | the state moves as RollbackStep says, or stays with the error |
| XAResource.StartCommitStart | branches/1_0_0/src/org/datanucleus/store/appengine/DatastoreXAResource.java:46-62 | start, commit, start all succeed, and a further start is refused as nested |

## Left out

- KeyFactory's real string format (web-safe base64 of a protocol buffer) is not modelled. A length-prefixed encoding of this model's own stands in, because the code only relies on it being reversible.
- Key names are not validated as the SDK validates them.
- Floating point values (float and double fields, and their widening) are not modelled.
- `TypeConversionUtils` is not part of this model. Of `datastoreValueToPojoValue` only the long-to-char step for char and Character members is kept, as a narrowing to the low 16 bits. Narrowing longs to int, short or byte, and turning lists back into arrays or Blobs back into `byte[]`, are not modelled, so array and collection members are not covered by `StoreThenFetch`. `pojoPropertyIsByteArray` is taken to mean a `byte[]` member, and `pojoPropertyIsCharacterCollection` a collection of `Character`.
- The unboxing casts of the primitive fetch methods are not modelled: a property holding another wrapper class is returned as it is rather than raising ClassCastException.
- Logging and the `Localiser` message text are left out. Errors carry the data their messages name, not the text.
- The Java object-stream byte format is left out. The environment supplies it as `writeObject` / `readObject`.
- Custom strategy instances are left out; their `serialize` / `deserialize` are environment functions.
- Relation fields are not modelled beyond recording what is handed to the relation field manager (`relationStores`). Their fetch result is the `fetchRelation` parameter, and `storeRelations` is left out.
- The embedded state manager (`getEmbeddedStateManager`) is left out. Its identity, `addEmbeddedOwner` and `setPcObjectType` are dropped. The embedded object is modelled as its field values only.
- A null embedded value is stored as if the fresh instance held the Java default value of every member. A real `newInstance` runs the class's field initialisers, which may set other values; these are not modelled.
- FieldManager.DatastoreFieldManager.StoreEmbeddedField: the values written are stated only for flat embedded classes, whose members are all plain and have distinct property names. For nested embedded objects, and for relation or key fields inside an embedded class, it states only that the kind is kept, no property is lost and the frame stack is restored.
- `buildMappingConsumerForWrite` and the table mapping providers are left out. The `InsertMappingConsumer` is given to the manager.
- The key registry is given as a map.
- `EntityUtils.determineKind` is left out. The kind is part of the class metadata.
- The datastore's query engine is left out. The answers to a prepared query are the `run` parameter. `SizeCountsStoredChildren` states what a faithful answer must be.
- `EntityUtils.entityToPojo` is left out. The children lists hold entities.
- FKStore.ChildrenOfKeys: of the batch `ds.get` only its walk over the list is modelled, where a non-Key element fails the cast and a null one is refused. The datastore service is not part of this model: its refusal of an incomplete key and the exact exception it raises for a null key are not captured, and a null key is taken to be a NullPointerException.
- FKStore.GetChildrenFromParentField: returns what ChildrenOfKeys says, so the same limits on the batch get apply.
- Property.DatastoreProperty.CopyConfigurationTo: the parameter is a `DatastoreProperty`, so the ClassCastException that the cast at `DatastoreProperty.java:104` raises for any other kind of `DatastoreField` is not modelled.
- `getOwnerEntity` and its datastore fetch are left out. The owner entity is a parameter.
- `EntityUtils.getKeyForObject` and `getPrimaryKeyAsKey` are left out. The element key and the owner key are parameters.
- `SCOUtils.validateObjectForWriting` is left out. Its answer is the `persisted` parameter.
- `clr.classForName` failing on an unknown element type is not modelled.
- The `AbstractFKStore` constructor (element metadata lookup and mapped-by checks) is not modelled, because it resolves metadata through the framework. The store is given as its resulting configuration.
- `getStoreManager`, `getDatastoreContainerObject`, `getStoredJavaType` and `getJavaTypeMapping` only return collaborators, so they are not modelled.
- The `EmulatedXAResource` superclass calls are left out.
- The datastore transaction's own commit or rollback failing is not modelled. The begun transaction is the `txn` parameter of `Start`.
- Datastore transactions are recorded only as calls in a log.

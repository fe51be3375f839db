/**
 * DatastoreAbstractCollectionStoreSpecialization: collection containment
 * for owned relations, which reads the answer off the element's key alone,
 * and the two collection operations that are not supported.
 */
module CollectionSpecialization {
  import opened Datastore
  import opened Framework
  import FKStore

  /**
   * contains: an element is in the owner's collection exactly when it has a
   * key (it has been persisted) and that key's parent is the owner's primary
   * key. `childKey` is the element's key and `ownerKey` the owner's.
   */
  function Contains(ownerKey: Key, childKey: Option<Key>): (r: bool)
    ensures childKey.None? ==> !r
    ensures childKey.Some? && childKey.value.parent.None? ==> !r
    ensures r <==> (childKey.Some? && childKey.value.parent == Some(ownerKey))
  {
    if childKey.None? || childKey.value.parent.None? then false
    else childKey.value.parent.value == ownerKey
  }

  /** updateEmbeddedElement: not supported. */
  function UpdateEmbeddedElement(owner: StateManager, element: Value, fieldNumber: nat, value: Value)
    : (r: Result<bool>)
    ensures r == Err(Unsupported) && r.error.Exception() == UnsupportedOperationException
  {
    Err(Unsupported)
  }

  /** internalRemove: not supported (only map stores would use it). */
  function InternalRemove(owner: StateManager, element: Value, batched: bool, executeNow: bool)
    : (r: Result<seq<int>>)
    ensures r == Err(Unsupported) && r.error.Exception() == UnsupportedOperationException
  {
    Err(Unsupported)
  }

  /**
   * The specialization answers as the foreign-key store does for an owned
   * relation read through ancestor queries, for every element that passes
   * the store's read validation.
   */
  lemma AgreesWithOwnedStore(store: FKStore.FKStore, ts: TypeSystem, ec: ExecutionContext, owner: Entity,
                             element: Value, childKey: Option<Key>)
    requires !store.readChildKeysFromParents && store.ownedRelation
    requires FKStore.ValidateElementForReading(store, ts, ec, element)
    ensures FKStore.Contains(store, ts, ec, owner, owner.key, element, childKey) == Ok(Contains(owner.key, childKey))
  {
  }

  /**
   * Containment by key is containment among the stored children: when the
   * datastore answers ancestor queries faithfully, an element of the
   * element kind is contained exactly when its key is one of the direct
   * children the children query yields.
   */
  lemma ContainsMeansStoredChild(store: FKStore.FKStore, ts: TypeSystem, ec: ExecutionContext, owner: Entity,
                                 ds: map<Key, Entity>, results: seq<Entity>, element: Value, childKey: Key)
    requires !store.readChildKeysFromParents && store.ownedRelation
    requires FKStore.ValidateElementForReading(store, ts, ec, element)
    requires FKStore.WellKeyed(ds) && childKey in ds && childKey.kind == store.elementKind
    requires FKStore.AnswersAncestorQuery(ds, store.elementKind, owner.key, results)
    ensures Contains(owner.key, Some(childKey)) <==> childKey in FKStore.KeysOf(FKStore.DirectChildren(results, owner.key))
  {
    AgreesWithOwnedStore(store, ts, ec, owner, element, Some(childKey));
    FKStore.ContainsAgreesWithChildren(store, ts, ec, owner, ds, results, element, childKey);
  }
}

/**
 * The read path of AbstractFKStore, the store behind a one-to-many relation
 * whose children are separate entities. The children are found in one of
 * two ways: through a List<Key> property on the owner entity (key-list
 * mode), or by an ancestor query under the owner key whose results are cut
 * down to the owner's direct children (ancestor mode).
 */
module FKStore {
  import opened Datastore
  import opened Framework

  /**
   * What an AbstractFKStore is built with: whether child keys are read from
   * the parent (storage version READ_OWNED_CHILD_KEYS_FROM_PARENTS or
   * later), whether the relation is owned, the owner member's property and
   * field names, the element type and the kind of the element table.
   */
  datatype FKStore = FKStore(
    readChildKeysFromParents: bool,
    ownedRelation: bool,
    propertyName: string,
    ownerFieldName: string,
    elementType: string,
    elementTypeIsPersistentInterface: bool,
    elementKind: string)

  const LIST_INTERFACE := "java.util.List"

  // ---------------------------------------------------------------------------
  // Queries
  // ---------------------------------------------------------------------------

  /** The query prepareChildrenQuery builds. */
  function ChildrenQuery(parentKey: Key, filters: seq<FilterPredicate>, sorts: seq<SortPredicate>,
                         keysOnly: bool, kindName: string): Query
  {
    Query(kindName, Some(parentKey), filters, sorts, keysOnly)
  }

  /**
   * prepareChildrenQuery: a query of the given kind under the parent key,
   * keys-only when asked, with every filter and then every sort added in
   * the order supplied.
   */
  method PrepareChildrenQuery(parentKey: Key, filters: seq<FilterPredicate>, sorts: seq<SortPredicate>,
                              keysOnly: bool, kindName: string) returns (q: Query)
    ensures q.kind == kindName && q.ancestor == Some(parentKey) && q.keysOnly == keysOnly
    ensures q.filters == filters && q.sorts == sorts
  {
    q := Query(kindName, Some(parentKey), [], [], false);
    if keysOnly {
      q := q.(keysOnly := true);
    }
    var i := 0;
    while i < |filters|
      invariant 0 <= i <= |filters|
      invariant q == Query(kindName, Some(parentKey), filters[..i], [], keysOnly)
    {
      q := q.(filters := q.filters + [filters[i]]);
      assert filters[..i + 1] == filters[..i] + [filters[i]];
      i := i + 1;
    }
    assert filters[..i] == filters;
    var j := 0;
    while j < |sorts|
      invariant 0 <= j <= |sorts|
      invariant q == Query(kindName, Some(parentKey), filters, sorts[..j], keysOnly)
    {
      q := q.(sorts := q.sorts + [sorts[j]]);
      assert sorts[..j + 1] == sorts[..j] + [sorts[j]];
      j := j + 1;
    }
    assert sorts[..j] == sorts;
  }

  /** The results whose key's immediate parent is `parent`, in result order. */
  function DirectChildren(results: seq<Entity>, parent: Key): (r: seq<Entity>)
    ensures |r| <= |results|
    ensures forall e :: e in r <==> e in results && e.Parent() == Some(parent)
  {
    if results == [] then []
    else
      var rest := DirectChildren(results[1..], parent);
      if results[0].Parent() == Some(parent) then [results[0]] + rest else rest
  }

  /** Filtering the concatenation of two result runs is filtering each in turn. */
  lemma {:induction false} DirectChildrenAppend(a: seq<Entity>, b: seq<Entity>, parent: Key)
    ensures DirectChildren(a + b, parent) == DirectChildren(a, parent) + DirectChildren(b, parent)
  {
    if a != [] {
      assert (a + b)[1..] == a[1..] + b;
      DirectChildrenAppend(a[1..], b, parent);
    } else {
      assert a + b == b;
    }
  }

  /** One more result either joins the direct children or is skipped. */
  lemma DirectChildrenSnoc(results: seq<Entity>, i: nat, parent: Key)
    requires i < |results|
    ensures DirectChildren(results[..i + 1], parent) ==
      DirectChildren(results[..i], parent) + (if results[i].Parent() == Some(parent) then [results[i]] else [])
  {
    assert results[..i + 1] == results[..i] + [results[i]];
    DirectChildrenAppend(results[..i], [results[i]], parent);
    assert [results[i]][1..] == [];
  }

  /**
   * getChildrenUsingParentQuery: run the children query under `parentKey`
   * and keep exactly the direct children, in query order. `run` is the
   * datastore's answer to a prepared query.
   */
  method GetChildrenUsingParentQuery(store: FKStore, parentKey: Key, filters: seq<FilterPredicate>,
                                     sorts: seq<SortPredicate>, run: Query -> seq<Entity>)
    returns (children: seq<Entity>)
    ensures children == DirectChildren(run(ChildrenQuery(parentKey, filters, sorts, false, store.elementKind)), parentKey)
  {
    var q := PrepareChildrenQuery(parentKey, filters, sorts, false, store.elementKind);
    var results := run(q);
    children := [];
    var i := 0;
    while i < |results|
      invariant 0 <= i <= |results|
      invariant children == DirectChildren(results[..i], parentKey)
    {
      DirectChildrenSnoc(results, i, parentKey);
      if results[i].key.parent == Some(parentKey) {
        children := children + [results[i]];
      }
      i := i + 1;
    }
    assert results[..i] == results;
  }

  // ---------------------------------------------------------------------------
  // Key-list mode
  // ---------------------------------------------------------------------------

  /** The owner's List<Key> property: absent or null reads as no list. */
  function ChildKeyList(store: FKStore, owner: Entity): (r: Result<Option<seq<Value>>>)
    ensures r == Ok(None) <==> store.propertyName !in owner.props || owner.props[store.propertyName] == Null
    ensures r.Ok? && r.value.Some? ==> owner.props[store.propertyName] == ListV(r.value.value)
    ensures r.Err? ==> r.error.Exception() == ClassCastException
  {
    if store.propertyName !in owner.props then Ok(None)
    else
      match owner.props[store.propertyName]
      case Null => Ok(None)
      case ListV(keys) => Ok(Some(keys))
      case other => Err(BadCast(ClassOf(other), LIST_INTERFACE))
  }

  /** Fetching the child one element of the key list names. */
  function LookupChild(ownerKey: Key, v: Value, ds: map<Key, Entity>): (r: Result<Entity>)
    ensures r.Ok? <==> v.KeyV? && v.k in ds
    ensures r.Ok? ==> r.value == ds[v.k]
    ensures !v.KeyV? ==> r == Err(BadCast(ClassOf(v), KEY_CLASS)) && r.error.Exception() == ClassCastException
    ensures v.KeyV? && v.k !in ds ==>
      r == Err(MissingChild(ownerKey, v.k)) && r.error.Exception() == NucleusFatalUserException
  {
    if !v.KeyV? then Err(BadCast(ClassOf(v), KEY_CLASS))
    else if v.k !in ds then Err(MissingChild(ownerKey, v.k))
    else Ok(ds[v.k])
  }

  /** The position of the first element of a key list that is not a Key, if any. */
  function FirstNonKey(keys: seq<Value>): (r: Option<nat>)
    ensures r.None? <==> forall i :: 0 <= i < |keys| ==> keys[i].KeyV?
    ensures r.Some? ==> r.value < |keys| && !keys[r.value].KeyV? && forall j :: 0 <= j < r.value ==> keys[j].KeyV?
  {
    if keys == [] then None
    else if !keys[0].KeyV? then Some(0)
    else
      match FirstNonKey(keys[1..])
      case None => None
      case Some(i) => Some(i + 1)
  }

  /**
   * How the batch get refuses an element of the key list that is not a Key:
   * the erased List<Key> lets any value in, so a non-null one fails the cast
   * to Key and a null one is refused as a null key.
   */
  function BatchGetError(v: Value): (e: Error)
    requires !v.KeyV?
    ensures v == Null ==> e == NullObject && e.Exception() == NullPointerException
    ensures v != Null ==> e == BadCast(ClassOf(v), KEY_CLASS) && e.Exception() == ClassCastException
  {
    if v == Null then NullObject else BadCast(ClassOf(v), KEY_CLASS)
  }

  /** The per-key loop: one child per key, in list order, until a lookup fails. */
  function LookupChildren(ownerKey: Key, keys: seq<Value>, ds: map<Key, Entity>): (r: Result<seq<Entity>>)
    ensures r.Ok? <==> forall i :: 0 <= i < |keys| ==> LookupChild(ownerKey, keys[i], ds).Ok?
    ensures r.Ok? ==> (|r.value| == |keys| &&
      forall i :: 0 <= i < |keys| ==> keys[i].KeyV? && r.value[i] == ds[keys[i].k])
    ensures forall i :: (0 <= i < |keys| && LookupChild(ownerKey, keys[i], ds).Err?
      && forall j :: 0 <= j < i ==> LookupChild(ownerKey, keys[j], ds).Ok?) ==>
      r == Err(LookupChild(ownerKey, keys[i], ds).error)
  {
    if keys == [] then Ok([])
    else
      match LookupChild(ownerKey, keys[0], ds)
      case Err(e) => Err(e)
      case Ok(child) =>
        match LookupChildren(ownerKey, keys[1..], ds)
        case Err(e) => Err(e)
        case Ok(rest) => Ok([child] + rest)
  }

  /**
   * The children named by a key list, in list order. The batch get sees
   * every element first, so the first element that is not a Key decides the
   * error before any lookup; otherwise the first key without an entity is a
   * fatal data-integrity error.
   */
  function ChildrenOfKeys(ownerKey: Key, keys: seq<Value>, ds: map<Key, Entity>): (r: Result<seq<Entity>>)
    ensures r.Ok? <==> forall i :: 0 <= i < |keys| ==> keys[i].KeyV? && keys[i].k in ds
    ensures r.Ok? ==> (|r.value| == |keys| &&
      forall i :: 0 <= i < |keys| ==> keys[i].KeyV? && r.value[i] == ds[keys[i].k])
    ensures FirstNonKey(keys).Some? ==> r == Err(BatchGetError(keys[FirstNonKey(keys).value]))
    ensures FirstNonKey(keys).None? ==>
      forall i :: (0 <= i < |keys| && keys[i].k !in ds && forall j :: 0 <= j < i ==> keys[j].k in ds) ==>
        r == Err(MissingChild(ownerKey, keys[i].k)) && r.error.Exception() == NucleusFatalUserException
  {
    match FirstNonKey(keys)
    case Some(i) => Err(BatchGetError(keys[i]))
    case None => LookupChildren(ownerKey, keys, ds)
  }

  /**
   * getChildrenFromParentField: no children when the owner has no key list;
   * otherwise the batch get over the whole list, then one child per key, in
   * key-list order.
   */
  method GetChildrenFromParentField(store: FKStore, owner: Entity, ds: map<Key, Entity>)
    returns (r: Result<seq<Entity>>)
    ensures ChildKeyList(store, owner) == Ok(None) ==> r == Ok([])
    ensures ChildKeyList(store, owner).Err? ==> r == Err(ChildKeyList(store, owner).error)
    ensures ChildKeyList(store, owner).Ok? && ChildKeyList(store, owner).value.Some? ==>
      r == ChildrenOfKeys(owner.key, ChildKeyList(store, owner).value.value, ds)
  {
    var list := ChildKeyList(store, owner);
    if list.Err? {
      return Err(list.error);
    }
    if list.value.None? {
      return Ok([]);
    }
    var keys := list.value.value;
    // ds.get(keys): every element must be a Key
    var i := 0;
    while i < |keys|
      invariant 0 <= i <= |keys|
      invariant forall j :: 0 <= j < i ==> keys[j].KeyV?
    {
      if !keys[i].KeyV? {
        assert FirstNonKey(keys) == Some(i);
        return Err(BatchGetError(keys[i]));
      }
      i := i + 1;
    }
    var children: seq<Entity> := [];
    i := 0;
    while i < |keys|
      invariant 0 <= i <= |keys|
      invariant forall j :: 0 <= j < |keys| ==> keys[j].KeyV?
      invariant forall j :: 0 <= j < i ==> keys[j].k in ds
      invariant |children| == i && forall j :: 0 <= j < i ==> children[j] == ds[keys[j].k]
    {
      var key := keys[i].k;
      if key !in ds {
        return Err(MissingChild(owner.key, key));
      }
      children := children + [ds[key]];
      i := i + 1;
    }
    assert ChildrenOfKeys(owner.key, keys, ds).value == children;
    r := Ok(children);
  }

  // ---------------------------------------------------------------------------
  // Element validation
  // ---------------------------------------------------------------------------

  /**
   * validateElementType: null fits any collection; a boxed primitive fits
   * when its class is assignable to the element type, or to the wrapper of
   * the element type when that is a primitive; any other object fits when
   * its class is assignable to the element type.
   */
  function ValidateElementType(store: FKStore, ts: TypeSystem, element: Value): (b: bool)
    ensures element == Null ==> b
    ensures element != Null && PrimitiveOfWrapper(ClassOf(element)).None? ==>
      (b <==> ts.IsAssignableFrom(store.elementType, ClassOf(element)))
    ensures PrimitiveOfWrapper(ClassOf(element)).Some? && PrimitiveNamed(store.elementType).Some? ==>
      (b <==> ts.IsAssignableFrom(WrapperName(PrimitiveNamed(store.elementType).value), ClassOf(element)))
    ensures PrimitiveOfWrapper(ClassOf(element)).Some? && PrimitiveNamed(store.elementType).None? ==>
      (b <==> ts.IsAssignableFrom(store.elementType, ClassOf(element)))
  {
    if element == Null then true
    else if PrimitiveOfWrapper(ClassOf(element)).Some? then
      var wrapper :=
        match PrimitiveNamed(store.elementType)
        case Some(k) => WrapperName(k)
        case None => store.elementType;
      ts.IsAssignableFrom(wrapper, ClassOf(element))
    else ts.IsAssignableFrom(store.elementType, ClassOf(element))
  }

  /** A boxed value fits a collection declared over its primitive type and over its wrapper. */
  lemma BoxedFitsPrimitiveAndWrapper(store: FKStore, ts: TypeSystem, element: Value, k: PrimKind)
    requires ClassOf(element) == WrapperName(k)
    requires store.elementType == PrimitiveName(k) || store.elementType == WrapperName(k)
    ensures ValidateElementType(store, ts, element)
  {
    assert element != Null;
    assert PrimitiveOfWrapper(WrapperName(k)) == Some(k) by { match k case _ => }
    if store.elementType == PrimitiveName(k) {
      assert PrimitiveNamed(PrimitiveName(k)) == Some(k) by { match k case _ => }
    } else {
      assert PrimitiveNamed(WrapperName(k)) == None by { match k case _ => }
    }
  }

  /** The element is persistent and managed by this execution context. */
  predicate ManagedBy(ec: ExecutionContext, element: Value)
  {
    element.Pojo? && element.id in ec.adapter.persistent
    && element.id in ec.adapter.contextOf && ec.adapter.contextOf[element.id] == ec.id
  }

  predicate Detached(ec: ExecutionContext, element: Value)
  {
    element.Pojo? && element.id in ec.adapter.detached
  }

  /**
   * validateElementForReading: the element has the right type and is null,
   * detached, or persistent and managed by this execution context.
   */
  function ValidateElementForReading(store: FKStore, ts: TypeSystem, ec: ExecutionContext, element: Value): (b: bool)
    ensures b <==> (ValidateElementType(store, ts, element)
                    && (element == Null || ManagedBy(ec, element) || Detached(ec, element)))
  {
    if !ValidateElementType(store, ts, element) then false
    else if element != Null then
      var persistent := element.Pojo? && element.id in ec.adapter.persistent;
      var sameContext := element.Pojo? && element.id in ec.adapter.contextOf
                         && ec.adapter.contextOf[element.id] == ec.id;
      var detached := element.Pojo? && element.id in ec.adapter.detached;
      !((!persistent || !sameContext) && !detached)
    else true
  }

  /**
   * validateElementForWriting: an element of the wrong type is refused with
   * a ClassCastException unless the element type is a persistent interface;
   * otherwise the answer is SCOUtils.validateObjectForWriting's, here the
   * parameter `persisted` (whether the call had to persist the element).
   */
  function ValidateElementForWriting(store: FKStore, ts: TypeSystem, element: Value, persisted: Value -> bool)
    : (r: Result<bool>)
    ensures r.Err? <==> !store.elementTypeIsPersistentInterface && !ValidateElementType(store, ts, element)
    ensures r.Err? ==> (r.error == ElementTypeMismatch(ClassOf(element), store.ownerFieldName, store.elementType)
                        && r.error.Exception() == ClassCastException)
    ensures r.Ok? ==> r.value == persisted(element)
    ensures element == Null ==> r.Ok?
  {
    if !store.elementTypeIsPersistentInterface && !ValidateElementType(store, ts, element) then
      Err(ElementTypeMismatch(ClassOf(element), store.ownerFieldName, store.elementType))
    else Ok(persisted(element))
  }

  /** An element that may be written has the type reading accepts. */
  lemma WritableElementsAreReadableType(store: FKStore, ts: TypeSystem, ec: ExecutionContext,
                                        element: Value, persisted: Value -> bool)
    requires !store.elementTypeIsPersistentInterface
    requires ValidateElementForWriting(store, ts, element, persisted).Ok?
    requires ManagedBy(ec, element)
    ensures ValidateElementForReading(store, ts, ec, element)
  {
  }

  // ---------------------------------------------------------------------------
  // CollectionStore operations
  // ---------------------------------------------------------------------------

  /** updateEmbeddedElement: elements of a foreign-key collection are never embedded. */
  function UpdateEmbeddedElement(owner: StateManager, element: Value, fieldNumber: nat, value: Value): (updated: bool)
    ensures !updated
  {
    false
  }

  /**
   * size: in key-list mode the length of the owner's key list (0 when
   * absent or null); for an owned relation the number of the keys-only
   * children query's results that are direct children of the owner; 0
   * otherwise.
   */
  method Size(store: FKStore, owner: Entity, run: Query -> seq<Entity>) returns (r: Result<nat>)
    ensures store.readChildKeysFromParents ==>
      match ChildKeyList(store, owner)
      case Err(e) => r == Err(e)
      case Ok(None) => r == Ok(0)
      case Ok(Some(keys)) => r == Ok(|keys|)
    ensures !store.readChildKeysFromParents && store.ownedRelation ==>
      r == Ok(|DirectChildren(run(ChildrenQuery(owner.key, [], [], true, store.elementKind)), owner.key)|)
    ensures !store.readChildKeysFromParents && !store.ownedRelation ==> r == Ok(0)
  {
    if store.readChildKeysFromParents {
      var list := ChildKeyList(store, owner);
      match list {
        case Err(e) => return Err(e);
        case Ok(None) => return Ok(0);
        case Ok(Some(keys)) => return Ok(|keys|);
      }
    } else if store.ownedRelation {
      var q := PrepareChildrenQuery(owner.key, [], [], true, store.elementKind);
      var children := run(q);
      var count := 0;
      var i := 0;
      while i < |children|
        invariant 0 <= i <= |children|
        invariant count == |DirectChildren(children[..i], owner.key)|
      {
        DirectChildrenSnoc(children, i, owner.key);
        if children[i].key.parent == Some(owner.key) {
          count := count + 1;
        }
        i := i + 1;
      }
      assert children[..i] == children;
      return Ok(count);
    }
    return Ok(0);
  }

  /**
   * contains: an element that fails read validation, or has no key yet, is
   * not contained. In key-list mode the element's key must be in the
   * owner's key list; for an owned relation the parent of the element's key
   * must be the owner's key; otherwise nothing is contained.
   * `childKey` is the element's key (EntityUtils.getKeyForObject) and
   * `ownerKey` the owner's primary key.
   */
  function Contains(store: FKStore, ts: TypeSystem, ec: ExecutionContext, owner: Entity, ownerKey: Key,
                    element: Value, childKey: Option<Key>): (r: Result<bool>)
    ensures !ValidateElementForReading(store, ts, ec, element) || childKey.None? ==> r == Ok(false)
    ensures r == Ok(true) ==> ValidateElementForReading(store, ts, ec, element) && childKey.Some?
    ensures store.readChildKeysFromParents && childKey.Some? ==>
      (r == Ok(true) <==> (ValidateElementForReading(store, ts, ec, element)
                            && ChildKeyList(store, owner).Ok? && ChildKeyList(store, owner).value.Some?
                            && KeyV(childKey.value) in ChildKeyList(store, owner).value.value))
    ensures (!store.readChildKeysFromParents && store.ownedRelation
             && ValidateElementForReading(store, ts, ec, element) && childKey.Some?) ==>
      r == Ok(childKey.value.parent == Some(ownerKey))
    ensures !store.readChildKeysFromParents && !store.ownedRelation ==> r == Ok(false)
    ensures r.Err? ==> store.readChildKeysFromParents && r.error.Exception() == ClassCastException
  {
    if !ValidateElementForReading(store, ts, ec, element) then Ok(false)
    else if childKey.None? then Ok(false)
    else if store.readChildKeysFromParents then
      match ChildKeyList(store, owner)
      case Err(e) => Err(e)
      case Ok(None) => Ok(false)
      case Ok(Some(keys)) => Ok(KeyV(childKey.value) in keys)
    else if store.ownedRelation then
      if childKey.value.parent.None? then Ok(false)
      else Ok(childKey.value.parent.value == ownerKey)
    else Ok(false)
  }

  // ---------------------------------------------------------------------------
  // How the operations relate to the datastore
  // ---------------------------------------------------------------------------

  /** Every entity is stored under its own key. */
  predicate WellKeyed(ds: map<Key, Entity>)
  {
    forall k :: k in ds ==> ds[k].key == k
  }

  /**
   * `results` is a faithful answer to an ancestor query of kind `kind` under
   * `ancestor`: each matching stored entity appears exactly once and nothing
   * else does.
   */
  predicate AnswersAncestorQuery(ds: map<Key, Entity>, kind: string, ancestor: Key, results: seq<Entity>)
  {
    (forall i :: 0 <= i < |results| ==> results[i].key in ds && InAncestorQuery(kind, ancestor, results[i]))
    && (forall k :: k in ds && InAncestorQuery(kind, ancestor, ds[k]) ==>
          exists i :: 0 <= i < |results| && results[i].key == k)
    && DistinctKeys(results)
  }

  predicate DistinctKeys(es: seq<Entity>)
  {
    forall i, j :: 0 <= i < j < |es| ==> es[i].key != es[j].key
  }

  /** The keys of a run of entities. */
  function KeysOf(es: seq<Entity>): (ks: set<Key>)
    ensures forall k :: k in ks <==> exists e :: e in es && e.key == k
  {
    if es == [] then {}
    else {es[0].key} + KeysOf(es[1..])
  }

  /** The stored direct children of `owner` of the given kind. */
  function StoredChildren(ds: map<Key, Entity>, kind: string, owner: Key): set<Key>
  {
    set k | k in ds && k.kind == kind && k.parent == Some(owner)
  }

  lemma {:induction false} KeysOfDistinctCard(es: seq<Entity>)
    requires DistinctKeys(es)
    ensures |KeysOf(es)| == |es|
  {
    if es != [] {
      KeysOfDistinctCard(es[1..]);
      forall e | e in es[1..] ensures e.key != es[0].key {
        var j :| 0 <= j < |es[1..]| && es[1..][j] == e;
        assert es[j + 1] == e;
      }
      assert es[0].key !in KeysOf(es[1..]);
    }
  }

  lemma {:induction false} DirectChildrenDistinct(results: seq<Entity>, parent: Key)
    requires DistinctKeys(results)
    ensures DistinctKeys(DirectChildren(results, parent))
  {
    if results != [] {
      var rest := DirectChildren(results[1..], parent);
      DirectChildrenDistinct(results[1..], parent);
      if results[0].Parent() == Some(parent) {
        forall e | e in rest ensures e.key != results[0].key {
          var j :| 0 <= j < |results[1..]| && results[1..][j] == e;
          assert results[j + 1] == e;
        }
        var r := [results[0]] + rest;
        forall i, j | 0 <= i < j < |r| ensures r[i].key != r[j].key {
          if i == 0 { assert r[j] in rest; } else { assert r[i] == rest[i - 1] && r[j] == rest[j - 1]; }
        }
      }
    }
  }

  /**
   * In ancestor mode the count size arrives at is the number of stored
   * children of the element kind whose key's parent is the owner's key,
   * whenever the datastore answers the children query faithfully.
   */
  lemma SizeCountsStoredChildren(ds: map<Key, Entity>, kind: string, owner: Key, results: seq<Entity>)
    requires WellKeyed(ds)
    requires AnswersAncestorQuery(ds, kind, owner, results)
    ensures |DirectChildren(results, owner)| == |StoredChildren(ds, kind, owner)|
  {
    var children := DirectChildren(results, owner);
    DirectChildrenDistinct(results, owner);
    KeysOfDistinctCard(children);
    forall k | k in KeysOf(children) ensures k in StoredChildren(ds, kind, owner) {
      var e :| e in children && e.key == k;
      assert e in results;
    }
    forall k | k in StoredChildren(ds, kind, owner) ensures k in KeysOf(children) {
      assert InAncestorQuery(kind, owner, ds[k]);
      var i :| 0 <= i < |results| && results[i].key == k;
      assert results[i] in children;
    }
    assert KeysOf(children) == StoredChildren(ds, kind, owner);
  }

  /**
   * For an owned relation, contains agrees with the children the store
   * lists: a managed element of the element kind is contained exactly when
   * its key is among the keys of the direct children the children query
   * yields.
   */
  lemma ContainsAgreesWithChildren(store: FKStore, ts: TypeSystem, ec: ExecutionContext, owner: Entity,
                                   ds: map<Key, Entity>, results: seq<Entity>, element: Value, childKey: Key)
    requires !store.readChildKeysFromParents && store.ownedRelation
    requires ValidateElementForReading(store, ts, ec, element)
    requires WellKeyed(ds) && childKey in ds && childKey.kind == store.elementKind
    requires AnswersAncestorQuery(ds, store.elementKind, owner.key, results)
    ensures Contains(store, ts, ec, owner, owner.key, element, Some(childKey)) == Ok(true)
        <==> childKey in KeysOf(DirectChildren(results, owner.key))
  {
    var children := DirectChildren(results, owner.key);
    if childKey.parent == Some(owner.key) {
      assert InAncestorQuery(store.elementKind, owner.key, ds[childKey]);
      var i :| 0 <= i < |results| && results[i].key == childKey;
      assert results[i] in children;
    }
  }

  /**
   * In key-list mode, size and the children read from the parent field
   * agree: when every key resolves there is one child per counted key, and
   * a contained element's entity is among them.
   */
  lemma KeyListSizeAndContainsMatchChildren(store: FKStore, ts: TypeSystem, ec: ExecutionContext,
                                            owner: Entity, ds: map<Key, Entity>, element: Value, childKey: Key)
    requires store.readChildKeysFromParents
    requires ChildKeyList(store, owner).Ok? && ChildKeyList(store, owner).value.Some?
    requires ChildrenOfKeys(owner.key, ChildKeyList(store, owner).value.value, ds).Ok?
    ensures |ChildrenOfKeys(owner.key, ChildKeyList(store, owner).value.value, ds).value|
            == |ChildKeyList(store, owner).value.value|
    ensures Contains(store, ts, ec, owner, owner.key, element, Some(childKey)) == Ok(true) ==>
      childKey in ds && ds[childKey] in ChildrenOfKeys(owner.key, ChildKeyList(store, owner).value.value, ds).value
  {
    var keys := ChildKeyList(store, owner).value.value;
    var children := ChildrenOfKeys(owner.key, keys, ds).value;
    if Contains(store, ts, ec, owner, owner.key, element, Some(childKey)) == Ok(true) {
      var i :| 0 <= i < |keys| && keys[i] == KeyV(childKey);
      assert children[i] == ds[childKey];
    }
  }
}

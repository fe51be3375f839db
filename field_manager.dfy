/**
 * DatastoreFieldManager: moves field values between a managed object and the
 * single datastore entity that stores it. The manager owns the entity, which
 * it replaces when a primary key name or an ancestor is assigned, and a stack
 * of frames (state manager, member metadata) that is pushed around embedded
 * objects, whose fields are stored in the same entity.
 */
module FieldManager {
  import opened Datastore
  import opened Framework
  import Serialization

  /**
   * One level of the frame stack: the state manager whose fields are read or
   * written, and the member metadata that interprets its field numbers.
   */
  datatype Frame = Frame(owner: StateManager, members: seq<MemberMeta>)

  /**
   * The mappings InsertMappingConsumer collected for the class being written:
   * the ancestor ("parent provider") field, the external foreign-key
   * mappings and the external order (list index) mappings, in iteration order.
   */
  datatype InsertMappingConsumer = InsertMappingConsumer(
    ancestorField: Option<MemberMeta>,
    externalFKs: seq<Mapping>,
    externalOrders: seq<Mapping>)

  /** `t` is `s` with zero or more frames pushed on top (index 0 is the top). */
  predicate IsSuffix(s: seq<Frame>, t: seq<Frame>)
  {
    |s| <= |t| && t[|t| - |s|..] == s
  }

  lemma SuffixOfPushed(x: Frame, s: seq<Frame>, t: seq<Frame>)
    requires IsSuffix([x] + s, t)
    ensures IsSuffix(s, t)
  {
    assert t[|t| - |s|..] == t[|t| - |s| - 1..][1..];
  }

  // ---------------------------------------------------------------------------
  // Key rules
  // ---------------------------------------------------------------------------

  /**
   * recreateEntityWithAncestor: a new entity of the same kind with the old
   * name (if any) under `ancestor`, carrying every old property. A numeric
   * id is not carried over.
   */
  function Recreated(e: Entity, ancestor: Key): (r: Entity)
    ensures r.Kind() == e.Kind() && r.key.name == e.key.name && r.key.id == 0
    ensures r.Parent() == Some(ancestor)
    ensures r.props == e.props
  {
    if e.key.name.Some? then Entity(Key(e.Kind(), e.key.name, 0, Some(ancestor)), e.props)
    else Entity(Key(e.Kind(), None, 0, Some(ancestor)), e.props)
  }

  /**
   * storeKeyPK as a transition of the entity. Once the key is complete only
   * an equal key is accepted (a null key included, it is rejected); before
   * that a non-null key replaces the entity by one of the same kind named
   * after the key, without parent or id, carrying every property.
   */
  function AfterStoreKeyPK(e: Entity, key: Option<Key>, className: string): (r: Result<Entity>)
    ensures e.key.IsComplete() ==>
      (r.Ok? <==> key == Some(e.key)) && (r.Ok? ==> r.value == e)
    ensures e.key.IsComplete() && key != Some(e.key) ==>
      r == Err(PrimaryKeyImmutable(className, e.key)) && r.error.Exception() == NucleusUserException
    ensures !e.key.IsComplete() ==> r.Ok? && r.value.Kind() == e.Kind() && r.value.props == e.props
    ensures !e.key.IsComplete() && key.Some? ==>
      r.value.key.name == key.value.name && r.value.Parent().None? && r.value.key.id == 0
    ensures !e.key.IsComplete() && key.None? ==> r == Ok(e)
  {
    if e.key.IsComplete() then
      if Some(e.key) != key then Err(PrimaryKeyImmutable(className, e.key)) else Ok(e)
    else if key.Some? then Ok(Entity(Key(e.Kind(), key.value.name, 0, None), e.props))
    else Ok(e)
  }

  /**
   * storeAncestorKeyPK as a transition of the entity. An existing parent can
   * only be "stored" again unchanged; a new ancestor requires a manager
   * created without an entity and recreates the entity under it; a null
   * ancestor on a parentless entity changes nothing.
   */
  function AfterStoreAncestorKeyPK(e: Entity, key: Option<Key>, createdWithoutEntity: bool,
                                   className: string): (r: Result<Entity>)
    ensures e.Parent().Some? ==> (r.Ok? <==> key == e.Parent()) && (r.Ok? ==> r.value == e)
    ensures e.Parent().Some? && key != e.Parent() ==>
      r == Err(AncestorImmutable(className, e.key)) && r.error.Exception() == NucleusUserException
    ensures e.Parent().None? && key.None? ==> r == Ok(e)
    ensures e.Parent().None? && key.Some? ==>
      (r.Ok? <==> createdWithoutEntity) && (r.Ok? ==> r.value == Recreated(e, key.value))
    ensures e.Parent().None? && key.Some? && !createdWithoutEntity ==>
      r == Err(AncestorNeedsFreshEntity) && r.error.Exception() == NucleusUserException
  {
    if e.Parent().Some? then
      if e.Parent() != key then Err(AncestorImmutable(className, e.key)) else Ok(e)
    else if key.Some? then
      if !createdWithoutEntity then Err(AncestorNeedsFreshEntity)
      else Ok(Recreated(e, key.value))
    else Ok(e)
  }

  /** The key storeStringField builds for a String primary key. */
  function StringPKKey(e: Entity, name: string): (k: Key)
    ensures k.kind == e.Kind() && k.name == Some(name) && k.parent == e.Parent() && k.IsComplete()
  {
    if e.Parent().Some? then Key(e.Kind(), Some(name), 0, e.Parent())
    else Key(e.Kind(), Some(name), 0, None)
  }

  /**
   * A primary key, once stored, is fixed: the entity key is complete and
   * any later key other than the entity's own is refused.
   */
  lemma PrimaryKeyFixedOnceNamed(e: Entity, k: Key, className: string, later: Option<Key>)
    requires k.name.Some?
    requires AfterStoreKeyPK(e, Some(k), className).Ok?
    ensures var e1 := AfterStoreKeyPK(e, Some(k), className).value;
      e1.key.IsComplete()
      && (AfterStoreKeyPK(e1, later, className).Ok? <==> later == Some(e1.key))
  {
    var e1 := AfterStoreKeyPK(e, Some(k), className).value;
    assert e1.key.name == k.name;
  }

  /**
   * Storing the same String primary key twice: the second store is a
   * no-op, whether or not the first one rebuilt the entity.
   */
  lemma StringPKStoreIdempotent(e: Entity, name: string, className: string)
    requires AfterStoreKeyPK(e, Some(StringPKKey(e, name)), className).Ok?
    ensures var e1 := AfterStoreKeyPK(e, Some(StringPKKey(e, name)), className).value;
      AfterStoreKeyPK(e1, Some(StringPKKey(e1, name)), className) == Ok(e1)
  {
    var e1 := AfterStoreKeyPK(e, Some(StringPKKey(e, name)), className).value;
    if !e.key.IsComplete() {
      assert e1.key == Key(e.Kind(), Some(name), 0, None);
      assert StringPKKey(e1, name) == e1.key;
    }
  }

  /**
   * Storing the ancestor a second time with the same key is a no-op, and
   * any other ancestor is then refused.
   */
  lemma AncestorFixedOnceStored(e: Entity, k: Key, cwe: bool, className: string, later: Option<Key>)
    requires AfterStoreAncestorKeyPK(e, Some(k), cwe, className).Ok?
    ensures var e1 := AfterStoreAncestorKeyPK(e, Some(k), cwe, className).value;
      e1.Parent() == Some(k) && e1.props == e.props && e1.Kind() == e.Kind()
      && (AfterStoreAncestorKeyPK(e1, later, cwe, className).Ok? <==> later == Some(k))
  {
  }

  // ---------------------------------------------------------------------------
  // Entity groups
  // ---------------------------------------------------------------------------

  /**
   * getIdForObject: the single-field identity of a persistent object, a Key
   * or its string encoding, as a Key.
   */
  function IdForObject(adapter: ApiAdapter, pc: Value): (r: Result<Key>)
    ensures r.Ok? ==> pc.Pojo? && pc.id in adapter.identity
    ensures r.Ok? ==>
      (adapter.identity[pc.id] == KeyV(r.value)
       || (adapter.identity[pc.id].StrV? && StringToKey(adapter.identity[pc.id].s) == Some(r.value)))
    ensures pc.Pojo? && pc.id in adapter.identity && adapter.identity[pc.id].KeyV? ==>
      r == Ok(adapter.identity[pc.id].k)
    ensures r.Err? && r.error.BadKeyString? ==> r.error.Exception() == IllegalArgumentException
  {
    if !pc.Pojo? || pc.id !in adapter.identity then Err(NoIdentity(ClassOf(pc)))
    else
      match adapter.identity[pc.id]
      case KeyV(k) => Ok(k)
      case StrV(s) =>
        (match StringToKey(s)
         case None => Err(BadKeyString(s))
         case Some(k) => Ok(k))
      case other => Err(BadCast(ClassOf(other), STRING_CLASS))
  }

  /** An identity held as the string encoding of a key yields that key. */
  lemma IdForObjectDecodesString(adapter: ApiAdapter, pc: Value, k: Key)
    requires pc.Pojo? && pc.id in adapter.identity
    requires adapter.identity[pc.id] == StrV(KeyToString(k))
    ensures IdForObject(adapter, pc) == Ok(k)
  {
    KeyStringRoundTrip(k);
  }

  /** Position of the first mapping with a non-null associated value. */
  function FirstAssociated(sm: StateManager, ms: seq<Mapping>): (r: Option<nat>)
    ensures r.Some? ==>
      (r.value < |ms| && sm.AssociatedValue(ms[r.value]) != Null
       && forall j :: 0 <= j < r.value ==> sm.AssociatedValue(ms[j]) == Null)
    ensures r.None? <==> forall j :: 0 <= j < |ms| ==> sm.AssociatedValue(ms[j]) == Null
  {
    if ms == [] then None
    else if sm.AssociatedValue(ms[0]) != Null then Some(0)
    else
      match FirstAssociated(sm, ms[1..])
      case None => None
      case Some(i) => Some(i + 1)
  }

  /** The parent named by the external foreign-key mappings, if any (mechanism 2). */
  function FKParent(adapter: ApiAdapter, sm: StateManager, fks: seq<Mapping>): Result<Option<Key>>
  {
    match FirstAssociated(sm, fks)
    case None => Ok(None)
    case Some(i) =>
      match IdForObject(adapter, sm.AssociatedValue(fks[i]))
      case Err(e) => Err(e)
      case Ok(k) => Ok(Some(k))
  }

  /** getParentKeyFromAncestorField: the parent held in the ancestor field, if any (mechanism 3). */
  function AncestorFieldParent(adapter: ApiAdapter, sm: StateManager, ancestorField: Option<MemberMeta>)
    : Result<Option<Key>>
  {
    match ancestorField
    case None => Ok(None)
    case Some(af) =>
      var parent := sm.ProvideField(af.absoluteFieldNumber);
      if parent == Null then Ok(None)
      else
        match IdForObject(adapter, parent)
        case Err(e) => Err(e)
        case Ok(k) => Ok(Some(k))
  }

  /**
   * The parent key establishEntityGroup settles on for a parentless entity:
   * the key registered for the object, else the first external foreign key
   * with a value, else the ancestor field. No parent is found exactly when
   * all three come up empty.
   */
  function EntityGroupParent(registry: map<nat, Key>, adapter: ApiAdapter, consumer: InsertMappingConsumer,
                             sm: StateManager): (r: Result<Option<Key>>)
    ensures sm.objectId in registry ==> r == Ok(Some(registry[sm.objectId]))
    ensures r == Ok(None) <==>
      sm.objectId !in registry
      && (forall j :: 0 <= j < |consumer.externalFKs| ==> sm.AssociatedValue(consumer.externalFKs[j]) == Null)
      && (consumer.ancestorField.None? || sm.ProvideField(consumer.ancestorField.value.absoluteFieldNumber) == Null)
    ensures sm.objectId !in registry && FirstAssociated(sm, consumer.externalFKs).Some? ==>
      var i := FirstAssociated(sm, consumer.externalFKs).value;
      (r.Ok? <==> IdForObject(adapter, sm.AssociatedValue(consumer.externalFKs[i])).Ok?)
      && (r.Ok? ==> r.value == Some(IdForObject(adapter, sm.AssociatedValue(consumer.externalFKs[i])).value))
  {
    if sm.objectId in registry then Ok(Some(registry[sm.objectId]))
    else
      match FKParent(adapter, sm, consumer.externalFKs)
      case Err(e) => Err(e)
      case Ok(Some(k)) => Ok(Some(k))
      case Ok(None) => AncestorFieldParent(adapter, sm, consumer.ancestorField)
  }

  /**
   * What establishEntityGroup returns once it found a parent: the parent as
   * a Key or as its string encoding, matching the ancestor field's type, or
   * null when no ancestor field has been seen.
   */
  function AncestorFieldValue(ancestorMember: Option<MemberMeta>, parent: Key): (v: Value)
    ensures ancestorMember.None? <==> v == Null
    ensures ancestorMember.Some? && ancestorMember.value.typ == KeyT ==> v == KeyV(parent)
    ensures ancestorMember.Some? && ancestorMember.value.typ != KeyT ==> v.StrV?
  {
    match ancestorMember
    case None => Null
    case Some(am) => if am.typ == KeyT then KeyV(parent) else StrV(KeyToString(parent))
  }

  /** The value handed back for the ancestor field always names the new parent. */
  lemma AncestorFieldValueNamesParent(ancestorMember: Option<MemberMeta>, parent: Key)
    requires ancestorMember.Some?
    ensures var v := AncestorFieldValue(ancestorMember, parent);
      v == KeyV(parent) || (v.StrV? && StringToKey(v.s) == Some(parent))
  {
    KeyStringRoundTrip(parent);
  }

  /**
   * After an entity group has been established the ancestor is fixed:
   * storing the same ancestor again is accepted, any other is refused.
   */
  lemma EstablishedGroupFixesAncestor(e: Entity, parent: Key, cwe: bool, className: string, later: Option<Key>)
    ensures var e1 := Recreated(e, parent);
      AfterStoreAncestorKeyPK(e1, later, cwe, className).Ok? <==> later == Some(parent)
  {
  }

  // ---------------------------------------------------------------------------
  // Order (list index) columns
  // ---------------------------------------------------------------------------

  /** The entity after writing the value of every order mapping that has one, in order. */
  function ApplyOrderValues(e: Entity, sm: StateManager, ms: seq<Mapping>): Entity
    decreases |ms|
  {
    if ms == [] then e
    else
      var before := ApplyOrderValues(e, sm, ms[..|ms| - 1]);
      var m := ms[|ms| - 1];
      if sm.AssociatedValue(m) != Null then before.SetProperty(m.propertyName, sm.AssociatedValue(m))
      else before
  }

  /** The last non-null order value written to property `p`, if any. */
  function LastOrderValue(sm: StateManager, ms: seq<Mapping>, p: string): Option<Value>
    decreases |ms|
  {
    if ms == [] then None
    else
      var m := ms[|ms| - 1];
      if m.propertyName == p && sm.AssociatedValue(m) != Null then Some(sm.AssociatedValue(m))
      else LastOrderValue(sm, ms[..|ms| - 1], p)
  }

  /**
   * Writing the order values keeps the key, and each property ends up with
   * the last value written to it, or its old value when none was.
   */
  lemma {:induction false} ApplyOrderValuesWrites(e: Entity, sm: StateManager, ms: seq<Mapping>, p: string)
    ensures ApplyOrderValues(e, sm, ms).key == e.key
    ensures e.props.Keys <= ApplyOrderValues(e, sm, ms).props.Keys
    ensures ApplyOrderValues(e, sm, ms).GetProperty(p) ==
      (match LastOrderValue(sm, ms, p) case Some(v) => v case None => e.GetProperty(p))
    decreases |ms|
  {
    if ms != [] {
      ApplyOrderValuesWrites(e, sm, ms[..|ms| - 1], p);
    }
  }

  /**
   * handleIndexFields' verdict: delay the write exactly when there are order
   * mappings and the last one has no value yet. The earlier mappings do not
   * matter.
   */
  function DelayWrite(sm: StateManager, ms: seq<Mapping>): (b: bool)
    ensures ms == [] ==> !b
  {
    |ms| > 0 && sm.AssociatedValue(ms[|ms| - 1]) == Null
  }

  /** Only the last order mapping decides whether the write is delayed. */
  lemma DelayWriteDecidedByLast(sm: StateManager, earlier: seq<Mapping>, last: Mapping)
    ensures DelayWrite(sm, earlier + [last]) == DelayWrite(sm, [last])
  {
  }

  /**
   * When the write is not delayed, the last order mapping's value is in the
   * entity under its property.
   */
  lemma NotDelayedMeansLastIndexWritten(e: Entity, sm: StateManager, ms: seq<Mapping>)
    requires ms != [] && !DelayWrite(sm, ms)
    ensures ApplyOrderValues(e, sm, ms).GetProperty(ms[|ms| - 1].propertyName) == sm.AssociatedValue(ms[|ms| - 1])
  {
    ApplyOrderValuesWrites(e, sm, ms, ms[|ms| - 1].propertyName);
  }

  // ---------------------------------------------------------------------------
  // Value conversions
  // ---------------------------------------------------------------------------

  const ENUM_CLASS := "java.lang.Enum"

  /** The names of enum elements; anything else is left as it is. */
  function EnumNames(elems: seq<Value>): (r: seq<Value>)
    ensures |r| == |elems|
    ensures forall i :: 0 <= i < |elems| && elems[i].EnumV? ==> r[i] == StrV(elems[i].constant)
    ensures forall i :: 0 <= i < |elems| && !elems[i].EnumV? ==> r[i] == elems[i]
  {
    if elems == [] then []
    else [if elems[0].EnumV? then StrV(elems[0].constant) else elems[0]] + EnumNames(elems[1..])
  }

  /** Characters become their 16-bit value as a long (CHARACTER_TO_LONG). */
  function CharsToLongs(elems: seq<Value>): (r: seq<Value>)
    ensures |r| == |elems|
    ensures forall i :: 0 <= i < |elems| && elems[i].CharV? ==> r[i] == LongV(elems[i].ch as int)
    ensures forall i :: 0 <= i < |elems| && !elems[i].CharV? ==> r[i] == elems[i]
  {
    if elems == [] then []
    else [if elems[0].CharV? then LongV(elems[0].ch as int) else elems[0]] + CharsToLongs(elems[1..])
  }

  /** The bytes of a byte[] value. */
  function ByteElems(elems: seq<Value>): (r: seq<bv8>)
    ensures |r| == |elems|
    ensures forall i :: 0 <= i < |elems| && elems[i].ByteV? ==> r[i] == elems[i].byte
  {
    if elems == [] then []
    else [if elems[0].ByteV? then elems[0].byte else 0] + ByteElems(elems[1..])
  }

  /**
   * convertArrayValue: byte[] becomes a Blob, an enum array a list of names,
   * any other array a list. For a member whose declared type is not an
   * array the component type is null and the enum test throws.
   */
  function ConvertArrayValue(m: MemberMeta, v: Value): (r: Result<Value>)
    requires v.ArrayV?
    ensures m.typ == ArrayT(Primitive(ByteK)) ==>
      r.Ok? && r.value.BlobV? && |r.value.bytes| == |v.elems|
      && forall i :: 0 <= i < |v.elems| && v.elems[i].ByteV? ==> r.value.bytes[i] == v.elems[i].byte
    ensures m.typ.ArrayT? && m.typ != ArrayT(Primitive(ByteK)) ==>
      r.Ok? && r.value.ListV? && |r.value.elems| == |v.elems|
    ensures m.typ.ArrayT? && m.typ != ArrayT(Primitive(ByteK)) && m.typ.component.EnumT? ==>
      forall i :: 0 <= i < |v.elems| ==>
        r.value.elems[i] == (if v.elems[i].EnumV? then StrV(v.elems[i].constant) else v.elems[i])
    ensures m.typ.ArrayT? && m.typ != ArrayT(Primitive(ByteK)) && !m.typ.component.EnumT? ==>
      r.value.elems == v.elems
    ensures !m.typ.ArrayT? ==> r == Err(NullObject) && r.error.Exception() == NullPointerException
  {
    if m.typ == ArrayT(Primitive(ByteK)) then Ok(BlobV(ByteElems(v.elems)))
    else if !m.typ.ArrayT? then Err(NullObject)
    else if m.typ.component.EnumT? then Ok(ListV(EnumNames(v.elems)))
    else Ok(ListV(v.elems))
  }

  /**
   * convertCollectionValue: a collection of Characters becomes a list of
   * longs, a collection of enums a list of names; others pass through. A
   * member without collection metadata has no element type to test, and the
   * enum test throws.
   */
  function ConvertCollectionValue(m: MemberMeta, v: Value): (r: Result<Value>)
    requires v.ListV?
    ensures !m.typ.CollectionT? ==> r == Err(NullObject) && r.error.Exception() == NullPointerException
    ensures m.typ.CollectionT? ==> r.Ok? && r.value.ListV? && |r.value.elems| == |v.elems|
    ensures m.typ.CollectionT? && m.typ.element == Boxed(CharK) ==>
      forall i :: 0 <= i < |v.elems| ==>
        r.value.elems[i] == (if v.elems[i].CharV? then LongV(v.elems[i].ch as int) else v.elems[i])
    ensures m.typ.CollectionT? && m.typ.element.EnumT? ==>
      forall i :: 0 <= i < |v.elems| ==>
        r.value.elems[i] == (if v.elems[i].EnumV? then StrV(v.elems[i].constant) else v.elems[i])
    ensures m.typ.CollectionT? && m.typ.element != Boxed(CharK) && !m.typ.element.EnumT? ==> r == Ok(v)
  {
    if m.typ.CollectionT? && m.typ.element == Boxed(CharK) then Ok(ListV(CharsToLongs(v.elems)))
    else if !m.typ.CollectionT? then Err(NullObject)
    else if m.typ.element.EnumT? then Ok(ListV(EnumNames(v.elems)))
    else Ok(v)
  }

  /**
   * The value storeObjectField writes for an ordinary (not pk, not ancestor)
   * member: serialized members become a Blob, enums their name, then arrays
   * and collections are converted and a Character becomes a long.
   */
  function ToDatastoreValue(env: Serialization.Environment, m: MemberMeta, v: Value): (r: Result<Value>)
    ensures v == Null ==> r == Ok(Null)
    ensures r.Ok? && v != Null ==> r.value != Null && !r.value.CharV? && !r.value.ArrayV?
    ensures v != Null && m.serialized && r.Ok? ==> r.value.BlobV?
    ensures v != Null && !m.serialized && m.typ.EnumT? ==> (r.Ok? <==> v.EnumV?)
    ensures v.EnumV? && !m.serialized && m.typ.EnumT? ==> r == Ok(StrV(v.constant))
    ensures v.CharV? && !m.serialized && !m.typ.EnumT? ==> r == Ok(LongV(v.ch as int))
  {
    if v == Null then Ok(Null)
    else
      var converted :=
        if m.serialized then
          (match Serialization.Serialize(env, m, v)
           case Err(e) => Err(e)
           case Ok(None) => Err(NullObject)
           case Ok(Some(b)) => Ok(BlobV(b)))
        else if m.typ.EnumT? then
          (if v.EnumV? then Ok(StrV(v.constant)) else Err(BadCast(ClassOf(v), ENUM_CLASS)))
        else Ok(v);
      match converted
      case Err(e) => Err(e)
      case Ok(c) =>
        if c.ArrayV? then ConvertArrayValue(m, c)
        else if c.ListV? then ConvertCollectionValue(m, c)
        else if c.CharV? then Ok(LongV(c.ch as int))
        else Ok(c)
  }

  /** A char or Character member. */
  predicate IsCharMember(m: MemberMeta)
  {
    m.typ == Primitive(CharK) || m.typ == Boxed(CharK)
  }

  /**
   * The part of datastoreValueToPojoValue this model keeps: a char or
   * Character member holds a long in the datastore, which the narrowing
   * cast to char reads back as its low 16 bits. Every other value is
   * unchanged.
   */
  function PojoFromDatastore(m: MemberMeta, v: Value): (r: Value)
    ensures !IsCharMember(m) || !v.LongV? ==> r == v
    ensures IsCharMember(m) && v.LongV? ==> r.CharV? && (r.ch as int - v.n) % 0x1_0000 == 0
    ensures IsCharMember(m) && v.LongV? && 0 <= v.n < 0x1_0000 ==> r == CharV(v.n as JChar)
  {
    if IsCharMember(m) && v.LongV? then CharV((v.n % 0x1_0000) as JChar) else v
  }

  /**
   * The value fetchObjectField hands back for an ordinary member: a
   * serialized member must hold a Blob, which is deserialized; an enum
   * member must hold the name of one of its constants; a char member's
   * long becomes a character again.
   */
  function ToPojoValue(env: Serialization.Environment, m: MemberMeta, v: Value): (r: Result<Value>)
    ensures v == Null ==> r == Ok(Null)
    ensures v != Null && m.serialized && !v.BlobV? ==>
      r == Err(NotABlob(ClassOf(v))) && r.error.Exception() == NucleusException
    ensures v != Null && !m.serialized && m.typ.EnumT? ==>
      (r.Ok? <==> v.StrV? && v.s in m.typ.constants)
      && (r.Ok? ==> r.value == EnumV(m.typ.name, v.s))
    ensures !m.serialized && !m.typ.EnumT? && !IsCharMember(m) ==> r == Ok(v)
    ensures !m.serialized && IsCharMember(m) ==> r == Ok(PojoFromDatastore(m, v))
  {
    if v == Null then Ok(Null)
    else if m.serialized then
      if v.BlobV? then Serialization.Deserialize(env, m, Some(v.bytes))
      else Err(NotABlob(ClassOf(v)))
    else if m.typ.EnumT? then
      if !v.StrV? then Err(BadCast(ClassOf(v), STRING_CLASS))
      else if v.s in m.typ.constants then Ok(EnumV(m.typ.name, v.s))
      else Err(NoEnumConstant(m.typ.name, v.s))
    else Ok(PojoFromDatastore(m, v))
  }

  /** An enum field reads back the constant that was stored. */
  lemma EnumRoundTrip(env: Serialization.Environment, m: MemberMeta, c: string)
    requires !m.serialized && m.typ.EnumT? && c in m.typ.constants
    ensures ToDatastoreValue(env, m, EnumV(m.typ.name, c)).Ok?
    ensures ToPojoValue(env, m, ToDatastoreValue(env, m, EnumV(m.typ.name, c)).value) == Ok(EnumV(m.typ.name, c))
  {
  }

  /**
   * A serialized field with the default strategy reads back the value that
   * was stored, when the object stream reads back what it wrote and the
   * declared type is a Serializable supertype of the value's class.
   */
  lemma SerializedRoundTrip(env: Serialization.Environment, m: MemberMeta, v: Value)
    requires m.serialized && !m.HasExtension(Serialization.SERIALIZATION_STRATEGY_KEY)
    requires v != Null
    requires env.writeObject(v).Some? && env.readObject(env.writeObject(v).value) == Some(v)
    requires env.types.IsAssignableFrom(SERIALIZABLE, TypeName(m.typ))
    requires env.types.IsAssignableFrom(TypeName(m.typ), ClassOf(v))
    ensures ToDatastoreValue(env, m, v).Ok?
    ensures ToPojoValue(env, m, ToDatastoreValue(env, m, v).value) == Ok(v)
  {
    Serialization.DefaultRoundTrip(env, m, v);
    var bytes := env.writeObject(v).value;
    assert Serialization.Serialize(env, m, v) == Ok(Some(bytes));
    assert ToDatastoreValue(env, m, v) == Ok(BlobV(bytes));
  }

  /** Any other scalar is stored as it is and reads back unchanged. */
  lemma PlainRoundTrip(env: Serialization.Environment, m: MemberMeta, v: Value)
    requires !m.serialized && !m.typ.EnumT? && !IsCharMember(m)
    requires !v.ArrayV? && !v.ListV? && !v.CharV?
    ensures ToDatastoreValue(env, m, v) == Ok(v)
    ensures ToPojoValue(env, m, v) == Ok(v)
  {
  }

  /**
   * A Character is stored as the long of its 16-bit value, like a char
   * field, and a char or Character member reads that long back as the same
   * char; this holds for all 65536 chars, surrogates included.
   */
  lemma CharacterStoredAsLong(env: Serialization.Environment, m: MemberMeta, c: JChar)
    requires !m.serialized && !m.typ.EnumT?
    ensures ToDatastoreValue(env, m, CharV(c)) == Ok(LongV(c as int))
    ensures ToDatastoreValue(env, m, LongV(c as int)) == Ok(LongV(c as int))
    ensures IsCharMember(m) ==> ToPojoValue(env, m, LongV(c as int)) == Ok(CharV(c))
  {
  }

  /** Java default values, as a freshly constructed embedded object holds them. */
  function DefaultValue(t: JType): (v: Value)
    ensures t.Primitive? <==> v != Null
  {
    match t
    case Primitive(LongK) => LongV(0)
    case Primitive(IntK) => IntV(0)
    case Primitive(ShortK) => ShortV(0)
    case Primitive(ByteK) => ByteV(0)
    case Primitive(CharK) => CharV(0)
    case Primitive(BoolK) => BoolV(false)
    case _ => Null
  }

  /**
   * The (Key) cast storeObjectField applies to the value of a pk or
   * ancestor field: null is no key, and anything but a Key is a
   * ClassCastException.
   */
  function KeyCast(v: Value): (r: Result<Option<Key>>)
    ensures r.Ok? <==> v == Null || v.KeyV?
    ensures r == Ok(None) <==> v == Null
    ensures v.KeyV? ==> r == Ok(Some(v.k))
    ensures r.Err? ==> r.error == BadCast(ClassOf(v), KEY_CLASS) && r.error.Exception() == ClassCastException
  {
    match v
    case Null => Ok(None)
    case KeyV(k) => Ok(Some(k))
    case _ => Err(BadCast(ClassOf(v), KEY_CLASS))
  }

  /**
   * The value of embedded member `i` to be stored: taken from the embedded
   * object, or a default when the field value was null (a fresh instance
   * made by the default constructor is stored instead).
   */
  function EmbeddedFieldValue(emb: EmbeddedMeta, value: Value, i: nat): Value
    requires i < |emb.members|
  {
    if value.Embedded? && i < |value.fields| then value.fields[i] else DefaultValue(emb.members[i].typ)
  }

  // ---------------------------------------------------------------------------
  // Plain members: what is written and what is read back
  // ---------------------------------------------------------------------------

  /**
   * Member `m` at field number `f` of class `cls` is stored as a property of
   * its own: it is not the pk, not an ancestor, not embedded and not a
   * relation.
   */
  predicate PlainMember(cls: ClassMeta, f: nat, m: MemberMeta)
  {
    cls.pkPosition != Some(f) && !m.HasExtension(ANCESTOR_PK_EXTENSION) && m.embedded.None? && !m.relation
  }

  /** The (String) cast fetchStringField applies to what it fetched. */
  function StringCast(p: Result<Value>): (r: Result<Value>)
    ensures r.Ok? <==> p.Ok? && (p.value == Null || p.value.StrV?)
    ensures r.Ok? || p.Err? ==> r == p
    ensures p.Ok? && p.value != Null && !p.value.StrV? ==>
      r == Err(BadCast(ClassOf(p.value), STRING_CLASS)) && r.error.Exception() == ClassCastException
  {
    if p.Ok? && p.value != Null && !p.value.StrV? then Err(BadCast(ClassOf(p.value), STRING_CLASS)) else p
  }

  /**
   * What the fetch methods hand back for a plain member of entity `e`: the
   * property as fetchObjectField converts it; a primitive must not read as
   * null (fetchShortField has no null check of its own, so unboxing fails
   * instead), and a String member must hold a String.
   */
  function FetchedValue(env: Serialization.Environment, m: MemberMeta, e: Entity): (r: Result<Value>)
    ensures r.Ok? ==> r == ToPojoValue(env, m, e.GetProperty(m.propertyName))
    ensures ToPojoValue(env, m, e.GetProperty(m.propertyName)).Err? ==> r == ToPojoValue(env, m, e.GetProperty(m.propertyName))
    ensures m.typ.Primitive? ==>
      (r.Ok? <==> ToPojoValue(env, m, e.GetProperty(m.propertyName)).Ok?
                  && ToPojoValue(env, m, e.GetProperty(m.propertyName)).value != Null)
    ensures m.typ.Primitive? && m.typ.kind != ShortK && ToPojoValue(env, m, e.GetProperty(m.propertyName)) == Ok(Null) ==>
      r == Err(NullAssignment(e.Kind(), e.key, m.propertyName, m.fullFieldName))
      && r.error.Exception() == NullPointerException
    ensures m.typ == Primitive(ShortK) && ToPojoValue(env, m, e.GetProperty(m.propertyName)) == Ok(Null) ==>
      r == Err(NullObject) && r.error.Exception() == NullPointerException
    ensures m.typ == StringT ==> r == StringCast(ToPojoValue(env, m, e.GetProperty(m.propertyName)))
    ensures !m.typ.Primitive? && m.typ != StringT ==> r == ToPojoValue(env, m, e.GetProperty(m.propertyName))
  {
    var p := ToPojoValue(env, m, e.GetProperty(m.propertyName));
    if m.typ.Primitive? then
      if p.Err? || p.value != Null then p
      else if m.typ.kind == ShortK then Err(NullObject)
      else Err(NullAssignment(e.Kind(), e.key, m.propertyName, m.fullFieldName))
    else if m.typ == StringT then StringCast(p)
    else p
  }

  /**
   * What the store methods write for a plain member given the field's
   * value: a char field is widened to a long (storeCharField), a String
   * field must be given a String, and the value is then converted as
   * storeObjectField converts it.
   */
  function StoredValue(env: Serialization.Environment, m: MemberMeta, v: Value): (r: Result<Value>)
    ensures v == Null ==> r == Ok(Null)
    ensures r.Ok? && v != Null ==> r.value != Null && !r.value.CharV? && !r.value.ArrayV?
    ensures m.typ == StringT && v != Null && !v.StrV? ==>
      r == Err(BadCast(ClassOf(v), STRING_CLASS)) && r.error.Exception() == ClassCastException
    ensures !(m.typ == StringT && v != Null && !v.StrV?) && !(m.typ == Primitive(CharK) && v.CharV?) ==>
      r == ToDatastoreValue(env, m, v)
    ensures m.typ == Primitive(CharK) && v.CharV? && !m.serialized ==> r == Ok(LongV(v.ch as int))
  {
    if m.typ == Primitive(CharK) && v.CharV? then ToDatastoreValue(env, m, LongV(v.ch as int))
    else if m.typ == StringT && v != Null && !v.StrV? then Err(BadCast(ClassOf(v), STRING_CLASS))
    else ToDatastoreValue(env, m, v)
  }

  /**
   * A value of a plain member that reads back as it was written: a
   * primitive is never null and a String field holds a String; a
   * serialized value round-trips through the default strategy; an enum is
   * one of the member's constants; a char member holds a character; any
   * other value is a scalar the datastore keeps as it is.
   */
  predicate ReadsBack(env: Serialization.Environment, m: MemberMeta, v: Value)
  {
    && (m.typ.Primitive? ==> v != Null)
    && (m.typ == StringT ==> v == Null || v.StrV?)
    && (if m.serialized then
          v == Null
          || (m.typ != Primitive(CharK) && !m.HasExtension(Serialization.SERIALIZATION_STRATEGY_KEY)
              && env.writeObject(v).Some? && env.readObject(env.writeObject(v).value) == Some(v)
              && env.types.IsAssignableFrom(SERIALIZABLE, TypeName(m.typ))
              && env.types.IsAssignableFrom(TypeName(m.typ), ClassOf(v)))
        else if m.typ.EnumT? then
          v == Null || (v.EnumV? && v.enumType == m.typ.name && v.constant in m.typ.constants)
        else if IsCharMember(m) then v == Null || v.CharV?
        else !v.ArrayV? && !v.ListV? && !v.CharV?)
  }

  /**
   * Store then fetch: a value that reads back is accepted by the store
   * methods, and an entity holding what they wrote fetches that value.
   */
  lemma StoreThenFetch(env: Serialization.Environment, m: MemberMeta, v: Value, e: Entity)
    requires ReadsBack(env, m, v)
    ensures StoredValue(env, m, v).Ok?
    ensures e.GetProperty(m.propertyName) == StoredValue(env, m, v).value ==> FetchedValue(env, m, e) == Ok(v)
  {
    if v == Null {
    } else if m.serialized {
      SerializedRoundTrip(env, m, v);
    } else if m.typ.EnumT? {
      EnumRoundTrip(env, m, v.constant);
    } else if IsCharMember(m) {
      CharacterStoredAsLong(env, m, v.ch);
    } else {
      PlainRoundTrip(env, m, v);
    }
  }

  /**
   * An embedded class every member of which is plain, each under its own
   * property name.
   */
  predicate FlatEmbedded(emb: EmbeddedMeta)
  {
    && (forall i :: 0 <= i < |emb.members| ==> PlainMember(emb.classMeta, i, emb.members[i]))
    && (forall i, j :: 0 <= i < j < |emb.members| ==> emb.members[i].propertyName != emb.members[j].propertyName)
  }

  /** The property names of an embedded class's first `n` members. */
  function EmbeddedNames(emb: EmbeddedMeta, n: nat): set<string>
    requires n <= |emb.members|
  {
    set i | 0 <= i < n :: emb.members[i].propertyName
  }

  /**
   * The embedded object fetching gives back after `value` was stored: one
   * field per member, each the value that was stored for it.
   */
  function EmbeddedReadBack(emb: EmbeddedMeta, value: Value): (r: Value)
    ensures r.Embedded? && r.cls == emb.classMeta.fullClassName && |r.fields| == |emb.members|
    ensures forall i :: 0 <= i < |emb.members| ==> r.fields[i] == EmbeddedFieldValue(emb, value, i)
    ensures value == Null ==> forall i :: 0 <= i < |emb.members| ==> r.fields[i] == DefaultValue(emb.members[i].typ)
    ensures value.Embedded? && value.cls == emb.classMeta.fullClassName && |value.fields| == |emb.members| ==> r == value
  {
    var fields := seq(|emb.members|, i requires 0 <= i < |emb.members| => EmbeddedFieldValue(emb, value, i));
    assert value.Embedded? && |value.fields| == |emb.members| ==> fields == value.fields;
    Embedded(emb.classMeta.fullClassName, fields)
  }

  /**
   * Embedded round trip: when every member's value reads back, an entity
   * holding what storing the embedded object wrote (each member's property
   * set to its StoredValue) fetches, member by member, the object that was
   * stored; a null embedded object reads back as one holding the Java
   * default values.
   */
  lemma {:induction false} EmbeddedRoundTrip(env: Serialization.Environment, emb: EmbeddedMeta, value: Value,
                                             e: Entity, fetched: Value)
    requires forall i :: 0 <= i < |emb.members| ==> ReadsBack(env, emb.members[i], EmbeddedFieldValue(emb, value, i))
    requires forall i :: 0 <= i < |emb.members| ==>
      StoredValue(env, emb.members[i], EmbeddedFieldValue(emb, value, i)).Ok?
      && e.GetProperty(emb.members[i].propertyName) == StoredValue(env, emb.members[i], EmbeddedFieldValue(emb, value, i)).value
    requires fetched.Embedded? && fetched.cls == emb.classMeta.fullClassName && |fetched.fields| == |emb.members|
    requires forall i :: 0 <= i < |emb.members| ==>
      FetchedValue(env, emb.members[i], e).Ok? && fetched.fields[i] == FetchedValue(env, emb.members[i], e).value
    ensures forall i :: 0 <= i < |emb.members| ==> FetchedValue(env, emb.members[i], e) == Ok(EmbeddedFieldValue(emb, value, i))
    ensures fetched == EmbeddedReadBack(emb, value)
    ensures value.Embedded? && value.cls == emb.classMeta.fullClassName && |value.fields| == |emb.members| ==> fetched == value
  {
    forall i | 0 <= i < |emb.members|
      ensures FetchedValue(env, emb.members[i], e) == Ok(EmbeddedFieldValue(emb, value, i))
    {
      StoreThenFetch(env, emb.members[i], EmbeddedFieldValue(emb, value, i), e);
    }
    assert fetched.fields == EmbeddedReadBack(emb, value).fields;
  }

  /**
   * `cur` is `start` after the first `|written|` members of a flat embedded
   * object were stored with the values `written`: the key is kept, each of
   * those members' properties holds its value, and every other property is
   * untouched.
   */
  ghost predicate StoredPrefix(emb: EmbeddedMeta, written: seq<Value>, start: Entity, cur: Entity)
    requires |written| <= |emb.members|
  {
    && cur.key == start.key
    && (forall j :: 0 <= j < |written| ==> cur.GetProperty(emb.members[j].propertyName) == written[j])
    && (forall nm :: nm !in EmbeddedNames(emb, |written|) ==> cur.GetProperty(nm) == start.GetProperty(nm))
  }

  /** `written` holds, in order, what is stored for the first `|written|` members of `value`. */
  ghost predicate StoredAs(env: Serialization.Environment, emb: EmbeddedMeta, value: Value, written: seq<Value>)
    requires |written| <= |emb.members|
  {
    forall j :: 0 <= j < |written| ==> StoredValue(env, emb.members[j], EmbeddedFieldValue(emb, value, j)) == Ok(written[j])
  }

  /** Storing the next member of a flat embedded object extends the stored prefix by one. */
  lemma StoredPrefixStep(emb: EmbeddedMeta, written: seq<Value>, v: Value, start: Entity, cur: Entity)
    requires FlatEmbedded(emb) && |written| < |emb.members|
    requires StoredPrefix(emb, written, start, cur)
    ensures StoredPrefix(emb, written + [v], start, cur.SetProperty(emb.members[|written|].propertyName, v))
  {
    var n := |written|;
    var next := cur.SetProperty(emb.members[n].propertyName, v);
    assert EmbeddedNames(emb, n + 1) == EmbeddedNames(emb, n) + {emb.members[n].propertyName};
    forall j | 0 <= j < n
      ensures next.GetProperty(emb.members[j].propertyName) == cur.GetProperty(emb.members[j].propertyName)
    {
      assert emb.members[j].propertyName != emb.members[n].propertyName;
    }
  }

  /** Java default values read back: the fields of a fresh embedded instance round-trip. */
  lemma DefaultsReadBack(env: Serialization.Environment, m: MemberMeta)
    requires !m.serialized
    ensures ReadsBack(env, m, DefaultValue(m.typ))
  {
  }

  /**
   * copyProperties: every property of `src` is set on `dest`, overwriting
   * a property of the same name; `dest`'s key is untouched.
   */
  method CopyProperties(src: Entity, dest: Entity) returns (r: Entity)
    ensures r.key == dest.key
    ensures r.props == dest.props + src.props
  {
    r := dest;
    var pending := src.props.Keys;
    while pending != {}
      invariant pending <= src.props.Keys
      invariant r.key == dest.key
      invariant r.props == dest.props + (map k | k in src.props.Keys - pending :: src.props[k])
      decreases |pending|
    {
      var k :| k in pending;
      var copied := map j | j in src.props.Keys - pending :: src.props[j];
      assert (dest.props + copied)[k := src.props[k]]
          == dest.props + (map j | j in src.props.Keys - (pending - {k}) :: src.props[j]);
      r := r.SetProperty(k, src.props[k]);
      pending := pending - {k};
    }
    assert (map k | k in src.props.Keys - pending :: src.props[k]) == src.props;
  }

  // ---------------------------------------------------------------------------
  // The field manager
  // ---------------------------------------------------------------------------

  class DatastoreFieldManager {
    /** fieldManagerStateStack; index 0 is the top (addFirst / removeFirst). */
    var stack: seq<Frame>
    /** datastoreEntity: replaced when a key name or an ancestor is assigned. */
    var entity: Entity
    /** ancestorMemberMetaData: set whenever an ancestor-pk member is looked at. */
    var ancestorMember: Option<MemberMeta>
    /** The relation fields handed to the relation field manager, in order. */
    var relationStores: seq<(MemberMeta, Value)>

    /** true when the manager made the entity itself (the insert case). */
    const createdWithoutEntity: bool
    const consumer: InsertMappingConsumer
    /** What the serialization manager calls out to. */
    const env: Serialization.Environment
    /** The relation field manager's answer for a relation member of an entity. */
    const fetchRelation: (Entity, MemberMeta) -> Value

    predicate Valid()
      reads this
    {
      stack != []
    }

    /** The state manager of the top frame (getStateManager). */
    function Owner(): StateManager
      reads this
      requires Valid()
    {
      stack[0].owner
    }

    function ClassName(): string
      reads this
      requires Valid()
    {
      stack[0].owner.classMeta.fullClassName
    }

    /**
     * isPK: the field is the primary-key position of the top frame's class.
     * Like the source, the model assumes a single-field primary key, so a
     * class has one such position at most.
     */
    predicate IsPK(f: nat): (b: bool)
      reads this
      requires Valid()
      ensures b <==> Owner().classMeta.pkPosition == Some(f)
    {
      stack[0].owner.classMeta.pkPosition == Some(f)
    }

    /** Field `f` of the top frame, described by `m`, is stored as a property of its own. */
    predicate IsPlain(f: nat, m: MemberMeta)
      reads this
      requires Valid()
    {
      PlainMember(stack[0].owner.classMeta, f, m)
    }

    /** Field number `f` of the top frame is described by `m` (getMetaData). */
    predicate Describes(f: nat, m: MemberMeta)
      reads this
    {
      stack != [] && f < |stack[0].members| && stack[0].members[f] == m
    }

    constructor (sm: StateManager, members: seq<MemberMeta>, createdWithoutEntity: bool, entity: Entity,
                 consumer: InsertMappingConsumer, env: Serialization.Environment,
                 fetchRelation: (Entity, MemberMeta) -> Value)
      ensures Valid() && stack == [Frame(sm, members)] && this.entity == entity
      ensures ancestorMember == None && relationStores == []
      ensures this.createdWithoutEntity == createdWithoutEntity && this.consumer == consumer
    {
      stack := [Frame(sm, members)];
      this.entity := entity;
      ancestorMember := None;
      relationStores := [];
      this.createdWithoutEntity := createdWithoutEntity;
      this.consumer := consumer;
      this.env := env;
      this.fetchRelation := fetchRelation;
    }

    /**
     * The constructor's sanity check as a factory: the kind of the class
     * must be the kind of the entity.
     */
    static method Create(sm: StateManager, members: seq<MemberMeta>, createdWithoutEntity: bool, entity: Entity,
                         consumer: InsertMappingConsumer, env: Serialization.Environment,
                         fetchRelation: (Entity, MemberMeta) -> Value)
      returns (r: Result<DatastoreFieldManager>)
      ensures r.Ok? <==> sm.classMeta.kind == entity.Kind()
      ensures r.Err? ==> r.error == KindMismatch(sm.classMeta.kind, entity.Kind())
      ensures r.Ok? ==>
        (fresh(r.value) && r.value.Valid() && r.value.stack == [Frame(sm, members)]
         && r.value.entity == entity && r.value.ancestorMember == None
         && r.value.createdWithoutEntity == createdWithoutEntity)
    {
      if sm.classMeta.kind != entity.Kind() {
        return Err(KindMismatch(sm.classMeta.kind, entity.Kind()));
      }
      var fm := new DatastoreFieldManager(sm, members, createdWithoutEntity, entity, consumer, env, fetchRelation);
      r := Ok(fm);
    }

    /** The insert constructor: the manager makes a fresh entity of the given kind. */
    static method CreateForInsert(sm: StateManager, members: seq<MemberMeta>, kind: string,
                                  consumer: InsertMappingConsumer, env: Serialization.Environment,
                                  fetchRelation: (Entity, MemberMeta) -> Value)
      returns (r: Result<DatastoreFieldManager>)
      ensures r.Ok? <==> sm.classMeta.kind == kind
      ensures r.Ok? ==>
        (fresh(r.value) && r.value.Valid() && r.value.entity == NewEntity(kind)
         && !r.value.entity.key.IsComplete() && r.value.createdWithoutEntity)
    {
      r := Create(sm, members, true, NewEntity(kind), consumer, env, fetchRelation);
    }

    /** isAncestorPK, with its side effect of remembering the member. */
    method IsAncestorPK(m: MemberMeta) returns (b: bool)
      modifies this
      ensures b == m.HasExtension(ANCESTOR_PK_EXTENSION)
      ensures ancestorMember == (if b then Some(m) else old(ancestorMember))
      ensures stack == old(stack) && entity == old(entity) && relationStores == old(relationStores)
    {
      b := m.HasExtension(ANCESTOR_PK_EXTENSION);
      if b {
        ancestorMember := Some(m);
      }
    }

    /**
     * checkAssignmentToNotNullField: a non-null value passes; null raises a
     * NullPointerException naming the entity's kind and key, the property
     * and the field.
     */
    function CheckAssignmentToNotNullField(v: Value, m: MemberMeta): (r: Result<Value>)
      reads this
      ensures v != Null <==> r == Ok(v)
      ensures v == Null ==>
        (r == Err(NullAssignment(entity.Kind(), entity.key, m.propertyName, m.fullFieldName))
         && r.error.Exception() == NullPointerException)
    {
      if v != Null then Ok(v)
      else Err(NullAssignment(entity.Kind(), entity.key, m.propertyName, m.fullFieldName))
    }

    /** recreateEntityWithAncestor */
    method RecreateEntityWithAncestor(ancestor: Key)
      modifies this
      ensures entity == Recreated(old(entity), ancestor)
      ensures stack == old(stack) && ancestorMember == old(ancestorMember) && relationStores == old(relationStores)
    {
      var old_ := entity;
      var fresh_;
      if old_.key.name.Some? {
        fresh_ := Entity(Key(old_.Kind(), old_.key.name, 0, Some(ancestor)), map[]);
      } else {
        fresh_ := Entity(Key(old_.Kind(), None, 0, Some(ancestor)), map[]);
      }
      entity := CopyProperties(old_, fresh_);
      assert map[] + old_.props == old_.props;
    }

    /** storeKeyPK */
    method StoreKeyPK(key: Option<Key>) returns (r: Outcome)
      requires Valid()
      modifies this
      ensures var t := AfterStoreKeyPK(old(entity), key, old(ClassName()));
        (t.Ok? ==> r == Pass && entity == t.value) && (t.Err? ==> r == Fail(t.error) && entity == old(entity))
      ensures stack == old(stack) && ancestorMember == old(ancestorMember) && relationStores == old(relationStores)
    {
      if entity.key.IsComplete() {
        if Some(entity.key) != key {
          return Fail(PrimaryKeyImmutable(ClassName(), entity.key));
        }
      } else if key.Some? {
        var old_ := entity;
        entity := CopyProperties(old_, Entity(Key(old_.Kind(), key.value.name, 0, None), map[]));
        assert map[] + old_.props == old_.props;
      }
      r := Pass;
    }

    /** storeAncestorKeyPK */
    method StoreAncestorKeyPK(key: Option<Key>) returns (r: Outcome)
      requires Valid()
      modifies this
      ensures var t := AfterStoreAncestorKeyPK(old(entity), key, createdWithoutEntity, old(ClassName()));
        (t.Ok? ==> r == Pass && entity == t.value) && (t.Err? ==> r == Fail(t.error) && entity == old(entity))
      ensures stack == old(stack) && ancestorMember == old(ancestorMember) && relationStores == old(relationStores)
    {
      if entity.Parent().Some? {
        if entity.Parent() != key {
          return Fail(AncestorImmutable(ClassName(), entity.key));
        }
      } else if key.Some? {
        if !createdWithoutEntity {
          return Fail(AncestorNeedsFreshEntity);
        }
        RecreateEntityWithAncestor(key.value);
      }
      r := Pass;
    }

    /**
     * getParentKeyFromExternalFKMappings: the identity of the first external
     * foreign key whose associated value is not null.
     */
    method GetParentKeyFromExternalFKMappings(sm: StateManager, adapter: ApiAdapter) returns (r: Result<Option<Key>>)
      ensures r == FKParent(adapter, sm, consumer.externalFKs)
    {
      var fks := consumer.externalFKs;
      var i := 0;
      while i < |fks|
        invariant 0 <= i <= |fks|
        invariant forall j :: 0 <= j < i ==> sm.AssociatedValue(fks[j]) == Null
      {
        var fkValue := sm.AssociatedValue(fks[i]);
        if fkValue != Null {
          assert FirstAssociated(sm, fks) == Some(i);
          var id := IdForObject(adapter, fkValue);
          match id
          case Err(e) => return Err(e);
          case Ok(k) => return Ok(Some(k));
        }
        i := i + 1;
      }
      r := Ok(None);
    }

    /** getParentKeyFromAncestorField */
    method GetParentKeyFromAncestorField(sm: StateManager, adapter: ApiAdapter) returns (r: Result<Option<Key>>)
      ensures r == AncestorFieldParent(adapter, sm, consumer.ancestorField)
    {
      if consumer.ancestorField.None? {
        return Ok(None);
      }
      var parent := sm.ProvideField(consumer.ancestorField.value.absoluteFieldNumber);
      if parent == Null {
        return Ok(None);
      }
      var id := IdForObject(adapter, parent);
      match id
      case Err(e) => r := Err(e);
      case Ok(k) => r := Ok(Some(k));
    }

    /**
     * establishEntityGroup: for an entity without a parent, find one through
     * the key registry, the external foreign keys or the ancestor field, and
     * recreate the entity under it.
     */
    method EstablishEntityGroup(registry: map<nat, Key>, adapter: ApiAdapter) returns (r: Result<Value>)
      requires Valid()
      modifies this
      ensures old(entity.Parent().Some?) ==> r == Ok(Null) && entity == old(entity)
      ensures old(entity.Parent().None?) ==>
        var p := EntityGroupParent(registry, adapter, consumer, old(Owner()));
        (p.Err? ==> r == Err(p.error) && entity == old(entity))
        && (p == Ok(None) ==> r == Ok(Null) && entity == old(entity))
        && (p.Ok? && p.value.Some? ==>
              entity == Recreated(old(entity), p.value.value)
              && r == Ok(AncestorFieldValue(ancestorMember, p.value.value)))
      ensures stack == old(stack) && ancestorMember == old(ancestorMember) && relationStores == old(relationStores)
    {
      if entity.Parent().Some? {
        return Ok(Null);
      }
      var sm := Owner();
      var parentKey: Result<Option<Key>> := Ok(None);
      if sm.objectId in registry {
        parentKey := Ok(Some(registry[sm.objectId]));
      }
      if parentKey == Ok(None) {
        parentKey := GetParentKeyFromExternalFKMappings(sm, adapter);
      }
      if parentKey == Ok(None) {
        parentKey := GetParentKeyFromAncestorField(sm, adapter);
      }
      assert parentKey == EntityGroupParent(registry, adapter, consumer, sm);
      match parentKey
      case Err(e) => return Err(e);
      case Ok(None) => return Ok(Null);
      case Ok(Some(k)) =>
        RecreateEntityWithAncestor(k);
        r := Ok(AncestorFieldValue(ancestorMember, k));
    }

    /**
     * handleIndexFields: writes the value of every order mapping that has
     * one and reports whether the write must be delayed.
     */
    method HandleIndexFields() returns (delayWrite: bool)
      requires Valid()
      modifies this
      ensures delayWrite == DelayWrite(old(Owner()), consumer.externalOrders)
      ensures entity == ApplyOrderValues(old(entity), old(Owner()), consumer.externalOrders)
      ensures stack == old(stack) && ancestorMember == old(ancestorMember) && relationStores == old(relationStores)
    {
      var orders := consumer.externalOrders;
      var sm := Owner();
      delayWrite := false;
      var i := 0;
      while i < |orders|
        invariant 0 <= i <= |orders|
        invariant stack == old(stack) && ancestorMember == old(ancestorMember)
        invariant relationStores == old(relationStores)
        invariant entity == ApplyOrderValues(old(entity), sm, orders[..i])
        invariant delayWrite == (i > 0 && sm.AssociatedValue(orders[i - 1]) == Null)
      {
        delayWrite := true;
        var orderValue := sm.AssociatedValue(orders[i]);
        if orderValue != Null {
          delayWrite := false;
          entity := entity.SetProperty(orders[i].propertyName, orderValue);
        }
        assert orders[..i + 1][..i] == orders[..i];
        i := i + 1;
      }
      assert orders[..i] == orders;
    }

    // -------------------------------------------------------------------------
    // Fetching
    // -------------------------------------------------------------------------

    /**
     * Dispatch by declared type, as the state manager's replaceFields does:
     * primitives go through fetchObjectField and the null check, Strings
     * through fetchStringField, everything else through fetchObjectField.
     */
    method FetchField(f: nat, m: MemberMeta) returns (r: Result<Value>)
      requires Describes(f, m)
      modifies this
      decreases m, 3
      ensures Valid() && entity == old(entity) && relationStores == old(relationStores)
      ensures r.Ok? ==> stack == old(stack)
      ensures IsSuffix(old(stack), stack)
      ensures m.typ.Primitive? && r.Ok? ==> r.value != Null
      ensures old(IsPlain(f, m)) ==> r == FetchedValue(env, m, entity)
    {
      if m.typ.Primitive? {
        var v := FetchObjectField(f, m);
        if v.Err? {
          return v;
        }
        if m.typ.kind == ShortK && v.value == Null {
          // fetchShortField unboxes without checkAssignmentToNotNullField
          return Err(NullObject);
        }
        r := CheckAssignmentToNotNullField(v.value, m);
      } else if m.typ == StringT {
        r := FetchStringField(f, m);
      } else {
        r := FetchObjectField(f, m);
      }
    }

    /** fetchStringField */
    method FetchStringField(f: nat, m: MemberMeta) returns (r: Result<Value>)
      requires Describes(f, m)
      modifies this
      decreases m, 2
      ensures Valid() && entity == old(entity) && relationStores == old(relationStores)
      ensures r.Ok? ==> stack == old(stack)
      ensures IsSuffix(old(stack), stack)
      ensures old(IsPK(f)) ==> r == Ok(StrV(KeyToString(entity.key)))
      ensures !old(IsPK(f)) && m.HasExtension(ANCESTOR_PK_EXTENSION) ==>
        ancestorMember == Some(m)
        && r == Ok(if entity.Parent().None? then Null else StrV(KeyToString(entity.Parent().value)))
      ensures r.Ok? ==> r.value == Null || r.value.StrV?
      ensures old(IsPlain(f, m)) ==> r == StringCast(ToPojoValue(env, m, entity.GetProperty(m.propertyName)))
    {
      if IsPK(f) {
        return Ok(StrV(KeyToString(entity.key)));
      }
      var isAncestor := IsAncestorPK(m);
      if isAncestor {
        if entity.Parent().None? {
          return Ok(Null);
        }
        return Ok(StrV(KeyToString(entity.Parent().value)));
      }
      var v := FetchObjectField(f, m);
      r := StringCast(v);
    }

    /**
     * fetchObjectField: embedded members are read through a pushed frame,
     * relation members by the relation manager, a pk or ancestor field must
     * be a Key, and any other member is read from its property.
     */
    method FetchObjectField(f: nat, m: MemberMeta) returns (r: Result<Value>)
      requires Describes(f, m)
      modifies this
      decreases m, 1
      ensures Valid() && entity == old(entity) && relationStores == old(relationStores)
      ensures r.Ok? ==> stack == old(stack)
      ensures IsSuffix(old(stack), stack)
      ensures m.embedded.Some? && r.Ok? ==>
        r.value.Embedded? && r.value.cls == m.embedded.value.classMeta.fullClassName
        && |r.value.fields| == |m.embedded.value.members|
      ensures m.embedded.None? && m.relation ==> r == Ok(fetchRelation(entity, m))
      ensures m.embedded.None? && !m.relation && old(IsPK(f)) ==>
        r == (if m.typ == KeyT then Ok(KeyV(entity.key))
              else Err(UnexpectedKeyType("Primary key", old(ClassName()), TypeName(m.typ))))
      ensures m.embedded.None? && !m.relation && !old(IsPK(f)) && m.HasExtension(ANCESTOR_PK_EXTENSION) ==>
        ancestorMember == Some(m)
        && r == (if m.typ != KeyT then Err(UnexpectedKeyType("Ancestor key", old(ClassName()), TypeName(m.typ)))
                 else if entity.Parent().None? then Ok(Null) else Ok(KeyV(entity.Parent().value)))
      ensures m.embedded.None? && !m.relation && !old(IsPK(f)) && !m.HasExtension(ANCESTOR_PK_EXTENSION) ==>
        r == ToPojoValue(env, m, entity.GetProperty(m.propertyName))
    {
      if m.embedded.Some? {
        r := FetchEmbeddedField(m);
        return;
      } else if m.relation {
        return Ok(fetchRelation(entity, m));
      }
      var value := entity.GetProperty(m.propertyName);
      if IsPK(f) {
        if m.typ == KeyT {
          return Ok(KeyV(entity.key));
        }
        return Err(UnexpectedKeyType("Primary key", ClassName(), TypeName(m.typ)));
      }
      var isAncestor := IsAncestorPK(m);
      if isAncestor {
        if m.typ == KeyT {
          return Ok(if entity.Parent().None? then Null else KeyV(entity.Parent().value));
        }
        return Err(UnexpectedKeyType("Ancestor key", ClassName(), TypeName(m.typ)));
      }
      r := ToPojoValue(env, m, value);
    }

    /**
     * fetchEmbeddedField: push a frame for the embedded object, read each of
     * its members, pop the frame.
     */
    method FetchEmbeddedField(m: MemberMeta) returns (r: Result<Value>)
      requires Valid() && m.embedded.Some?
      modifies this
      decreases m, 0
      ensures Valid() && entity == old(entity) && relationStores == old(relationStores)
      ensures r.Ok? ==> stack == old(stack)
      ensures IsSuffix(old(stack), stack)
      ensures r.Ok? ==>
        r.value.Embedded? && r.value.cls == m.embedded.value.classMeta.fullClassName
        && |r.value.fields| == |m.embedded.value.members|
      ensures var emb := m.embedded.value;
        r.Ok? ==> forall i :: 0 <= i < |emb.members| && PlainMember(emb.classMeta, i, emb.members[i]) ==>
          FetchedValue(env, emb.members[i], entity).Ok? && r.value.fields[i] == FetchedValue(env, emb.members[i], entity).value
      ensures var emb := m.embedded.value;
        (forall i :: 0 <= i < |emb.members| ==> PlainMember(emb.classMeta, i, emb.members[i])) ==>
          (r.Ok? <==> forall i :: 0 <= i < |emb.members| ==> FetchedValue(env, emb.members[i], entity).Ok?)
    {
      var emb := m.embedded.value;
      var frame := Frame(StateManager(Owner().objectId, emb.classMeta, map[], map[]), emb.members);
      stack := [frame] + stack;
      var values: seq<Value> := [];
      var i := 0;
      while i < |emb.members|
        invariant 0 <= i <= |emb.members|
        invariant stack == [frame] + old(stack)
        invariant entity == old(entity) && relationStores == old(relationStores)
        invariant |values| == i
        invariant forall j :: 0 <= j < i && PlainMember(emb.classMeta, j, emb.members[j]) ==>
          FetchedValue(env, emb.members[j], entity) == Ok(values[j])
      {
        assert emb.members[i] in emb.members;
        var v := FetchField(i, emb.members[i]);
        if v.Err? {
          SuffixOfPushed(frame, old(stack), stack);
          return v;
        }
        values := values + [v.value];
        i := i + 1;
      }
      stack := stack[1..];
      r := Ok(Embedded(emb.classMeta.fullClassName, values));
    }

    // -------------------------------------------------------------------------
    // Storing
    // -------------------------------------------------------------------------

    /**
     * Dispatch by declared type, as the state manager's provideFields does:
     * a char goes through storeCharField, a String through storeStringField,
     * everything else through storeObjectField.
     */
    method StoreField(f: nat, m: MemberMeta, v: Value) returns (r: Outcome)
      requires Describes(f, m)
      modifies this
      decreases m, 4
      ensures Valid() && entity.Kind() == old(entity.Kind())
      ensures old(entity.props.Keys) <= entity.props.Keys
      ensures old(relationStores) <= relationStores
      ensures r.Pass? ==> stack == old(stack)
      ensures IsSuffix(old(stack), stack)
      ensures old(IsPlain(f, m)) ==>
        var t := StoredValue(env, m, v);
        (t.Ok? ==> r == Pass && entity == old(entity).SetProperty(m.propertyName, t.value))
        && (t.Err? ==> r == Fail(t.error) && entity == old(entity))
    {
      if m.typ == Primitive(CharK) && v.CharV? {
        r := StoreCharField(f, m, v.ch);
      } else if m.typ == StringT {
        match v
        case Null => r := StoreStringField(f, m, None);
        case StrV(s) => r := StoreStringField(f, m, Some(s));
        case _ => r := Fail(BadCast(ClassOf(v), STRING_CLASS));
      } else {
        r := StoreObjectField(f, m, v);
      }
    }

    /** storeCharField: stored as the long of its 16-bit value. */
    method StoreCharField(f: nat, m: MemberMeta, c: JChar) returns (r: Outcome)
      requires Describes(f, m)
      modifies this
      decreases m, 3
      ensures Valid() && entity.Kind() == old(entity.Kind())
      ensures old(entity.props.Keys) <= entity.props.Keys
      ensures old(relationStores) <= relationStores
      ensures r.Pass? ==> stack == old(stack)
      ensures IsSuffix(old(stack), stack)
      ensures old(IsPlain(f, m)) ==>
        var t := ToDatastoreValue(env, m, LongV(c as int));
        (t.Ok? ==> r == Pass && entity == old(entity).SetProperty(m.propertyName, t.value))
        && (t.Err? ==> r == Fail(t.error) && entity == old(entity))
      ensures old(IsPlain(f, m)) && !m.serialized && !m.typ.EnumT? ==>
        r == Pass && entity == old(entity).SetProperty(m.propertyName, LongV(c as int))
    {
      r := StoreObjectField(f, m, LongV(c as int));
    }

    /**
     * storeStringField: a String pk names the key (under the entity's
     * parent, if any); a String ancestor must decode as a key string.
     */
    method StoreStringField(f: nat, m: MemberMeta, value: Option<string>) returns (r: Outcome)
      requires Describes(f, m)
      modifies this
      decreases m, 3
      ensures Valid() && entity.Kind() == old(entity.Kind())
      ensures old(entity.props.Keys) <= entity.props.Keys
      ensures old(relationStores) <= relationStores
      ensures r.Pass? ==> stack == old(stack)
      ensures IsSuffix(old(stack), stack)
      ensures old(IsPK(f)) ==>
        var key := if value.None? then None else Some(StringPKKey(old(entity), value.value));
        var t := AfterStoreKeyPK(old(entity), key, old(ClassName()));
        (t.Ok? ==> r == Pass && entity == t.value) && (t.Err? ==> r == Fail(t.error) && entity == old(entity))
      ensures !old(IsPK(f)) && m.HasExtension(ANCESTOR_PK_EXTENSION) && value.Some? && StringToKey(value.value).None? ==>
        r == Fail(AncestorNotAKey(value.value)) && r.error.Exception() == NucleusUserException && entity == old(entity)
      ensures (!old(IsPK(f)) && m.HasExtension(ANCESTOR_PK_EXTENSION)
               && (value.None? || StringToKey(value.value).Some?)) ==>
        var key := if value.None? then None else StringToKey(value.value);
        var t := AfterStoreAncestorKeyPK(old(entity), key, createdWithoutEntity, old(ClassName()));
        (t.Ok? ==> r == Pass && entity == t.value) && (t.Err? ==> r == Fail(t.error) && entity == old(entity))
      ensures old(IsPlain(f, m)) ==>
        var t := StoredValue(env, m, if value.None? then Null else StrV(value.value));
        (t.Ok? ==> r == Pass && entity == old(entity).SetProperty(m.propertyName, t.value))
        && (t.Err? ==> r == Fail(t.error) && entity == old(entity))
    {
      if IsPK(f) {
        var key: Option<Key> := None;
        if value.Some? {
          if entity.Parent().Some? {
            key := Some(Key(entity.Kind(), value, 0, entity.Parent()));
          } else {
            key := Some(Key(entity.Kind(), value, 0, None));
          }
        }
        r := StoreKeyPK(key);
        return;
      }
      var isAncestor := IsAncestorPK(m);
      if isAncestor {
        var key: Option<Key> := None;
        if value.Some? {
          var decoded := StringToKey(value.value);
          if decoded.None? {
            return Fail(AncestorNotAKey(value.value));
          }
          key := decoded;
        }
        r := StoreAncestorKeyPK(key);
        return;
      }
      var v := if value.None? then Null else StrV(value.value);
      assert StoredValue(env, m, v) == ToDatastoreValue(env, m, v);
      r := StoreObjectField(f, m, v);
    }

    /**
     * storeObjectField: a pk or ancestor field must be a Key field; any
     * other value is converted and then stored through a pushed frame
     * (embedded), handed to the relation manager (relation), or set as the
     * member's property.
     */
    method StoreObjectField(f: nat, m: MemberMeta, v: Value) returns (r: Outcome)
      requires Describes(f, m)
      modifies this
      decreases m, 2
      ensures Valid() && entity.Kind() == old(entity.Kind())
      ensures old(entity.props.Keys) <= entity.props.Keys
      ensures old(relationStores) <= relationStores
      ensures r.Pass? ==> stack == old(stack)
      ensures IsSuffix(old(stack), stack)
      ensures old(IsPK(f)) && m.typ != KeyT ==>
        r == Fail(UnexpectedKeyType("Primary key", old(ClassName()), TypeName(m.typ))) && entity == old(entity)
      ensures old(IsPK(f)) && m.typ == KeyT && KeyCast(v).Err? ==> r == Fail(KeyCast(v).error) && entity == old(entity)
      ensures old(IsPK(f)) && m.typ == KeyT && KeyCast(v).Ok? ==>
        var t := AfterStoreKeyPK(old(entity), KeyCast(v).value, old(ClassName()));
        (t.Ok? ==> r == Pass && entity == t.value) && (t.Err? ==> r == Fail(t.error) && entity == old(entity))
      ensures !old(IsPK(f)) && m.HasExtension(ANCESTOR_PK_EXTENSION) ==> ancestorMember == Some(m)
      ensures !old(IsPK(f)) && m.HasExtension(ANCESTOR_PK_EXTENSION) && m.typ != KeyT ==>
        r == Fail(UnexpectedKeyType("Ancestor primary key", old(ClassName()), TypeName(m.typ))) && entity == old(entity)
      ensures !old(IsPK(f)) && m.HasExtension(ANCESTOR_PK_EXTENSION) && m.typ == KeyT && KeyCast(v).Err? ==>
        r == Fail(KeyCast(v).error) && entity == old(entity)
      ensures !old(IsPK(f)) && m.HasExtension(ANCESTOR_PK_EXTENSION) && m.typ == KeyT && KeyCast(v).Ok? ==>
        var t := AfterStoreAncestorKeyPK(old(entity), KeyCast(v).value, createdWithoutEntity, old(ClassName()));
        (t.Ok? ==> r == Pass && entity == t.value) && (t.Err? ==> r == Fail(t.error) && entity == old(entity))
      ensures !old(IsPK(f)) && !m.HasExtension(ANCESTOR_PK_EXTENSION) && ToDatastoreValue(env, m, v).Err? ==>
        r == Fail(ToDatastoreValue(env, m, v).error) && entity == old(entity) && stack == old(stack)
      ensures (!old(IsPK(f)) && !m.HasExtension(ANCESTOR_PK_EXTENSION) && ToDatastoreValue(env, m, v).Ok?
               && m.embedded.None? && m.relation) ==>
        r == Pass && entity == old(entity)
        && relationStores == old(relationStores) + [(m, ToDatastoreValue(env, m, v).value)]
      ensures (!old(IsPK(f)) && !m.HasExtension(ANCESTOR_PK_EXTENSION) && ToDatastoreValue(env, m, v).Ok?
               && m.embedded.None? && !m.relation) ==>
        r == Pass && relationStores == old(relationStores)
        && entity == old(entity).SetProperty(m.propertyName, ToDatastoreValue(env, m, v).value)
    {
      if IsPK(f) {
        if m.typ != KeyT {
          return Fail(UnexpectedKeyType("Primary key", ClassName(), TypeName(m.typ)));
        }
        var key := KeyCast(v);
        if key.Err? {
          return Fail(key.error);
        }
        r := StoreKeyPK(key.value);
        return;
      }
      var isAncestor := IsAncestorPK(m);
      if isAncestor {
        if m.typ != KeyT {
          return Fail(UnexpectedKeyType("Ancestor primary key", ClassName(), TypeName(m.typ)));
        }
        var key := KeyCast(v);
        if key.Err? {
          return Fail(key.error);
        }
        r := StoreAncestorKeyPK(key.value);
        return;
      }
      r := StoreConvertedField(m, v);
    }

    /**
     * The tail of storeObjectField for a member that is neither pk nor
     * ancestor: convert the value, then store it through a pushed frame
     * (embedded), hand it to the relation manager (relation), or set it as
     * the member's property.
     */
    method StoreConvertedField(m: MemberMeta, v: Value) returns (r: Outcome)
      requires Valid()
      modifies this
      decreases m, 1
      ensures Valid() && entity.Kind() == old(entity.Kind())
      ensures old(entity.props.Keys) <= entity.props.Keys
      ensures old(relationStores) <= relationStores
      ensures r.Pass? ==> stack == old(stack)
      ensures IsSuffix(old(stack), stack)
      ensures ToDatastoreValue(env, m, v).Err? ==>
        r == Fail(ToDatastoreValue(env, m, v).error) && entity == old(entity) && stack == old(stack)
      ensures ToDatastoreValue(env, m, v).Ok? && m.embedded.None? && m.relation ==>
        r == Pass && entity == old(entity)
        && relationStores == old(relationStores) + [(m, ToDatastoreValue(env, m, v).value)]
      ensures ToDatastoreValue(env, m, v).Ok? && m.embedded.None? && !m.relation ==>
        r == Pass && relationStores == old(relationStores)
        && entity == old(entity).SetProperty(m.propertyName, ToDatastoreValue(env, m, v).value)
    {
      var converted := ToDatastoreValue(env, m, v);
      if converted.Err? {
        return Fail(converted.error);
      }
      var value := converted.value;
      if m.embedded.Some? {
        r := StoreEmbeddedField(m, value);
      } else if m.relation {
        relationStores := relationStores + [(m, value)];
        r := Pass;
      } else {
        entity := entity.SetProperty(m.propertyName, value);
        r := Pass;
      }
    }

    /**
     * One step of storeEmbeddedField: store member `i` of the embedded
     * object through the frame on top of the stack.
     */
    method StoreEmbeddedMember(emb: EmbeddedMeta, value: Value, i: nat, ghost written: seq<Value>, ghost start: Entity)
      returns (r: Outcome, ghost v: Value)
      requires Valid() && i < |emb.members| && |written| == i
      requires stack[0].members == emb.members && stack[0].owner.classMeta == emb.classMeta
      requires FlatEmbedded(emb) ==> StoredAs(env, emb, value, written) && StoredPrefix(emb, written, start, entity)
      modifies this
      decreases emb, 0
      ensures Valid() && entity.Kind() == old(entity.Kind())
      ensures old(entity.props.Keys) <= entity.props.Keys
      ensures old(relationStores) <= relationStores
      ensures r.Pass? ==> stack == old(stack)
      ensures IsSuffix(old(stack), stack)
      ensures FlatEmbedded(emb) ==>
        (r.Pass? <==> StoredValue(env, emb.members[i], EmbeddedFieldValue(emb, value, i)).Ok?)
      ensures FlatEmbedded(emb) && r.Pass? ==>
        StoredValue(env, emb.members[i], EmbeddedFieldValue(emb, value, i)) == Ok(v)
        && StoredAs(env, emb, value, written + [v]) && StoredPrefix(emb, written + [v], start, entity)
    {
      assert emb.members[i] in emb.members;
      ghost var before := entity;
      ghost var flat := FlatEmbedded(emb);
      if flat {
        assert IsPlain(i, emb.members[i]);
      }
      r := StoreField(i, emb.members[i], EmbeddedFieldValue(emb, value, i));
      v := Null;
      if r.Pass? && flat {
        v := StoredValue(env, emb.members[i], EmbeddedFieldValue(emb, value, i)).value;
        StoredPrefixStep(emb, written, v, start, before);
      }
    }

    /**
     * storeEmbeddedField: push a frame for the embedded object (a fresh
     * default instance when the value is null), store each of its members,
     * pop the frame.
     */
    method StoreEmbeddedField(m: MemberMeta, value: Value) returns (r: Outcome)
      requires Valid() && m.embedded.Some?
      modifies this
      decreases m, 0
      ensures Valid() && entity.Kind() == old(entity.Kind())
      ensures old(entity.props.Keys) <= entity.props.Keys
      ensures old(relationStores) <= relationStores
      ensures r.Pass? ==> stack == old(stack)
      ensures IsSuffix(old(stack), stack)
      ensures var emb := m.embedded.value;
        FlatEmbedded(emb) ==>
          (r.Pass? <==> forall i :: 0 <= i < |emb.members| ==> StoredValue(env, emb.members[i], EmbeddedFieldValue(emb, value, i)).Ok?)
      ensures var emb := m.embedded.value;
        FlatEmbedded(emb) && r.Pass? ==>
          entity.key == old(entity.key)
          && (forall i :: 0 <= i < |emb.members| ==>
                entity.GetProperty(emb.members[i].propertyName)
                == StoredValue(env, emb.members[i], EmbeddedFieldValue(emb, value, i)).value)
          && (forall n :: n !in EmbeddedNames(emb, |emb.members|) ==> entity.GetProperty(n) == old(entity.GetProperty(n)))
    {
      var emb := m.embedded.value;
      var fields := map i: nat | i < |emb.members| :: EmbeddedFieldValue(emb, value, i);
      var frame := Frame(StateManager(Owner().objectId, emb.classMeta, fields, map[]), emb.members);
      stack := [frame] + stack;
      ghost var written: seq<Value> := [];
      var i := 0;
      while i < |emb.members|
        invariant 0 <= i <= |emb.members|
        invariant stack == [frame] + old(stack)
        invariant entity.Kind() == old(entity.Kind())
        invariant old(entity.props.Keys) <= entity.props.Keys
        invariant old(relationStores) <= relationStores
        invariant |written| == i
        invariant FlatEmbedded(emb) ==> StoredAs(env, emb, value, written) && StoredPrefix(emb, written, old(entity), entity)
      {
        ghost var v;
        r, v := StoreEmbeddedMember(emb, value, i, written, old(entity));
        if r.Fail? {
          SuffixOfPushed(frame, old(stack), stack);
          return;
        }
        written := written + [v];
        i := i + 1;
      }
      stack := stack[1..];
      r := Pass;
    }
  }
}

/**
 * Serialization of member values into blobs: selecting the strategy
 * configured on a member, and the guard checks of the default strategy
 * (standard Java object streams). The byte format of an object stream is
 * opaque here: the environment supplies it as a pair of functions.
 */
module Serialization {
  import opened Datastore
  import opened Framework

  /** The extension key that names a custom serialization strategy. */
  const SERIALIZATION_STRATEGY_KEY := "serialization-strategy"

  datatype Strategy = DefaultStrategy | CustomStrategy(className: string)

  /** What the class loader reports about a class named as a strategy. */
  datatype StrategyClass = StrategyClass(implementsStrategy: bool, instantiable: bool)

  /**
   * Everything the serialization code calls out to: the classes the
   * ClassLoaderResolver can load, the class hierarchy, the object-stream
   * writer and reader (None where they throw an IOException or
   * ClassNotFoundException), and the serialize/deserialize methods of the
   * custom strategy classes, by class name.
   */
  datatype Environment = Environment(
    classes: map<string, StrategyClass>,
    types: TypeSystem,
    writeObject: Value -> Option<seq<bv8>>,
    readObject: seq<bv8> -> Option<Value>,
    customSerialize: (string, Value) -> Result<Option<seq<bv8>>>,
    customDeserialize: (string, Option<seq<bv8>>, JType) -> Result<Value>)

  /** `i` is the position of the first extension keyed `serialization-strategy`. */
  predicate IsFirstStrategyExtension(exts: seq<Extension>, i: nat)
  {
    i < |exts| && exts[i].key == SERIALIZATION_STRATEGY_KEY
    && forall j :: 0 <= j < i ==> exts[j].key != SERIALIZATION_STRATEGY_KEY
  }

  /** The first-match search over the member's extension list. */
  function FirstStrategyExtension(exts: seq<Extension>): (r: Option<nat>)
    ensures r.Some? ==> IsFirstStrategyExtension(exts, r.value)
    ensures r.None? <==> forall j :: 0 <= j < |exts| ==> exts[j].key != SERIALIZATION_STRATEGY_KEY
  {
    if exts == [] then None
    else if exts[0].key == SERIALIZATION_STRATEGY_KEY then Some(0)
    else
      match FirstStrategyExtension(exts[1..])
      case None => None
      case Some(i) => Some(i + 1)
  }

  /**
   * getSerializationStrategy: the class named by the first
   * `serialization-strategy` extension, which must load, implement
   * SerializationStrategy and be instantiable; the default strategy when the
   * member has no such extension.
   */
  function GetSerializationStrategy(env: Environment, member: MemberMeta): (r: Result<Strategy>)
    ensures r == Ok(DefaultStrategy) <==> !member.HasExtension(SERIALIZATION_STRATEGY_KEY)
    ensures r.Ok? && r.value.CustomStrategy? ==>
      exists i: nat :: IsFirstStrategyExtension(member.extensions.value, i)
        && member.extensions.value[i].value == r.value.className
        && r.value.className in env.classes
        && env.classes[r.value.className] == StrategyClass(true, true)
    ensures forall i: nat :: member.extensions.Some? && IsFirstStrategyExtension(member.extensions.value, i) ==>
      var name := member.extensions.value[i].value;
      (r == Err(ClassNotResolved(name)) <==> name !in env.classes)
      && (r == Err(StrategyNotImplemented(name, member.fullFieldName)) <==>
            name in env.classes && !env.classes[name].implementsStrategy)
  {
    if member.extensions.None? then Ok(DefaultStrategy)
    else
      var exts := member.extensions.value;
      match FirstStrategyExtension(exts)
      case None => Ok(DefaultStrategy)
      case Some(i) =>
        var name := exts[i].value;
        if name !in env.classes then Err(ClassNotResolved(name))
        else if !env.classes[name].implementsStrategy then
          Err(StrategyNotImplemented(name, member.fullFieldName))
        else if !env.classes[name].instantiable then Err(StrategyNotInstantiable(name))
        else Ok(CustomStrategy(name))
  }

  /** The default strategy's serialize: null is rejected, anything else is written to a stream. */
  function DefaultSerialize(env: Environment, v: Value): (r: Result<Option<seq<bv8>>>)
    ensures v == Null ==> r == Err(NullObject) && r.error.Exception() == NullPointerException
    ensures r.Ok? <==> v != Null && env.writeObject(v).Some?
    ensures r.Ok? ==> r.value == env.writeObject(v)
  {
    if v == Null then Err(NullObject)
    else
      match env.writeObject(v)
      case None => Err(SerializeIO(ClassOf(v)))
      case Some(bytes) => Ok(Some(bytes))
  }

  /**
   * The default strategy's deserialize. Checks, in this order: the blob is
   * not null; the target class implements Serializable; the stream can be
   * read; the object read is not null (its class is asked for); the object
   * is an instance of the target class.
   */
  function DefaultDeserialize(env: Environment, blob: Option<seq<bv8>>, target: JType): (r: Result<Value>)
    ensures blob.None? ==> r == Err(NullBlob) && r.error.Exception() == NullPointerException
    ensures blob.Some? && !env.types.IsAssignableFrom(SERIALIZABLE, TypeName(target)) ==>
      r == Err(NotSerializable(TypeName(target)))
    ensures r.Ok? <==>
      blob.Some? && env.types.IsAssignableFrom(SERIALIZABLE, TypeName(target))
      && env.readObject(blob.value).Some? && env.readObject(blob.value).value != Null
      && env.types.IsAssignableFrom(TypeName(target), ClassOf(env.readObject(blob.value).value))
    ensures r.Ok? ==> Some(r.value) == env.readObject(blob.value)
  {
    match blob
    case None => Err(NullBlob)
    case Some(bytes) =>
      if !env.types.IsAssignableFrom(SERIALIZABLE, TypeName(target)) then
        Err(NotSerializable(TypeName(target)))
      else
        match env.readObject(bytes)
        case None => Err(DeserializeIO)
        case Some(obj) =>
          if obj == Null then Err(NullObject)
          else if !env.types.IsAssignableFrom(TypeName(target), ClassOf(obj)) then
            Err(DeserializedTypeMismatch(ClassOf(obj), TypeName(target)))
          else Ok(obj)
  }

  /** SerializationManager.serialize: run the member's strategy on the value. */
  function Serialize(env: Environment, member: MemberMeta, v: Value): (r: Result<Option<seq<bv8>>>)
    ensures !member.HasExtension(SERIALIZATION_STRATEGY_KEY) ==> r == DefaultSerialize(env, v)
    ensures GetSerializationStrategy(env, member).Err? ==> r == Err(GetSerializationStrategy(env, member).error)
    ensures GetSerializationStrategy(env, member).Ok? && GetSerializationStrategy(env, member).value.CustomStrategy? ==>
      r == env.customSerialize(GetSerializationStrategy(env, member).value.className, v)
  {
    match GetSerializationStrategy(env, member)
    case Err(e) => Err(e)
    case Ok(DefaultStrategy) => DefaultSerialize(env, v)
    case Ok(CustomStrategy(c)) => env.customSerialize(c, v)
  }

  /** SerializationManager.deserialize: run the member's strategy, targeting its declared type. */
  function Deserialize(env: Environment, member: MemberMeta, blob: Option<seq<bv8>>): (r: Result<Value>)
    ensures !member.HasExtension(SERIALIZATION_STRATEGY_KEY) ==> r == DefaultDeserialize(env, blob, member.typ)
    ensures GetSerializationStrategy(env, member).Err? ==> r == Err(GetSerializationStrategy(env, member).error)
    ensures GetSerializationStrategy(env, member).Ok? && GetSerializationStrategy(env, member).value.CustomStrategy? ==>
      r == env.customDeserialize(GetSerializationStrategy(env, member).value.className, blob, member.typ)
  {
    match GetSerializationStrategy(env, member)
    case Err(e) => Err(e)
    case Ok(DefaultStrategy) => DefaultDeserialize(env, blob, member.typ)
    case Ok(CustomStrategy(c)) => env.customDeserialize(c, blob, member.typ)
  }

  /**
   * Without a strategy extension, serialize uses the default strategy: a null
   * value raises NullPointerException.
   */
  lemma SerializeNullByDefault(env: Environment, member: MemberMeta)
    requires !member.HasExtension(SERIALIZATION_STRATEGY_KEY)
    ensures Serialize(env, member, Null) == Err(NullObject)
    ensures Serialize(env, member, Null).error.Exception() == NullPointerException
  {
  }

  /**
   * Both directions fail in the same way when the configured strategy
   * cannot be used: the error comes from strategy selection.
   */
  lemma StrategyErrorsAreShared(env: Environment, member: MemberMeta, v: Value, blob: Option<seq<bv8>>)
    requires GetSerializationStrategy(env, member).Err?
    ensures Serialize(env, member, v).Err? && Deserialize(env, member, blob).Err?
    ensures Serialize(env, member, v).error == Deserialize(env, member, blob).error
    ensures member.HasExtension(SERIALIZATION_STRATEGY_KEY)
  {
  }

  /**
   * Round trip through the default strategy: when the object stream reads
   * back what it wrote and the member's declared type is a Serializable
   * supertype of the value's class, deserialize(serialize(v)) == v.
   */
  lemma DefaultRoundTrip(env: Environment, member: MemberMeta, v: Value)
    requires !member.HasExtension(SERIALIZATION_STRATEGY_KEY)
    requires v != Null
    requires env.writeObject(v).Some? && env.readObject(env.writeObject(v).value) == Some(v)
    requires env.types.IsAssignableFrom(SERIALIZABLE, TypeName(member.typ))
    requires env.types.IsAssignableFrom(TypeName(member.typ), ClassOf(v))
    ensures Serialize(env, member, v).Ok?
    ensures Deserialize(env, member, Serialize(env, member, v).value) == Ok(v)
  {
    assert GetSerializationStrategy(env, member) == Ok(DefaultStrategy);
  }

  /**
   * Whatever the default strategy hands back is an instance of the member's
   * declared type: deserialize targets ammd.getType().
   */
  lemma DeserializedValueFitsMember(env: Environment, member: MemberMeta, blob: Option<seq<bv8>>)
    requires !member.HasExtension(SERIALIZATION_STRATEGY_KEY)
    requires Deserialize(env, member, blob).Ok?
    ensures Deserialize(env, member, blob).value != Null
    ensures env.types.IsAssignableFrom(TypeName(member.typ), ClassOf(Deserialize(env, member, blob).value))
  {
    assert GetSerializationStrategy(env, member) == Ok(DefaultStrategy);
  }

  /**
   * A configured strategy class is used for both directions: when its own
   * methods round-trip, so does the member's value.
   */
  lemma CustomRoundTrip(env: Environment, member: MemberMeta, name: string, v: Value)
    requires GetSerializationStrategy(env, member) == Ok(CustomStrategy(name))
    requires env.customSerialize(name, v).Ok?
    requires env.customDeserialize(name, env.customSerialize(name, v).value, member.typ) == Ok(v)
    ensures Deserialize(env, member, Serialize(env, member, v).value) == Ok(v)
  {
  }
}

/**
 * What the hosting persistence framework (DataNucleus) hands to the mapping
 * layer, as read-only values: declared Java types, member and class metadata,
 * state managers, mappings, the identity view of the API adapter, and the
 * Java exceptions the mapping layer raises.
 */
module Framework {
  import opened Datastore

  // ---------------------------------------------------------------------------
  // Java types
  // ---------------------------------------------------------------------------

  datatype PrimKind = LongK | IntK | ShortK | ByteK | CharK | BoolK

  /** Declared types of persistent members. */
  datatype JType =
    | Primitive(kind: PrimKind)
    | Boxed(kind: PrimKind)
    | StringT
    | KeyT
    | EnumT(name: string, constants: seq<string>)
    | ArrayT(component: JType)
    | CollectionT(name: string, element: JType)
    | ClassT(name: string)

  function PrimitiveName(k: PrimKind): string
  {
    match k
    case LongK => "long" case IntK => "int" case ShortK => "short"
    case ByteK => "byte" case CharK => "char" case BoolK => "boolean"
  }

  function WrapperName(k: PrimKind): string
  {
    match k
    case LongK => "java.lang.Long" case IntK => "java.lang.Integer"
    case ShortK => "java.lang.Short" case ByteK => "java.lang.Byte"
    case CharK => "java.lang.Character" case BoolK => "java.lang.Boolean"
  }

  const KEY_CLASS := "com.google.appengine.api.datastore.Key"
  const STRING_CLASS := "java.lang.String"
  const BLOB_CLASS := "com.google.appengine.api.datastore.Blob"
  const LIST_CLASS := "java.util.ArrayList"
  const SERIALIZABLE := "java.io.Serializable"

  /** Class.getName() of a declared type. */
  function TypeName(t: JType): string
  {
    match t
    case Primitive(k) => PrimitiveName(k)
    case Boxed(k) => WrapperName(k)
    case StringT => STRING_CLASS
    case KeyT => KEY_CLASS
    case EnumT(n, _) => n
    case ArrayT(c) => TypeName(c) + "[]"
    case CollectionT(n, _) => n
    case ClassT(n) => n
  }

  /** The primitive kind whose wrapper class `cls` is (ClassUtils.getPrimitiveTypeForType). */
  function PrimitiveOfWrapper(cls: string): Option<PrimKind>
  {
    if cls == WrapperName(LongK) then Some(LongK)
    else if cls == WrapperName(IntK) then Some(IntK)
    else if cls == WrapperName(ShortK) then Some(ShortK)
    else if cls == WrapperName(ByteK) then Some(ByteK)
    else if cls == WrapperName(CharK) then Some(CharK)
    else if cls == WrapperName(BoolK) then Some(BoolK)
    else None
  }

  /** The primitive kind named `name`, if `name` is a primitive type name. */
  function PrimitiveNamed(name: string): Option<PrimKind>
  {
    if name == PrimitiveName(LongK) then Some(LongK)
    else if name == PrimitiveName(IntK) then Some(IntK)
    else if name == PrimitiveName(ShortK) then Some(ShortK)
    else if name == PrimitiveName(ByteK) then Some(ByteK)
    else if name == PrimitiveName(CharK) then Some(CharK)
    else if name == PrimitiveName(BoolK) then Some(BoolK)
    else None
  }

  /** value.getClass().getName() of a non-null value. */
  function ClassOf(v: Value): string
  {
    match v
    case Null => "null"
    case LongV(_) => WrapperName(LongK)
    case IntV(_) => WrapperName(IntK)
    case ShortV(_) => WrapperName(ShortK)
    case ByteV(_) => WrapperName(ByteK)
    case CharV(_) => WrapperName(CharK)
    case BoolV(_) => WrapperName(BoolK)
    case StrV(_) => STRING_CLASS
    case KeyV(_) => KEY_CLASS
    case EnumV(t, _) => t
    case ArrayV(c, _) => c + "[]"
    case ListV(_) => LIST_CLASS
    case BlobV(_) => BLOB_CLASS
    case Pojo(_, c) => c
    case Embedded(c, _) => c
  }

  /**
   * The class hierarchy as the ClassLoaderResolver sees it: `(sub, super)`
   * pairs of strict supertypes.
   */
  datatype TypeSystem = TypeSystem(supertypes: set<(string, string)>)
  {
    /** ClassLoaderResolver.isAssignableFrom(target, cls). */
    predicate IsAssignableFrom(target: string, cls: string)
    {
      target == cls || (cls, target) in supertypes
    }
  }

  // ---------------------------------------------------------------------------
  // Metadata
  // ---------------------------------------------------------------------------

  datatype Extension = Extension(key: string, value: string)

  const ANCESTOR_PK_EXTENSION := "ancestor-pk"

  /**
   * AbstractMemberMetaData: the member's names, declared type, extensions,
   * and whether it is serialized, a relation, or embedded. For an embedded
   * member, `embedded` holds the embedded class and the metadata of its
   * members as seen through this member.
   */
  datatype MemberMeta = MemberMeta(
    fullFieldName: string,
    propertyName: string,
    typ: JType,
    extensions: Option<seq<Extension>>,
    serialized: bool,
    relation: bool,
    embedded: Option<EmbeddedMeta>,
    absoluteFieldNumber: nat)
  {
    /** AbstractMemberMetaData.hasExtension */
    predicate HasExtension(key: string)
    {
      extensions.Some? && exists i :: 0 <= i < |extensions.value| && extensions.value[i].key == key
    }
  }

  datatype EmbeddedMeta = EmbeddedMeta(classMeta: ClassMeta, members: seq<MemberMeta>)

  /**
   * AbstractClassMetaData: full class name, the entity kind derived for it,
   * and the position of its single-field primary key, if it has one.
   */
  datatype ClassMeta = ClassMeta(fullClassName: string, kind: string, pkPosition: Option<nat>)

  /** A JavaTypeMapping that writes one entity property. */
  datatype Mapping = Mapping(id: nat, propertyName: string)

  /**
   * A StateManager as seen by the field manager: the managed object, its
   * class metadata, its field values by absolute field number, and the
   * values it keeps keyed by mapping (getAssociatedValue).
   */
  datatype StateManager = StateManager(
    objectId: nat,
    classMeta: ClassMeta,
    fieldValues: map<nat, Value>,
    associated: map<Mapping, Value>)
  {
    /** StateManager.provideField: a field it does not hold reads as null. */
    function ProvideField(n: nat): Value
    {
      if n in fieldValues then fieldValues[n] else Null
    }

    /** StateManager.getAssociatedValue: nothing associated reads as null. */
    function AssociatedValue(m: Mapping): Value
    {
      if m in associated then associated[m] else Null
    }
  }

  /**
   * The identity view of the ApiAdapter: which objects are persistent, which
   * execution context manages each, which are detached, and the single-field
   * identity target (a Key or its string encoding) of each persistent object.
   */
  datatype ApiAdapter = ApiAdapter(
    persistent: set<nat>,
    contextOf: map<nat, nat>,
    detached: set<nat>,
    identity: map<nat, Value>)

  datatype ExecutionContext = ExecutionContext(id: nat, adapter: ApiAdapter)

  // ---------------------------------------------------------------------------
  // Errors
  // ---------------------------------------------------------------------------

  datatype JavaException =
    | NucleusException
    | NucleusUserException
    | NucleusFatalUserException
    | IllegalStateException
    | IllegalArgumentException
    | NullPointerException
    | UnsupportedOperationException
    | ClassCastException
    | XAException

  /** Each error the mapping layer raises, with the data its message names. */
  datatype Error =
    | KindMismatch(expected: string, actual: string)
    | UnexpectedKeyType(role: string, className: string, typeName: string)
    | PrimaryKeyImmutable(className: string, key: Key)
    | AncestorImmutable(className: string, key: Key)
    | AncestorNeedsFreshEntity
    | AncestorNotAKey(text: string)
    | NullAssignment(kind: string, key: Key, property: string, field: string)
    | NotABlob(typeName: string)
    | NoEnumConstant(enumType: string, constant: string)
    | BadCast(from: string, to: string)
    | NoIdentity(typeName: string)
    | BadKeyString(text: string)
    | NullObject
    | NullBlob
    | SerializeIO(typeName: string)
    | DeserializeIO
    | NotSerializable(typeName: string)
    | DeserializedTypeMismatch(actual: string, expected: string)
    | ClassNotResolved(className: string)
    | StrategyNotImplemented(className: string, member: string)
    | StrategyNotInstantiable(className: string)
    | MissingChild(ownerKey: Key, childKey: Key)
    | ElementTypeMismatch(elementClass: string, field: string, elementType: string)
    | UniqueUnsupported
    | DefaultsUnsupported
    | SelectFunctionUnsupported
    | Unsupported
    | NestedTransaction
    | NoTransactionToCommit
    | NoTransactionToRollBack
  {
    /** The Java exception class that carries this error. */
    function Exception(): JavaException
    {
      match this
      case KindMismatch(_, _) => NucleusException
      case UnexpectedKeyType(_, _, _) => IllegalStateException
      case PrimaryKeyImmutable(_, _) => NucleusUserException
      case AncestorImmutable(_, _) => NucleusUserException
      case AncestorNeedsFreshEntity => NucleusUserException
      case AncestorNotAKey(_) => NucleusUserException
      case NullAssignment(_, _, _, _) => NullPointerException
      case NotABlob(_) => NucleusException
      case NoEnumConstant(_, _) => IllegalArgumentException
      case BadCast(_, _) => ClassCastException
      case NoIdentity(_) => NullPointerException
      case BadKeyString(_) => IllegalArgumentException
      case NullObject => NullPointerException
      case NullBlob => NullPointerException
      case SerializeIO(_) => NucleusException
      case DeserializeIO => NucleusException
      case NotSerializable(_) => NucleusException
      case DeserializedTypeMismatch(_, _) => NucleusException
      case ClassNotResolved(_) => NucleusException
      case StrategyNotImplemented(_, _) => NucleusException
      case StrategyNotInstantiable(_) => NucleusException
      case MissingChild(_, _) => NucleusFatalUserException
      case ElementTypeMismatch(_, _, _) => ClassCastException
      case UniqueUnsupported => UnsupportedOperationException
      case DefaultsUnsupported => UnsupportedOperationException
      case SelectFunctionUnsupported => UnsupportedOperationException
      case Unsupported => UnsupportedOperationException
      case NestedTransaction => XAException
      case NoTransactionToCommit => XAException
      case NoTransactionToRollBack => XAException
    }
  }

  /** A value, or the exception that was thrown instead. */
  datatype Result<+T> = Ok(value: T) | Err(error: Error)

  /** The outcome of a void Java method: it returned, or it threw. */
  datatype Outcome = Pass | Fail(error: Error)
}

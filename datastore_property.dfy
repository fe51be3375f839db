/**
 * DatastoreProperty: the column descriptor of an entity property. It is a
 * small mutable record that answers the relational questions of the host
 * framework with fixed values: every property is nullable, none is unique,
 * and default values are not supported.
 */
module Property {
  import opened Datastore
  import opened Framework

  /** What a ColumnMetaData is nested in. */
  datatype ColumnParent = NoParent | MemberParent(member: MemberMeta) | OtherParent

  /** ColumnMetaData as far as the descriptor reads it. */
  datatype ColumnMeta = ColumnMeta(unique: bool, parent: ColumnParent)

  /** new ColumnMetaData(): not unique, nested in nothing. */
  const DEFAULT_COLUMN := ColumnMeta(false, NoParent)

  /** Every field of a DatastoreProperty that a setter may change. */
  datatype PropertyState = PropertyState(
    identifier: string,
    columnMetaData: Option<ColumnMeta>,
    datastoreMapping: Option<nat>,
    primaryKey: bool,
    memberMetaData: Option<MemberMeta>)

  /**
   * The column metadata a new property starts with: a fresh default when
   * none is given; metadata that asks for uniqueness is refused.
   */
  function InitialColumnMetaData(colmd: Option<ColumnMeta>): (r: Result<ColumnMeta>)
    ensures colmd.None? ==> r == Ok(DEFAULT_COLUMN)
    ensures colmd.Some? && !colmd.value.unique ==> r == Ok(colmd.value)
    ensures r.Err? <==> colmd.Some? && colmd.value.unique
    ensures r.Err? ==> r.error == UniqueUnsupported && r.error.Exception() == UnsupportedOperationException
    ensures r.Ok? ==> !r.value.unique
  {
    match colmd
    case None => Ok(DEFAULT_COLUMN)
    case Some(c) => if c.unique then Err(UniqueUnsupported) else Ok(c)
  }

  class DatastoreProperty {
    /** The table (by id) and the Java type this property stores; fixed at construction. */
    const table: nat
    const storedJavaType: string

    var identifier: string
    var columnMetaData: Option<ColumnMeta>
    /** The DatastoreMapping (by id) set for this column, if any. */
    var datastoreMapping: Option<nat>
    var primaryKey: bool
    /** Member metadata set explicitly; takes precedence over the column's parent. */
    var memberMetaData: Option<MemberMeta>

    function State(): PropertyState
      reads this
    {
      PropertyState(identifier, columnMetaData, datastoreMapping, primaryKey, memberMetaData)
    }

    constructor (table: nat, javaType: string, identifier: string, colmd: Option<ColumnMeta>)
      requires InitialColumnMetaData(colmd).Ok?
      ensures this.table == table && storedJavaType == javaType
      ensures State() == PropertyState(identifier, Some(InitialColumnMetaData(colmd).value), None, false, None)
    {
      this.table := table;
      storedJavaType := javaType;
      this.identifier := identifier;
      columnMetaData := Some(InitialColumnMetaData(colmd).value);
      datastoreMapping := None;
      primaryKey := false;
      memberMetaData := None;
    }

    /**
     * new DatastoreProperty(...): the property, or the
     * UnsupportedOperationException the constructor throws for unique
     * column metadata.
     */
    static method New(table: nat, javaType: string, identifier: string, colmd: Option<ColumnMeta>)
      returns (r: Result<DatastoreProperty>)
      ensures r.Err? <==> InitialColumnMetaData(colmd).Err?
      ensures r.Err? ==> r.error == UniqueUnsupported
      ensures r.Ok? ==> (fresh(r.value) && r.value.storedJavaType == javaType
                         && r.value.State() == PropertyState(identifier, Some(InitialColumnMetaData(colmd).value), None, false, None))
    {
      var column := InitialColumnMetaData(colmd);
      if column.Err? {
        return Err(column.error);
      }
      var p := new DatastoreProperty(table, javaType, identifier, colmd);
      return Ok(p);
    }

    method SetAsPrimaryKey()
      modifies this
      ensures IsPrimaryKey() && IsIdentity()
      ensures State() == old(State()).(primaryKey := true)
    {
      primaryKey := true;
    }

    function IsPrimaryKey(): (b: bool)
      reads this
      ensures b == State().primaryKey
    {
      primaryKey
    }

    /** Every property is nullable. */
    function IsNullable(): (b: bool)
      ensures b
    {
      true
    }

    /** setNullable: already nullable, so nothing changes and this is returned. */
    method SetNullable() returns (p: DatastoreProperty)
      ensures p == this && IsNullable()
      ensures unchanged(this)
    {
      p := this;
    }

    function GetDatastoreMapping(): (mapping: Option<nat>)
      reads this
      ensures mapping == State().datastoreMapping
    {
      datastoreMapping
    }

    method SetDatastoreMapping(mapping: nat)
      modifies this
      ensures GetDatastoreMapping() == Some(mapping)
      ensures State() == old(State()).(datastoreMapping := Some(mapping))
    {
      datastoreMapping := Some(mapping);
    }

    /** applySelectFunction: always refused. */
    method ApplySelectFunction(replacementValue: string) returns (r: Result<string>)
      ensures r == Err(SelectFunctionUnsupported) && r.error.Exception() == UnsupportedOperationException
    {
      r := Err(SelectFunctionUnsupported);
    }

    /** copyConfigurationTo: the target takes this property's primary-key flag and nothing else. */
    method CopyConfigurationTo(target: DatastoreProperty)
      modifies target
      ensures target.IsPrimaryKey() == old(IsPrimaryKey()) && target.IsIdentity() == old(IsPrimaryKey())
      ensures target.State() == old(target.State()).(primaryKey := old(primaryKey))
    {
      target.primaryKey := primaryKey;
    }

    /** setDefaultable: default values are not supported. */
    method SetDefaultable() returns (r: Result<DatastoreProperty>)
      ensures r == Err(DefaultsUnsupported) && r.error.Exception() == UnsupportedOperationException
    {
      r := Err(DefaultsUnsupported);
    }

    method SetIdentifier(id: string)
      modifies this
      ensures GetIdentifier() == id
      ensures State() == old(State()).(identifier := id)
    {
      identifier := id;
    }

    function GetIdentifier(): (id: string)
      reads this
      ensures id == State().identifier
    {
      identifier
    }

    /** No property has a default. */
    function IsDefaultable(): (b: bool)
      ensures !b
    {
      false
    }

    /** setUnique: uniqueness is not recorded; this is returned unchanged. */
    method SetUnique() returns (p: DatastoreProperty)
      ensures p == this && !IsUnique()
      ensures unchanged(this)
    {
      p := this;
    }

    /** No property is unique. */
    function IsUnique(): (b: bool)
      ensures !b
    {
      false
    }

    /** setIdentity(b): identity and primary key are one flag. */
    method SetIdentity(b: bool) returns (p: DatastoreProperty)
      modifies this
      ensures p == this
      ensures IsPrimaryKey() == b && IsIdentity() == b
      ensures State() == old(State()).(primaryKey := b)
    {
      primaryKey := b;
      p := this;
    }

    /** isIdentity: the primary-key flag. */
    function IsIdentity(): (b: bool)
      reads this
      ensures b == IsPrimaryKey()
    {
      IsPrimaryKey()
    }

    /** setDefaultValue: default values are not supported. */
    method SetDefaultValue(o: Value) returns (r: Outcome)
      ensures r == Fail(DefaultsUnsupported) && r.error.Exception() == UnsupportedOperationException
    {
      r := Fail(DefaultsUnsupported);
    }

    /** There is never a default value. */
    function GetDefaultValue(): (v: Value)
      ensures v == Null
    {
      Null
    }

    method SetColumnMetaData(colmd: Option<ColumnMeta>)
      modifies this
      ensures GetColumnMetaData() == colmd
      ensures State() == old(State()).(columnMetaData := colmd)
    {
      columnMetaData := colmd;
    }

    function GetColumnMetaData(): (colmd: Option<ColumnMeta>)
      reads this
      ensures colmd == State().columnMetaData
    {
      columnMetaData
    }

    /**
     * getMemberMetaData: the metadata set explicitly if there is one, else
     * the column metadata's parent when that is a member, else null.
     */
    function GetMemberMetaData(): (m: Option<MemberMeta>)
      reads this
      ensures memberMetaData.Some? ==> m == memberMetaData
      ensures memberMetaData.None? ==>
        (m.Some? <==> columnMetaData.Some? && columnMetaData.value.parent.MemberParent?)
      ensures memberMetaData.None? && m.Some? ==> MemberParent(m.value) == columnMetaData.value.parent
    {
      if memberMetaData.Some? then memberMetaData
      else if columnMetaData.Some? && columnMetaData.value.parent.MemberParent? then
        Some(columnMetaData.value.parent.member)
      else None
    }

    method SetMemberMetaData(m: MemberMeta)
      modifies this
      ensures GetMemberMetaData() == Some(m)
      ensures State() == old(State()).(memberMetaData := Some(m))
    {
      memberMetaData := Some(m);
    }
  }

  /**
   * A property built with column metadata nested in a member reports that
   * member until one is set explicitly, after which the explicit one wins.
   */
  method MemberMetaDataPrecedence(table: nat, identifier: string, column: MemberMeta, explicit: MemberMeta)
    returns (before: Option<MemberMeta>, after: Option<MemberMeta>)
    ensures before == Some(column) && after == Some(explicit)
  {
    var r := DatastoreProperty.New(table, "java.lang.String", identifier, Some(ColumnMeta(false, MemberParent(column))));
    var p := r.value;
    before := p.GetMemberMetaData();
    p.SetMemberMetaData(explicit);
    after := p.GetMemberMetaData();
  }

  /** Copying configuration makes the target's identity follow the source's primary-key flag. */
  method CopyMakesIdentityAgree(source: DatastoreProperty, target: DatastoreProperty, b: bool)
    returns (identity: bool)
    modifies source, target
    ensures identity == b
    ensures source.IsPrimaryKey() == b
  {
    var s := source.SetIdentity(b);
    source.CopyConfigurationTo(target);
    identity := target.IsIdentity();
  }
}

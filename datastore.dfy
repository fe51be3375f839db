/**
 * The parts of the App Engine datastore API that the mapping layer relies on:
 * keys (kind, optional name, numeric id, optional parent), property values,
 * entities, queries, and a reversible string encoding of keys that stands in
 * for KeyFactory.keyToString / KeyFactory.stringToKey.
 */
module Datastore {

  datatype Option<+T> = None | Some(value: T)

  /**
   * A datastore key. An id of 0 means "no id assigned yet". A key is complete
   * once it carries a name or a non-zero id; the parent chain forms the
   * entity group.
   */
  datatype Key = Key(kind: string, name: Option<string>, id: nat, parent: Option<Key>)
  {
    predicate IsComplete() { name.Some? || id != 0 }
  }

  /** `a` is a proper ancestor of `k`: it occurs somewhere on k's parent chain. */
  predicate HasAncestor(k: Key, a: Key)
    decreases k
  {
    match k.parent
    case None => false
    case Some(p) => p == a || HasAncestor(p, a)
  }

  /** A Java char: one 16-bit UTF-16 code unit, surrogates included. */
  newtype JChar = c: int | 0 <= c < 0x1_0000

  /**
   * Java objects as they flow between domain objects and entities. Boxed
   * integral values keep their Java class; floating point is not modelled.
   */
  datatype Value =
    | Null
    | LongV(n: int)
    | IntV(n: int)
    | ShortV(n: int)
    | ByteV(byte: bv8)
    | CharV(ch: JChar)
    | BoolV(truth: bool)
    | StrV(s: string)
    | KeyV(k: Key)
    | EnumV(enumType: string, constant: string)
    | ArrayV(component: string, elems: seq<Value>)
    | ListV(elems: seq<Value>)
    | BlobV(bytes: seq<bv8>)
    | Pojo(id: nat, cls: string)
    | Embedded(cls: string, fields: seq<Value>)

  /** A datastore entity: its key and its property map. */
  datatype Entity = Entity(key: Key, props: map<string, Value>)
  {
    function Kind(): string { key.kind }
    function Parent(): Option<Key> { key.parent }

    /** Entity.getProperty: an absent property reads as null. */
    function GetProperty(name: string): Value
    {
      if name in props then props[name] else Null
    }

    /** Entity.setProperty: the key is untouched and only `name` changes. */
    function SetProperty(name: string, v: Value): (e: Entity)
      ensures e.key == key && e.props == props[name := v]
    {
      Entity(key, props[name := v])
    }
  }

  /** new Entity(kind): an incomplete, parentless key and no properties. */
  function NewEntity(kind: string): Entity
  {
    Entity(Key(kind, None, 0, None), map[])
  }

  datatype FilterOperator = Equal | LessThan | LessThanOrEqual | GreaterThan | GreaterThanOrEqual | In
  datatype FilterPredicate = FilterPredicate(propertyName: string, op: FilterOperator, value: Value)
  datatype SortDirection = Ascending | Descending
  datatype SortPredicate = SortPredicate(propertyName: string, direction: SortDirection)

  /** A datastore query: kind, optional ancestor, filters and sorts in the order added. */
  datatype Query = Query(kind: string, ancestor: Option<Key>, filters: seq<FilterPredicate>,
                         sorts: seq<SortPredicate>, keysOnly: bool)

  /**
   * What an unfiltered ancestor query of kind `kind` under `ancestor` selects:
   * entities of that kind whose key is the ancestor itself or lies below it.
   */
  predicate InAncestorQuery(kind: string, ancestor: Key, e: Entity)
  {
    e.key.kind == kind && (e.key == ancestor || HasAncestor(e.key, ancestor))
  }

  // ---------------------------------------------------------------------------
  // Key string encoding. The real KeyFactory emits web-safe base64 of a
  // protocol buffer; the mapping layer only needs the encoding to be
  // reversible, so this model uses its own length-prefixed format:
  //   key    ::= parent kind name id
  //   parent ::= '-' | 'p' key
  //   name   ::= '-' | 'n' text
  //   text   ::= '*'^n '.' <n characters>
  //   id     ::= 'i' '*'^id '.'
  // ---------------------------------------------------------------------------

  function Stars(n: nat): (s: string)
    ensures |s| == n && forall i :: 0 <= i < n ==> s[i] == '*'
  {
    if n == 0 then [] else Stars(n - 1) + ['*']
  }

  function EncodeNat(n: nat): string { Stars(n) + ['.'] }

  function EncodeText(t: string): string { EncodeNat(|t|) + t }

  function EncodeName(name: Option<string>): string
  {
    match name case None => "-" case Some(n) => "n" + EncodeText(n)
  }

  /** Kind, name and id of a key, without its parent. */
  function EncodeTail(k: Key): string
  {
    EncodeText(k.kind) + EncodeName(k.name) + "i" + EncodeNat(k.id)
  }

  function EncodeKey(k: Key): string
    decreases k
  {
    (match k.parent case None => "-" case Some(p) => "p" + EncodeKey(p)) + EncodeTail(k)
  }

  /** KeyFactory.keyToString */
  function KeyToString(k: Key): string { EncodeKey(k) }

  function CountStars(s: string): (n: nat)
    ensures n <= |s|
    ensures forall i :: 0 <= i < n ==> s[i] == '*'
    ensures n < |s| ==> s[n] != '*'
  {
    if s != [] && s[0] == '*' then 1 + CountStars(s[1..]) else 0
  }

  function DecodeNat(s: string): Option<(nat, string)>
  {
    var n := CountStars(s);
    if n < |s| && s[n] == '.' then Some((n, s[n + 1..])) else None
  }

  function DecodeText(s: string): Option<(string, string)>
  {
    match DecodeNat(s)
    case None => None
    case Some((n, rest)) => if n <= |rest| then Some((rest[..n], rest[n..])) else None
  }

  function DecodeName(s: string): Option<(Option<string>, string)>
  {
    if s != [] && s[0] == '-' then Some((None, s[1..]))
    else if s != [] && s[0] == 'n' then
      match DecodeText(s[1..])
      case None => None
      case Some((t, r)) => Some((Some(t), r))
    else None
  }

  function DecodeId(s: string): Option<(nat, string)>
  {
    if s != [] && s[0] == 'i' then DecodeNat(s[1..]) else None
  }

  /** Everything after the parent part: kind, name and id. */
  function DecodeTail(parent: Option<Key>, s: string): Option<(Key, string)>
  {
    match DecodeText(s)
    case None => None
    case Some((kind, s1)) =>
      match DecodeName(s1)
      case None => None
      case Some((nm, s2)) =>
        match DecodeId(s2)
        case None => None
        case Some((id, s3)) => Some((Key(kind, nm, id, parent), s3))
  }

  function DecodeKey(s: string): Option<(Key, string)>
    decreases |s|
  {
    if s == [] then None
    else if s[0] == '-' then DecodeTail(None, s[1..])
    else if s[0] == 'p' then
      match DecodeKey(s[1..])
      case None => None
      case Some((p, rest)) => DecodeTail(Some(p), rest)
    else None
  }

  /** KeyFactory.stringToKey: None where the Java call throws IllegalArgumentException. */
  function StringToKey(s: string): Option<Key>
  {
    match DecodeKey(s)
    case Some((k, rest)) => if rest == [] then Some(k) else None
    case None => None
  }

  lemma {:induction false} CountStarsOfStars(n: nat, rest: string)
    ensures CountStars(Stars(n) + ['.'] + rest) == n
  {
    var s := Stars(n) + ['.'] + rest;
    if n > 0 {
      assert s[0] == '*';
      assert s[1..] == Stars(n - 1) + ['.'] + rest by {
        var t := Stars(n - 1) + ['.'] + rest;
        assert |s[1..]| == |t|;
        forall i | 0 <= i < |t| ensures s[1..][i] == t[i] {
          if i < n - 1 { assert s[1 + i] == '*'; }
        }
      }
      CountStarsOfStars(n - 1, rest);
    }
  }

  lemma DecodeNatRoundTrip(n: nat, rest: string)
    ensures DecodeNat(EncodeNat(n) + rest) == Some((n, rest))
  {
    var s := EncodeNat(n) + rest;
    assert s == Stars(n) + ['.'] + rest;
    CountStarsOfStars(n, rest);
    assert s[n] == '.';
    assert s[n + 1..] == rest;
  }

  lemma DecodeTextRoundTrip(t: string, rest: string)
    ensures DecodeText(EncodeText(t) + rest) == Some((t, rest))
  {
    assert EncodeText(t) + rest == EncodeNat(|t|) + (t + rest);
    DecodeNatRoundTrip(|t|, t + rest);
    assert (t + rest)[..|t|] == t;
    assert (t + rest)[|t|..] == rest;
  }

  lemma DecodeNameRoundTrip(name: Option<string>, rest: string)
    ensures DecodeName(EncodeName(name) + rest) == Some((name, rest))
  {
    match name
    case None =>
      assert (EncodeName(name) + rest)[1..] == rest;
    case Some(n) =>
      assert (EncodeName(name) + rest)[1..] == EncodeText(n) + rest;
      DecodeTextRoundTrip(n, rest);
  }

  lemma DecodeIdRoundTrip(id: nat, rest: string)
    ensures DecodeId("i" + EncodeNat(id) + rest) == Some((id, rest))
  {
    assert ("i" + EncodeNat(id) + rest)[1..] == EncodeNat(id) + rest;
    DecodeNatRoundTrip(id, rest);
  }

  lemma DecodeTailRoundTrip(k: Key, rest: string)
    ensures DecodeTail(k.parent, EncodeTail(k) + rest) == Some((k, rest))
  {
    var idRest := "i" + EncodeNat(k.id) + rest;
    assert EncodeTail(k) + rest == EncodeText(k.kind) + (EncodeName(k.name) + idRest);
    DecodeTextRoundTrip(k.kind, EncodeName(k.name) + idRest);
    DecodeNameRoundTrip(k.name, idRest);
    DecodeIdRoundTrip(k.id, rest);
  }

  lemma DecodeRootKey(k: Key, rest: string)
    requires k.parent.None?
    ensures DecodeKey(EncodeKey(k) + rest) == Some((k, rest))
  {
    var s := "-" + (EncodeTail(k) + rest);
    assert EncodeKey(k) + rest == s;
    assert s[1..] == EncodeTail(k) + rest;
    DecodeTailRoundTrip(k, rest);
  }

  lemma EncodeChildKey(k: Key, p: Key, rest: string)
    requires k.parent == Some(p)
    ensures EncodeKey(k) + rest == "p" + (EncodeKey(p) + (EncodeTail(k) + rest))
  {
  }

  lemma DecodeChildKey(k: Key, p: Key, rest: string)
    requires k.parent == Some(p)
    requires DecodeKey(EncodeKey(p) + (EncodeTail(k) + rest)) == Some((p, EncodeTail(k) + rest))
    ensures DecodeKey(EncodeKey(k) + rest) == Some((k, rest))
  {
    var t := EncodeTail(k) + rest;
    var s := "p" + (EncodeKey(p) + t);
    EncodeChildKey(k, p, rest);
    assert s[1..] == EncodeKey(p) + t;
    assert DecodeKey(s) == DecodeTail(Some(p), t);
    DecodeTailRoundTrip(k, rest);
  }

  /** Decoding reads back exactly the key that was encoded and leaves what follows. */
  lemma {:induction false} DecodeKeyRoundTrip(k: Key, rest: string)
    ensures DecodeKey(EncodeKey(k) + rest) == Some((k, rest))
    decreases k
  {
    match k.parent
    case None =>
      DecodeRootKey(k, rest);
    case Some(p) =>
      DecodeKeyRoundTrip(p, EncodeTail(k) + rest);
      DecodeChildKey(k, p, rest);
  }

  /** stringToKey(keyToString(k)) == k. */
  lemma KeyStringRoundTrip(k: Key)
    ensures StringToKey(KeyToString(k)) == Some(k)
  {
    DecodeKeyRoundTrip(k, []);
    assert EncodeKey(k) + [] == EncodeKey(k);
  }

  /** Distinct keys have distinct string encodings. */
  lemma KeyToStringInjective(k1: Key, k2: Key)
    requires KeyToString(k1) == KeyToString(k2)
    ensures k1 == k2
  {
    KeyStringRoundTrip(k1);
    KeyStringRoundTrip(k2);
  }
}

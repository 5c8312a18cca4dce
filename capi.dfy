/**
 * The schema accessors and value checks of the C API (`c_api.cpp`): the
 * bounded copies into caller-supplied arrays, the lookups by table and
 * column key, and the value-versus-property type check used when writing
 * through the API.
 */
module CApi {
  import opened Wrappers
  import opened MixedValues
  import opened CApiValues
  import opened CApiErrors

  // ---------------------------------------------------------------------
  // Schema

  /** The property's base type, `PropertyType` without its flags. */
  datatype BaseType =
    | PInt | PBool | PString | PData | PDate | PFloat | PDouble
    | PObject | PLinkingObjects | PAny | PObjectId | PDecimal | PUuid

  datatype PropertyFlag = Nullable | ArrayFlag | SetFlag | DictionaryFlag

  /** A `PropertyType`: a base type combined with flags. */
  datatype PropertyType = PropertyType(base: BaseType, flags: set<PropertyFlag>)

  /** `is_nullable`. */
  predicate IsNullable(t: PropertyType)
  {
    Nullable in t.flags
  }

  datatype Property = Property(name: string, columnKey: int, propertyType: PropertyType)

  datatype ObjectSchema = ObjectSchema(name: string, tableKey: int, persisted: seq<Property>, computed: seq<Property>)

  function Min(a: nat, b: nat): nat
  {
    if a < b then a else b
  }

  /** The table keys in schema order. */
  function TableKeys(schema: seq<ObjectSchema>): (keys: seq<int>)
    ensures |keys| == |schema| && forall k :: 0 <= k < |schema| ==> keys[k] == schema[k].tableKey
  {
    seq(|schema|, k requires 0 <= k < |schema| => schema[k].tableKey)
  }

  /** Persisted then computed properties, the order every enumeration uses. */
  function AllProperties(os: ObjectSchema): seq<Property>
  {
    os.persisted + os.computed
  }

  /** The column keys of `AllProperties`. */
  function ColumnKeys(props: seq<Property>): (keys: seq<int>)
    ensures |keys| == |props| && forall k :: 0 <= k < |props| ==> keys[k] == props[k].columnKey
  {
    seq(|props|, k requires 0 <= k < |props| => props[k].columnKey)
  }

  /**
   * The shared loop of the enumerations: copy `src` into `out` from index
   * `start`, stopping as soon as `max` entries are in `out`.
   */
  method CopyBounded<T>(src: seq<T>, out: array<T>, start: nat, max: nat) returns (i: nat)
    requires start <= max && start <= out.Length
    requires out.Length >= Min(max, start + |src|)
    modifies out
    ensures i == start + Min(|src|, max - start)
    ensures out[..start] == old(out[..start])
    ensures out[start..i] == src[..i - start]
    ensures out[i..] == old(out[i..])
  {
    i := start;
    var j := 0;
    while j < |src|
      invariant 0 <= j <= |src| && i == start + j && i <= max
      invariant out[..start] == old(out[..start])
      invariant out[start..i] == src[..j]
      invariant out[i..] == old(out[i..])
    {
      if i >= max {
        break;
      }
      out[i] := src[j];
      i, j := i + 1, j + 1;
      assert out[start..i] == out[start..i - 1] + [src[j - 1]];
      assert src[..j] == src[..j - 1] + [src[j - 1]];
    }
  }

  /** Two bounded copies in a row: `out` receives the first `max` entries of `a + b`. */
  method CopyBoth<T>(a: seq<T>, b: seq<T>, out: array<T>, max: nat) returns (i: nat)
    requires out.Length >= max
    modifies out
    ensures i == Min(max, |a| + |b|) && out[..i] == (a + b)[..i]
  {
    i := CopyBounded(a, out, 0, max);
    ghost var mid := out[..i];
    i := CopyBounded(b, out, i, max);
    assert out[..i] == mid + out[|mid|..i];
  }

  /** The keys of a concatenation are the concatenated keys. */
  lemma ColumnKeysAppend(p: seq<Property>, q: seq<Property>)
    ensures ColumnKeys(p + q) == ColumnKeys(p) + ColumnKeys(q)
  {
  }

  /**
   * `realm_get_class_keys`: with a buffer, the first min(max, count) table
   * keys in schema order and their number; without one, the schema size.
   */
  method GetClassKeys(schema: seq<ObjectSchema>, outKeys: array?<int>, max: nat) returns (n: nat)
    requires outKeys != null ==> outKeys.Length >= Min(max, |schema|)
    modifies outKeys
    ensures outKeys == null ==> n == |schema|
    ensures outKeys != null ==> n == Min(max, |schema|)
    ensures outKeys != null ==> outKeys[..n] == TableKeys(schema)[..n] && outKeys[n..] == old(outKeys[n..])
  {
    if outKeys == null {
      return |schema|;
    }
    n := CopyBounded(TableKeys(schema), outKeys, 0, max);
  }

  /** The first schema entry with the table key, if any. */
  function FindSchema(schema: seq<ObjectSchema>, key: int): (r: Option<ObjectSchema>)
    ensures r.Some? ==> r.value in schema && r.value.tableKey == key
    ensures r.None? <==> forall k :: 0 <= k < |schema| ==> schema[k].tableKey != key
    ensures r.Some? ==> exists i :: 0 <= i < |schema| && schema[i] == r.value && forall k :: 0 <= k < i ==> schema[k].tableKey != key
  {
    if schema == [] then None
    else if schema[0].tableKey == key then Some(schema[0])
    else
      var r := FindSchema(schema[1..], key);
      assert r.Some? ==> exists i :: 1 <= i < |schema| && schema[i] == r.value && forall k :: 0 <= k < i ==> schema[k].tableKey != key by {
        if r.Some? {
          var i :| 0 <= i < |schema[1..]| && schema[1..][i] == r.value && forall k :: 0 <= k < i ==> schema[1..][k].tableKey != key;
          assert forall k :: 0 <= k < i + 1 ==> schema[k].tableKey != key by {
            forall k | 0 < k < i + 1 ensures schema[k].tableKey != key {
              assert schema[k] == schema[1..][k - 1];
            }
          }
        }
      }
      r
  }

  const ClassNotInSchema: Exception := LogicError("Class not in schema")

  /**
   * What `Group::get_table` throws for a key that names no table of the
   * group: `NoSuchTable`, a `std::exception`. `Group` is defined in
   * realm-core outside the modelled files.
   */
  const NoSuchTable: Exception := OtherException("No such table exists")

  /**
   * `schema_for_table`: the key is first validated against the tables of
   * the read group (`groupTables`), then the schema is searched linearly;
   * a key the group lacks fails with `get_table`'s exception and a key the
   * schema lacks with a logic_error.
   */
  method SchemaForTable(groupTables: set<int>, schema: seq<ObjectSchema>, key: int)
    returns (r: Result<ObjectSchema, Exception>)
    ensures key !in groupTables ==> r == Err(NoSuchTable)
    ensures key in groupTables ==> r == match FindSchema(schema, key)
      case Some(os) => Ok(os)
      case None => Err(ClassNotInSchema)
  {
    if key !in groupTables {
      return Err(NoSuchTable);
    }
    var k := 0;
    while k < |schema|
      invariant 0 <= k <= |schema|
      invariant FindSchema(schema, key) == FindSchema(schema[k..], key)
    {
      if schema[k].tableKey == key {
        return Ok(schema[k]);
      }
      assert schema[k..][1..] == schema[k + 1..];
      k := k + 1;
    }
    return Err(ClassNotInSchema);
  }

  /**
   * The caller of the C API cannot tell the two failures apart by number:
   * both are reported as "other exception", and only the message differs.
   */
  lemma SchemaErrorsAreOther()
    ensures Classify(NoSuchTable).error == ErrOtherException
    ensures Classify(ClassNotInSchema).error == ErrOtherException
    ensures Classify(NoSuchTable).message != Classify(ClassNotInSchema).message
  {
    ClassifyByException(NoSuchTable);
    ClassifyByException(ClassNotInSchema);
  }

  /**
   * `realm_get_class_properties`: persisted then computed properties, at
   * most `max` of them; without a buffer, how many there are.
   */
  method GetClassProperties(groupTables: set<int>, schema: seq<ObjectSchema>, key: int,
                            outProperties: array?<Property>, max: nat)
    returns (r: Result<nat, Exception>)
    requires outProperties != null ==> outProperties.Length >= max
    modifies outProperties
    ensures key !in groupTables ==> r == Err(NoSuchTable)
    ensures key in groupTables ==> (FindSchema(schema, key).None? <==> r == Err(ClassNotInSchema))
    ensures key in groupTables && FindSchema(schema, key).Some? && outProperties == null ==>
              r == Ok(|AllProperties(FindSchema(schema, key).value)|)
    ensures key in groupTables && FindSchema(schema, key).Some? && outProperties != null ==>
              var all := AllProperties(FindSchema(schema, key).value);
              r == Ok(Min(max, |all|)) && outProperties[..r.value] == all[..r.value]
  {
    var found := SchemaForTable(groupTables, schema, key);
    if found.Err? {
      return Err(found.error);
    }
    var os := found.value;
    if outProperties == null {
      return Ok(|os.persisted| + |os.computed|);
    }
    var i := CopyBoth(os.persisted, os.computed, outProperties, max);
    return Ok(i);
  }

  /**
   * What `realm_get_property_keys` reports without a buffer: twice the
   * persisted count, which is the number of properties only when there are
   * as many computed properties as persisted ones.
   */
  function PropertyKeyCountAsWritten(os: ObjectSchema): (n: nat)
    ensures n == |AllProperties(os)| <==> |os.persisted| == |os.computed|
  {
    |os.persisted| + |os.persisted|
  }

  /**
   * `realm_get_property_keys`: like the class properties, but copying the
   * column keys; its no-buffer count is `PropertyKeyCountAsWritten`.
   */
  method GetPropertyKeys(groupTables: set<int>, schema: seq<ObjectSchema>, key: int, outKeys: array?<int>, max: nat)
    returns (r: Result<nat, Exception>)
    requires outKeys != null ==> outKeys.Length >= max
    modifies outKeys
    ensures key !in groupTables ==> r == Err(NoSuchTable)
    ensures key in groupTables ==> (FindSchema(schema, key).None? <==> r == Err(ClassNotInSchema))
    ensures key in groupTables && FindSchema(schema, key).Some? && outKeys == null ==>
              r == Ok(PropertyKeyCountAsWritten(FindSchema(schema, key).value))
    ensures key in groupTables && FindSchema(schema, key).Some? && outKeys != null ==>
              var keys := ColumnKeys(AllProperties(FindSchema(schema, key).value));
              r == Ok(Min(max, |keys|)) && outKeys[..r.value] == keys[..r.value]
  {
    var found := SchemaForTable(groupTables, schema, key);
    if found.Err? {
      return Err(found.error);
    }
    var os := found.value;
    if outKeys == null {
      return Ok(|os.persisted| + |os.persisted|);
    }
    var i := CopyBoth(ColumnKeys(os.persisted), ColumnKeys(os.computed), outKeys, max);
    ColumnKeysAppend(os.persisted, os.computed);
    return Ok(i);
  }

  /** The no-buffer count disagrees with the keys written as soon as a class has computed properties. */
  lemma PropertyKeyCountMismatch()
    ensures var os := ObjectSchema("C", 1, [], [Property("p", 7, PropertyType(PObject, {}))]);
      PropertyKeyCountAsWritten(os) == 0 && |ColumnKeys(AllProperties(os))| == 1
  {
  }

  /**
   * The evidently intended no-buffer count, the one `realm_get_class_properties`
   * reports: one per column key a buffer would receive.
   */
  function PropertyKeyCount(os: ObjectSchema): (n: nat)
    ensures n == |ColumnKeys(AllProperties(os))|
  {
    |os.persisted| + |os.computed|
  }

  /**
   * The intended count is exactly the number of keys a large enough buffer
   * receives, and the as-written count agrees with it only when the
   * persisted and computed counts are equal.
   */
  lemma PropertyKeyCountIntended(os: ObjectSchema, max: nat)
    requires max >= PropertyKeyCount(os)
    ensures PropertyKeyCount(os) == Min(max, |ColumnKeys(AllProperties(os))|)
    ensures PropertyKeyCountAsWritten(os) == PropertyKeyCount(os) <==> |os.persisted| == |os.computed|
  {
  }

  /** The first property with the column key, persisted before computed. */
  function FindProperty(props: seq<Property>, col: int): (r: Option<Property>)
    ensures r.Some? ==> r.value in props && r.value.columnKey == col
    ensures r.None? <==> forall k :: 0 <= k < |props| ==> props[k].columnKey != col
    ensures r.Some? ==> exists i :: 0 <= i < |props| && props[i] == r.value && forall k :: 0 <= k < i ==> props[k].columnKey != col
  {
    if props == [] then None
    else if props[0].columnKey == col then Some(props[0])
    else
      var r := FindProperty(props[1..], col);
      assert r.Some? ==> exists i :: 1 <= i < |props| && props[i] == r.value && forall k :: 0 <= k < i ==> props[k].columnKey != col by {
        if r.Some? {
          var i :| 0 <= i < |props[1..]| && props[1..][i] == r.value && forall k :: 0 <= k < i ==> props[1..][k].columnKey != col;
          assert forall k :: 0 <= k < i + 1 ==> props[k].columnKey != col by {
            forall k | 0 < k < i + 1 ensures props[k].columnKey != col {
              assert props[k] == props[1..][k - 1];
            }
          }
        }
      }
      r
  }

  lemma FindPropertyAppend(a: seq<Property>, b: seq<Property>, col: int)
    ensures FindProperty(a + b, col) == if FindProperty(a, col).Some? then FindProperty(a, col) else FindProperty(b, col)
  {
    if a != [] {
      assert (a + b)[1..] == a[1..] + b;
      FindPropertyAppend(a[1..], b, col);
    } else {
      assert a + b == b;
    }
  }

  const InvalidColumnKey: Exception := LogicError("Invalid column key for this class")

  /** Linear search of one property list. */
  method SearchProperties(props: seq<Property>, col: int) returns (r: Option<Property>)
    ensures r == FindProperty(props, col)
  {
    var k := 0;
    while k < |props|
      invariant 0 <= k <= |props|
      invariant FindProperty(props, col) == FindProperty(props[k..], col)
    {
      if props[k].columnKey == col {
        return Some(props[k]);
      }
      assert props[k..][1..] == props[k + 1..];
      k := k + 1;
    }
    return None;
  }

  /**
   * `realm_get_property`: the class by table key, then the first property
   * with the column key, persisted before computed; a logic_error when
   * either is missing.
   */
  method GetProperty(groupTables: set<int>, schema: seq<ObjectSchema>, classKey: int, col: int)
    returns (r: Result<Property, Exception>)
    ensures classKey !in groupTables ==> r == Err(NoSuchTable)
    ensures classKey in groupTables && FindSchema(schema, classKey).None? ==> r == Err(ClassNotInSchema)
    ensures classKey in groupTables && FindSchema(schema, classKey).Some? ==>
              r == match FindProperty(AllProperties(FindSchema(schema, classKey).value), col)
                case Some(p) => Ok(p)
                case None => Err(InvalidColumnKey)
  {
    var found := SchemaForTable(groupTables, schema, classKey);
    if found.Err? {
      return Err(found.error);
    }
    var os := found.value;
    FindPropertyAppend(os.persisted, os.computed, col);
    var p := SearchProperties(os.persisted, col);
    if p.Some? {
      return Ok(p.value);
    }
    p := SearchProperties(os.computed, col);
    if p.Some? {
      return Ok(p.value);
    }
    return Err(InvalidColumnKey);
  }

  // ---------------------------------------------------------------------
  // Values written through the API

  /** `typed_link_to_link`: a typed link becomes its object key; anything else is unchanged. */
  function TypedLinkToLink(m: Mixed): (r: Mixed)
    ensures !r.TypedLink?
    ensures m.TypedLink? ==> r == Link(m.key)
    ensures !m.TypedLink? ==> r == m
  {
    if !m.Null? && MixedValues.TypeOf(m) == TTypedLink then Link(m.key) else m
  }

  /** Converting twice is converting once. */
  lemma TypedLinkToLinkIdempotent(m: Mixed)
    ensures TypedLinkToLink(TypedLinkToLink(m)) == TypedLinkToLink(m)
  {
  }

  /** The property base type each value tag is stored in. */
  function StoredAs(t: DataType): Option<BaseType>
  {
    match t
    case TInt => Some(PInt)
    case TBool => Some(PBool)
    case TString => Some(PString)
    case TBinary => Some(PData)
    case TTimestamp => Some(PDate)
    case TFloat => Some(PFloat)
    case TDouble => Some(PDouble)
    case TDecimal => Some(PDecimal)
    case TObjectId => Some(PObjectId)
    case TTypedLink => Some(PObject)
    case _ => None
  }

  /** What `value_or_object` passes on: a value, an empty value of the property's type, or an object. */
  datatype Forwarded =
    | ValueOf(value: Mixed)
    | NoneOf(propertyType: PropertyType)
    | ObjectOf(table: int, key: int)

  const NullInNonNullable: Exception := InvalidArgument("NULL in non-nullable field/list.")
  const TypeMismatchArgument: Exception := InvalidArgument("Type mismatch")

  /** One case of the type switch: accept when the base type is `expected` or Any. */
  function CheckBase(base: BaseType, expected: BaseType, f: Forwarded): Result<Forwarded, Exception>
  {
    if base != expected && base != PAny then Err(TypeMismatchArgument) else Ok(f)
  }

  /**
   * `value_or_object`, on the values `from_capi` produces (the other tags
   * terminate the process). Null is refused for a non-nullable property and
   * forwarded as an empty value of the property's type otherwise; any
   * other value must match the property's base type (or Any), a typed
   * link being forwarded as the object it designates.
   */
  function ValueOrObject(propertyType: PropertyType, val: Mixed): (r: Result<Forwarded, Exception>)
    requires Representable(val)
    ensures val.Null? ==> (r.Err? <==> !IsNullable(propertyType))
    ensures val.Null? && r.Ok? ==> r.value == NoneOf(propertyType)
    ensures !val.Null? ==>
              (r.Ok? <==> propertyType.base == PAny || StoredAs(MixedValues.TypeOf(val)) == Some(propertyType.base))
    ensures r.Ok? && !val.Null? ==>
              r.value == if val.TypedLink? then ObjectOf(val.table, val.key) else ValueOf(val)
    ensures r.Err? ==> r.error == if val.Null? then NullInNonNullable else TypeMismatchArgument
  {
    if val.Null? then
      if !IsNullable(propertyType) then Err(NullInNonNullable) else Ok(NoneOf(propertyType))
    else
      var base := propertyType.base;
      match val
      case Int(_) => CheckBase(base, PInt, ValueOf(val))
      case Bool(_) => CheckBase(base, PBool, ValueOf(val))
      case String(_) => CheckBase(base, PString, ValueOf(val))
      case Binary(_) => CheckBase(base, PData, ValueOf(val))
      case Timestamp(_, _) => CheckBase(base, PDate, ValueOf(val))
      case Float(_) => CheckBase(base, PFloat, ValueOf(val))
      case Double(_) => CheckBase(base, PDouble, ValueOf(val))
      case Decimal(_) => CheckBase(base, PDecimal, ValueOf(val))
      case ObjectId(_) => CheckBase(base, PObjectId, ValueOf(val))
      case TypedLink(t, k) => CheckBase(base, PObject, ObjectOf(t, k))
  }

  /** Both refusals are `std::invalid_argument`, reported as RLM_ERR_INVALID_ARGUMENT. */
  lemma ValueOrObjectErrors(propertyType: PropertyType, val: Mixed)
    requires Representable(val)
    ensures ValueOrObject(propertyType, val).Err? ==>
      ValueOrObject(propertyType, val).error.InvalidArgument? &&
      Classify(ValueOrObject(propertyType, val).error).error == ErrInvalidArgument
  {
    ClassifyByException(NullInNonNullable);
    ClassifyByException(TypeMismatchArgument);
  }

  /** For a value arriving as a `realm_value_t`: accepted exactly per the tag-to-type table. */
  lemma ValueOrObjectFromCapi(propertyType: PropertyType, v: RealmValue)
    ensures !v.VNull? ==>
      (ValueOrObject(propertyType, FromCapi(v)).Ok? <==>
         propertyType.base == PAny || StoredAs(MixedValues.TypeOf(FromCapi(v))) == Some(propertyType.base))
    ensures v.VLink? ==> (ValueOrObject(propertyType, FromCapi(v)).Ok? <==> propertyType.base in {PObject, PAny})
  {
    CapiRoundTrip(v, FromCapi(v));
  }
}

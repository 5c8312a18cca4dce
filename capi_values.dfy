/**
 * The C API's tagged value `realm_value_t` and its conversion to and from
 * the core's `Mixed`.
 */
module CApiValues {
  import opened Wrappers
  import opened MixedValues

  /** `realm_value_type_e`, in declaration order. */
  datatype ValueType =
    | TypeNull | TypeInt | TypeBool | TypeString | TypeBinary | TypeTimestamp
    | TypeFloat | TypeDouble | TypeDecimal128 | TypeObjectId | TypeLink

  /** The enumerator's integer value. */
  function TypeCode(t: ValueType): (code: nat)
    ensures code <= 10
  {
    match t
    case TypeNull => 0
    case TypeInt => 1
    case TypeBool => 2
    case TypeString => 3
    case TypeBinary => 4
    case TypeTimestamp => 5
    case TypeFloat => 6
    case TypeDouble => 7
    case TypeDecimal128 => 8
    case TypeObjectId => 9
    case TypeLink => 10
  }

  /** Distinct tags have distinct codes. */
  lemma TypeCodeInjective(a: ValueType, b: ValueType)
    ensures TypeCode(a) == TypeCode(b) <==> a == b
  {
  }

  /** `realm_value_t`: the tag together with the member of the union it selects. */
  datatype RealmValue =
    | VNull
    | VInt(integer: int)
    | VBool(boolean: bool)
    | VString(str: seq<int>)
    | VBinary(binary: seq<int>)
    | VTimestamp(seconds: int, nanoseconds: int)
    | VFloat(fnum: Fp)
    | VDouble(dnum: Fp)
    | VDecimal128(decimal128: Fp)
    | VObjectId(objectId: seq<int>)
    | VLink(targetTable: int, target: int)

  /** The `type` field of a value. */
  function TypeOfValue(v: RealmValue): ValueType
  {
    match v
    case VNull => TypeNull
    case VInt(_) => TypeInt
    case VBool(_) => TypeBool
    case VString(_) => TypeString
    case VBinary(_) => TypeBinary
    case VTimestamp(_, _) => TypeTimestamp
    case VFloat(_) => TypeFloat
    case VDouble(_) => TypeDouble
    case VDecimal128(_) => TypeDecimal128
    case VObjectId(_) => TypeObjectId
    case VLink(_, _) => TypeLink
  }

  /**
   * `from_capi(realm_value_t)`: tag for tag, a link becoming a typed link
   * (an untyped link is never produced).
   */
  function FromCapi(v: RealmValue): (m: Mixed)
    ensures m.Null? <==> v.VNull?
    ensures !m.Null? ==> !Fatal(MixedValues.TypeOf(m)) && !m.Uuid?
  {
    match v
    case VNull => Null
    case VInt(i) => Int(i)
    case VBool(b) => Bool(b)
    case VString(s) => String(s)
    case VBinary(b) => Binary(b)
    case VTimestamp(s, n) => Timestamp(s, n)
    case VFloat(f) => Float(f)
    case VDouble(d) => Double(d)
    case VDecimal128(d) => Decimal(d)
    case VObjectId(o) => ObjectId(o)
    case VLink(t, k) => TypedLink(t, k)
  }

  /** `to_capi(Mixed)`, defined on the values the C API can carry. */
  function ToCapi(m: Mixed): Option<RealmValue>
  {
    match m
    case Null => Some(VNull)
    case Int(i) => Some(VInt(i))
    case Bool(b) => Some(VBool(b))
    case String(s) => Some(VString(s))
    case Binary(b) => Some(VBinary(b))
    case Timestamp(s, n) => Some(VTimestamp(s, n))
    case Float(f) => Some(VFloat(f))
    case Double(d) => Some(VDouble(d))
    case Decimal(d) => Some(VDecimal128(d))
    case ObjectId(o) => Some(VObjectId(o))
    case TypedLink(t, k) => Some(VLink(t, k))
    case _ => None
  }

  /** The values the C API can carry: those `to_capi` is defined on. */
  predicate Representable(m: Mixed)
  {
    ToCapi(m).Some?
  }

  /**
   * The two conversions are inverse: every C value survives the round
   * trip, and a representable `Mixed` is exactly the image of its C value.
   */
  lemma CapiRoundTrip(v: RealmValue, m: Mixed)
    ensures ToCapi(FromCapi(v)) == Some(v)
    ensures ToCapi(m) == Some(v) <==> FromCapi(v) == m
  {
  }

  /** Untyped links, UUIDs and the legacy column tags have no C representation. */
  lemma NotRepresentable(m: Mixed)
    ensures !Representable(m) <==> m.Uuid? || m.Link? || (!m.Null? && Fatal(MixedValues.TypeOf(m)))
  {
  }
}

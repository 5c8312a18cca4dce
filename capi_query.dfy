/**
 * The query part of the C API: the typed accessors over the caller's
 * argument array, the argument checks of `realm_query_push_cond`, and the
 * out-parameter conventions of the results aggregates.
 */
module CApiQuery {
  import opened Wrappers
  import opened MixedValues
  import opened CApiValues
  import opened CApiErrors

  // ---------------------------------------------------------------------
  // QueryArgumentsAdapter

  /** The ten typed accessors of the argument adapter. */
  datatype Accessor =
    | BoolArg | LongArg | FloatArg | DoubleArg | StringArg | BinaryArg
    | TimestampArg | ObjectIndexArg | ObjectIdArg | Decimal128Arg

  /** The tag each accessor insists on. */
  function AccessorType(a: Accessor): (t: ValueType)
    ensures t != TypeNull
  {
    match a
    case BoolArg => TypeBool
    case LongArg => TypeInt
    case FloatArg => TypeFloat
    case DoubleArg => TypeDouble
    case StringArg => TypeString
    case BinaryArg => TypeBinary
    case TimestampArg => TypeTimestamp
    case ObjectIndexArg => TypeLink
    case ObjectIdArg => TypeObjectId
    case Decimal128Arg => TypeDecimal128
  }

  const ArgumentOutOfRange: Exception := OutOfRange("Query argument out of range")
  const TypeMismatch: Exception := RealmLogicError(TypeMismatchKind, "Type mismatch")

  /** `check_index`: an index at or past the argument count is out of range. */
  function CheckIndex(args: seq<RealmValue>, i: nat): (r: Option<Exception>)
    ensures r.None? <==> i < |args|
  {
    if i >= |args| then Some(ArgumentOutOfRange) else None
  }

  /**
   * `*_for_argument`: the argument itself when its tag is the accessor's,
   * otherwise a type mismatch; the index is checked first.
   */
  function ArgumentFor(args: seq<RealmValue>, i: nat, a: Accessor): (r: Result<RealmValue, Exception>)
    ensures i >= |args| ==> r == Err(ArgumentOutOfRange)
    ensures i < |args| ==> (r.Ok? <==> TypeOfValue(args[i]) == AccessorType(a))
    ensures r.Ok? ==> r.value == args[i]
    ensures i < |args| && r.Err? ==> r.error == TypeMismatch
  {
    match CheckIndex(args, i)
    case Some(e) => Err(e)
    case None =>
      if TypeOfValue(args[i]) == AccessorType(a) then Ok(args[i]) else Err(TypeMismatch)
  }

  /** `is_argument_null`: whether the tag is NULL, after the index check. */
  function IsArgumentNull(args: seq<RealmValue>, i: nat): (r: Result<bool, Exception>)
    ensures i >= |args| <==> r == Err(ArgumentOutOfRange)
    ensures i < |args| ==> r == Ok(args[i].VNull?)
  {
    match CheckIndex(args, i)
    case Some(e) => Err(e)
    case None => Ok(TypeOfValue(args[i]) == TypeNull)
  }

  /**
   * For an argument in range exactly one of the eleven queries succeeds:
   * the null test when the argument is null, otherwise the accessor for
   * its tag.
   */
  lemma AccessorsPartition(args: seq<RealmValue>, i: nat, a: Accessor, b: Accessor)
    requires i < |args|
    ensures IsArgumentNull(args, i) == Ok(true) ==> ArgumentFor(args, i, a).Err?
    ensures ArgumentFor(args, i, a).Ok? && ArgumentFor(args, i, b).Ok? ==> a == b
    ensures IsArgumentNull(args, i) == Ok(false) ==> exists c :: ArgumentFor(args, i, c).Ok?
  {
    if IsArgumentNull(args, i) == Ok(false) {
      var c := match args[i]
        case VInt(_) => LongArg
        case VBool(_) => BoolArg
        case VString(_) => StringArg
        case VBinary(_) => BinaryArg
        case VTimestamp(_, _) => TimestampArg
        case VFloat(_) => FloatArg
        case VDouble(_) => DoubleArg
        case VDecimal128(_) => Decimal128Arg
        case VObjectId(_) => ObjectIdArg
        case _ => ObjectIndexArg;
      assert ArgumentFor(args, i, c).Ok?;
    }
  }

  /** Every accessor failure is classified as "other exception" by `realm_get_last_error`. */
  lemma AccessorErrorsAreOther(args: seq<RealmValue>, i: nat, a: Accessor)
    ensures ArgumentFor(args, i, a).Err? ==> Classify(ArgumentFor(args, i, a).error).error == ErrOtherException
    ensures IsArgumentNull(args, i).Err? ==> Classify(IsArgumentNull(args, i).error).error == ErrOtherException
  {
    ClassifyByException(ArgumentOutOfRange);
    ClassifyByException(TypeMismatch);
  }

  // ---------------------------------------------------------------------
  // realm_query_push_cond

  /** `realm_query_cond_e`, in declaration order. */
  datatype Cond =
    | Equal | NotEqual | Greater | GreaterEqual | Less | LessEqual | Between
    | Contains | Like | BeginsWith | EndsWith | LinksTo

  /** `cond_as_str`: the enumerator's name, always with the `RLM_QUERY_` prefix. */
  function CondAsStr(c: Cond): (s: string)
    ensures |s| > 10 && s[..10] == "RLM_QUERY_"
  {
    match c
    case Equal => "RLM_QUERY_EQUAL"
    case NotEqual => "RLM_QUERY_NOT_EQUAL"
    case Greater => "RLM_QUERY_GREATER"
    case GreaterEqual => "RLM_QUERY_GREATER_EQUAL"
    case Less => "RLM_QUERY_LESS"
    case LessEqual => "RLM_QUERY_LESS_EQUAL"
    case Between => "RLM_QUERY_BETWEEN"
    case Contains => "RLM_QUERY_CONTAINS"
    case Like => "RLM_QUERY_LIKE"
    case BeginsWith => "RLM_QUERY_BEGINS_WITH"
    case EndsWith => "RLM_QUERY_ENDS_WITH"
    case LinksTo => "RLM_QUERY_LINKS_TO"
  }

  /** Distinct conditions have distinct names, so a message names the condition unambiguously. */
  lemma CondNamesDistinct(a: Cond, b: Cond)
    ensures CondAsStr(a) == CondAsStr(b) <==> a == b
  {
    var s, t := CondAsStr(a), CondAsStr(b);
    if a != b {
      assert |s| != |t| || s[10] != t[10] || s[11] != t[11];
    }
  }

  /** The number a run of decimal digits denotes, most significant digit first. */
  function DecimalValue(s: string): nat
    requires forall k :: 0 <= k < |s| ==> '0' <= s[k] <= '9'
  {
    if s == [] then 0 else 10 * DecimalValue(s[..|s| - 1]) + (s[|s| - 1] - '0') as nat
  }

  /**
   * Decimal digits of a `size_t`, as `util::format` prints it: the digits
   * read back as `n`, with no leading zero except in "0" itself.
   */
  function NatToString(n: nat): (s: string)
    ensures |s| >= 1 && forall k :: 0 <= k < |s| ==> '0' <= s[k] <= '9'
    ensures DecimalValue(s) == n
    ensures s[0] == '0' ==> s == "0"
  {
    var d := ['0' + (n % 10) as char];
    if n < 10 then d else NatToString(n / 10) + d
  }

  /** The noun each `forbid_*` handler uses for a value of the given tag. */
  function KindNoun(t: ValueType): string
  {
    match t
    case TypeNull => "NULL"
    case TypeBool => "booleans"
    case TypeString => "strings"
    case TypeBinary => "binary data"
    case TypeTimestamp => "timestamps"
    case TypeLink => "object links"
    case TypeInt => "integers"
    case TypeFloat => "float"
    case TypeDouble => "doubles"
    case TypeDecimal128 => "decimal"
    case TypeObjectId => "object IDs"
  }

  /** The `std::logic_error` a `forbid_*` handler throws; `named` is the condition it was built with. */
  function Unsupported(named: Cond, v: RealmValue): Exception
  {
    LogicError(CondAsStr(named) + " does not support " + KindNoun(TypeOfValue(v)))
  }

  /** The `std::logic_error` of `expect_args`. */
  function WrongArgCount(c: Cond, expected: nat, actual: nat): Exception
  {
    LogicError(CondAsStr(c) + " expects " + NatToString(expected) + " value arguments (got " + NatToString(actual) + ")")
  }

  const WrongLinkTarget: Exception := LogicError("Wrong link target table")

  /**
   * The condition handed to the `Query`: its operator, column and operand
   * values, plus the case-sensitivity flag for the string/binary overloads
   * that take one; `links_to` receives only the target's object key.
   */
  datatype QueryNode =
    | Condition(cond: Cond, column: int, operands: seq<RealmValue>, caseSensitive: Option<bool>)
    | LinksToNode(column: int, objKey: int)

  function Arity(c: Cond): nat
  {
    if c == Between then 2 else 1
  }

  predicate IsStringOrBinary(v: RealmValue)
  {
    v.VString? || v.VBinary?
  }

  predicate IsNumeric(v: RealmValue)
  {
    v.VInt? || v.VFloat? || v.VDouble? || v.VDecimal128?
  }

  /** `flags & RLM_QUERY_CASE_SENSITIVE` on a two's-complement `int`. */
  function CaseSensitive(flags: int): bool
  {
    flags % 2 == 1
  }

  /** EQUAL / NOT_EQUAL: every kind but a link; string and binary take the case flag. */
  function EqualityCond(c: Cond, named: Cond, column: int, v: RealmValue, cs: bool): Result<QueryNode, Exception>
  {
    if v.VLink? then Err(Unsupported(named, v))
    else if IsStringOrBinary(v) then Ok(Condition(c, column, [v], Some(cs)))
    else Ok(Condition(c, column, [v], None))
  }

  /** GREATER / GREATER_EQUAL / LESS / LESS_EQUAL: no null, string, binary or link. */
  function OrderingCond(c: Cond, column: int, v: RealmValue): Result<QueryNode, Exception>
  {
    if v.VNull? || v.VString? || v.VBinary? || v.VLink? then Err(Unsupported(c, v))
    else Ok(Condition(c, column, [v], None))
  }

  /** BETWEEN: `only_numeric` on the first value, then the second must have the same C++ type. */
  function BetweenCond(column: int, v0: RealmValue, v1: RealmValue): Result<QueryNode, Exception>
  {
    if !IsNumeric(v0) then Err(Unsupported(Between, v0))
    else if TypeOfValue(v1) != TypeOfValue(v0) then Err(TypeMismatch)
    else Ok(Condition(Between, column, [v0, v1], None))
  }

  /** CONTAINS / LIKE / BEGINS_WITH / ENDS_WITH: `only_strings_or_binary`. */
  function StringCond(c: Cond, column: int, v: RealmValue, cs: bool): Result<QueryNode, Exception>
  {
    if !IsStringOrBinary(v) then Err(Unsupported(c, v))
    else Ok(Condition(c, column, [v], Some(cs)))
  }

  /** LINKS_TO: `only_links`, and the link's table must be the column's target table when it has one. */
  function LinksToCond(column: int, linkTarget: Option<int>, v: RealmValue): Result<QueryNode, Exception>
  {
    if !v.VLink? then Err(Unsupported(LinksTo, v))
    else if linkTarget.Some? && linkTarget.value != v.targetTable then Err(WrongLinkTarget)
    else Ok(LinksToNode(column, v.target))
  }

  /**
   * `realm_query_push_cond` up to the point where it hands the condition to
   * the query: the argument count first, then the value checks of the
   * condition's visitor. `linkTarget` is the target table key of the
   * column when it is a link column. The final `validate_query` is not
   * part of this model.
   */
  function PushCond(column: int, linkTarget: Option<int>, cond: Cond, values: seq<RealmValue>, flags: int): (r: Result<QueryNode, Exception>)
    ensures |values| != Arity(cond) ==> r == Err(WrongArgCount(cond, Arity(cond), |values|))
  {
    var cs := CaseSensitive(flags);
    if |values| != Arity(cond) then Err(WrongArgCount(cond, Arity(cond), |values|))
    else
      match cond
      case Equal => EqualityCond(Equal, Equal, column, values[0], cs)
      case NotEqual => EqualityCond(NotEqual, Equal, column, values[0], cs)
      case Greater => OrderingCond(cond, column, values[0])
      case GreaterEqual => OrderingCond(cond, column, values[0])
      case Less => OrderingCond(cond, column, values[0])
      case LessEqual => OrderingCond(cond, column, values[0])
      case Between => BetweenCond(column, values[0], values[1])
      case Contains => StringCond(cond, column, values[0], cs)
      case Like => StringCond(cond, column, values[0], cs)
      case BeginsWith => StringCond(cond, column, values[0], cs)
      case EndsWith => StringCond(cond, column, values[0], cs)
      case LinksTo => LinksToCond(column, linkTarget, values[0])
  }

  /** The tags each condition accepts for its (first) value, as a table. */
  function AcceptedTypes(c: Cond): set<ValueType>
  {
    match c
    case Equal | NotEqual =>
      {TypeNull, TypeInt, TypeBool, TypeString, TypeBinary, TypeTimestamp, TypeFloat, TypeDouble, TypeDecimal128, TypeObjectId}
    case Greater | GreaterEqual | Less | LessEqual =>
      {TypeInt, TypeBool, TypeTimestamp, TypeFloat, TypeDouble, TypeDecimal128, TypeObjectId}
    case Between => {TypeInt, TypeFloat, TypeDouble, TypeDecimal128}
    case Contains | Like | BeginsWith | EndsWith => {TypeString, TypeBinary}
    case LinksTo => {TypeLink}
  }

  /** The conditions whose string and binary overloads take the case flag. */
  predicate TakesCaseFlag(c: Cond, v: RealmValue)
  {
    c in {Contains, Like, BeginsWith, EndsWith} || (c in {Equal, NotEqual} && IsStringOrBinary(v))
  }

  /**
   * `push_cond` accepts exactly the arguments the table allows: the right
   * count, an accepted tag, a second BETWEEN value of the same tag, and a
   * link into the column's target table.
   */
  lemma PushCondAcceptance(column: int, linkTarget: Option<int>, cond: Cond, values: seq<RealmValue>, flags: int)
    ensures PushCond(column, linkTarget, cond, values, flags).Ok? <==>
      |values| == Arity(cond) && TypeOfValue(values[0]) in AcceptedTypes(cond) &&
      (cond == Between ==> TypeOfValue(values[1]) == TypeOfValue(values[0])) &&
      (cond == LinksTo ==> linkTarget.None? || linkTarget.value == values[0].targetTable)
  {
  }

  /**
   * An accepted condition carries the values unchanged (the object key for
   * LINKS_TO) and the case flag exactly where the overload takes one.
   */
  lemma PushCondResult(column: int, linkTarget: Option<int>, cond: Cond, values: seq<RealmValue>, flags: int)
    requires PushCond(column, linkTarget, cond, values, flags).Ok?
    ensures cond != LinksTo ==>
      PushCond(column, linkTarget, cond, values, flags) ==
        Ok(Condition(cond, column, values, if TakesCaseFlag(cond, values[0]) then Some(CaseSensitive(flags)) else None))
    ensures cond == LinksTo ==>
      PushCond(column, linkTarget, cond, values, flags) == Ok(LinksToNode(column, values[0].target))
  {
    if cond == Between {
      assert values == [values[0], values[1]];
    } else {
      assert values == [values[0]];
    }
  }

  /**
   * Which exception a rejected condition raises: a value-kind refusal
   * names the condition (NOT_EQUAL's link refusal names EQUAL), a BETWEEN
   * pair of different tags is a type mismatch, and none of them is an
   * invalid-argument error: all are reported as "other exception".
   */
  lemma PushCondErrors(column: int, linkTarget: Option<int>, cond: Cond, values: seq<RealmValue>, flags: int)
    requires |values| == Arity(cond) && TypeOfValue(values[0]) !in AcceptedTypes(cond)
    ensures PushCond(column, linkTarget, cond, values, flags) ==
      Err(Unsupported(if cond == NotEqual then Equal else cond, values[0]))
    ensures Classify(PushCond(column, linkTarget, cond, values, flags).error).error == ErrOtherException
  {
    var named := if cond == NotEqual then Equal else cond;
    assert PushCond(column, linkTarget, cond, values, flags) == Err(Unsupported(named, values[0]));
    ClassifyByException(Unsupported(named, values[0]));
  }

  lemma PushCondMismatch(column: int, linkTarget: Option<int>, values: seq<RealmValue>, flags: int)
    requires |values| == 2 && IsNumeric(values[0]) && TypeOfValue(values[1]) != TypeOfValue(values[0])
    ensures PushCond(column, linkTarget, Between, values, flags) == Err(TypeMismatch)
    ensures Classify(TypeMismatch).error == ErrOtherException
  {
    ClassifyByException(TypeMismatch);
  }

  // ---------------------------------------------------------------------
  // realm_results_min / max / sum / average

  datatype Aggregate = Min | Max | Sum | Average

  /**
   * What the aggregate writes through its two optional out-pointers, given
   * the aggregate's own result: `found` and the value when there is one;
   * otherwise found=false and a NULL value, except `sum`, which writes the
   * integer 0. A null pointer receives nothing (None).
   */
  function AggregateOutputs(agg: Aggregate, x: Option<Mixed>, wantFound: bool, wantValue: bool): (r: (Option<bool>, Option<RealmValue>))
    requires x.Some? ==> Representable(x.value)
    ensures r.0.Some? <==> wantFound
    ensures r.1.Some? <==> wantValue
    ensures wantFound ==> r.0.value == x.Some?
    ensures wantValue && x.Some? ==> FromCapi(r.1.value) == x.value
    ensures wantValue && x.None? ==> r.1.value == if agg == Sum then VInt(0) else VNull
  {
    var found := if wantFound then Some(x.Some?) else None;
    var value :=
      if !wantValue then None
      else if x.Some? then
        CapiRoundTrip(ToCapi(x.value).value, x.value);
        ToCapi(x.value)
      else if agg == Sum then Some(VInt(0))
      else Some(VNull);
    (found, value)
  }

  /** A caller cannot tell an empty sum from a sum of zero by the value alone, only by `found`. */
  lemma EmptySumLooksLikeZero(wantFound: bool)
    ensures AggregateOutputs(Sum, None, wantFound, true).1 == AggregateOutputs(Sum, Some(Int(0)), wantFound, true).1
    ensures wantFound ==> AggregateOutputs(Sum, None, true, true).0 != AggregateOutputs(Sum, Some(Int(0)), true, true).0
  {
  }
}

/**
 * The dynamically typed value `Mixed` and the element order that a Set
 * stores its elements in (`SetElementLessThan<Mixed>` and
 * `SetElementEquals<Mixed>`). The order is part of the file format.
 */
module MixedValues {
  import opened Wrappers

  /** The engine's data-type tags. */
  datatype DataType =
    | TInt | TBool | TString | TBinary | TOldTable | TMixed | TOldDateTime | TTimestamp
    | TFloat | TDouble | TDecimal | TLink | TLinkList | TObjectId | TTypedLink | TUuid

  /** The numeric value of each tag: `a.get_type() < b.get_type()` compares these. */
  function TypeRank(t: DataType): nat
  {
    match t
    case TInt => 0
    case TBool => 1
    case TString => 2
    case TBinary => 4
    case TOldTable => 5
    case TMixed => 6
    case TOldDateTime => 7
    case TTimestamp => 8
    case TFloat => 9
    case TDouble => 10
    case TDecimal => 11
    case TLink => 12
    case TLinkList => 13
    case TObjectId => 15
    case TTypedLink => 16
    case TUuid => 17
  }

  /** The tag with a given rank, if any: the inverse of `TypeRank`. */
  function RankTag(n: nat): Option<DataType>
  {
    match n
    case 0 => Some(TInt)
    case 1 => Some(TBool)
    case 2 => Some(TString)
    case 4 => Some(TBinary)
    case 5 => Some(TOldTable)
    case 6 => Some(TMixed)
    case 7 => Some(TOldDateTime)
    case 8 => Some(TTimestamp)
    case 9 => Some(TFloat)
    case 10 => Some(TDouble)
    case 11 => Some(TDecimal)
    case 12 => Some(TLink)
    case 13 => Some(TLinkList)
    case 15 => Some(TObjectId)
    case 16 => Some(TTypedLink)
    case 17 => Some(TUuid)
    case _ => None
  }

  /** Every tag is recovered from its rank. */
  lemma RankTagRoundTrip(t: DataType)
    ensures RankTag(TypeRank(t)) == Some(t)
  {
  }

  /** Distinct tags have distinct ranks, so the tag comparison is a strict total order. */
  lemma TypeRankInjective(a: DataType, b: DataType)
    ensures TypeRank(a) == TypeRank(b) ==> a == b
  {
    RankTagRoundTrip(a);
    RankTagRoundTrip(b);
  }

  /** Tags whose payload the set comparator refuses (it terminates the process). */
  predicate Fatal(t: DataType)
  {
    t == TOldTable || t == TMixed || t == TOldDateTime || t == TLink || t == TLinkList
  }

  /**
   * A float, double or decimal payload as far as comparison can tell:
   * finite values compare as reals, with the two infinities and NaN.
   */
  datatype Fp = NaN | NegInf | Finite(r: real) | PosInf

  /** IEEE `<`: false whenever either side is NaN. */
  predicate FpLess(a: Fp, b: Fp)
  {
    match (a, b)
    case (NegInf, Finite(_)) => true
    case (NegInf, PosInf) => true
    case (Finite(x), Finite(y)) => x < y
    case (Finite(_), PosInf) => true
    case _ => false
  }

  /** IEEE `==`: NaN equals nothing, not even itself. */
  predicate FpEq(a: Fp, b: Fp)
  {
    !a.NaN? && a == b
  }

  /** Lexicographic `<` over code units (strings, binaries, object ids, UUIDs). */
  predicate LexLess(a: seq<int>, b: seq<int>)
    decreases |a|
  {
    if a == [] then b != []
    else if b == [] then false
    else if a[0] != b[0] then a[0] < b[0]
    else LexLess(a[1..], b[1..])
  }

  /**
   * A dynamically typed value. The last four constructors stand for the
   * tags no well-formed Mixed carries in a set; `Link` is the untyped link.
   */
  datatype Mixed =
    | Null
    | Int(i: int)
    | Bool(b: bool)
    | String(str: seq<int>)
    | Binary(bin: seq<int>)
    | Timestamp(seconds: int, nanos: int)
    | Float(f: Fp)
    | Double(d: Fp)
    | Decimal(dec: Fp)
    | ObjectId(oid: seq<int>)
    | Uuid(uuid: seq<int>)
    | TypedLink(table: int, key: int)
    | Link(target: int)
    | OldTableMarker
    | MixedMarker
    | OldDateTimeMarker
    | LinkListMarker

  function TypeOf(m: Mixed): DataType
    requires !m.Null?
  {
    match m
    case Int(_) => TInt
    case Bool(_) => TBool
    case String(_) => TString
    case Binary(_) => TBinary
    case Timestamp(_, _) => TTimestamp
    case Float(_) => TFloat
    case Double(_) => TDouble
    case Decimal(_) => TDecimal
    case ObjectId(_) => TObjectId
    case Uuid(_) => TUuid
    case TypedLink(_, _) => TTypedLink
    case Link(_) => TLink
    case OldTableMarker => TOldTable
    case MixedMarker => TMixed
    case OldDateTimeMarker => TOldDateTime
    case LinkListMarker => TLinkList
  }

  /** A value the set comparator accepts against anything: null or a non-fatal tag. */
  predicate Storable(m: Mixed)
  {
    m.Null? || !Fatal(TypeOf(m))
  }

  /** The comparator reaches its payload switch only for two non-null values of one tag. */
  predicate Defined(a: Mixed, b: Mixed)
  {
    a.Null? || b.Null? || TypeOf(a) != TypeOf(b) || !Fatal(TypeOf(a))
  }

  predicate HasNaN(m: Mixed)
  {
    (m.Float? && m.f.NaN?) || (m.Double? && m.d.NaN?) || (m.Decimal? && m.dec.NaN?)
  }

  /** Values on which the comparator is a strict total order. */
  predicate Comparable(m: Mixed)
  {
    Storable(m) && !HasNaN(m)
  }

  /** The per-type `<` of two non-null values of the same non-fatal tag. */
  predicate PayloadLess(a: Mixed, b: Mixed)
    requires !a.Null? && !b.Null? && TypeOf(a) == TypeOf(b) && !Fatal(TypeOf(a))
    ensures PayloadLess(a, b) ==> a != b
  {
    match a
    case Int(x) => x < b.i
    case Bool(x) => !x && b.b
    case String(x) => LexIrreflexive(x); LexLess(x, b.str)
    case Binary(x) => LexIrreflexive(x); LexLess(x, b.bin)
    case Timestamp(s, n) => s < b.seconds || (s == b.seconds && n < b.nanos)
    case Float(x) => FpLess(x, b.f)
    case Double(x) => FpLess(x, b.d)
    case Decimal(x) => FpLess(x, b.dec)
    case ObjectId(x) => LexIrreflexive(x); LexLess(x, b.oid)
    case Uuid(x) => LexIrreflexive(x); LexLess(x, b.uuid)
    case TypedLink(t, k) => t < b.table || (t == b.table && k < b.key)
  }

  /** The per-type `==` of two non-null values of the same non-fatal tag. */
  predicate PayloadEq(a: Mixed, b: Mixed)
    requires !a.Null? && !b.Null? && TypeOf(a) == TypeOf(b) && !Fatal(TypeOf(a))
  {
    match a
    case Float(x) => FpEq(x, b.f)
    case Double(x) => FpEq(x, b.d)
    case Decimal(x) => FpEq(x, b.dec)
    case _ => a == b
  }

  /**
   * `SetElementLessThan<Mixed>`: null first, then by tag, then by the tag's
   * own order. A value is never below itself, NaN payloads included.
   */
  predicate Less(a: Mixed, b: Mixed)
    requires Defined(a, b)
    ensures Less(a, b) ==> a != b
  {
    if a.Null? != b.Null? then a.Null?
    else if a.Null? then false
    else if TypeOf(a) != TypeOf(b) then TypeRank(TypeOf(a)) < TypeRank(TypeOf(b))
    else PayloadLess(a, b)
  }

  /**
   * `SetElementEquals<Mixed>`: both null, or one tag and equal payloads.
   * It is identity, except that a NaN payload equals nothing.
   */
  predicate Equals(a: Mixed, b: Mixed)
    requires Defined(a, b)
    ensures Equals(a, b) <==> a == b && !HasNaN(a)
  {
    if a.Null? != b.Null? then false
    else if a.Null? then true
    else if TypeOf(a) != TypeOf(b) then false
    else PayloadEq(a, b)
  }

  // ---------------------------------------------------------------------
  // Lexicographic order

  lemma {:induction false} LexIrreflexive(a: seq<int>)
    ensures !LexLess(a, a)
    decreases |a|
  {
    if a != [] {
      LexIrreflexive(a[1..]);
    }
  }

  lemma {:induction false} LexTransitive(a: seq<int>, b: seq<int>, c: seq<int>)
    requires LexLess(a, b) && LexLess(b, c)
    ensures LexLess(a, c)
    decreases |a|
  {
    if a != [] && b != [] && c != [] && a[0] == b[0] && b[0] == c[0] {
      LexTransitive(a[1..], b[1..], c[1..]);
    }
  }

  lemma {:induction false} LexTotal(a: seq<int>, b: seq<int>)
    ensures a == b || LexLess(a, b) || LexLess(b, a)
    decreases |a|
  {
    if a != [] && b != [] && a[0] == b[0] {
      LexTotal(a[1..], b[1..]);
      if a[1..] == b[1..] {
        assert a == [a[0]] + a[1..] && b == [b[0]] + b[1..];
      }
    }
  }

  lemma LexAsymmetric(a: seq<int>, b: seq<int>)
    requires LexLess(a, b)
    ensures !LexLess(b, a)
  {
    if LexLess(b, a) {
      LexTransitive(a, b, a);
      LexIrreflexive(a);
    }
  }

  // ---------------------------------------------------------------------
  // The comparator as a strict total order

  /** A null is below every non-null value and not below another null. */
  lemma NullFirst(x: Mixed)
    ensures Less(Null, x) <==> !x.Null?
    ensures !Less(x, Null)
  {
  }

  /** Non-null values of different tags are ordered by tag rank alone. */
  lemma CrossTypeOrder(a: Mixed, b: Mixed)
    requires !a.Null? && !b.Null? && TypeOf(a) != TypeOf(b)
    ensures Less(a, b) <==> TypeRank(TypeOf(a)) < TypeRank(TypeOf(b))
  {
  }

  /** ... and so one of them is below the other. */
  lemma CrossTypeTotal(a: Mixed, b: Mixed)
    requires !a.Null? && !b.Null? && TypeOf(a) != TypeOf(b)
    ensures Less(a, b) || Less(b, a)
  {
    CrossTypeOrder(a, b);
    CrossTypeOrder(b, a);
    TypeRankInjective(TypeOf(a), TypeOf(b));
  }

  lemma LessIrreflexive(a: Mixed)
    requires Comparable(a)
    ensures !Less(a, a)
  {
  }

  lemma LessTransitive(a: Mixed, b: Mixed, c: Mixed)
    requires Comparable(a) && Comparable(b) && Comparable(c)
    requires Less(a, b) && Less(b, c)
    ensures Less(a, c)
  {
    if !a.Null? && !b.Null? && !c.Null? && TypeOf(a) == TypeOf(b) == TypeOf(c) {
      match a
      case String(x) => LexTransitive(x, b.str, c.str);
      case Binary(x) => LexTransitive(x, b.bin, c.bin);
      case ObjectId(x) => LexTransitive(x, b.oid, c.oid);
      case Uuid(x) => LexTransitive(x, b.uuid, c.uuid);
      case _ =>
    }
  }

  /** Two distinct comparable values are ordered one way or the other. */
  lemma LessTotal(a: Mixed, b: Mixed)
    requires Comparable(a) && Comparable(b)
    ensures a == b || Less(a, b) || Less(b, a)
  {
    if !a.Null? && !b.Null? {
      TypeRankInjective(TypeOf(a), TypeOf(b));
      if TypeOf(a) == TypeOf(b) {
        match a
        case String(x) => LexTotal(x, b.str);
        case Binary(x) => LexTotal(x, b.bin);
        case ObjectId(x) => LexTotal(x, b.oid);
        case Uuid(x) => LexTotal(x, b.uuid);
        case _ =>
      }
    }
  }

  lemma LessAsymmetric(a: Mixed, b: Mixed)
    requires Comparable(a) && Comparable(b)
    requires Less(a, b)
    ensures !Less(b, a)
  {
    if Less(b, a) {
      LessTransitive(a, b, a);
      LessIrreflexive(a);
    }
  }

  /**
   * On comparable values the set's equality is identity, and it agrees with
   * the order: equal exactly when neither is below the other.
   */
  lemma EqualsConsistent(a: Mixed, b: Mixed)
    requires Comparable(a) && Comparable(b)
    ensures Equals(a, b) <==> a == b
    ensures Equals(a, b) <==> !Less(a, b) && !Less(b, a)
  {
    if a == b {
      LessIrreflexive(a);
      assert Equals(a, b);
    } else {
      LessTotal(a, b);
      assert !Equals(a, b);
    }
  }

  /** A NaN payload breaks that agreement: it is neither below nor equal to itself. */
  lemma NaNIsIncomparable()
    ensures !Less(Double(NaN), Double(NaN)) && !Equals(Double(NaN), Double(NaN))
  {
  }
  // ---------------------------------------------------------------------
  // NaN ordered first

  /**
   * The order sorted storage needs once NaN payloads are admitted: a NaN
   * sits below every other payload of its tag and is equal to itself;
   * everything else compares as `SetElementLessThan<Mixed>` does.
   */
  predicate NaNFirstLess(a: Mixed, b: Mixed)
    requires Defined(a, b)
  {
    if !a.Null? && !b.Null? && TypeOf(a) == TypeOf(b) && (HasNaN(a) || HasNaN(b)) then HasNaN(a) && !HasNaN(b)
    else Less(a, b)
  }

  /** Without NaN payloads the two orders are the same. */
  lemma NaNFirstAgrees(a: Mixed, b: Mixed)
    requires Comparable(a) && Comparable(b)
    ensures NaNFirstLess(a, b) == Less(a, b)
  {
  }

  lemma NaNFirstIrreflexive(a: Mixed)
    requires Storable(a)
    ensures !NaNFirstLess(a, a)
  {
  }

  /** Between non-null values the NaN-first order never goes down in tag rank. */
  lemma NaNFirstRank(a: Mixed, b: Mixed)
    requires Storable(a) && Storable(b) && !a.Null? && !b.Null?
    requires NaNFirstLess(a, b)
    ensures TypeRank(TypeOf(a)) <= TypeRank(TypeOf(b))
  {
    if TypeOf(a) != TypeOf(b) {
      CrossTypeOrder(a, b);
    }
  }

  /** Transitivity when the three values do not all share one tag. */
  lemma NaNFirstTransitiveAcross(a: Mixed, b: Mixed, c: Mixed)
    requires Storable(a) && Storable(b) && Storable(c) && !a.Null? && !b.Null? && !c.Null?
    requires TypeOf(a) != TypeOf(b) || TypeOf(b) != TypeOf(c)
    requires NaNFirstLess(a, b) && NaNFirstLess(b, c)
    ensures NaNFirstLess(a, c)
  {
    NaNFirstRank(a, b);
    NaNFirstRank(b, c);
    TypeRankInjective(TypeOf(a), TypeOf(b));
    TypeRankInjective(TypeOf(b), TypeOf(c));
    TypeRankInjective(TypeOf(a), TypeOf(c));
    CrossTypeOrder(a, c);
  }

  /** Transitivity within one tag when a NaN is involved: only `a` can be the NaN. */
  lemma NaNFirstTransitiveNaN(a: Mixed, b: Mixed, c: Mixed)
    requires Storable(a) && Storable(b) && Storable(c) && !a.Null? && !b.Null? && !c.Null?
    requires TypeOf(a) == TypeOf(b) == TypeOf(c)
    requires HasNaN(a) || HasNaN(b) || HasNaN(c)
    requires NaNFirstLess(a, b) && NaNFirstLess(b, c)
    ensures NaNFirstLess(a, c)
  {
    assert HasNaN(a) && !HasNaN(b);
  }

  lemma NaNFirstTransitive(a: Mixed, b: Mixed, c: Mixed)
    requires Storable(a) && Storable(b) && Storable(c)
    requires NaNFirstLess(a, b) && NaNFirstLess(b, c)
    ensures NaNFirstLess(a, c)
  {
    if a.Null? || b.Null? || c.Null? {
    } else if TypeOf(a) != TypeOf(b) || TypeOf(b) != TypeOf(c) {
      NaNFirstTransitiveAcross(a, b, c);
    } else if HasNaN(a) || HasNaN(b) || HasNaN(c) {
      NaNFirstTransitiveNaN(a, b, c);
    } else {
      LessTransitive(a, b, c);
    }
  }

  lemma NaNFirstTotal(a: Mixed, b: Mixed)
    requires Storable(a) && Storable(b)
    ensures a == b || NaNFirstLess(a, b) || NaNFirstLess(b, a)
  {
    if Comparable(a) && Comparable(b) {
      LessTotal(a, b);
    } else if !a.Null? && !b.Null? && TypeOf(a) != TypeOf(b) {
      CrossTypeTotal(a, b);
    }
  }

  /**
   * Over every storable value, NaN included, the NaN-first order is a strict
   * total order whose equality is identity: what `std::lower_bound` and the
   * set's uniqueness test need of a comparator.
   */
  lemma NaNFirstIsStrictOrder(a: Mixed, b: Mixed, c: Mixed)
    requires Storable(a) && Storable(b) && Storable(c)
    ensures !NaNFirstLess(a, a)
    ensures NaNFirstLess(a, b) && NaNFirstLess(b, c) ==> NaNFirstLess(a, c)
    ensures a == b <==> !NaNFirstLess(a, b) && !NaNFirstLess(b, a)
  {
    NaNFirstIrreflexive(a);
    NaNFirstTotal(a, b);
    if NaNFirstLess(a, b) && NaNFirstLess(b, c) {
      NaNFirstTransitive(a, b, c);
    }
  }
}

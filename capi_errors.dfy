/**
 * The exceptions the C API catches and the translation of the stored
 * exception into a `realm_errno_e` by `realm_get_last_error`.
 */
module CApiErrors {
  import opened Wrappers

  /** The exception classes involved, with their place in the C++ hierarchy. */
  datatype ExceptionClass =
    | StdException          // std::exception
    | StdLogicError         // std::logic_error : std::exception
    | StdInvalidArgument    // std::invalid_argument : std::logic_error
    | StdOutOfRange         // std::out_of_range : std::logic_error
    | ListOutOfBoundsIndex  // List::OutOfBoundsIndexException : std::out_of_range
    | StdRuntimeError       // std::runtime_error : std::exception
    | PegtlParseError       // tao::pegtl::parse_error : std::runtime_error
    | StdBadAlloc           // std::bad_alloc : std::exception
    | NotClonableClass      // NotClonableException : std::exception
    | RealmLogicErrorClass  // realm::LogicError : std::exception
    | ForeignClass          // anything thrown that is not a std::exception

  /** The direct base class, if any. */
  function Base(c: ExceptionClass): Option<ExceptionClass>
  {
    match c
    case StdException => None
    case StdLogicError => Some(StdException)
    case StdInvalidArgument => Some(StdLogicError)
    case StdOutOfRange => Some(StdLogicError)
    case ListOutOfBoundsIndex => Some(StdOutOfRange)
    case StdRuntimeError => Some(StdException)
    case PegtlParseError => Some(StdRuntimeError)
    case StdBadAlloc => Some(StdException)
    case NotClonableClass => Some(StdException)
    case RealmLogicErrorClass => Some(StdException)
    case ForeignClass => None
  }

  /** Distance to the root of the hierarchy, for termination. */
  function Depth(c: ExceptionClass): nat
  {
    match c
    case StdException => 0
    case ForeignClass => 0
    case StdLogicError => 1
    case StdRuntimeError => 1
    case StdBadAlloc => 1
    case NotClonableClass => 1
    case RealmLogicErrorClass => 1
    case StdInvalidArgument => 2
    case StdOutOfRange => 2
    case PegtlParseError => 2
    case ListOutOfBoundsIndex => 3
  }

  /** Whether a `catch (const b&)` clause catches an object of class `c`. */
  predicate DerivesFrom(c: ExceptionClass, b: ExceptionClass)
    decreases Depth(c)
  {
    c == b || (Base(c).Some? && Depth(Base(c).value) < Depth(c) && DerivesFrom(Base(c).value, b))
  }

  /** `LogicError::ErrorKind`, of which the C API throws only `type_mismatch`. */
  datatype LogicErrorKind = TypeMismatchKind

  /** A thrown exception: its class and what `what()` returns. */
  datatype Exception =
    | NotClonable
    | ListOutOfBounds(message: string)
    | QueryParseError(message: string)
    | InvalidArgument(message: string)
    | OutOfRange(message: string)
    | LogicError(message: string)
    | RealmLogicError(kind: LogicErrorKind, message: string)
    | BadAlloc
    | OtherException(message: string)
    | Foreign

  function ClassOf(e: Exception): ExceptionClass
  {
    match e
    case NotClonable => NotClonableClass
    case ListOutOfBounds(_) => ListOutOfBoundsIndex
    case QueryParseError(_) => PegtlParseError
    case InvalidArgument(_) => StdInvalidArgument
    case OutOfRange(_) => StdOutOfRange
    case LogicError(_) => StdLogicError
    case RealmLogicError(_, _) => RealmLogicErrorClass
    case BadAlloc => StdBadAlloc
    case OtherException(_) => StdException
    case Foreign => ForeignClass
  }

  /** `what()`; `NotClonableException` says "Not clonable". */
  function What(e: Exception): string
  {
    match e
    case NotClonable => "Not clonable"
    case BadAlloc => "std::bad_alloc"
    case Foreign => ""
    case _ => e.message
  }

  /** The `realm_errno_e` values the classification produces. */
  datatype Errno =
    | ErrNone | ErrUnknown | ErrOtherException | ErrOutOfMemory | ErrNotClonable
    | ErrInvalidArgument | ErrIndexOutOfBounds | ErrInvalidQueryString

  /** The enumerator's integer value. */
  function ErrnoCode(e: Errno): nat
  {
    match e
    case ErrNone => 0
    case ErrUnknown => 1
    case ErrOtherException => 2
    case ErrOutOfMemory => 3
    case ErrNotClonable => 4
    case ErrInvalidArgument => 14
    case ErrIndexOutOfBounds => 32
    case ErrInvalidQueryString => 33
  }

  /** The fields `realm_get_last_error` fills in: error, message and `kind.code`. */
  datatype ErrorInfo = ErrorInfo(error: Errno, message: string, kindCode: int)

  /**
   * The catch cascade of `realm_get_last_error`: the first clause whose
   * class the exception derives from decides the error number.
   */
  function Classify(e: Exception): (info: ErrorInfo)
    ensures info.kindCode == 0
    ensures info.error != ErrNone
    ensures info.error == ErrUnknown <==> e.Foreign?
    ensures info.message == if e.Foreign? then "Unknown error" else What(e)
  {
    var c := ClassOf(e);
    if DerivesFrom(c, NotClonableClass) then ErrorInfo(ErrNotClonable, What(e), 0)
    else if DerivesFrom(c, ListOutOfBoundsIndex) then ErrorInfo(ErrIndexOutOfBounds, What(e), 0)
    else if DerivesFrom(c, PegtlParseError) then ErrorInfo(ErrInvalidQueryString, What(e), 0)
    else if DerivesFrom(c, StdInvalidArgument) then ErrorInfo(ErrInvalidArgument, What(e), 0)
    else if DerivesFrom(c, StdBadAlloc) then ErrorInfo(ErrOutOfMemory, What(e), 0)
    else if DerivesFrom(c, StdException) then ErrorInfo(ErrOtherException, What(e), 0)
    else ErrorInfo(ErrUnknown, "Unknown error", 0)
  }

  /**
   * The outcome per exception: a list index error keeps its own number
   * although it is also an out_of_range, while a plain out_of_range, a
   * logic_error and realm's LogicError all end up as "other exception".
   */
  lemma ClassifyByException(e: Exception)
    ensures Classify(e).error == match e
      case NotClonable => ErrNotClonable
      case ListOutOfBounds(_) => ErrIndexOutOfBounds
      case QueryParseError(_) => ErrInvalidQueryString
      case InvalidArgument(_) => ErrInvalidArgument
      case BadAlloc => ErrOutOfMemory
      case OutOfRange(_) => ErrOtherException
      case LogicError(_) => ErrOtherException
      case RealmLogicError(_, _) => ErrOtherException
      case OtherException(_) => ErrOtherException
      case Foreign => ErrUnknown
  {
  }

  /** The per-thread slot holding the last exception caught at the API boundary. */
  class LastErrorSlot {
    var last: Option<Exception>

    constructor ()
      ensures last == None
    {
      last := None;
    }

    /**
     * `realm_get_last_error`: false when nothing is stored; otherwise the
     * classification, the stored exception being put back unchanged.
     */
    method GetLastError() returns (found: bool, info: Option<ErrorInfo>)
      modifies this
      ensures found <==> old(last).Some?
      ensures info == if old(last).Some? then Some(Classify(old(last).value)) else None
      ensures last == old(last)
    {
      if last.None? {
        return false, None;
      }
      var e := last.value;
      info := Some(Classify(e));
      last := Some(e);
      found := true;
    }

    /** `realm_clear_last_error`: true when there was something to clear. */
    method ClearLastError() returns (cleared: bool)
      modifies this
      ensures cleared <==> old(last).Some?
      ensures last == None
    {
      cleared := last.Some?;
      last := None;
    }
  }
}

/**
 * Field recognisers and column-type inference of the CSV importer. Fields
 * are C strings (no NUL inside); reading past the end yields the NUL
 * terminator, which `CharAt` models.
 */
module Importer {

  /** The importer settings the recognisers read: `m_empty_as_string_flag` and `Separator`. */
  datatype Config = Config(emptyAsString: bool, separator: char)

  /** The column types the importer infers. */
  datatype ColumnType = BoolType | IntType | FloatType | DoubleType | StringType

  const TWO63: int := 0x8000_0000_0000_0000
  const TWO64: int := 0x1_0000_0000_0000_0000
  const INT64_MIN: int := -TWO63

  /** A C string: no NUL character inside. */
  predicate NoNul(s: string)
  {
    forall k :: 0 <= k < |s| ==> s[k] != '\0'
  }

  /** The character at `i` of a C string, the terminator past its end. */
  function CharAt(s: string, i: nat): char
  {
    if i < |s| then s[i] else '\0'
  }

  // ---------------------------------------------------------------------
  // set_width

  function Spaces(n: nat): (r: string)
    ensures |r| == n && forall k :: 0 <= k < n ==> r[k] == ' '
  {
    if n == 0 then "" else Spaces(n - 1) + " "
  }

  /**
   * `set_width`: truncate with "..." or pad with spaces. For `w < 3` the
   * unsigned `w - 3` wraps, so `substr` keeps the whole string.
   */
  function SetWidth(s: string, w: nat): (r: string)
    ensures |s| <= w || w >= 3 ==> |r| == w
    ensures |s| > w && w >= 3 ==> r == s[..w - 3] + "..."
    ensures |s| > w && w < 3 ==> r == s + "..."
    ensures |s| <= w ==> r[..|s|] == s && forall k :: |s| <= k < w ==> r[k] == ' '
  {
    if |s| > w then
      (if w >= 3 then s[..w - 3] else s) + "..."
    else
      s + Spaces(w - |s|)
  }

  // ---------------------------------------------------------------------
  // is_null

  /** `is_null`: the quick test on the second character never changes the answer. */
  function IsNull(v: string): (r: bool)
    requires NoNul(v)
    ensures r <==> v == "" || v == "NULL" || v == "Null" || v == "null"
  {
    if CharAt(v, 0) == '\0' then true
    else if CharAt(v, 1) != 'u' && CharAt(v, 1) != 'U' then false
    else v == "NULL" || v == "Null" || v == "null"
  }

  // ---------------------------------------------------------------------
  // parse_integer

  predicate IsDigit(c: char)
  {
    '0' <= c <= '9'
  }

  predicate AllDigits(s: string)
  {
    forall k :: 0 <= k < |s| ==> IsDigit(s[k])
  }

  /** The accumulated `10 * x + (c - '0')` over `s`, without any check. */
  function RawValue(s: string): int
    decreases |s|
  {
    if s == [] then 0 else 10 * RawValue(s[..|s| - 1]) + (s[|s| - 1] as int - '0' as int)
  }

  /** The 64-bit two's-complement value of `x`. */
  function Wrap64(x: int): (r: int)
    ensures -TWO63 <= r < TWO63
    ensures -TWO63 <= x < TWO63 ==> r == x
  {
    (x + TWO63) % TWO64 - TWO63
  }

  /** C++ integer division, truncating toward zero. */
  function TruncDiv(a: int, b: int): int
    requires b > 0
  {
    if a >= 0 then a / b else -((-a) / b)
  }

  /** The digits after an optional '+'. */
  function Unsigned(s: string): string
  {
    if |s| > 0 && s[0] == '+' then s[1..] else s
  }

  /**
   * Whether `parse_integer<true>` reports success. Every field it accepts
   * `parse_double<true>` accepts too.
   */
  predicate IntegerOk(cfg: Config, s: string)
    requires NoNul(s)
    ensures IntegerOk(cfg, s) ==> DoubleOk(cfg, s)
  {
    DigitsToEnd(s, SignLength(s));
    if IsNull(s) then !cfg.emptyAsString
    else if s[0] == '-' then AllDigits(s[1..]) && RawValue(s[1..]) <= TWO63
    else AllDigits(Unsigned(s))
  }

  /** What `parse_integer<false>` returns: no checks, 64-bit arithmetic. */
  function UncheckedIntegerValue(s: string): int
  {
    if |s| > 0 && s[0] == '-' then Wrap64(-RawValue(s[1..])) else Wrap64(RawValue(Unsigned(s)))
  }

  lemma RawValueDigits(s: string)
    requires AllDigits(s)
    ensures RawValue(s) >= 0
    decreases |s|
  {
    if s != [] {
      RawValueDigits(s[..|s| - 1]);
    }
  }

  lemma RawValueSnoc(s: string, i: nat)
    requires i < |s|
    ensures RawValue(s[..i + 1]) == 10 * RawValue(s[..i]) + (s[i] as int - '0' as int)
  {
    assert s[..i + 1][..i] == s[..i];
  }

  /** A digit prefix never has a larger value than the whole digit string. */
  lemma {:induction false} RawValuePrefix(s: string, j: nat)
    requires AllDigits(s) && j <= |s|
    ensures RawValue(s[..j]) <= RawValue(s)
    decreases |s| - j
  {
    if j < |s| {
      RawValuePrefix(s, j + 1);
      RawValueSnoc(s, j);
      RawValueDigits(s[..j]);
    } else {
      assert s[..j] == s;
    }
  }

  lemma WrapShift(a: int, k: int)
    ensures Wrap64(a + k * TWO64) == Wrap64(a)
  {
    var q := (a + TWO63) / TWO64;
    var r := (a + TWO63) % TWO64;
    assert a + TWO63 == q * TWO64 + r;
    assert a + k * TWO64 + TWO63 == (q + k) * TWO64 + r;
  }

  /** One accumulation step commutes with wrapping to 64 bits. */
  lemma WrapStep(a: int, y: int, neg: bool)
    ensures Wrap64(10 * Wrap64(a) + (if neg then -y else y)) == Wrap64(10 * a + (if neg then -y else y))
  {
    var q := (a + TWO63) / TWO64;
    assert Wrap64(a) == a - q * TWO64;
    WrapShift(10 * a + (if neg then -y else y), -10 * q);
  }

  /** The underflow test `x < (INT64_MIN + y) / 10` holds exactly when `10 * x - y` underflows. */
  lemma UnderflowTest(x: int, y: int)
    requires x <= 0 && 0 <= y <= 9
    ensures (x < TruncDiv(INT64_MIN + y, 10)) <==> (10 * x - y < INT64_MIN)
  {
    var q := (TWO63 - y) / 10;
    var r := (TWO63 - y) % 10;
    assert TWO63 - y == 10 * q + r;
    assert TruncDiv(INT64_MIN + y, 10) == -q;
  }

  /**
   * The digit loop of `parse_integer` after a '-': checked, it stops at a
   * non-digit or when `10 * x - y` would fall below INT64_MIN.
   */
  method AccumulateNegative(digits: string, canFail: bool) returns (x: int, ok: bool)
    ensures canFail ==> ok == (AllDigits(digits) && RawValue(digits) <= TWO63)
    ensures canFail ==> x == if ok then -RawValue(digits) else 0
    ensures !canFail ==> ok && x == Wrap64(-RawValue(digits))
  {
    x := 0;
    var i := 0;
    while i < |digits|
      invariant 0 <= i <= |digits|
      invariant canFail ==> AllDigits(digits[..i]) && x == -RawValue(digits[..i]) && RawValue(digits[..i]) <= TWO63
      invariant !canFail ==> x == Wrap64(-RawValue(digits[..i]))
    {
      if canFail && !IsDigit(digits[i]) {
        return 0, false;
      }
      var y := digits[i] as int - '0' as int;
      RawValueSnoc(digits, i);
      if canFail {
        RawValueDigits(digits[..i]);
        UnderflowTest(x, y);
        if x < TruncDiv(INT64_MIN + y, 10) {
          if AllDigits(digits) {
            RawValuePrefix(digits, i + 1);
          }
          return 0, false;
        }
      } else {
        WrapStep(-RawValue(digits[..i]), y, true);
      }
      x := Wrap64(10 * x - y);
      i := i + 1;
    }
    assert digits[..i] == digits;
    ok := true;
  }

  /** The digit loop of `parse_integer` without a '-': checked only for digits, wrapping on overflow. */
  method AccumulateUnsigned(digits: string, canFail: bool) returns (x: int, ok: bool)
    ensures canFail ==> ok == AllDigits(digits)
    ensures canFail ==> x == if ok then Wrap64(RawValue(digits)) else 0
    ensures !canFail ==> ok && x == Wrap64(RawValue(digits))
  {
    x := 0;
    var i := 0;
    while i < |digits|
      invariant 0 <= i <= |digits|
      invariant canFail ==> AllDigits(digits[..i])
      invariant x == Wrap64(RawValue(digits[..i]))
    {
      if canFail && !IsDigit(digits[i]) {
        return 0, false;
      }
      var y := digits[i] as int - '0' as int;
      RawValueSnoc(digits, i);
      WrapStep(RawValue(digits[..i]), y, false);
      x := Wrap64(10 * x + y);
      i := i + 1;
    }
    assert digits[..i] == digits;
    ok := true;
  }

  /**
   * `parse_integer<can_fail>`: with `canFail` it reports whether the field
   * is null-like (per the flag) or an optional sign followed by digits, the
   * negative path failing on int64 underflow; on failure it returns 0.
   * The positive path has no overflow check: its value wraps to 64 bits.
   */
  method ParseInteger(cfg: Config, col: string, canFail: bool) returns (x: int, success: bool)
    requires NoNul(col)
    ensures canFail ==> success == IntegerOk(cfg, col)
    ensures canFail && (!success || IsNull(col)) ==> x == 0
    ensures canFail && success && !IsNull(col) && col[0] == '-' ==> x == -RawValue(col[1..])
    ensures canFail && success && !IsNull(col) && col[0] != '-' ==> x == Wrap64(RawValue(Unsigned(col)))
    ensures !canFail ==> success && x == UncheckedIntegerValue(col)
  {
    if canFail && IsNull(col) {
      return 0, !cfg.emptyAsString;
    }
    if |col| > 0 && col[0] == '-' {
      x, success := AccumulateNegative(col[1..], canFail);
    } else {
      x, success := AccumulateUnsigned(Unsigned(col), canFail);
    }
  }

  // ---------------------------------------------------------------------
  // parse_bool

  /** The spelling table, in pairs that the comment calls {true value, false value}. */
  const BoolSpellings: seq<string> :=
    ["True", "False", "true", "false", "TRUE", "FALSE", "1", "0", "Yes", "No", "yes", "no", "YES", "NO"]

  /** The first index of `s` in `table`, or `|table|`. */
  function IndexOf(table: seq<string>, s: string): (r: nat)
    ensures r <= |table|
    ensures r < |table| ==> table[r] == s
    ensures forall j :: 0 <= j < r ==> table[j] != s
    ensures s !in table <==> r == |table|
  {
    if table == [] then 0
    else if table[0] == s then 0
    else 1 + IndexOf(table[1..], s)
  }

  /** `c | 32` on the character code. */
  function OrBit5(c: char): int
  {
    var n := c as int;
    if (n / 32) % 2 == 1 then n else n + 32
  }

  lemma OrBit5Letter(c: char, lower: char)
    requires 'a' <= lower <= 'z'
    ensures OrBit5(c) == lower as int <==> c == lower || c as int == lower as int - 32
  {
  }

  /** The fast rejection on the first character. */
  predicate QuickBool(c: char)
  {
    c == '1' || c == '0' || OrBit5(c) in {'t' as int, 'f' as int, 'y' as int, 'n' as int}
  }

  /** Whether `parse_bool<true>` reports success. */
  predicate BoolOk(cfg: Config, s: string)
    requires NoNul(s)
  {
    if IsNull(s) then !cfg.emptyAsString else s in BoolSpellings
  }

  /** The value `parse_bool<true>` returns for a table spelling: true at odd indices, never off the table. */
  function BoolDetectValue(s: string): (r: bool)
    ensures r ==> s in BoolSpellings
  {
    IndexOf(BoolSpellings, s) % 2 == 1
  }

  /** The value `parse_bool<false>` returns: '1', 't' or 'y' in either case. */
  function BoolConvertValue(s: string): (r: bool)
    ensures r <==> CharAt(s, 0) in {'1', 't', 'T', 'y', 'Y'}
  {
    var c := CharAt(s, 0);
    OrBit5Letter(c, 't');
    OrBit5Letter(c, 'y');
    c == '1' || OrBit5(c) == 't' as int || OrBit5(c) == 'y' as int
  }

  /** No spelling appears twice in the table. */
  lemma SpellingsDistinct()
    ensures forall j, k :: 0 <= j < k < |BoolSpellings| ==> BoolSpellings[j] != BoolSpellings[k]
  {
    forall j, k | 0 <= j < k < |BoolSpellings|
      ensures BoolSpellings[j] != BoolSpellings[k]
    {
      var a, b := BoolSpellings[j], BoolSpellings[k];
      assert |a| != |b| || a[0] != b[0] || (|a| > 1 && a[1] != b[1]);
    }
  }

  /** The first characters of the spellings, and which of them convert to true. */
  lemma SpellingFirstChar(i: nat)
    requires i < |BoolSpellings|
    ensures BoolSpellings[i] != ""
    ensures BoolSpellings[i][0] in {'T', 'F', 't', 'f', '1', '0', 'Y', 'N', 'y', 'n'}
    ensures (i % 2 == 0) <==> BoolSpellings[i][0] in {'1', 't', 'T', 'y', 'Y'}
  {
  }

  lemma QuickBoolLetters(c: char)
    requires c in {'T', 'F', 't', 'f', '1', '0', 'Y', 'N', 'y', 'n'}
    ensures QuickBool(c)
  {
    if c !in {'1', '0'} {
      OrBit5Letter(c, 't');
      OrBit5Letter(c, 'f');
      OrBit5Letter(c, 'y');
      OrBit5Letter(c, 'n');
    }
  }

  /** Each spelling sits at its own index, passes the quick check, and converts to true exactly at even indices. */
  lemma SpellingAt(i: nat)
    requires i < |BoolSpellings|
    ensures IndexOf(BoolSpellings, BoolSpellings[i]) == i
    ensures BoolSpellings[i] != "" && QuickBool(BoolSpellings[i][0])
    ensures BoolConvertValue(BoolSpellings[i]) == (i % 2 == 0)
  {
    SpellingsDistinct();
    SpellingFirstChar(i);
    QuickBoolLetters(BoolSpellings[i][0]);
  }

  /** An index before which `s` does not occur, and at which it does (or the end), is its first index. */
  lemma IndexOfFirst(table: seq<string>, s: string, t: nat)
    requires t <= |table| && forall j :: 0 <= j < t ==> table[j] != s
    requires t < |table| ==> table[t] == s
    ensures IndexOf(table, s) == t
  {
  }

  /** The table scan of `parse_bool<true>`: the first matching index, or the table size. */
  method FindSpelling(col: string) returns (t: nat)
    ensures t == IndexOf(BoolSpellings, col)
  {
    t := 0;
    while t < |BoolSpellings|
      invariant 0 <= t <= |BoolSpellings|
      invariant forall j :: 0 <= j < t ==> BoolSpellings[j] != col
    {
      if col == BoolSpellings[t] {
        IndexOfFirst(BoolSpellings, col, t);
        return;
      }
      t := t + 1;
    }
    IndexOfFirst(BoolSpellings, col, t);
  }

  /**
   * `parse_bool<can_fail>`. Detecting, it succeeds on a null-like field
   * (per the flag) or an exact table spelling, returning true at the odd
   * (second-of-pair) indices; converting, it looks at the first character.
   */
  method ParseBool(cfg: Config, col: string, canFail: bool) returns (value: bool, success: bool)
    requires NoNul(col)
    ensures canFail ==> success == BoolOk(cfg, col)
    ensures canFail && success && !IsNull(col) ==> value == BoolDetectValue(col)
    ensures canFail && (!success || IsNull(col)) ==> !value
    ensures !canFail ==> success && value == BoolConvertValue(col)
  {
    if !canFail {
      return BoolConvertValue(col), true;
    }
    if IsNull(col) {
      return false, !cfg.emptyAsString;
    }
    var c := col[0];
    var lower := OrBit5(c);
    if c != '1' && c != '0' && lower != 't' as int && lower != 'f' as int && lower != 'y' as int && lower != 'n' as int {
      if col in BoolSpellings {
        SpellingAt(IndexOf(BoolSpellings, col));
      }
      return false, false;
    }
    var t := FindSpelling(col);
    if t < |BoolSpellings| {
      return t % 2 == 1, true;
    }
    return false, false;
  }

  // ---------------------------------------------------------------------
  // parse_double / parse_float: only the success flag and the digit count

  /** The length of the run of digits starting at `i`. */
  function DigitRun(s: string, i: nat): (r: nat)
    ensures i + r <= |s| || r == 0
    decreases |s| - i
  {
    if i < |s| && IsDigit(s[i]) then 1 + DigitRun(s, i + 1) else 0
  }

  function SignLength(s: string): nat
  {
    if |s| > 0 && (s[0] == '-' || s[0] == '+') then 1 else 0
  }

  /** A run of digits up to the end of the field is all of it. */
  lemma {:induction false} DigitsToEnd(s: string, i: nat)
    requires i <= |s|
    ensures (forall k :: i <= k < |s| ==> IsDigit(s[k])) ==> DigitRun(s, i) == |s| - i
    decreases |s| - i
  {
    if i < |s| {
      DigitsToEnd(s, i + 1);
    }
  }

  /** Index just after the integer digits. */
  function IntegerPartEnd(s: string): nat
  {
    SignLength(s) + DigitRun(s, SignLength(s))
  }

  /** Whether a radix point (or the separator) follows the integer digits. */
  predicate HasFraction(cfg: Config, s: string)
  {
    var q := IntegerPartEnd(s);
    q < |s| && (s[q] == '.' || s[q] == cfg.separator)
  }

  /** Index just after the mantissa (sign, digits, optional point and digits). */
  function MantissaEnd(cfg: Config, s: string): nat
  {
    var q := IntegerPartEnd(s);
    if HasFraction(cfg, s) then q + 1 + DigitRun(s, q + 1) else q
  }

  /** The significant digits `parse_double` counts: every mantissa digit. */
  function Significants(cfg: Config, s: string): nat
    requires NoNul(s)
  {
    if IsNull(s) then 0
    else DigitRun(s, SignLength(s)) + (if HasFraction(cfg, s) then DigitRun(s, IntegerPartEnd(s) + 1) else 0)
  }

  /**
   * Whether `parse_double<true>` reports success: null-like per the flag, or
   * a mantissa followed by the end, or by 'e'/'E' unless nothing at all
   * precedes the 'e' (what follows the 'e' is never checked).
   */
  predicate DoubleOk(cfg: Config, s: string)
    requires NoNul(s)
    ensures DoubleOk(cfg, s) && !IsNull(s) ==> s[0] in {'-', '+', '.', cfg.separator} || IsDigit(s[0])
  {
    if IsNull(s) then !cfg.emptyAsString
    else
      var r := MantissaEnd(cfg, s);
      if r < |s| && (s[r] == 'e' || s[r] == 'E') then r != 0 else r == |s|
  }

  /** Whether `parse_float<true>` reports success: a double with at most 6 significant digits. */
  predicate FloatOk(cfg: Config, s: string)
    requires NoNul(s)
  {
    DoubleOk(cfg, s) && Significants(cfg, s) <= 6
  }

  /** Scans a run of digits from `i`, counting them. */
  method ScanDigits(s: string, i: nat) returns (j: nat, count: nat)
    requires i <= |s|
    ensures j == i + DigitRun(s, i) && count == DigitRun(s, i)
  {
    j, count := i, 0;
    while j < |s| && IsDigit(s[j])
      invariant i <= j <= |s|
      invariant count == j - i
      invariant DigitRun(s, i) == count + DigitRun(s, j)
      decreases |s| - j
    {
      j, count := j + 1, count + 1;
    }
  }

  /**
   * `parse_double<true>` without the computed value: the success flag and
   * the number of significant digits seen.
   */
  method ParseDouble(cfg: Config, col: string) returns (success: bool, significants: nat)
    requires NoNul(col) && cfg.separator != '\0'
    ensures success == DoubleOk(cfg, col)
    ensures significants == Significants(cfg, col)
  {
    significants := 0;
    if IsNull(col) {
      return !cfg.emptyAsString, 0;
    }
    var i := 0;
    if col[0] == '-' || col[0] == '+' {
      i := 1;
    }
    var n;
    i, n := ScanDigits(col, i);
    significants := n;
    if CharAt(col, i) == '.' || CharAt(col, i) == cfg.separator {
      i, n := ScanDigits(col, i + 1);
      significants := significants + n;
    }
    if CharAt(col, i) == 'e' || CharAt(col, i) == 'E' {
      if i == 0 {
        return false, significants;
      }
      return true, significants;
    } else if CharAt(col, i) != '\0' {
      return false, significants;
    }
    return true, significants;
  }

  /** `parse_float<true>` without the value: fails beyond 6 significant digits. */
  method ParseFloat(cfg: Config, col: string) returns (success: bool)
    requires NoNul(col) && cfg.separator != '\0'
    ensures success == FloatOk(cfg, col)
  {
    var s, significants := ParseDouble(cfg, col);
    success := s && significants <= 6;
  }

  // ---------------------------------------------------------------------
  // Type inference

  /**
   * The type `types` picks for one field: the first of BoolType, IntType, FloatType,
   * DoubleType, StringType whose recogniser succeeds, every recogniser counting as
   * successful on a null-like field when the flag is off.
   */
  function FieldType(cfg: Config, s: string): (r: ColumnType)
    requires NoNul(s)
    ensures r == StringType <==> !(IsNull(s) && !cfg.emptyAsString) && !BoolOk(cfg, s) && !DoubleOk(cfg, s)
    ensures r in {IntType, FloatType, DoubleType} ==> DoubleOk(cfg, s)
  {
    var forced := IsNull(s) && !cfg.emptyAsString;
    var b := forced || BoolOk(cfg, s);
    var i := forced || IntegerOk(cfg, s);
    var f := forced || FloatOk(cfg, s);
    var d := forced || DoubleOk(cfg, s);
    if b then BoolType else if i then IntType else if f then FloatType else if d then DoubleType else StringType
  }

  /** A null-like field is BoolType with the flag off and StringType with it on. */
  lemma NullFieldType(cfg: Config, s: string)
    requires NoNul(s) && IsNull(s)
    ensures FieldType(cfg, s) == if cfg.emptyAsString then StringType else BoolType
  {
  }

  predicate Fields(v: seq<string>)
  {
    forall k :: 0 <= k < |v| ==> NoNul(v[k])
  }

  /** The per-field types of a row. */
  function RowTypes(cfg: Config, v: seq<string>): (r: seq<ColumnType>)
    requires Fields(v)
    ensures |r| == |v| && forall k {:trigger FieldType(cfg, v[k])} :: 0 <= k < |v| ==> r[k] == FieldType(cfg, v[k])
    decreases |v|
  {
    if v == [] then [] else
    var r := RowTypes(cfg, v[..|v| - 1]) + [FieldType(cfg, v[|v| - 1])];
    assert forall k :: 0 <= k < |v| - 1 ==> r[k] == FieldType(cfg, v[..|v| - 1][k]);
    r
  }

  /** One iteration of `types`: run the four recognisers on a field and pick its type. */
  method ClassifyField(cfg: Config, s: string) returns (t: ColumnType)
    requires NoNul(s) && cfg.separator != '\0'
    ensures t == FieldType(cfg, s)
  {
    var _, i := ParseInteger(cfg, s, true);
    var d, _ := ParseDouble(cfg, s);
    var f := ParseFloat(cfg, s);
    var _, b := ParseBool(cfg, s, true);
    if IsNull(s) && !cfg.emptyAsString {
      i, d, f, b := true, true, true, true;
    }
    t := if b then BoolType else if i then IntType else if f then FloatType else if d then DoubleType else StringType;
  }

  /** `types`: the inferred type of every field of a row. */
  method Types(cfg: Config, v: seq<string>) returns (res: seq<ColumnType>)
    requires Fields(v) && cfg.separator != '\0'
    ensures res == RowTypes(cfg, v)
  {
    res := [];
    var t := 0;
    while t < |v|
      invariant 0 <= t <= |v|
      invariant |res| == t && forall k :: 0 <= k < t ==> res[k] == FieldType(cfg, v[k])
    {
      var ty := ClassifyField(cfg, v[t]);
      res := res + [ty];
      t := t + 1;
    }
  }

  /**
   * The per-field decision of `lowest_common`: StringType absorbs everything,
   * DoubleType absorbs the numeric types, FloatType with IntType gives DoubleType, and BoolType
   * results only from two Bools.
   */
  function Join(a: ColumnType, b: ColumnType): (r: ColumnType)
    ensures (a == StringType || b == StringType) <==> r == StringType
    ensures r.BoolType? <==> a.BoolType? && b.BoolType?
    ensures a != StringType && b != StringType && (a == DoubleType || b == DoubleType) ==> r == DoubleType
    ensures (a == FloatType && b == IntType) || (a == IntType && b == FloatType) ==> r == DoubleType
  {
    if a == StringType || b == StringType then StringType
    else if a == DoubleType || b == DoubleType then DoubleType
    else if (a == FloatType && b == IntType) || (b == FloatType && a == IntType) then DoubleType
    else if a == FloatType || b == FloatType then FloatType
    else if a == IntType || b == IntType then IntType
    else BoolType
  }

  /** "Can represent": BoolType below IntType and FloatType, both below DoubleType, all below StringType. */
  predicate Below(a: ColumnType, b: ColumnType)
  {
    a == b || a == BoolType || b == StringType || (b == DoubleType && a != StringType)
  }

  /** A type below either side of a join is below the join. */
  lemma BelowJoin(x: ColumnType, a: ColumnType, b: ColumnType)
    ensures Below(x, a) || x == b ==> Below(x, Join(a, b))
  {
  }

  /** `Join` is symmetric, idempotent, associative, and the least type representing both. */
  lemma JoinIsLeastUpperBound(a: ColumnType, b: ColumnType, c: ColumnType)
    ensures Join(a, b) == Join(b, a) && Join(a, a) == a
    ensures Join(Join(a, b), c) == Join(a, Join(b, c))
    ensures Below(a, Join(a, b)) && Below(b, Join(a, b))
    ensures Below(a, c) && Below(b, c) ==> Below(Join(a, b), c)
  {
  }

  /** Two rows of types joined field by field, over the first row's length. */
  function JoinRows(a: seq<ColumnType>, b: seq<ColumnType>): (r: seq<ColumnType>)
    requires |b| >= |a|
    ensures |r| == |a| && forall k {:trigger r[k]} :: 0 <= k < |a| ==> r[k] == Join(a[k], b[k])
  {
    seq(|a|, k requires 0 <= k < |a| => Join(a[k], b[k]))
  }

  /** `lowest_common`: join two rows of types field by field (over the first row's length). */
  method LowestCommon(types1: seq<ColumnType>, types2: seq<ColumnType>) returns (res: seq<ColumnType>)
    requires |types2| >= |types1|
    ensures res == JoinRows(types1, types2)
  {
    res := [];
    var t := 0;
    while t < |types1|
      invariant 0 <= t <= |types1|
      invariant |res| == t && forall k :: 0 <= k < t ==> res[k] == Join(types1[k], types2[k])
    {
      res := res + [Join(types1[t], types2[t])];
      t := t + 1;
    }
  }

  predicate Rows(payload: seq<seq<string>>)
  {
    forall r :: 0 <= r < |payload| ==> Fields(payload[r])
  }

  function Min(a: nat, b: nat): nat
  {
    if a < b then a else b
  }

  /** Every row in `(begin, stop)` has at least as many fields as row `begin`. */
  predicate WideEnough(payload: seq<seq<string>>, begin: nat, stop: nat)
    requires begin < |payload| && stop <= |payload|
  {
    forall r :: begin < r < stop ==> |payload[r]| >= |payload[begin]|
  }

  /** The per-field types of rows `begin` up to (not including) `stop`, one entry per row. */
  function TypeTable(cfg: Config, payload: seq<seq<string>>, begin: nat, stop: nat): (t: seq<seq<ColumnType>>)
    requires Rows(payload) && begin <= stop <= |payload|
    ensures |t| == stop - begin && forall i :: 0 <= i < |t| ==> |t[i]| == |payload[begin + i]|
    ensures forall r {:trigger RowTypes(cfg, payload[r])} :: begin <= r < stop ==> t[r - begin] == RowTypes(cfg, payload[r])
    decreases stop
  {
    if stop == begin then [] else TypeTable(cfg, payload, begin, stop - 1) + [RowTypes(cfg, payload[stop - 1])]
  }

  /** A non-empty table whose rows are all at least as wide as its first. */
  predicate Widths(table: seq<seq<ColumnType>>)
  {
    |table| > 0 && forall i :: 0 < i < |table| ==> |table[i]| >= |table[0]|
  }

  /** The first `n` rows of a table of types joined field by field, over the first row's width. */
  function Fold(table: seq<seq<ColumnType>>, n: nat): (r: seq<ColumnType>)
    requires Widths(table) && 0 < n <= |table|
    ensures |r| == |table[0]|
    decreases n
  {
    if n == 1 then table[0] else JoinRows(Fold(table, n - 1), table[n - 1])
  }

  /** Every row folded in lies below the fold, field by field. */
  lemma {:induction false} FoldCovers(table: seq<seq<ColumnType>>, n: nat, i: nat, k: nat)
    requires Widths(table) && 0 < n <= |table|
    requires i < n && k < |table[0]|
    ensures k < |table[i]| && Below(table[i][k], Fold(table, n)[k])
    decreases n
  {
    if n > 1 {
      if i < n - 1 {
        FoldCovers(table, n - 1, i, k);
      }
      BelowJoin(table[i][k], Fold(table, n - 1)[k], table[n - 1][k]);
    }
  }

  /** How many rows `detect_scheme` folds: row `begin`, then those after it below `stop`. */
  function Span(begin: nat, stop: nat): nat
  {
    if stop <= begin + 1 then 1 else stop - begin
  }

  /** The table of row types `detect_scheme` folds for a given `stop`. */
  function SchemeTable(cfg: Config, payload: seq<seq<string>>, begin: nat, stop: nat): seq<seq<ColumnType>>
    requires Rows(payload) && begin < |payload| && stop <= |payload|
  {
    TypeTable(cfg, payload, begin, begin + Span(begin, stop))
  }

  /** The rows `detect_scheme` reads are at least as wide as row `begin`. */
  lemma TableWidths(cfg: Config, payload: seq<seq<string>>, begin: nat, stop: nat)
    requires Rows(payload) && begin < |payload| && stop <= |payload|
    requires WideEnough(payload, begin, stop)
    ensures Widths(SchemeTable(cfg, payload, begin, stop))
  {
    var table := SchemeTable(cfg, payload, begin, stop);
    forall i | 0 < i < |table|
      ensures |table[i]| >= |table[0]|
    {
    }
  }

  /** The fold `detect_scheme` computes over rows `[begin, stop)`, or row `begin` alone. */
  function Scheme(cfg: Config, payload: seq<seq<string>>, begin: nat, stop: nat): (r: seq<ColumnType>)
    requires Rows(payload) && begin < |payload| && stop <= |payload|
    requires WideEnough(payload, begin, stop)
    ensures |r| == |payload[begin]|
  {
    TableWidths(cfg, payload, begin, stop);
    Fold(SchemeTable(cfg, payload, begin, stop), Span(begin, stop))
  }

  /** Every row's types lie below the detected scheme, field by field. */
  lemma SchemeCoversRowTypes(cfg: Config, payload: seq<seq<string>>, begin: nat, stop: nat, r: nat, k: nat)
    requires Rows(payload) && begin < |payload| && stop <= |payload|
    requires WideEnough(payload, begin, stop)
    requires begin <= r < stop || r == begin
    requires k < |payload[begin]|
    ensures k < |payload[r]| && Below(RowTypes(cfg, payload[r])[k], Scheme(cfg, payload, begin, stop)[k])
  {
    var table := SchemeTable(cfg, payload, begin, stop);
    TableWidths(cfg, payload, begin, stop);
    FoldCovers(table, |table|, r - begin, k);
    assert table[r - begin] == RowTypes(cfg, payload[r]);
  }

  /** The detected scheme can represent every field of every row it was computed from. */
  lemma SchemeCoversRows(cfg: Config, payload: seq<seq<string>>, begin: nat, stop: nat, r: nat, k: nat)
    requires Rows(payload) && begin < |payload| && stop <= |payload|
    requires WideEnough(payload, begin, stop)
    requires begin <= r < stop || r == begin
    requires k < |payload[begin]|
    ensures k < |payload[r]| && Below(FieldType(cfg, payload[r][k]), Scheme(cfg, payload, begin, stop)[k])
  {
    SchemeCoversRowTypes(cfg, payload, begin, stop, r, k);
  }

  /** The start of `detect_scheme`: the types of row `begin`. */
  method FirstRow(cfg: Config, payload: seq<seq<string>>, begin: nat, ghost stop: nat) returns (res: seq<ColumnType>)
    requires Rows(payload) && begin < |payload| && stop <= |payload| && cfg.separator != '\0'
    requires Widths(SchemeTable(cfg, payload, begin, stop))
    ensures res == Fold(SchemeTable(cfg, payload, begin, stop), 1)
  {
    res := Types(cfg, payload[begin]);
    assert SchemeTable(cfg, payload, begin, stop)[0] == RowTypes(cfg, payload[begin]);
  }

  /** One iteration of `detect_scheme`: join the fold so far with the types of row `t`. */
  method Widen(cfg: Config, payload: seq<seq<string>>, begin: nat, t: nat, ghost stop: nat, ghost n: nat,
               res: seq<ColumnType>) returns (res': seq<ColumnType>)
    requires Rows(payload) && begin < t < stop <= |payload| && cfg.separator != '\0'
    requires Widths(SchemeTable(cfg, payload, begin, stop))
    requires n == t - begin && res == Fold(SchemeTable(cfg, payload, begin, stop), n)
    ensures res' == Fold(SchemeTable(cfg, payload, begin, stop), n + 1)
  {
    assert SchemeTable(cfg, payload, begin, stop)[n] == RowTypes(cfg, payload[t]);
    var t2 := Types(cfg, payload[t]);
    res' := LowestCommon(res, t2);
  }

  /**
   * `detect_scheme`: the types of row `begin` joined with those of each
   * following row below `end` and the payload size.
   */
  method DetectScheme(cfg: Config, payload: seq<seq<string>>, begin: nat, end: nat) returns (res: seq<ColumnType>)
    requires Rows(payload) && begin < |payload| && cfg.separator != '\0'
    requires WideEnough(payload, begin, Min(end, |payload|))
    ensures res == Scheme(cfg, payload, begin, Min(end, |payload|))
  {
    ghost var stop := Min(end, |payload|);
    TableWidths(cfg, payload, begin, stop);
    res := FirstRow(cfg, payload, begin, stop);
    var t := begin + 1;
    ghost var n := 1;
    while t < end && t < |payload|
      invariant n == t - begin && 1 <= n <= Span(begin, stop)
      invariant res == Fold(SchemeTable(cfg, payload, begin, stop), n)
    {
      res := Widen(cfg, payload, begin, t, stop, n, res);
      t, n := t + 1, n + 1;
    }
  }

  /** On every spelling, the detected value is the opposite of the converted value ("True" detects as false). */
  lemma DetectValueInverted(s: string)
    requires s in BoolSpellings
    ensures BoolDetectValue(s) == !BoolConvertValue(s)
  {
    var i := IndexOf(BoolSpellings, s);
    SpellingAt(i);
  }

  /** The evidently intended detected value: true at the even (first-of-pair) indices. */
  function BoolDetectValueIntended(s: string): bool
  {
    IndexOf(BoolSpellings, s) % 2 == 0
  }

  /** The intended detected value agrees with what conversion produces, on every spelling. */
  lemma IntendedDetectAgreesWithConvert(s: string)
    requires s in BoolSpellings
    ensures BoolDetectValueIntended(s) == BoolConvertValue(s)
  {
    var i := IndexOf(BoolSpellings, s);
    SpellingAt(i);
  }
}

# Realm core pieces, modelled in Dafny

This project models five parts of the Realm database and its tightdb predecessor, and proves properties of them.

- **The `Set<T>` collection of Realm core.** A set is a view over an index-addressed backing tree. The tree is kept strictly ascending under the element comparator `SetElementLessThan`, so the set holds no duplicates. Every write is a lower-bound search followed by at most one insert or erase at the index found. Around it sit:
  - lazy creation of the tree (`create`, `ensure_created`);
  - a replication record, emitted before the change;
  - a bump of the owning object's content version, only on a real change.

  The comparator for the dynamic `Mixed` value is part of the file format. It orders null first, then by type tag, then by each type's own order.
- **The CSV importer's field recognisers and column-type inference.** These are `is_null`, `parse_integer`, `parse_bool`, the success flag of `parse_double` and `parse_float`, `set_width`, `types`, `lowest_common` and `detect_scheme`.
- **The link column `ColumnLink`.** A link to row `t` is stored as `t + 1`, so that 0 can mean "no link". Inserting a link records a backlink.
- **The argument checks of the C API.** These cover:
  - the typed accessors over query arguments;
  - the per-condition rules of `realm_query_push_cond`;
  - the out-parameters of the results aggregates;
  - the schema enumerations that copy at most `max` entries into a caller's array;
  - the property lookup;
  - the value-versus-property type check `value_or_object`;
  - the translation of the stored exception into a `realm_errno_e`.
- **The object change-set accessors of the C API.**

## Modules

| file | module | models |
|---|---|---|
| `wrappers.dfy` | `Wrappers` | `Option` and `Result` |
| `mixed.dfy` | `MixedValues` | `Mixed`, the type tags, `SetElementLessThan<Mixed>` and `SetElementEquals<Mixed>` |
| `set.dfy` | `RealmSet` | `Set<T>`, as the class `SetView` |
| `importer.dfy` | `Importer` | the importer's recognisers and type inference |
| `column_link.dfy` | `ColumnLinks` | the class `ColumnLink` |
| `capi_values.dfy` | `CApiValues` | `realm_value_t`, `from_capi` and `to_capi` |
| `capi_errors.dfy` | `CApiErrors` | the exception classes, `realm_get_last_error` and `realm_clear_last_error` |
| `capi_query.dfy` | `CApiQuery` | the argument adapter, `realm_query_push_cond` and the aggregates |
| `capi.dfy` | `CApi` | the schema accessors, `realm_get_property`, `typed_link_to_link` and `value_or_object` |
| `capi_notifications.dfy` | `CApiNotifications` | `realm_object_changes_*` |

### How the set is modelled

- `SetView.elems` is the tree's content, and `valid` says whether the tree exists.
- `version` is the owner's content version.
- `log` holds the records sent to the replication sink; it stays empty when no sink is attached.
- The class invariant says:
  - the content is strictly ascending and admitted by the column's type;
  - replaying the ghost `history` of records on the content the view was bound to gives the current content;
  - the version has grown by exactly one per record.
- A typed set (`Set<int64_t>`, `Set<String>`, ...) is modelled as a set of `Mixed` values that all carry its tag. On those values the `Mixed` order coincides with the type's own `<`.

### Integer width

- `parse_integer` accumulates in `int64_t`. The model writes out C++'s truncating division (`Importer.TruncDiv`). The positive path `x = 10*x + y` has no overflow check, and signed overflow is undefined behaviour in C++; the model's choice for it is the 64-bit two's-complement wrap-around (`Importer.Wrap64`), which is what the usual compilers produce.
- `ColumnLink` stores `size_t` patterns. `Encode` and `Decode` work modulo 2^64.

## Model

| member | source | states |
|---|---|---|
| `MixedValues.RankTagRoundTrip` | src/realm/set.hpp:187-189 | every tag is recovered from its rank by `RankTag` |
| `MixedValues.TypeRankInjective` | src/realm/set.hpp:187-189 | distinct type tags have distinct ranks, so ordering by tag is a strict total order |
| `MixedValues.NullFirst` | src/realm/set.hpp:178-185 | a null is below exactly the non-null values, and nothing is below a null |
| `MixedValues.CrossTypeOrder` | src/realm/set.hpp:187-189 | non-null values of different tags are ordered by tag rank alone |
| `MixedValues.CrossTypeTotal` | src/realm/set.hpp:187-189 | of two non-null values of different tags, one is below the other |
| `MixedValues.LexIrreflexive` | src/realm/set.hpp:196-199 | the byte-wise order of strings and binaries is irreflexive |
| `MixedValues.LexTransitive` | src/realm/set.hpp:196-199 | the byte-wise order is transitive |
| `MixedValues.LexTotal` | src/realm/set.hpp:196-199 | two distinct byte strings are ordered one way or the other |
| `MixedValues.LexAsymmetric` | src/realm/set.hpp:196-199 | the byte-wise order is asymmetric |
| `MixedValues.LessIrreflexive` | src/realm/set.hpp:171-225 | the set comparator is irreflexive on every storable, NaN-free value |
| `MixedValues.LessTransitive` | src/realm/set.hpp:171-225 | the set comparator is transitive across tags and within every tag |
| `MixedValues.LessTotal` | src/realm/set.hpp:171-225 | two distinct comparable values are ordered one way or the other |
| `MixedValues.LessAsymmetric` | src/realm/set.hpp:171-225 | the set comparator is asymmetric |
| `MixedValues.EqualsConsistent` | src/realm/set.hpp:228-282 | the set equality is identity on comparable values and holds exactly when neither value is below the other |
| `MixedValues.NaNIsIncomparable` | src/realm/set.hpp:201-204 | a NaN payload is neither below nor equal to itself, which is why the order lemmas exclude it |
| `MixedValues.Less` | src/realm/set.hpp:171-225 | no value is below itself, NaN payloads included |
| `MixedValues.Equals` | src/realm/set.hpp:228-282 | two values are equal exactly when they are identical and carry no NaN payload |
| `MixedValues.NaNFirstAgrees` | src/realm/set.hpp:171-225 | on NaN-free values the NaN-first order is the set comparator |
| `MixedValues.NaNFirstIrreflexive` | src/realm/set.hpp:202-207 | the NaN-first order is irreflexive on every storable value, NaN included |
| `MixedValues.NaNFirstTransitive` | src/realm/set.hpp:171-225 | the NaN-first order is transitive on every storable value, NaN included |
| `MixedValues.NaNFirstTotal` | src/realm/set.hpp:171-225 | of two distinct storable values, NaN included, one is below the other in the NaN-first order |
| `MixedValues.NaNFirstIsStrictOrder` | src/realm/set.hpp:171-225 | ordering a NaN below every other payload of its tag gives, on every storable value, an irreflexive and transitive order under which two values are incomparable exactly when they are identical |
| `RealmSet.ReplayAllSnoc` | src/realm/set.hpp:327-335 | replaying one more record applies it after the earlier ones |
| `RealmSet.InsertEraseRoundTrip` | src/realm/set.hpp:334-372 | erasing at the index an insert used restores the sequence |
| `RealmSet.AscendingIndexUnique` | src/realm/set.hpp:300-310 | in a strictly ascending sequence a value occupies a single index |
| `RealmSet.InsertKeepsAscending` | src/realm/set.hpp:321-334 | inserting a value between its lower and upper neighbours keeps the sequence strictly ascending |
| `RealmSet.InsertStep` | src/realm/set.hpp:321-336 | inserting an absent admitted value at its lower bound keeps order and admission, and is the outcome `insert` promises |
| `RealmSet.NullSitsFirst` | src/realm/set.hpp:393-403 | a null in a strictly ascending set sits at index 0 |
| `RealmSet.EraseKeepsAscending` | src/realm/set.hpp:363-372 | removing one element keeps the sequence strictly ascending |
| `RealmSet.InsertTwice` | src/realm/set.hpp:321-325 | a second insert of a just-inserted value finds it at the same index and changes nothing |
| `RealmSet.InsertThenErase` | src/realm/set.hpp:355-375 | erasing a just-inserted value succeeds at the same index and restores the previous content |
| `RealmSet.LowerBoundMembership` | src/realm/set.hpp:305-309 | at the lower bound the value is present exactly when it sits there; when it does not, it is below the element there; the comparator's equality there is identity |
| `RealmSet.ProbeLowerBound` | src/realm/set.hpp:305 | the probed index lies in the searched range |
| `RealmSet.ProbeIsPartition` | src/realm/set.hpp:305 | when every "below" outcome comes before every "not below" one, the probes stop at the partition point: all outcomes before it are "below", none after it |
| `RealmSet.AscendingFlagsDescend` | src/realm/set.hpp:171-225 | on strictly ascending NaN-free content the outcomes of `element < v` are "below" up to a point and "not below" after it |
| `RealmSet.InsertAsWritten` | src/realm/set.hpp:312-325 | the content `insert` leaves on any storable content, NaN included, still holds only storable values and holds the inserted one |
| `RealmSet.InsertAsWrittenOnSets` | src/realm/set.hpp:312-325 | on strictly ascending NaN-free content the insert as written keeps the content strictly ascending and holds exactly the old elements and the value |
| `RealmSet.NaNBreaksInsert` | src/realm/set.hpp:202-205 | with NaN payloads the insert as written stores a second NaN beside the first, and after 1.0, NaN, 0.5, 2.0 and 1.0 leaves 2.0 before 1.0 and 1.0 twice |
| `RealmSet.InsertNaNFirst` | src/realm/set.hpp:312-325 | `insert` with the NaN-first comparator and identity as equality: the result holds the inserted value |
| `RealmSet.NaNFirstFlagsDescend` | src/realm/set.hpp:171-225 | on content ascending under the NaN-first order the outcomes of "element below `v`" are "below" up to a point and "not below" after it, NaN included |
| `RealmSet.NaNFirstInsertAt` | src/realm/set.hpp:321-334 | inserting a value at its NaN-first partition point, where it is absent, keeps the content ascending under the NaN-first order |
| `RealmSet.InsertNaNFirstKeepsSet` | src/realm/set.hpp:312-337 | with the NaN-first comparator, `insert` on any storable set, NaN included, keeps it strictly ascending and holds exactly the old elements and the value |
| `RealmSet.LowerBound` | src/realm/set.hpp:305 | binary search returns the index with every earlier element below the value and no later one below it |
| `RealmSet.RecordStep` | src/realm/set.hpp:327-335 | applying one record, appending it to the history (and to the log when replicated) and bumping the version keeps the bookkeeping |
| `RealmSet.EraseStep` | src/realm/set.hpp:363-372 | erasing a present value at its index keeps order and admission, and is the outcome `erase` promises |
| `RealmSet.InsertState` | src/realm/set.hpp:321-336 | inserting an absent admitted value at its lower bound, recorded and with the version bumped, keeps the view invariant |
| `RealmSet.EraseState` | src/realm/set.hpp:363-374 | erasing a present value at its index, recorded and with the version bumped, keeps the view invariant |
| `RealmSet.ClearState` | src/realm/set.hpp:411-417 | emptying the set, recorded and with the version bumped, keeps the view invariant |
| `RealmSet.Locate` | src/realm/set.hpp:300-310 | the lower-bound search: the value is found exactly when it is present, at its index; otherwise every element before the index is below it and the element at the index above it |
| `RealmSet.SetView.constructor` | src/realm/set.hpp:285-292 | a view bound to a column starts from the column's stored content, default value and version, with an empty log |
| `RealmSet.SetView.Create` | src/realm/set.hpp:107-111 | creating the tree makes the set valid and empty |
| `RealmSet.SetView.EnsureCreated` | src/realm/set.hpp:120-125 | the set is valid afterwards exactly when it was before or the owner is alive |
| `RealmSet.SetView.Find` | src/realm/set.hpp:300-310 | returns the index holding the value, or npos when it is absent; nothing changes |
| `RealmSet.SetView.Insert` | src/realm/set.hpp:312-337 | a present value is found at its index and nothing changes; an absent value is placed at its lower bound; the order is kept; exactly one insert record of the pre-state index is logged when replicated; the version is bumped once |
| `RealmSet.SetView.InsertAt` | src/realm/set.hpp:327-336 | the value is inserted at the index, one insert record goes to the history and, when replicated, to the log, the version is bumped once, and the invariant holds |
| `RealmSet.SetView.Erase` | src/realm/set.hpp:355-375 | an absent value gives (npos, false) and nothing changes, tree creation included; a present value is removed from its index; one erase record is logged when replicated; the version is bumped once |
| `RealmSet.SetView.EraseAt` | src/realm/set.hpp:368-374 | the element at the index is removed, one erase record naming it is kept and logged when replicated, the version is bumped once, and the invariant holds |
| `RealmSet.SetView.InsertNull` | src/realm/set.hpp:393-397 | inserts the column's default value with the outcome of `insert`; a null (nullable and Mixed columns) can only land at index 0 |
| `RealmSet.SetView.EraseNull` | src/realm/set.hpp:399-403 | erases the column's default value with the outcome of `erase`; a null can only sit at index 0 |
| `RealmSet.SetView.InsertAny` | src/realm/set.hpp:339-353 | a Mixed set inserts the value itself, and a typed set routes null to `insert_null`, so a null stands for the column's default value; the outcome is that of `insert` on that value |
| `RealmSet.SetView.EraseAny` | src/realm/set.hpp:377-391 | the erasing counterpart of `InsertAny`, with the outcome of `erase` |
| `RealmSet.SetView.Clear` | src/realm/set.hpp:405-418 | the tree is created if missing and ends up empty; a non-empty set logs one clear record and bumps the version once, and an empty one does neither |
| `RealmSet.SetView.ClearAll` | src/realm/set.hpp:411-417 | the set becomes empty, one clear record is kept and logged when replicated, the version is bumped once, and the invariant holds |
| `RealmSet.SetView.AnyTarget` | src/realm/set.hpp:339-391 | the value `insert_any` and `erase_any` act on is admitted by the column; a Mixed set acts on the value itself |
| `RealmSet.SetView.Min` | src/realm/set.hpp:420-435 | the first element and index 0, below every other element, or null and not_found when empty |
| `RealmSet.SetView.Max` | src/realm/set.hpp:437-455 | the last element and its index, above every other element, or null and not_found when empty |
| `RealmSet.SetView.Sort` | src/realm/set.hpp:469-480 | the indices are 0..n-1 ascending or n-1..0 descending, and they list the elements in strictly increasing or decreasing order |
| `RealmSet.SetView.Distinct` | src/realm/set.hpp:482-487 | ascending sort when the order is absent or true, descending when it is false |
| `Importer.SetWidth` | src/tightdb/importer.cpp:12-18 | a longer string is cut to w-3 characters plus "..." (kept whole when w < 3, because `w - 3` wraps); a shorter one is padded with spaces to length w |
| `Importer.Spaces` | src/tightdb/importer.cpp:17 | `n` spaces: the padding `string(w - s.size(), ' ')` |
| `Importer.IsNull` | src/tightdb/importer.cpp:82-94 | true exactly for "", "NULL", "Null" and "null" |
| `Importer.Wrap64` | src/tightdb/importer.cpp:139-147 | the result is a 64-bit signed value, and it equals the input when the input is already one |
| `Importer.IntegerOk` | src/tightdb/importer.cpp:103-153 | every field `parse_integer<true>` accepts, `parse_double<true>` accepts too |
| `Importer.RawValuePrefix` | src/tightdb/importer.cpp:118-131 | a digit prefix never has a larger value than the whole digit string, so one underflow means the whole field underflows |
| `Importer.RawValueSnoc` | src/tightdb/importer.cpp:137-144 | one more digit multiplies the value read so far by ten and adds the digit |
| `Importer.WrapShift` | src/tightdb/importer.cpp:139-147 | adding a multiple of 2^64 does not change the 64-bit wrapped value |
| `Importer.WrapStep` | src/tightdb/importer.cpp:129-145 | one `10*x ± y` step commutes with wrapping to 64 bits |
| `Importer.UnderflowTest` | src/tightdb/importer.cpp:124 | `x < (INT64_MIN + y) / 10` under truncating division holds exactly when `10*x - y` falls below INT64_MIN |
| `Importer.AccumulateNegative` | src/tightdb/importer.cpp:115-134 | checked: succeeds exactly on an all-digit string whose value is at most 2^63, returning its negation, and otherwise returns 0; unchecked: the wrapped negation |
| `Importer.AccumulateUnsigned` | src/tightdb/importer.cpp:136-152 | checked: succeeds exactly on an all-digit string and returns its value wrapped to 64 bits; unchecked: the same value |
| `Importer.ParseInteger` | src/tightdb/importer.cpp:103-153 | a null-like field succeeds exactly when the empty-as-string flag is off, with value 0; otherwise success exactly for an optional sign followed by digits (the negative path failing on underflow), returning the signed value and 0 on failure; unchecked it returns the wrapped value |
| `Importer.IndexOf` | src/tightdb/importer.cpp:181-189 | the first index of the spelling in the table, or the table size exactly when it is absent |
| `Importer.OrBit5Letter` | src/tightdb/importer.cpp:175-176 | `c \| 32` equals a lower-case letter exactly for that letter and its upper-case form |
| `Importer.BoolDetectValue` | src/tightdb/importer.cpp:181-189 | the detected value is true only for a table spelling, never for a field off the table |
| `Importer.BoolConvertValue` | src/tightdb/importer.cpp:194-198 | true exactly when the first character is '1', 't', 'T', 'y' or 'Y' |
| `Importer.SpellingsDistinct` | src/tightdb/importer.cpp:159 | no spelling appears twice in the table |
| `Importer.SpellingFirstChar` | src/tightdb/importer.cpp:158-177 | every spelling is non-empty and starts with one of the letters the quick check lets through; its first character is a true letter exactly at even indices |
| `Importer.QuickBoolLetters` | src/tightdb/importer.cpp:174-178 | every first letter of a spelling passes the quick `c \| 32` check |
| `Importer.SpellingAt` | src/tightdb/importer.cpp:159-189 | every table spelling is found at its own index, passes the quick first-character check, and converts to true exactly at even indices |
| `Importer.IndexOfFirst` | src/tightdb/importer.cpp:181-189 | an index before which no entry matches and at which the entry matches (or the end) is the first index |
| `Importer.FindSpelling` | src/tightdb/importer.cpp:181-191 | the loop returns the first matching index, or the table size |
| `Importer.ParseBool` | src/tightdb/importer.cpp:156-204 | detecting, it succeeds exactly on a null-like field with the flag off or an exact spelling, returning true at odd table indices and false otherwise; converting, it returns the first-character value and always succeeds |
| `Importer.DigitRun` | src/tightdb/importer.cpp:260-277 | a run of digits stays inside the string |
| `Importer.ScanDigits` | src/tightdb/importer.cpp:260-277 | the digit loop stops right after the run of digits, having counted it |
| `Importer.DigitsToEnd` | src/tightdb/importer.cpp:260-277 | a field that is all digits from `i` on has a digit run reaching its end |
| `Importer.DoubleOk` | src/tightdb/importer.cpp:235-324 | an accepted field that is not null-like starts with a sign, a digit, a radix point or the separator |
| `Importer.ParseDouble` | src/tightdb/importer.cpp:235-324 | succeeds exactly on a null-like field with the flag off, or a signed mantissa followed by the end or by an 'e' that is not the first character; counts every mantissa digit as significant |
| `Importer.ParseFloat` | src/tightdb/importer.cpp:211-227 | succeeds exactly when `parse_double` does with at most 6 significant digits |
| `Importer.FieldType` | src/tightdb/importer.cpp:333-351 | a field is typed String exactly when it is neither forced by the null rule nor a bool nor a double; Int, Float and Double fields are all doubles |
| `Importer.NullFieldType` | src/tightdb/importer.cpp:338-351 | a null-like field is typed Bool with the flag off and String with it on |
| `Importer.RowTypes` | src/tightdb/importer.cpp:328-355 | one type per field, each the first recogniser that succeeds |
| `Importer.ClassifyField` | src/tightdb/importer.cpp:333-351 | one iteration of `types` yields the first of Bool, Int, Float, Double, String whose recogniser succeeds |
| `Importer.Types` | src/tightdb/importer.cpp:328-355 | the loop yields the type of every field of the row |
| `Importer.Join` | src/tightdb/importer.cpp:364-381 | String absorbs everything, Double absorbs the numeric types, Float with Int gives Double, and Bool results only from two Bools |
| `Importer.JoinIsLeastUpperBound` | src/tightdb/importer.cpp:358-384 | the per-field join is symmetric, idempotent and associative, and it is the least type representing both |
| `Importer.LowestCommon` | src/tightdb/importer.cpp:358-384 | the loop computes the field-wise join of the two rows |
| `Importer.JoinRows` | src/tightdb/importer.cpp:358-384 | one type per field of the first row, each the join of the two rows' types there |
| `Importer.BelowJoin` | src/tightdb/importer.cpp:362-381 | a type below either side of a join is below the join |
| `Importer.TypeTable` | src/tightdb/importer.cpp:387-397 | one entry per row in the range, each holding that row's types (one per field) |
| `Importer.Fold` | src/tightdb/importer.cpp:392-395 | folding rows with the field-wise join keeps the first row's width |
| `Importer.FoldCovers` | src/tightdb/importer.cpp:392-395 | every row folded in lies below the fold, field by field |
| `Importer.TableWidths` | src/tightdb/importer.cpp:387-397 | when the rows read are at least as wide as row `begin`, so are the table entries |
| `Importer.Scheme` | src/tightdb/importer.cpp:387-397 | the scheme, the fold of the row types over the rows read, has as many types as row `begin` has fields |
| `Importer.SchemeCoversRowTypes` | src/tightdb/importer.cpp:387-397 | every row read is at least as wide as row `begin`, and its type in each column lies below the scheme's |
| `Importer.SchemeCoversRows` | src/tightdb/importer.cpp:387-397 | the detected type of every column can represent the field's own type in every row the scheme was computed from |
| `Importer.FirstRow` | src/tightdb/importer.cpp:389-390 | the types of row `begin` are the fold of the first table entry |
| `Importer.Widen` | src/tightdb/importer.cpp:392-395 | joining the fold so far with the types of row `t` extends the fold by one row |
| `Importer.DetectScheme` | src/tightdb/importer.cpp:387-397 | the loop computes the fold of `lowest_common` over rows [begin, min(end, size)) |
| `Importer.DetectValueInverted` | src/tightdb/importer.cpp:181-198 | on every table spelling, the detected value is the opposite of the converted value |
| `Importer.IntendedDetectAgreesWithConvert` | src/tightdb/importer.cpp:158-198 | the intended detected value (true for the first of each pair) agrees with conversion on every spelling |
| `ColumnLinks.Encode` | src/tightdb/column_link.hpp:120-123 | a stored link is a 64-bit word |
| `ColumnLinks.Decode` | src/tightdb/column_link.hpp:114-118 | a stored word reads back as a 64-bit row index, `value - 1` in `size_t` |
| `ColumnLinks.EncodeRoundTrip` | src/tightdb/column_link.hpp:114-123 | reading back a stored link gives the target row; only the row npos is stored as 0 |
| `ColumnLinks.DecodeRoundTrip` | src/tightdb/column_link.hpp:108-118 | storing what was read gives back the stored word, and a stored 0 reads as npos |
| `ColumnLinks.ColumnLink.Create` | src/tightdb/column_link.hpp:86-90 | `size` rows, all of them null links, with no target table and no backlink column |
| `ColumnLinks.ColumnLink.GetLink` | src/tightdb/column_link.hpp:114-118 | the target whose encoding is the stored value, or npos for a null link |
| `ColumnLinks.ColumnLink.IsNullLink` | src/tightdb/column_link.hpp:108-112 | a row is a null link exactly when `get_link` reads npos |
| `ColumnLinks.ColumnLink.SetTargetTable` | src/tightdb/column_link.hpp:92-96 | only while no table is set; afterwards the target table, as `get_target_table` reads it, is the one given, nothing else changed |
| `ColumnLinks.ColumnLink.GetTargetTable` | src/tightdb/column_link.hpp:98-101 | the table `set_target_table` installed: none on a fresh column, the one given after the call |
| `ColumnLinks.ColumnLink.SetBacklinkColumn` | src/tightdb/column_link.hpp:103-106 | the backlink column becomes the one given, nothing else changed |
| `ColumnLinks.ColumnLink.InsertLink` | src/tightdb/column_link.hpp:120-126 | a row linking to the target is inserted and reads back as that target; earlier rows stay and later rows shift up by one; the backlink (target, row) is recorded |
| `ColumnLinks.ColumnLink.DoNullifyLink` | src/tightdb/column_link.hpp:128-131 | the row becomes a null link and every other row is unchanged |
| `ColumnLinks.ColumnLink.DoUpdateLink` | src/tightdb/column_link.hpp:133-137 | the row reads back as the new target and every other row is unchanged |
| `CApiValues.TypeCode` | src/realm/realm.h:100-112 | the value tags are numbered 0 to 10 |
| `CApiValues.TypeCodeInjective` | src/realm/realm.h:100-112 | distinct tags have distinct numbers |
| `CApiValues.FromCapi` | src/realm/object-store/c_api.cpp:1300-1301 | null maps to null only, and no C value becomes a fatal tag, an untyped link or a UUID |
| `CApiValues.CapiRoundTrip` | src/realm/realm.h:142-159 | converting a C value to `Mixed` and back is the identity, and a representable `Mixed` is the image of exactly its C value |
| `CApiValues.NotRepresentable` | src/realm/object-store/c_api.cpp:1300-1310 | the values without a C representation are exactly the untyped links, UUIDs and the fatal tags |
| `CApiErrors.Classify` | src/realm/object-store/c_api.cpp:342-386 | `kind.code` is 0; the error is "unknown" exactly for a non-standard exception, which gets the message "Unknown error"; any other exception's message is its `what()` |
| `CApiErrors.ClassifyByException` | src/realm/object-store/c_api.cpp:357-381 | the first matching catch clause decides: a list index error keeps its own number though it is an out_of_range, while out_of_range, logic_error and realm's LogicError fall through to "other exception" |
| `CApiErrors.LastErrorSlot.constructor` | src/realm/object-store/c_api.cpp:342-345 | a thread starts with no stored error |
| `CApiErrors.LastErrorSlot.GetLastError` | src/realm/object-store/c_api.cpp:342-389 | false when nothing is stored; otherwise the classification, with the stored exception left in place |
| `CApiErrors.LastErrorSlot.ClearLastError` | src/realm/object-store/c_api.cpp:396-404 | true exactly when something was stored; nothing is stored afterwards |
| `CApiQuery.AccessorType` | src/realm/object-store/c_api/query.cpp:23-112 | no accessor accepts a NULL tag |
| `CApiQuery.CheckIndex` | src/realm/object-store/c_api/query.cpp:17-21 | an index fails with out_of_range exactly when it is at or past the argument count |
| `CApiQuery.ArgumentFor` | src/realm/object-store/c_api/query.cpp:23-112 | the index is checked first; an argument in range is returned unchanged exactly when its tag is the accessor's, and is otherwise a type mismatch |
| `CApiQuery.IsArgumentNull` | src/realm/object-store/c_api/query.cpp:114-118 | out_of_range exactly past the argument count; otherwise whether the tag is NULL |
| `CApiQuery.AccessorsPartition` | src/realm/object-store/c_api/query.cpp:23-118 | for an argument in range exactly one query succeeds: the null test for a null argument, and otherwise the one accessor for its tag |
| `CApiQuery.AccessorErrorsAreOther` | src/realm/object-store/c_api/query.cpp:17-112 | every accessor failure is reported as "other exception" |
| `CApiQuery.CondAsStr` | src/realm/object-store/c_api/query.cpp:436-465 | every condition name is the `RLM_QUERY_` prefix followed by at least one character |
| `CApiQuery.CondNamesDistinct` | src/realm/object-store/c_api/query.cpp:436-465 | distinct conditions have distinct names |
| `CApiQuery.NatToString` | src/realm/object-store/c_api/query.cpp:560-565 | a count is printed as a non-empty run of decimal digits whose value is the count, with no leading zero |
| `CApiQuery.PushCond` | src/realm/object-store/c_api/query.cpp:560-569 | a wrong number of values is refused first, with the "expects N value arguments" message |
| `CApiQuery.PushCondAcceptance` | src/realm/object-store/c_api/query.cpp:467-747 | accepted exactly with the right count, a tag the condition accepts, a BETWEEN second value of the same tag, and a link into the column's target table |
| `CApiQuery.PushCondResult` | src/realm/object-store/c_api/query.cpp:467-747 | an accepted condition carries the values unchanged (the object key for LINKS_TO), and the case flag exactly for the overloads that take it |
| `CApiQuery.PushCondErrors` | src/realm/object-store/c_api/query.cpp:480-558 | a refused value kind raises the logic_error naming the condition (EQUAL for NOT_EQUAL), reported as "other exception" |
| `CApiQuery.PushCondMismatch` | src/realm/object-store/c_api/query.cpp:658-676 | a BETWEEN pair of different tags is a type mismatch, reported as "other exception" |
| `CApiQuery.AggregateOutputs` | src/realm/object-store/c_api/query.cpp:249-343 | each out-pointer given receives a value; found says whether there was a result; the value round-trips to the result, or is NULL when there is none, except for sum, which writes the integer 0 |
| `CApiQuery.EmptySumLooksLikeZero` | src/realm/object-store/c_api/query.cpp:297-319 | an empty sum writes the same value as a sum of zero, and only `found` tells them apart |
| `CApi.TableKeys` | src/realm/object-store/c_api.cpp:670-674 | the table keys, in schema order |
| `CApi.ColumnKeys` | src/realm/object-store/c_api.cpp:779-789 | the column keys, in property order |
| `CApi.CopyBounded` | src/realm/object-store/c_api.cpp:669-676 | copies the source from `start` until `max` entries are in the array; nothing before `start` or past the copied ones is touched |
| `CApi.CopyBoth` | src/realm/object-store/c_api.cpp:742-756 | two bounded copies in a row leave the first min(max, total) entries of the concatenation in the array |
| `CApi.ColumnKeysAppend` | src/realm/object-store/c_api.cpp:779-789 | the keys of persisted then computed properties are the persisted keys followed by the computed keys |
| `CApi.GetClassKeys` | src/realm/object-store/c_api.cpp:663-685 | with a buffer, the first min(max, count) table keys in schema order and their number, nothing written past them; without one, the schema size |
| `CApi.FindSchema` | src/realm/object-store/c_api.cpp:707-725 | a class with the key from the schema, or none exactly when no class has that key |
| `CApi.SchemaForTable` | src/realm/object-store/c_api.cpp:707-725 | a key the group has no table for fails first, with `get_table`'s "No such table exists"; otherwise the first class with the table key, or a logic_error "Class not in schema" |
| `CApi.SchemaErrorsAreOther` | src/realm/object-store/c_api.cpp:713-724 | both lookup failures are reported as "other exception", with different messages |
| `CApi.GetClassProperties` | src/realm/object-store/c_api.cpp:736-768 | a key with no table fails with "No such table exists", and an unknown class with "Class not in schema"; without a buffer, the number of persisted plus computed properties; with one, the first min(max, count) of them in that order |
| `CApi.GetPropertyKeys` | src/realm/object-store/c_api.cpp:770-802 | a key with no table fails with "No such table exists", and an unknown class with "Class not in schema"; without a buffer, twice the persisted count; with one, the first min(max, count) column keys |
| `CApi.PropertyKeyCountAsWritten` | src/realm/object-store/c_api.cpp:795-797 | twice the persisted count, which is the number of properties exactly when the persisted and computed counts are equal |
| `CApi.PropertyKeyCount` | src/realm/object-store/c_api.cpp:779-789 | the number of column keys a large enough buffer receives |
| `CApi.PropertyKeyCountMismatch` | src/realm/object-store/c_api.cpp:795-798 | a class with one computed property and no persisted ones is reported as having 0 keys, while a buffer receives 1 |
| `CApi.PropertyKeyCountIntended` | src/realm/object-store/c_api.cpp:761-798 | the intended count is the number of keys a large enough buffer receives; the as-written count agrees with it only when the persisted and computed counts are equal |
| `CApi.FindProperty` | src/realm/object-store/c_api.cpp:804-830 | a property with the column key from the list, or none exactly when no property has that key |
| `CApi.FindPropertyAppend` | src/realm/object-store/c_api.cpp:813-825 | searching persisted then computed is searching their concatenation |
| `CApi.SearchProperties` | src/realm/object-store/c_api.cpp:813-818 | the loop returns the first property with the column key |
| `CApi.GetProperty` | src/realm/object-store/c_api.cpp:804-830 | a key with no table fails with "No such table exists", and an unknown class with "Class not in schema"; otherwise the first property with the column key, persisted before computed, or a logic_error "Invalid column key" |
| `CApi.TypedLinkToLink` | src/realm/object-store/c_api.cpp:1175-1182 | a typed link becomes its object key, and any other value is unchanged |
| `CApi.TypedLinkToLinkIdempotent` | src/realm/object-store/c_api.cpp:1175-1182 | converting twice is converting once |
| `CApi.ValueOrObject` | src/realm/object-store/c_api.cpp:1215-1312 | null fails with invalid_argument exactly on a non-nullable property and is otherwise forwarded as the property type's empty value; any other value is accepted exactly when its tag maps to the property's base type or that type is Any; a typed link is forwarded as its object; a refused null raises the nullability error, any other refusal the type-mismatch error |
| `CApi.ValueOrObjectErrors` | src/realm/object-store/c_api.cpp:1215-1312 | every refusal is a `std::invalid_argument` and is reported as RLM_ERR_INVALID_ARGUMENT |
| `CApi.ValueOrObjectFromCapi` | src/realm/object-store/c_api.cpp:1238-1298 | a non-null C value is accepted exactly per the tag-to-type table; a link only by an Object or Any property |
| `CApiNotifications.ModifiedKeys` | src/realm/object-store/c_api/notifications.cpp:88-96 | the modified column keys, in iteration order |
| `CApiNotifications.IsDeleted` | src/realm/object-store/c_api/notifications.cpp:72-75 | true exactly when some deletion is recorded |
| `CApiNotifications.NumModifiedProperties` | src/realm/object-store/c_api/notifications.cpp:77-80 | the number of distinct modified column keys |
| `CApiNotifications.DistinctKeysCount` | src/realm/object-store/c_api/notifications.cpp:77-80 | a list of distinct keys has as many keys as entries |
| `CApiNotifications.GetModifiedProperties` | src/realm/object-store/c_api/notifications.cpp:82-97 | without a buffer, the column count and nothing written; with one, the first min(max, count) keys in iteration order, nothing written past them |

## Left out

- MixedValues.Less: `Decimal128`'s `<` is defined in realm-core outside the modelled files; the model assumes it leaves a decimal NaN unordered, as the built-in `<` does for float and double.
- NaN payloads: the order lemmas exclude values with a NaN float, double or decimal payload, on which the comparator is not a strict weak order (`RealmSet.NaNBreaksInsert` shows what the insert as written then does). Float, double and decimal payloads are modelled as reals with two infinities and NaN, not as bit patterns. The strings' `char` signedness is not modelled either: bytes compare as the integers given.
- RealmSet.SetView.Find, RealmSet.SetView.Insert, RealmSet.SetView.Erase, RealmSet.SetView.InsertAny, RealmSet.SetView.EraseAny: require a value without a NaN payload, although `Set<T>` accepts one. On NaN-free values the comparator is the NaN-first order of `MixedValues.NaNFirstIsStrictOrder` (`MixedValues.NaNFirstAgrees`); what the code does with a NaN is modelled by `RealmSet.InsertAsWritten` alone.
- `BPlusTree<T>::default_value` is not part of this model. The view takes it as `nullValue`: null for nullable and Mixed columns, and a value of the column's type otherwise.
- The `BPlusTree` internals, `init_from_parent`, `update_if_needed`, `ensure_writeable` and the owner's `Obj` are not part of this model. They are abstracted as the content sequence, the `valid` flag, the version counter, the log, and the `ownerValid` precondition of the writing methods.
- The debug-only `REALM_ASSERT_DEBUG(!update_if_needed())` checks of `insert` and `erase` are left out.
- The `Set<ObjKey>`, `Set<ObjLink>` and `Set<Mixed>` specialisations of `do_insert` and `do_erase` are not part of this model. They are defined in realm-core outside the modelled files, and they keep backlinks.
- `Set::sum` and `Set::avg` are left out: they delegate to aggregate helpers defined in realm-core outside the modelled files, and the average is floating point.
- The numeric values of `parse_double` and `parse_float` are left out. They are floating point; only the success flag and the significant-digit count are modelled.
- Importer.ParseDouble: models only `parse_double<true>`. The unchecked variant computes only a floating-point value.
- Importer.ParseDouble, Importer.ClassifyField, Importer.Types: the exponent loop is not modelled, so they report success on "1e-9223372036854775808". There `parse_integer<false>` reads the exponent as INT64_MIN, `e = -e` (undefined behaviour) leaves it negative, and `while (e != 1)` then alternates between -1 and -2 without end, so `types` does not return on that field.
- Importer.DetectScheme, Importer.LowestCommon: require every row read to be at least as wide as row `begin`. On a shorter row `lowest_common` reads `types2[t]` past its end, which is undefined behaviour; the tokenizer does not rule such a row out, since a short last record ends at the end of the input.
- `Importer::import`, `import_csv`, `print_col_names` and `print_row` are left out. They are buffered file and console I/O.
- src/tightdb/group.cpp is storage-engine plumbing over allocators and files, and is not modelled.
- `ColumnLink::clear`, `erase`, `move_last_over` and `remove_backlinks` are declared only.
- `ColumnLink`'s underlying `Column` is modelled as a sequence of words. The backlink column is a ghost multiset of `add_backlink` calls.
- c_api/scheduler.cpp, c_api/types.hpp and c_api/util.cpp are wrapper and thread-affinity plumbing.
- The thread-local error storage is a single `LastErrorSlot`. `wrap_err`, which fills it, is defined in realm-core outside the modelled files and is not modelled.
- CApiErrors.Classify: the message of `std::bad_alloc` is implementation-defined; the model uses "std::bad_alloc".
- CApiErrors.LastErrorSlot.GetLastError: `realm_get_last_error` writes through `err` without a null check, although realm.h allows a NULL `err`. The model assumes a buffer is given.
- The query string parser, `parse_and_apply_query` and `validate_query` are left out. They call into realm-core's query parser, which is not modelled.
- `realm_query_push_cond` is modelled up to the node it adds. The `Query` object it mutates is not part of this model, and neither are groups and `push_op`.
- The C++ types behind each tag in `visit_realm_value` are assumed to be one per tag. BETWEEN's "same C++ type" test is modelled as "same tag".
- src/realm/object-store/conversion.hpp is not part of this model. `from_capi` and `to_capi` are assumed to map tag for tag.
- CApi.ValueOrObject: requires a value `from_capi` can produce. The UUID case and the tags that terminate the process are not modelled, and neither is the table lookup behind a typed link.
- The `out_n` null checks of the enumerations are not modelled: the count is always returned.
- CApi.GetClassProperties, CApi.GetPropertyKeys, CApiNotifications.GetModifiedProperties: require a buffer of at least `max` entries, which the C API takes on trust.
- The other c_api.cpp entry points are thin wrappers and are not part of this model. These are open, commit, lists, objects, and query and results construction.
- The tests and the Swift binding are not part of this model.

## Findings

| source | as written | input that shows it | evidently intended | confidence | as-written member | corrected member |
|---|---|---|---|---|---|---|
| src/tightdb/importer.cpp:158-187 | `parse_bool<true>` returns `!((t & 0x1) == 0)`, true at the odd table indices, so "True" detects as false and "False" as true | "True" (index 0) | the comment says the table is pairs of {true value, false value}: true at even indices, agreeing with `parse_bool<false>` | not executed | `Importer.DetectValueInverted` | `Importer.IntendedDetectAgreesWithConvert` |
| src/realm/set.hpp:202-205 | `SetElementLessThan<Mixed>` compares float and double payloads with the built-in `<`, so a NaN is neither below, above nor equal to anything of its tag, and `insert`'s lower-bound search stops being a search | inserting a double NaN twice into an empty `Set<Mixed>` stores it twice; inserting a double NaN, then 0.5, 2.0 and 1.0 as doubles into {1.0} leaves 0.5, 1.0, 2.0, NaN, 1.0 | an order in which NaN has a place, such as below every other payload of its tag, so the set stays sorted and duplicate-free | not executed | `RealmSet.NaNBreaksInsert` | `RealmSet.InsertNaNFirstKeepsSet` |
| src/realm/object-store/c_api.cpp:797 | without a buffer, `realm_get_property_keys` reports `persisted_properties.size() + persisted_properties.size()` | a class with no persisted and one computed property: reports 0, a buffer receives 1 key | persisted plus computed, as `realm_get_class_properties` reports | not executed | `CApi.PropertyKeyCountMismatch` | `CApi.PropertyKeyCountIntended` |

/**
 * The link column of the tightdb core: each row holds a link to a row of
 * a target table, stored as `target_row + 1` in an integer column so that
 * 0 can mean "no link". The stored integers are kept as their unsigned
 * 64-bit patterns, which is how `size_t` arithmetic sees them.
 */
module ColumnLinks {
  import opened Wrappers

  const TWO64: int := 0x1_0000_0000_0000_0000
  /** `size_t(-1)`, what `get_link` yields for a null link. */
  const NPOS: int := TWO64 - 1

  /** A reference to the target table; only its identity matters here. */
  datatype TableRef = TableRef(id: nat)

  /** A `ColumnBackLink` the column points at; only its identity matters here. */
  datatype BacklinkColumnRef = BacklinkColumnRef(id: nat)

  predicate IsWord(v: int)
  {
    0 <= v < TWO64
  }

  /** The stored value for a link to `target`: `target + 1` in `size_t`. */
  function Encode(target: int): (v: int)
    requires IsWord(target)
    ensures IsWord(v)
  {
    (target + 1) % TWO64
  }

  /** The row a stored value designates: `value - 1` in `size_t`. */
  function Decode(v: int): (target: int)
    requires IsWord(v)
    ensures IsWord(target)
  {
    (v + TWO64 - 1) % TWO64
  }

  /**
   * Decoding undoes encoding for every `size_t` row; the only row index
   * whose link reads back as null is `npos` itself.
   */
  lemma EncodeRoundTrip(target: int)
    requires IsWord(target)
    ensures Decode(Encode(target)) == target
    ensures Encode(target) == 0 <==> target == NPOS
  {
  }

  /** Encoding undoes decoding, and a stored 0 decodes to `npos`. */
  lemma DecodeRoundTrip(v: int)
    requires IsWord(v)
    ensures Encode(Decode(v)) == v
    ensures Decode(v) == NPOS <==> v == 0
  {
  }

  class ColumnLink {
    /** The column's integers, as unsigned 64-bit patterns, one per row. */
    var values: seq<int>
    /** `m_target_table`. */
    var targetTable: Option<TableRef>
    /** `m_backlinks`. */
    var backlinkColumn: Option<BacklinkColumnRef>
    /** Every `add_backlink(target, origin)` call made on the backlink column, as (target, origin). */
    ghost var backlinks: multiset<(int, nat)>

    ghost predicate Valid()
      reads this
    {
      forall r :: 0 <= r < |values| ==> IsWord(values[r])
    }

    /** `create(size)` attached to a fresh column: `size` rows filled with 0, so all null. */
    constructor Create(size: nat)
      ensures Valid()
      ensures |values| == size
      ensures forall r :: 0 <= r < size ==> IsNullLink(r)
      ensures targetTable == None && backlinkColumn == None && backlinks == multiset{}
      ensures GetTargetTable() == None
    {
      values := seq(size, _ => 0);
      targetTable := None;
      backlinkColumn := None;
      backlinks := multiset{};
    }

    /** `get_link`: the stored value minus one, so `npos` for a null link. */
    function GetLink(row: nat): (target: int)
      requires Valid() && row < |values|
      reads this
      ensures IsWord(target)
      ensures values[row] != 0 ==> Encode(target) == values[row]
      ensures values[row] == 0 ==> target == NPOS
    {
      DecodeRoundTrip(values[row]);
      Decode(values[row])
    }

    /** `is_null_link`: the stored value is 0, equivalently `get_link` reads `npos`. */
    predicate IsNullLink(row: nat)
      requires Valid() && row < |values|
      reads this
      ensures IsNullLink(row) <==> GetLink(row) == NPOS
    {
      DecodeRoundTrip(values[row]);
      values[row] == 0
    }

    /** `set_target_table`: allowed only while no target table is set. */
    method SetTargetTable(table: TableRef)
      requires targetTable == None
      modifies this
      ensures targetTable == Some(table) && GetTargetTable() == Some(table)
      ensures values == old(values) && backlinkColumn == old(backlinkColumn) && backlinks == old(backlinks)
    {
      targetTable := Some(table);
    }

    /** `get_target_table`: the table `set_target_table` installed, if any. */
    function GetTargetTable(): (r: Option<TableRef>)
      reads this
      ensures r == targetTable
    {
      targetTable
    }

    /** `set_backlink_column`. */
    method SetBacklinkColumn(column: BacklinkColumnRef)
      modifies this
      ensures backlinkColumn == Some(column)
      ensures values == old(values) && targetTable == old(targetTable) && backlinks == old(backlinks)
    {
      backlinkColumn := Some(column);
    }

    /**
     * `insert_link`: insert a row linking to `target` at `row`, shifting
     * later rows up by one, and record the backlink (target, row).
     */
    method InsertLink(row: nat, target: int)
      requires Valid() && row <= |values| && IsWord(target)
      requires backlinkColumn.Some?
      modifies this
      ensures Valid()
      ensures values == old(values[..row]) + [Encode(target)] + old(values[row..])
      ensures GetLink(row) == target
      ensures IsNullLink(row) <==> target == NPOS
      ensures forall r :: 0 <= r < row ==> values[r] == old(values[r])
      ensures forall r :: row < r < |values| ==> values[r] == old(values[r - 1])
      ensures backlinks == old(backlinks) + multiset{(target, row)}
      ensures targetTable == old(targetTable) && backlinkColumn == old(backlinkColumn)
    {
      EncodeRoundTrip(target);
      values := values[..row] + [Encode(target)] + values[row..];
      backlinks := backlinks + multiset{(target, row)};
    }

    /** `do_nullify_link`: make `row` a null link, leaving every other row alone. */
    method DoNullifyLink(row: nat, oldTarget: int)
      requires Valid() && row < |values|
      modifies this
      ensures Valid()
      ensures values == old(values)[row := 0]
      ensures IsNullLink(row)
      ensures targetTable == old(targetTable) && backlinkColumn == old(backlinkColumn) && backlinks == old(backlinks)
    {
      values := values[row := 0];
    }

    /** `do_update_link`: point `row` at `newTarget`, leaving every other row alone. */
    method DoUpdateLink(row: nat, oldTarget: int, newTarget: int)
      requires Valid() && row < |values| && IsWord(newTarget)
      modifies this
      ensures Valid()
      ensures values == old(values)[row := Encode(newTarget)]
      ensures GetLink(row) == newTarget
      ensures targetTable == old(targetTable) && backlinkColumn == old(backlinkColumn) && backlinks == old(backlinks)
    {
      EncodeRoundTrip(newTarget);
      values := values[row := Encode(newTarget)];
    }
  }
}

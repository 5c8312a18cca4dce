/**
 * The object change-set accessors of the C API (`c_api/notifications.cpp`,
 * duplicated in `c_api.cpp`).
 */
module CApiNotifications {
  import CApi

  /**
   * `realm_object_changes_t`: the deleted rows, and the modified columns in
   * the iteration order of the `columns` map (each key once), each with
   * the rows it changed.
   */
  datatype ObjectChanges = ObjectChanges(deletions: set<nat>, columns: seq<(int, set<nat>)>)

  predicate WellFormed(c: ObjectChanges)
  {
    forall j, k :: 0 <= j < k < |c.columns| ==> c.columns[j].0 != c.columns[k].0
  }

  /** The modified column keys, in iteration order. */
  function ModifiedKeys(c: ObjectChanges): (keys: seq<int>)
    ensures |keys| == |c.columns| && forall k :: 0 <= k < |keys| ==> keys[k] == c.columns[k].0
  {
    seq(|c.columns|, k requires 0 <= k < |c.columns| => c.columns[k].0)
  }

  /** `realm_object_changes_is_deleted`: some deletion was recorded. */
  function IsDeleted(c: ObjectChanges): (r: bool)
    ensures r <==> exists row :: row in c.deletions
  {
    c.deletions != {}
  }

  /** `realm_object_changes_get_num_modified_properties`: one per modified column. */
  function NumModifiedProperties(c: ObjectChanges): (n: nat)
    ensures WellFormed(c) ==> n == |set k | 0 <= k < |c.columns| :: c.columns[k].0|
  {
    if WellFormed(c) then
      DistinctKeysCount(c.columns);
      |c.columns|
    else
      |c.columns|
  }

  lemma {:induction false} DistinctKeysCount(cols: seq<(int, set<nat>)>)
    requires forall j, k :: 0 <= j < k < |cols| ==> cols[j].0 != cols[k].0
    ensures |set k | 0 <= k < |cols| :: cols[k].0| == |cols|
  {
    if cols != [] {
      var init := cols[..|cols| - 1];
      DistinctKeysCount(init);
      var last := cols[|cols| - 1].0;
      assert (set k | 0 <= k < |cols| :: cols[k].0) == (set k | 0 <= k < |init| :: init[k].0) + {last};
      assert last !in (set k | 0 <= k < |init| :: init[k].0);
    }
  }

  /**
   * `realm_object_changes_get_modified_properties`: without a buffer, the
   * column count and nothing written; with one, the first min(max, count)
   * column keys in iteration order, nothing written past them.
   */
  method GetModifiedProperties(c: ObjectChanges, outProperties: array?<int>, max: nat) returns (n: nat)
    requires outProperties != null ==> outProperties.Length >= max
    modifies outProperties
    ensures outProperties == null ==> n == NumModifiedProperties(c)
    ensures outProperties != null ==> n == CApi.Min(max, NumModifiedProperties(c))
    ensures outProperties != null ==>
              outProperties[..n] == ModifiedKeys(c)[..n] && outProperties[n..] == old(outProperties[n..])
  {
    if outProperties == null {
      return |c.columns|;
    }
    n := CApi.CopyBounded(ModifiedKeys(c), outProperties, 0, max);
  }
}

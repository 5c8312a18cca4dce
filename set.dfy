/**
 * The sorted, duplicate-free Set collection: a view over an index-addressed
 * backing sequence that it keeps strictly ascending under the Mixed order.
 * Every operation is a lower-bound search followed by at most one insert or
 * erase at the index found; around it sit lazy creation of the backing
 * storage, the replication record emitted before the change, and the owner's
 * content-version bump.
 */
module RealmSet {
  import opened MixedValues
  import opened Wrappers

  /** `npos` and `not_found`: `size_t(-1)`. */
  const NPOS: int := 0xFFFF_FFFF_FFFF_FFFF

  /** A replication record: insert or erase at an index of the pre-state, or clear. */
  datatype Instr = InsertInstr(index: nat, value: Mixed) | EraseInstr(index: nat, value: Mixed) | ClearInstr

  /** `Set<Mixed>`, or a set whose elements all carry one tag (`Set<int64_t>`, ...). */
  datatype ElementType = AnyMixed | Typed(t: DataType)

  /** Strictly ascending under the set comparator, hence free of duplicates. */
  ghost predicate StrictlyAscending(s: seq<Mixed>)
  {
    && (forall k :: 0 <= k < |s| ==> Comparable(s[k]))
    && (forall i, j {:trigger Less(s[i], s[j])} :: 0 <= i < j < |s| ==> Less(s[i], s[j]))
  }

  /** The values a column of this element type and nullability can hold. */
  ghost predicate AdmitsFor(et: ElementType, nullable: bool, v: Mixed)
  {
    && Comparable(v)
    && match et
       case AnyMixed => true
       case Typed(t) => if v.Null? then nullable else TypeOf(v) == t
  }

  /** Every element is a value the column admits. */
  ghost predicate AllAdmitted(et: ElementType, nullable: bool, s: seq<Mixed>)
  {
    forall k {:trigger AdmitsFor(et, nullable, s[k])} :: 0 <= k < |s| ==> AdmitsFor(et, nullable, s[k])
  }

  /** What applying a record to a backing sequence does. */
  function Replay(s: seq<Mixed>, r: Instr): seq<Mixed>
  {
    match r
    case InsertInstr(i, v) => if i <= |s| then s[..i] + [v] + s[i..] else s
    case EraseInstr(i, _) => if i < |s| then s[..i] + s[i + 1..] else s
    case ClearInstr => []
  }

  /** Applying a whole history of records, oldest first. */
  function ReplayAll(s: seq<Mixed>, h: seq<Instr>): seq<Mixed>
    decreases |h|
  {
    if h == [] then s else Replay(ReplayAll(s, h[..|h| - 1]), h[|h| - 1])
  }

  lemma ReplayAllSnoc(s: seq<Mixed>, h: seq<Instr>, r: Instr)
    ensures ReplayAll(s, h + [r]) == Replay(ReplayAll(s, h), r)
  {
    assert (h + [r])[..|h|] == h;
  }

  /**
   * The bookkeeping around the content: the history replays the baseline to
   * the content, the version counts the records, and the log is the history
   * when a replication sink is attached.
   */
  ghost predicate Recorded(elems: seq<Mixed>, baseline: seq<Mixed>, history: seq<Instr>, version: nat,
                           baseVersion: nat, log: seq<Instr>, replicated: bool)
  {
    && ReplayAll(baseline, history) == elems
    && version == baseVersion + |history|
    && log == (if replicated then history else [])
  }

  /** Applying one record, logging it and bumping the version keeps the bookkeeping. */
  lemma RecordStep(elems: seq<Mixed>, baseline: seq<Mixed>, history: seq<Instr>, version: nat,
                   baseVersion: nat, log: seq<Instr>, replicated: bool, r: Instr)
    requires Recorded(elems, baseline, history, version, baseVersion, log, replicated)
    ensures Recorded(Replay(elems, r), baseline, history + [r], version + 1, baseVersion,
                     log + (if replicated then [r] else []), replicated)
  {
    ReplayAllSnoc(baseline, history, r);
  }

  /** The outcome `insert` promises: a present value is found, an absent one is placed. */
  ghost predicate Inserted(before: seq<Mixed>, after: seq<Mixed>, v: Mixed, idx: int, inserted: bool)
  {
    if v in before then
      !inserted && 0 <= idx < |before| && before[idx] == v && after == before
    else
      inserted && 0 <= idx <= |before| && after == before[..idx] + [v] + before[idx..]
  }

  /** The outcome `erase` promises: a present value is removed, an absent one reported. */
  ghost predicate Erased(before: seq<Mixed>, after: seq<Mixed>, v: Mixed, idx: int, erased: bool)
  {
    if v in before then
      erased && 0 <= idx < |before| && before[idx] == v && after == before[..idx] + before[idx + 1..]
    else
      !erased && idx == NPOS && after == before
  }

  /** Erasing at the index an insert used undoes the insert. */
  lemma InsertEraseRoundTrip(s: seq<Mixed>, i: nat, v: Mixed)
    requires i <= |s|
    ensures Replay(Replay(s, InsertInstr(i, v)), EraseInstr(i, v)) == s
  {
    var t := s[..i] + [v] + s[i..];
    assert t[..i] == s[..i];
    assert t[i + 1..] == s[i..];
    assert s[..i] + s[i..] == s;
  }

  /** In a strictly ascending sequence a value sits at one index only. */
  lemma AscendingIndexUnique(s: seq<Mixed>, i: int, j: int)
    requires StrictlyAscending(s)
    requires 0 <= i < |s| && 0 <= j < |s| && s[i] == s[j]
    ensures i == j
  {
    if i < j || j < i {
      LessIrreflexive(s[i]);
    }
  }

  /** Inserting a value between its lower and upper neighbours keeps the order. */
  lemma InsertKeepsAscending(s: seq<Mixed>, i: nat, v: Mixed)
    requires StrictlyAscending(s) && Comparable(v) && i <= |s|
    requires forall k :: 0 <= k < i ==> Less(s[k], v)
    requires i < |s| ==> Less(v, s[i])
    ensures StrictlyAscending(s[..i] + [v] + s[i..])
  {
    var t := s[..i] + [v] + s[i..];
    assert forall k :: 0 <= k < |t| ==> t[k] == (if k < i then s[k] else if k == i then v else s[k - 1]);
    forall k | i < k < |s|
      ensures Less(v, s[k])
    {
      LessTransitive(v, s[i], s[k]);
    }
    forall p, q | 0 <= p < i < q < |t|
      ensures Less(t[p], t[q])
    {
      LessTransitive(s[p], v, s[q - 1]);
    }
  }

  /** Everything an insert at the lower bound of an absent value establishes. */
  lemma InsertStep(s: seq<Mixed>, i: nat, v: Mixed, et: ElementType, nullable: bool)
    requires StrictlyAscending(s) && i <= |s|
    requires AllAdmitted(et, nullable, s)
    requires AdmitsFor(et, nullable, v) && v !in s
    requires forall k :: 0 <= k < i ==> Less(s[k], v)
    requires i < |s| ==> Less(v, s[i])
    ensures StrictlyAscending(s[..i] + [v] + s[i..])
    ensures AllAdmitted(et, nullable, s[..i] + [v] + s[i..])
    ensures Inserted(s, s[..i] + [v] + s[i..], v, i, true)
  {
    InsertKeepsAscending(s, i, v);
    var t := s[..i] + [v] + s[i..];
    assert forall k :: 0 <= k < |t| ==> t[k] == (if k < i then s[k] else if k == i then v else s[k - 1]);
  }

  /** A null in a strictly ascending sequence can only be its first element. */
  lemma NullSitsFirst(s: seq<Mixed>, idx: int)
    requires StrictlyAscending(s) && 0 <= idx < |s| && s[idx] == Null
    ensures idx == 0
  {
    NullFirst(s[0]);
  }

  lemma EraseKeepsAscending(s: seq<Mixed>, i: nat)
    requires StrictlyAscending(s) && i < |s|
    ensures StrictlyAscending(s[..i] + s[i + 1..])
  {
    var t := s[..i] + s[i + 1..];
    assert forall k :: 0 <= k < |t| ==> t[k] == (if k < i then s[k] else s[k + 1]);
  }

  /** Everything erasing the element at the index of a present value establishes. */
  lemma EraseStep(s: seq<Mixed>, i: nat, v: Mixed, et: ElementType, nullable: bool)
    requires StrictlyAscending(s) && i < |s| && s[i] == v
    requires AllAdmitted(et, nullable, s)
    ensures StrictlyAscending(s[..i] + s[i + 1..])
    ensures AllAdmitted(et, nullable, s[..i] + s[i + 1..])
    ensures Erased(s, s[..i] + s[i + 1..], v, i, true)
  {
    EraseKeepsAscending(s, i);
    var t := s[..i] + s[i + 1..];
    assert forall k :: 0 <= k < |t| ==> t[k] == (if k < i then s[k] else s[k + 1]);
  }

  /**
   * Inserting a value twice: the first call places it at index i, the second
   * finds it at i and changes nothing.
   */
  lemma InsertTwice(s: seq<Mixed>, s1: seq<Mixed>, s2: seq<Mixed>, v: Mixed, i: int, j: int, b: bool)
    requires StrictlyAscending(s1)
    requires Inserted(s, s1, v, i, true) && Inserted(s1, s2, v, j, b)
    ensures j == i && !b && s2 == s1
  {
    assert s1[i] == v;
    AscendingIndexUnique(s1, i, j);
  }

  /** Erasing a value just inserted removes it from the index it was placed at. */
  lemma InsertThenErase(s: seq<Mixed>, s1: seq<Mixed>, s2: seq<Mixed>, v: Mixed, i: int, k: int, e: bool)
    requires StrictlyAscending(s1)
    requires Inserted(s, s1, v, i, true) && Erased(s1, s2, v, k, e)
    ensures e && k == i && s2 == s
  {
    assert s1[i] == v;
    AscendingIndexUnique(s1, i, k);
    InsertEraseRoundTrip(s, i, v);
  }

  /** At a lower bound `i`, the value is present exactly when it sits at `i`; otherwise it is below `s[i]`. */
  lemma LowerBoundMembership(s: seq<Mixed>, v: Mixed, i: nat)
    requires StrictlyAscending(s) && Comparable(v) && i <= |s|
    requires forall k :: 0 <= k < i ==> Less(s[k], v)
    requires forall k :: i <= k < |s| ==> !Less(s[k], v)
    ensures (v in s) <==> (i < |s| && s[i] == v)
    ensures i < |s| && s[i] != v ==> Less(v, s[i])
    ensures i < |s| ==> (Equals(s[i], v) <==> s[i] == v)
  {
    LessIrreflexive(v);
    if i < |s| {
      LessTotal(s[i], v);
      EqualsConsistent(s[i], v);
    }
    if v in s {
      var k :| 0 <= k < |s| && s[k] == v;
      if k > i {
        assert Less(s[i], s[k]);
      }
    }
  }

  /** Every element is a value the comparator can be applied to. */
  ghost predicate AllStorable(s: seq<Mixed>)
  {
    forall k :: 0 <= k < |s| ==> Storable(s[k])
  }

  /** The outcomes of `element < v` along the content. */
  function BelowFlags(s: seq<Mixed>, v: Mixed): (f: seq<bool>)
    requires AllStorable(s) && Storable(v)
    ensures |f| == |s| && forall k :: 0 <= k < |s| ==> f[k] == Less(s[k], v)
  {
    seq(|s|, k requires 0 <= k < |s| => Less(s[k], v))
  }

  /**
   * The probes of `std::lower_bound` as libstdc++ and libc++ make them, over
   * the outcomes `f` of `element < v`: halve [lo, hi) at its middle and keep
   * the half that can hold the first element not below `v`. When the
   * outcomes descend this is the partition point; on content holding a NaN
   * it is wherever the probes lead.
   */
  function ProbeLowerBound(f: seq<bool>, lo: nat, hi: nat): (i: nat)
    requires lo <= hi <= |f|
    ensures lo <= i <= hi
    decreases hi - lo
  {
    if lo == hi then lo
    else
      var mid := (lo + hi) / 2;
      if f[mid] then ProbeLowerBound(f, mid + 1, hi) else ProbeLowerBound(f, lo, mid)
  }

  /** Every true outcome comes before every false one. */
  ghost predicate Descending(f: seq<bool>)
  {
    forall i, j :: 0 <= i <= j < |f| && f[j] ==> f[i]
  }

  /** On descending outcomes the probes find the partition point of [lo, hi). */
  lemma {:induction false} ProbeIsPartition(f: seq<bool>, lo: nat, hi: nat)
    requires Descending(f) && lo <= hi <= |f|
    ensures forall k :: lo <= k < ProbeLowerBound(f, lo, hi) ==> f[k]
    ensures forall k :: ProbeLowerBound(f, lo, hi) <= k < hi ==> !f[k]
    decreases hi - lo
  {
    if lo < hi {
      var mid := (lo + hi) / 2;
      if f[mid] {
        ProbeIsPartition(f, mid + 1, hi);
      } else {
        ProbeIsPartition(f, lo, mid);
      }
    }
  }

  /** On strictly ascending NaN-free content the outcomes of `element < v` descend. */
  lemma AscendingFlagsDescend(s: seq<Mixed>, v: Mixed)
    requires StrictlyAscending(s) && Comparable(v)
    ensures AllStorable(s) && Descending(BelowFlags(s, v))
  {
    assert AllStorable(s);
    var f := BelowFlags(s, v);
    forall i, j | 0 <= i < j < |f| && f[j]
      ensures f[i]
    {
      LessTransitive(s[i], s[j], v);
    }
  }

  /**
   * The content `insert` leaves, on any storable content: the value is
   * placed at the probed index unless `SetElementEquals` holds there.
   */
  function InsertAsWritten(s: seq<Mixed>, v: Mixed): (r: seq<Mixed>)
    requires AllStorable(s) && Storable(v)
    ensures AllStorable(r) && v in r
  {
    var i := ProbeLowerBound(BelowFlags(s, v), 0, |s|);
    if i < |s| && Equals(s[i], v) then s
    else
      var r := s[..i] + [v] + s[i..];
      assert forall k :: 0 <= k < |r| ==> r[k] == (if k < i then s[k] else if k == i then v else s[k - 1]);
      assert r[i] == v;
      r
  }

  /** Splicing `v` in at `i` adds `v` and keeps every old element. */
  lemma SpliceElements(s: seq<Mixed>, i: nat, v: Mixed)
    requires i <= |s|
    ensures forall x :: x in s[..i] + [v] + s[i..] <==> x == v || x in s
  {
    assert s == s[..i] + s[i..];
  }

  /**
   * On NaN-free sets the code as written is the set insert the model's
   * `SetView.Insert` performs: the result is still strictly ascending and
   * holds exactly the old elements and `v`.
   */
  lemma InsertAsWrittenOnSets(s: seq<Mixed>, v: Mixed)
    requires StrictlyAscending(s) && Comparable(v)
    ensures StrictlyAscending(InsertAsWritten(s, v))
    ensures forall x :: x in InsertAsWritten(s, v) <==> x == v || x in s
  {
    AscendingFlagsDescend(s, v);
    ProbeIsPartition(BelowFlags(s, v), 0, |s|);
    var i := ProbeLowerBound(BelowFlags(s, v), 0, |s|);
    if !(i < |s| && Equals(s[i], v)) {
      if i < |s| {
        LessTotal(s[i], v);
      }
      InsertKeepsAscending(s, i, v);
      SpliceElements(s, i, v);
    }
  }

  /** Strictly ascending under the NaN-first order, hence free of duplicates, NaN included. */
  ghost predicate NaNFirstAscending(s: seq<Mixed>)
  {
    && AllStorable(s)
    && (forall i, j {:trigger NaNFirstLess(s[i], s[j])} :: 0 <= i < j < |s| ==> NaNFirstLess(s[i], s[j]))
  }

  /** The outcomes of "element below `v`" under the NaN-first order. */
  function NaNFirstFlags(s: seq<Mixed>, v: Mixed): (f: seq<bool>)
    requires AllStorable(s) && Storable(v)
    ensures |f| == |s| && forall k :: 0 <= k < |s| ==> f[k] == NaNFirstLess(s[k], v)
  {
    seq(|s|, k requires 0 <= k < |s| => NaNFirstLess(s[k], v))
  }

  /**
   * `insert` with the NaN-first comparator: the same probes and the same
   * "already there" test, with identity as the equality.
   */
  function InsertNaNFirst(s: seq<Mixed>, v: Mixed): (r: seq<Mixed>)
    requires AllStorable(s) && Storable(v)
    ensures v in r
  {
    var i := ProbeLowerBound(NaNFirstFlags(s, v), 0, |s|);
    if i < |s| && s[i] == v then s
    else
      var r := s[..i] + [v] + s[i..];
      assert r[i] == v;
      r
  }

  /** On NaN-first-ascending content the outcomes of "element below `v`" descend. */
  lemma NaNFirstFlagsDescend(s: seq<Mixed>, v: Mixed)
    requires NaNFirstAscending(s) && Storable(v)
    ensures Descending(NaNFirstFlags(s, v))
  {
    var f := NaNFirstFlags(s, v);
    forall i, j | 0 <= i < j < |f| && f[j]
      ensures f[i]
    {
      NaNFirstTransitive(s[i], s[j], v);
    }
  }

  /** Inserting `v` at the NaN-first partition point, where `v` is absent, keeps the order. */
  lemma NaNFirstInsertAt(s: seq<Mixed>, i: nat, v: Mixed)
    requires NaNFirstAscending(s) && Storable(v) && i <= |s|
    requires forall k :: 0 <= k < i ==> NaNFirstLess(s[k], v)
    requires i < |s| ==> s[i] != v && !NaNFirstLess(s[i], v)
    ensures NaNFirstAscending(s[..i] + [v] + s[i..])
  {
    var r := s[..i] + [v] + s[i..];
    assert forall k :: 0 <= k < |r| ==> r[k] == (if k < i then s[k] else if k == i then v else s[k - 1]);
    if i < |s| {
      NaNFirstTotal(s[i], v);
      forall k | i < k < |s|
        ensures NaNFirstLess(v, s[k])
      {
        NaNFirstTransitive(v, s[i], s[k]);
      }
    }
    forall p, q | 0 <= p < i < q < |r|
      ensures NaNFirstLess(r[p], r[q])
    {
      NaNFirstTransitive(s[p], v, s[q - 1]);
    }
  }

  /**
   * With the NaN-first comparator `insert` keeps a set on any storable
   * content, NaN included: still strictly ascending, holding exactly the old
   * elements and `v`.
   */
  lemma InsertNaNFirstKeepsSet(s: seq<Mixed>, v: Mixed)
    requires NaNFirstAscending(s) && Storable(v)
    ensures NaNFirstAscending(InsertNaNFirst(s, v))
    ensures forall x :: x in InsertNaNFirst(s, v) <==> x == v || x in s
  {
    NaNFirstFlagsDescend(s, v);
    ProbeIsPartition(NaNFirstFlags(s, v), 0, |s|);
    var i := ProbeLowerBound(NaNFirstFlags(s, v), 0, |s|);
    if !(i < |s| && s[i] == v) {
      NaNFirstInsertAt(s, i, v);
      SpliceElements(s, i, v);
    }
  }

  /**
   * With NaN payloads the comparator is not a strict weak order and
   * `insert` stops keeping a set: a second NaN is stored beside the first,
   * and once a NaN sits in front of 1.0, inserting 0.5, 2.0 and 1.0 leaves
   * 2.0 before 1.0 and 1.0 twice.
   */
  lemma NaNBreaksInsert()
    ensures InsertAsWritten(InsertAsWritten([], Double(NaN)), Double(NaN)) == [Double(NaN), Double(NaN)]
    ensures var s1 := InsertAsWritten([Double(Finite(1.0))], Double(NaN));
            var s2 := InsertAsWritten(s1, Double(Finite(0.5)));
            var s3 := InsertAsWritten(s2, Double(Finite(2.0)));
            InsertAsWritten(s3, Double(Finite(1.0))) ==
              [Double(Finite(0.5)), Double(Finite(1.0)), Double(Finite(2.0)), Double(NaN), Double(Finite(1.0))]
  {
    NaNTwice();
    NaNStep1();
    NaNStep2();
    NaNStep3();
    NaNStep4();
  }

  /** A second NaN is not found, so it is stored again. */
  lemma NaNTwice()
    ensures InsertAsWritten([], Double(NaN)) == [Double(NaN)]
    ensures InsertAsWritten([Double(NaN)], Double(NaN)) == [Double(NaN), Double(NaN)]
  {
    InsertStepAsWritten([], Double(NaN), 0, [Double(NaN)]);
    InsertStepAsWritten([Double(NaN)], Double(NaN), 0, [Double(NaN), Double(NaN)]);
  }

  lemma NaNStep1()
    ensures InsertAsWritten([Double(Finite(1.0))], Double(NaN)) == [Double(NaN), Double(Finite(1.0))]
  {
    InsertStepAsWritten([Double(Finite(1.0))], Double(NaN), 0, [Double(NaN), Double(Finite(1.0))]);
  }

  lemma NaNStep2()
    ensures InsertAsWritten([Double(NaN), Double(Finite(1.0))], Double(Finite(0.5)))
         == [Double(Finite(0.5)), Double(NaN), Double(Finite(1.0))]
  {
    InsertStepAsWritten([Double(NaN), Double(Finite(1.0))], Double(Finite(0.5)), 0,
      [Double(Finite(0.5)), Double(NaN), Double(Finite(1.0))]);
  }

  lemma NaNStep3()
    ensures InsertAsWritten([Double(Finite(0.5)), Double(NaN), Double(Finite(1.0))], Double(Finite(2.0)))
         == [Double(Finite(0.5)), Double(Finite(2.0)), Double(NaN), Double(Finite(1.0))]
  {
    InsertStepAsWritten([Double(Finite(0.5)), Double(NaN), Double(Finite(1.0))], Double(Finite(2.0)), 1,
      [Double(Finite(0.5)), Double(Finite(2.0)), Double(NaN), Double(Finite(1.0))]);
  }

  lemma NaNStep4()
    ensures InsertAsWritten([Double(Finite(0.5)), Double(Finite(2.0)), Double(NaN), Double(Finite(1.0))], Double(Finite(1.0)))
         == [Double(Finite(0.5)), Double(Finite(1.0)), Double(Finite(2.0)), Double(NaN), Double(Finite(1.0))]
  {
    InsertStepAsWritten([Double(Finite(0.5)), Double(Finite(2.0)), Double(NaN), Double(Finite(1.0))], Double(Finite(1.0)), 1,
      [Double(Finite(0.5)), Double(Finite(1.0)), Double(Finite(2.0)), Double(NaN), Double(Finite(1.0))]);
  }

  /** One insert, as written, that the probes place at `i` next to no equal element. */
  lemma InsertStepAsWritten(s: seq<Mixed>, v: Mixed, i: nat, r: seq<Mixed>)
    requires AllStorable(s) && Storable(v) && i <= |s|
    requires ProbeLowerBound(BelowFlags(s, v), 0, |s|) == i
    requires !(i < |s| && Equals(s[i], v)) && r == s[..i] + [v] + s[i..]
    ensures InsertAsWritten(s, v) == r
  {
  }


  /**
   * `std::lower_bound` with the set comparator: the first index whose element
   * is not below `v`.
   */
  method LowerBound(s: seq<Mixed>, v: Mixed) returns (lo: nat)
    requires StrictlyAscending(s) && Comparable(v)
    ensures lo <= |s|
    ensures forall k :: 0 <= k < lo ==> Less(s[k], v)
    ensures forall k :: lo <= k < |s| ==> !Less(s[k], v)
  {
    var hi := |s|;
    lo := 0;
    while lo < hi
      invariant 0 <= lo <= hi <= |s|
      invariant forall k :: 0 <= k < lo ==> Less(s[k], v)
      invariant forall k :: hi <= k < |s| ==> !Less(s[k], v)
      decreases hi - lo
    {
      var mid := (lo + hi) / 2;
      if Less(s[mid], v) {
        forall k | lo <= k <= mid
          ensures Less(s[k], v)
        {
          if k < mid {
            LessTransitive(s[k], s[mid], v);
          }
        }
        lo := mid + 1;
      } else {
        forall k | mid <= k < hi
          ensures !Less(s[k], v)
        {
          if k > mid && Less(s[k], v) {
            LessTransitive(s[mid], s[k], v);
          }
        }
        hi := mid;
      }
    }
  }

  /** The invariant of a view's state, over its fields' values. */
  ghost predicate ViewState(et: ElementType, nullable: bool, nullValue: Mixed, valid: bool, elems: seq<Mixed>,
                            baseline: seq<Mixed>, history: seq<Instr>, version: nat, baseVersion: nat,
                            log: seq<Instr>, replicated: bool)
  {
    && (et.Typed? ==> !Fatal(et.t))
    && AdmitsFor(et, nullable, nullValue) && ((nullable || et.AnyMixed?) ==> nullValue == Null)
    && StrictlyAscending(elems)
    && AllAdmitted(et, nullable, elems)
    && (!valid ==> elems == [])
    && Recorded(elems, baseline, history, version, baseVersion, log, replicated)
  }

  /** An insert at the lower bound of an absent value, recorded, keeps the invariant. */
  lemma InsertState(et: ElementType, nullable: bool, nullValue: Mixed, elems: seq<Mixed>,
                    baseline: seq<Mixed>, history: seq<Instr>, version: nat, baseVersion: nat,
                    log: seq<Instr>, replicated: bool, i: nat, v: Mixed)
    requires ViewState(et, nullable, nullValue, true, elems, baseline, history, version, baseVersion, log, replicated)
    requires i <= |elems| && AdmitsFor(et, nullable, v) && v !in elems
    requires forall k :: 0 <= k < i ==> Less(elems[k], v)
    requires i < |elems| ==> Less(v, elems[i])
    ensures ViewState(et, nullable, nullValue, true, elems[..i] + [v] + elems[i..], baseline,
                      history + [InsertInstr(i, v)], version + 1, baseVersion,
                      log + (if replicated then [InsertInstr(i, v)] else []), replicated)
    ensures Inserted(elems, elems[..i] + [v] + elems[i..], v, i, true)
  {
    InsertStep(elems, i, v, et, nullable);
    RecordStep(elems, baseline, history, version, baseVersion, log, replicated, InsertInstr(i, v));
  }

  /** Erasing a present value at its index, recorded, keeps the invariant. */
  lemma EraseState(et: ElementType, nullable: bool, nullValue: Mixed, valid: bool, elems: seq<Mixed>,
                   baseline: seq<Mixed>, history: seq<Instr>, version: nat, baseVersion: nat,
                   log: seq<Instr>, replicated: bool, i: nat, v: Mixed)
    requires ViewState(et, nullable, nullValue, valid, elems, baseline, history, version, baseVersion, log, replicated)
    requires i < |elems| && elems[i] == v
    ensures ViewState(et, nullable, nullValue, valid, elems[..i] + elems[i + 1..], baseline,
                      history + [EraseInstr(i, v)], version + 1, baseVersion,
                      log + (if replicated then [EraseInstr(i, v)] else []), replicated)
    ensures Erased(elems, elems[..i] + elems[i + 1..], v, i, true)
  {
    EraseStep(elems, i, v, et, nullable);
    RecordStep(elems, baseline, history, version, baseVersion, log, replicated, EraseInstr(i, v));
  }

  /** Clearing a non-empty set, recorded, keeps the invariant. */
  lemma ClearState(et: ElementType, nullable: bool, nullValue: Mixed, elems: seq<Mixed>,
                   baseline: seq<Mixed>, history: seq<Instr>, version: nat, baseVersion: nat,
                   log: seq<Instr>, replicated: bool)
    requires ViewState(et, nullable, nullValue, true, elems, baseline, history, version, baseVersion, log, replicated)
    ensures ViewState(et, nullable, nullValue, true, [], baseline, history + [ClearInstr], version + 1, baseVersion,
                      log + (if replicated then [ClearInstr] else []), replicated)
  {
    RecordStep(elems, baseline, history, version, baseVersion, log, replicated, ClearInstr);
  }

  /**
   * The search every Set operation starts with: `std::lower_bound` with the
   * set comparator, then `SetElementEquals` on the element found there.
   */
  method Locate(s: seq<Mixed>, v: Mixed) returns (i: nat, found: bool)
    requires StrictlyAscending(s) && Comparable(v)
    ensures i <= |s|
    ensures found <==> v in s
    ensures found ==> i < |s| && s[i] == v
    ensures !found ==> (forall k :: 0 <= k < i ==> Less(s[k], v)) && (i < |s| ==> Less(v, s[i]))
  {
    i := LowerBound(s, v);
    LowerBoundMembership(s, v, i);
    found := i < |s| && Equals(s[i], v);
  }

  /**
   * A Set view bound to one column of one object. `elems` is the backing
   * tree's content, `valid` says whether the tree exists, `version` is the
   * owner's content version and `log` what was sent to the replication sink.
   */
  class SetView {
    const elementType: ElementType
    const nullable: bool
    /** Whether the owning object is alive (and the transaction writable). */
    const ownerValid: bool
    /** Whether the owner has a replication sink attached. */
    const replicated: bool
    /**
     * `BPlusTree<T>::default_value(nullable)`: null for a nullable or Mixed
     * column, the type's zero value otherwise.
     */
    const nullValue: Mixed

    var elems: seq<Mixed>
    var valid: bool
    var version: nat
    var log: seq<Instr>

    /** The content when the view was bound, and every change made since. */
    ghost var baseline: seq<Mixed>
    ghost var baseVersion: nat
    ghost var history: seq<Instr>

    ghost predicate Admits(v: Mixed)
    {
      AdmitsFor(elementType, nullable, v)
    }

    ghost predicate Valid()
      reads this
    {
      ViewState(elementType, nullable, nullValue, valid, elems, baseline, history, version, baseVersion, log, replicated)
    }

    /** Binds a view to a column whose tree holds `stored` (or does not exist yet). */
    constructor (elementType: ElementType, nullable: bool, ownerValid: bool, replicated: bool,
                 nullValue: Mixed, created: bool, stored: seq<Mixed>, contentVersion: nat)
      requires elementType.Typed? ==> !Fatal(elementType.t)
      requires AdmitsFor(elementType, nullable, nullValue)
      requires (nullable || elementType.AnyMixed?) ==> nullValue == Null
      requires StrictlyAscending(stored)
      requires AllAdmitted(elementType, nullable, stored)
      requires !created ==> stored == []
      ensures Valid()
      ensures this.elementType == elementType && this.nullable == nullable
      ensures this.ownerValid == ownerValid && this.replicated == replicated && this.nullValue == nullValue
      ensures valid == created && elems == stored && version == contentVersion && log == []
    {
      this.elementType := elementType;
      this.nullable := nullable;
      this.ownerValid := ownerValid;
      this.replicated := replicated;
      this.nullValue := nullValue;
      valid := created;
      elems := stored;
      version := contentVersion;
      log := [];
      baseline := stored;
      baseVersion := contentVersion;
      history := [];
    }

    /** `create`: allocate the (empty) backing tree. */
    method Create()
      requires Valid() && !valid
      modifies this`valid
      ensures Valid() && valid && elems == []
    {
      valid := true;
    }

    /** `ensure_created`: create the tree if it is missing and the owner is alive. */
    method EnsureCreated()
      requires Valid()
      modifies this`valid
      ensures Valid() && valid == (old(valid) || ownerValid)
    {
      if !valid && ownerValid {
        Create();
      }
    }

    /** `find`: the index of `v`, or npos. Reads only; never creates the tree. */
    method Find(v: Mixed) returns (idx: int)
      requires Valid() && Comparable(v)
      ensures v in elems ==> 0 <= idx < |elems| && elems[idx] == v
      ensures v !in elems ==> idx == NPOS
    {
      var i, found := Locate(elems, v);
      idx := if found then i else NPOS;
    }

    /**
     * `insert`: find `v` or place it at its lower bound. A new value is
     * recorded in the replication log (index and value of the pre-state) and
     * bumps the content version; a present value changes nothing.
     */
    method Insert(v: Mixed) returns (idx: nat, inserted: bool)
      requires Valid() && ownerValid && Admits(v)
      modifies this
      ensures Valid() && valid
      ensures baseline == old(baseline) && baseVersion == old(baseVersion)
      ensures Inserted(old(elems), elems, v, idx, inserted)
      ensures !inserted ==> log == old(log) && version == old(version) && history == old(history)
      ensures inserted ==> history == old(history) + [InsertInstr(idx, v)]
      ensures inserted ==> log == old(log) + (if replicated then [InsertInstr(idx, v)] else [])
      ensures inserted ==> version == old(version) + 1
    {
      EnsureCreated();
      var i, found := Locate(elems, v);
      if found {
        assert Inserted(elems, elems, v, i, false);
        return i, false;
      }
      InsertAt(i, v);
      idx, inserted := i, true;
    }

    /**
     * The write half of `insert`: log the record, insert at `i`, bump the
     * content version.
     */
    method InsertAt(i: nat, v: Mixed)
      requires Valid() && valid && i <= |elems| && Admits(v) && v !in elems
      requires forall k :: 0 <= k < i ==> Less(elems[k], v)
      requires i < |elems| ==> Less(v, elems[i])
      modifies this`elems, this`log, this`history, this`version
      ensures Valid()
      ensures Inserted(old(elems), elems, v, i, true)
      ensures history == old(history) + [InsertInstr(i, v)]
      ensures log == old(log) + (if replicated then [InsertInstr(i, v)] else [])
      ensures version == old(version) + 1
    {
      InsertState(elementType, nullable, nullValue, elems, baseline, history, version, baseVersion, log, replicated, i, v);
      log := log + (if replicated then [InsertInstr(i, v)] else []);
      history := history + [InsertInstr(i, v)];
      elems := elems[..i] + [v] + elems[i..];
      version := version + 1;
    }

    /**
     * `erase`: remove `v` if present, logging the erase before removing it and
     * bumping the version; an absent value returns (npos, false). Does not
     * create the tree.
     */
    method Erase(v: Mixed) returns (idx: int, erased: bool)
      requires Valid() && ownerValid && Comparable(v)
      modifies this
      ensures Valid() && valid == old(valid)
      ensures baseline == old(baseline) && baseVersion == old(baseVersion)
      ensures Erased(old(elems), elems, v, idx, erased)
      ensures !erased ==> log == old(log) && version == old(version) && history == old(history)
      ensures erased ==> history == old(history) + [EraseInstr(idx, v)]
      ensures erased ==> log == old(log) + (if replicated then [EraseInstr(idx, v)] else [])
      ensures erased ==> version == old(version) + 1
    {
      var i, found := Locate(elems, v);
      if !found {
        return NPOS, false;
      }
      EraseAt(i);
      idx, erased := i, true;
    }

    /**
     * The write half of `erase`: log the record, erase at `i`, bump the
     * content version.
     */
    method EraseAt(i: nat)
      requires Valid() && i < |elems|
      modifies this`elems, this`log, this`history, this`version
      ensures Valid()
      ensures Erased(old(elems), elems, old(elems)[i], i, true)
      ensures history == old(history) + [EraseInstr(i, old(elems)[i])]
      ensures log == old(log) + (if replicated then [EraseInstr(i, old(elems)[i])] else [])
      ensures version == old(version) + 1
    {
      var v := elems[i];
      EraseState(elementType, nullable, nullValue, valid, elems, baseline, history, version, baseVersion, log, replicated, i, v);
      log := log + (if replicated then [EraseInstr(i, v)] else []);
      history := history + [EraseInstr(i, v)];
      elems := elems[..i] + elems[i + 1..];
      version := version + 1;
    }

    /**
     * `insert_null`: insert the column's default value, which is null (and
     * lands at index 0) for nullable and Mixed columns.
     */
    method InsertNull() returns (idx: nat, inserted: bool)
      requires Valid() && ownerValid
      modifies this
      ensures Valid() && valid
      ensures baseline == old(baseline) && baseVersion == old(baseVersion)
      ensures Inserted(old(elems), elems, nullValue, idx, inserted)
      ensures inserted && nullValue == Null ==> idx == 0
      ensures !inserted ==> log == old(log) && version == old(version) && history == old(history)
      ensures inserted ==> history == old(history) + [InsertInstr(idx, nullValue)]
      ensures inserted ==> log == old(log) + (if replicated then [InsertInstr(idx, nullValue)] else [])
      ensures inserted ==> version == old(version) + 1
    {
      idx, inserted := Insert(nullValue);
      if inserted && nullValue == Null {
        NullSitsFirst(elems, idx);
      }
    }

    /** `erase_null`: erase the column's default value; a null can only sit at index 0. */
    method EraseNull() returns (idx: int, erased: bool)
      requires Valid() && ownerValid
      modifies this
      ensures Valid() && valid == old(valid)
      ensures baseline == old(baseline) && baseVersion == old(baseVersion)
      ensures Erased(old(elems), elems, nullValue, idx, erased)
      ensures erased && nullValue == Null ==> idx == 0
      ensures !erased ==> log == old(log) && version == old(version) && history == old(history)
      ensures erased ==> history == old(history) + [EraseInstr(idx, nullValue)]
      ensures erased ==> log == old(log) + (if replicated then [EraseInstr(idx, nullValue)] else [])
      ensures erased ==> version == old(version) + 1
    {
      idx, erased := Erase(nullValue);
      if erased && nullValue == Null {
        NullSitsFirst(old(elems), idx);
      }
    }

    /** The value `insert_any` and `erase_any` act on: a null stands for the column's default value. */
    function AnyTarget(v: Mixed): (r: Mixed)
      reads this
      ensures Valid() && (v.Null? || Admits(v)) ==> Admits(r)
      ensures elementType.AnyMixed? && Valid() ==> r == v
    {
      if v.Null? then nullValue else v
    }

    /**
     * `insert_any`: a Mixed set inserts the value as it is; a typed set sends
     * null to `insert_null` and unwraps any other value.
     */
    method InsertAny(v: Mixed) returns (idx: nat, inserted: bool)
      requires Valid() && ownerValid && (v.Null? || Admits(v))
      modifies this
      ensures Valid() && valid
      ensures baseline == old(baseline) && baseVersion == old(baseVersion)
      ensures Inserted(old(elems), elems, AnyTarget(v), idx, inserted)
      ensures !inserted ==> log == old(log) && version == old(version) && history == old(history)
      ensures inserted ==> history == old(history) + [InsertInstr(idx, AnyTarget(v))]
      ensures inserted ==> log == old(log) + (if replicated then [InsertInstr(idx, AnyTarget(v))] else [])
      ensures inserted ==> version == old(version) + 1
    {
      if elementType.AnyMixed? {
        idx, inserted := Insert(v);
      } else if v.Null? {
        idx, inserted := InsertNull();
      } else {
        idx, inserted := Insert(v);
      }
    }

    /** `erase_any`: the erasing counterpart of `insert_any`. */
    method EraseAny(v: Mixed) returns (idx: int, erased: bool)
      requires Valid() && ownerValid && (v.Null? || Admits(v))
      modifies this
      ensures Valid() && valid == old(valid)
      ensures baseline == old(baseline) && baseVersion == old(baseVersion)
      ensures Erased(old(elems), elems, AnyTarget(v), idx, erased)
      ensures !erased ==> log == old(log) && version == old(version) && history == old(history)
      ensures erased ==> history == old(history) + [EraseInstr(idx, AnyTarget(v))]
      ensures erased ==> log == old(log) + (if replicated then [EraseInstr(idx, AnyTarget(v))] else [])
      ensures erased ==> version == old(version) + 1
    {
      if elementType.AnyMixed? {
        idx, erased := Erase(v);
      } else if v.Null? {
        idx, erased := EraseNull();
      } else {
        idx, erased := Erase(v);
      }
    }

    /**
     * `clear`: create the tree if needed; a non-empty set logs one clear
     * record, empties and bumps the version, an empty one does neither.
     */
    method Clear()
      requires Valid() && ownerValid
      modifies this
      ensures Valid() && valid && elems == []
      ensures baseline == old(baseline) && baseVersion == old(baseVersion)
      ensures old(elems) == [] ==> log == old(log) && version == old(version) && history == old(history)
      ensures old(elems) != [] ==> history == old(history) + [ClearInstr]
      ensures old(elems) != [] ==> log == old(log) + (if replicated then [ClearInstr] else [])
      ensures old(elems) != [] ==> version == old(version) + 1
    {
      EnsureCreated();
      assert elems == old(elems) && history == old(history) && log == old(log) && version == old(version);
      if |elems| > 0 {
        ClearAll();
      }
    }

    /** The write half of `clear`: log the record, empty the tree, bump the content version. */
    method ClearAll()
      requires Valid() && valid
      modifies this`elems, this`log, this`history, this`version
      ensures Valid() && elems == []
      ensures history == old(history) + [ClearInstr]
      ensures log == old(log) + (if replicated then [ClearInstr] else [])
      ensures version == old(version) + 1
    {
      ClearState(elementType, nullable, nullValue, elems, baseline, history, version, baseVersion, log, replicated);
      log := log + (if replicated then [ClearInstr] else []);
      history := history + [ClearInstr];
      elems := [];
      version := version + 1;
    }

    /** `min`: the first element and index 0, or null and not_found when empty. */
    method Min() returns (m: Mixed, ndx: int)
      requires Valid()
      ensures elems == [] ==> m == Null && ndx == NPOS
      ensures elems != [] ==> ndx == 0 && m == elems[0]
      ensures elems != [] ==> forall k :: 0 < k < |elems| ==> Less(m, elems[k])
    {
      if |elems| != 0 {
        m, ndx := elems[0], 0;
      } else {
        m, ndx := Null, NPOS;
      }
    }

    /** `max`: the last element and its index, or null and not_found when empty. */
    method Max() returns (m: Mixed, ndx: int)
      requires Valid()
      ensures elems == [] ==> m == Null && ndx == NPOS
      ensures elems != [] ==> ndx == |elems| - 1 && m == elems[|elems| - 1]
      ensures elems != [] ==> forall k :: 0 <= k < |elems| - 1 ==> Less(elems[k], m)
    {
      var sz := |elems|;
      if sz != 0 {
        m, ndx := elems[sz - 1], sz - 1;
      } else {
        m, ndx := Null, NPOS;
      }
    }

    /**
     * `sort`: the index permutation that lists the elements in the requested
     * order. Storage is already ascending, so it is 0..n-1 or its reverse.
     */
    method Sort(ascending: bool) returns (indices: seq<nat>)
      requires Valid()
      ensures |indices| == |elems|
      ensures forall k :: 0 <= k < |indices| ==> indices[k] == if ascending then k else |elems| - 1 - k
      ensures forall p, q :: 0 <= p < q < |indices| ==>
                indices[p] < |elems| && indices[q] < |elems| &&
                (if ascending then Less(elems[indices[p]], elems[indices[q]])
                 else Less(elems[indices[q]], elems[indices[p]]))
    {
      var sz := |elems|;
      indices := [];
      var i := 0;
      while i < sz
        invariant 0 <= i <= sz
        invariant |indices| == i
        invariant forall k :: 0 <= k < i ==> indices[k] == if ascending then k else sz - 1 - k
      {
        indices := indices + [if ascending then i else sz - 1 - i];
        i := i + 1;
      }
    }

    /** `distinct`: elements are already distinct, so it is `sort` in the requested order (ascending by default). */
    method Distinct(sortOrder: Option<bool>) returns (indices: seq<nat>)
      requires Valid()
      ensures |indices| == |elems|
      ensures forall k :: 0 <= k < |indices| ==>
                indices[k] == if sortOrder != Some(false) then k else |elems| - 1 - k
    {
      var ascending := sortOrder.None? || sortOrder.value;
      indices := Sort(ascending);
    }
  }
}

/** Items as the code stores them: a run of consecutive units that were typed in
    one go.  The first unit has the item's origins; each further unit has the unit
    before it as its origin and the same right origin.  Splitting and merging runs
    changes the runs but not the units. */
module RunList {
  import opened Wrappers
  import opened ItemOrder
  import opened Integration
  import opened ConflictScan

  datatype Run = Run(first: Item, len: nat, deleted: bool, countable: bool)

  function NextUnit(x: Item): Item {
    Item(x.client, x.clock + 1, Some(x), x.rightOrigin)
  }

  /** The `k`-th unit of the run that starts with `first`. */
  function Unit(first: Item, k: nat): (u: Item)
    ensures u.client == first.client && u.clock == first.clock + k && u.rightOrigin == first.rightOrigin
  {
    if k == 0 then first else NextUnit(Unit(first, k - 1))
  }

  function Units(first: Item, n: nat): (us: seq<Item>)
    ensures |us| == n
  {
    if n == 0 then [] else Units(first, n - 1) + [Unit(first, n - 1)]
  }

  lemma {:induction false} UnitsAt(first: Item, n: nat, k: nat)
    requires k < n
    ensures Units(first, n)[k] == Unit(first, k)
  {
    if k < n - 1 { UnitsAt(first, n - 1, k); }
  }

  /** All units of a list of runs. */
  function Flat(runs: seq<Run>): seq<Item> {
    if runs == [] then [] else Flat(runs[..|runs| - 1]) + Units(runs[|runs| - 1].first, runs[|runs| - 1].len)
  }

  /** Number of units in the first `k` runs. */
  function Offset(runs: seq<Run>, k: nat): nat
    requires k <= |runs|
  {
    |Flat(runs[..k])|
  }

  function Contribution(r: Run): nat {
    if r.countable && !r.deleted then r.len else 0
  }

  /** What the parent's `length` has to be. */
  function Visible(runs: seq<Run>): nat {
    if runs == [] then 0 else Visible(runs[..|runs| - 1]) + Contribution(runs[|runs| - 1])
  }

  /** The parent's counters are exact, and no item is empty. */
  ghost predicate Counted(runs: seq<Run>, length: nat, itemCount: nat) {
    && (forall i :: 0 <= i < |runs| ==> runs[i].len > 0)
    && length == Visible(runs)
    && itemCount == |runs|
  }

  // ---------------------------------------------------------------- units of runs

  lemma {:induction false} UnitOfUnit(first: Item, d: nat, k: nat)
    ensures Unit(Unit(first, d), k) == Unit(first, d + k)
  {
    if k > 0 { UnitOfUnit(first, d, k - 1); }
  }

  lemma {:induction false} UnitsSplit(first: Item, d: nat, n: nat)
    requires d <= n
    ensures Units(first, n) == Units(first, d) + Units(Unit(first, d), n - d)
  {
    if d < n {
      UnitsSplit(first, d, n - 1);
      UnitOfUnit(first, d, n - 1 - d);
    }
  }

  lemma {:induction false} Regroup(a: seq<Item>, b: seq<Item>, c: seq<Item>)
    ensures a + b + c == a + (b + c)
  {
  }

  lemma {:induction false} WithoutLast(a: seq<Run>, b: seq<Run>)
    requires b != []
    ensures (a + b)[..|a + b| - 1] == a + b[..|b| - 1] && (a + b)[|a + b| - 1] == b[|b| - 1]
  {
  }

  lemma {:induction false} UnitsConcat(a: seq<Run>, b: seq<Run>)
    ensures Flat(a + b) == Flat(a) + Flat(b)
    decreases |b|
  {
    if b == [] {
      assert a + b == a;
    } else {
      var last := b[|b| - 1];
      UnitsConcat(a, b[..|b| - 1]);
      WithoutLast(a, b);
      Regroup(Flat(a), Flat(b[..|b| - 1]), Units(last.first, last.len));
    }
  }

  lemma {:induction false} FlatConcat(a: seq<Run>, b: seq<Run>)
    ensures Flat(a + b) == Flat(a) + Flat(b)
    ensures Visible(a + b) == Visible(a) + Visible(b)
    decreases |b|
  {
    UnitsConcat(a, b);
    if b == [] {
      assert a + b == a;
    } else {
      FlatConcat(a, b[..|b| - 1]);
      WithoutLast(a, b);
    }
  }

  lemma {:induction false} FlatOne(r: Run)
    ensures Flat([r]) == Units(r.first, r.len) && Visible([r]) == Contribution(r)
  {
    assert [r][..0] == [];
  }

  /** Run `k` occupies the units from `Offset(k)` to `Offset(k + 1)`. */
  lemma {:induction false} FlatSlice(runs: seq<Run>, k: nat)
    requires k < |runs|
    ensures Offset(runs, k + 1) == Offset(runs, k) + runs[k].len <= |Flat(runs)|
    ensures Flat(runs)[Offset(runs, k)..Offset(runs, k + 1)] == Units(runs[k].first, runs[k].len)
  {
    assert runs == runs[..k + 1] + runs[k + 1..];
    assert runs[..k + 1] == runs[..k] + [runs[k]];
    FlatConcat(runs[..k + 1], runs[k + 1..]);
    FlatConcat(runs[..k], [runs[k]]);
    FlatOne(runs[k]);
  }

  lemma {:induction false} FlatAt(runs: seq<Run>, k: nat, t: nat)
    requires k < |runs| && t < runs[k].len
    ensures Offset(runs, k) + t < |Flat(runs)| && Flat(runs)[Offset(runs, k) + t] == Unit(runs[k].first, t)
  {
    FlatSlice(runs, k);
    UnitsAt(runs[k].first, runs[k].len, t);
    assert Flat(runs)[Offset(runs, k)..Offset(runs, k + 1)][t] == Flat(runs)[Offset(runs, k) + t];
  }

  lemma {:induction false} OffsetMonotone(runs: seq<Run>, a: nat, b: nat)
    requires a <= b <= |runs|
    ensures Offset(runs, a) <= Offset(runs, b) <= |Flat(runs)|
  {
    assert runs == runs[..b] + runs[b..] && runs[..b] == runs[..a] + runs[a..b];
    FlatConcat(runs[..b], runs[b..]);
    FlatConcat(runs[..a], runs[a..b]);
  }

  /** Every unit lies in exactly one run. */
  lemma {:induction false} Locate(runs: seq<Run>, lo: nat, hi: nat, i: nat) returns (k: nat, t: nat)
    requires lo <= hi <= |runs| && Offset(runs, lo) <= i < Offset(runs, hi)
    ensures lo <= k < hi && t < runs[k].len && i == Offset(runs, k) + t
    decreases hi
  {
    FlatSlice(runs, hi - 1);
    if i >= Offset(runs, hi - 1) {
      k, t := hi - 1, i - Offset(runs, hi - 1);
    } else {
      k, t := Locate(runs, lo, hi - 1, i);
    }
  }

  lemma {:induction false} RunIsRun(runs: seq<Run>, k: nat)
    requires k < |runs| && runs[k].len > 0
    ensures IsRun(Flat(runs), Offset(runs, k), Offset(runs, k + 1))
    ensures Flat(runs)[Offset(runs, k)] == runs[k].first
  {
    FlatSlice(runs, k);
    FlatAt(runs, k, 0);
    var a, f := Offset(runs, k), Flat(runs);
    forall i | a < i < a + runs[k].len ensures Follows(f, i) {
      RunStep(runs, k, i - a);
    }
  }

  lemma {:induction false} RunStep(runs: seq<Run>, k: nat, t: nat)
    requires k < |runs| && 0 < t < runs[k].len
    ensures Offset(runs, k) + t < |Flat(runs)|
    ensures Flat(runs)[Offset(runs, k) + t].origin == Some(Flat(runs)[Offset(runs, k) + t - 1])
  {
    FlatAt(runs, k, t);
    FlatAt(runs, k, t - 1);
  }

  // ---------------------------------------------------------------- surgery

  lemma {:induction false} FlatThree(a: seq<Run>, m: seq<Run>, b: seq<Run>)
    ensures Flat(a + m + b) == Flat(a) + Flat(m) + Flat(b)
    ensures Visible(a + m + b) == Visible(a) + Visible(m) + Visible(b)
  {
    FlatConcat(a + m, b);
    FlatConcat(a, m);
  }

  function InsertRun(runs: seq<Run>, j: nat, r: Run): seq<Run>
    requires j <= |runs|
  {
    runs[..j] + [r] + runs[j..]
  }

  /** Inserting a run inserts its units and nothing else. */
  lemma {:induction false} FlatInsert(runs: seq<Run>, j: nat, r: Run)
    requires j <= |runs|
    ensures Offset(runs, j) <= |Flat(runs)|
    ensures Flat(InsertRun(runs, j, r)) == Flat(runs)[..Offset(runs, j)] + Units(r.first, r.len) + Flat(runs)[Offset(runs, j)..]
    ensures Visible(InsertRun(runs, j, r)) == Visible(runs) + Contribution(r)
  {
    FlatConcat(runs[..j] + [r], runs[j..]);
    FlatConcat(runs[..j], [r]);
    FlatConcat(runs[..j], runs[j..]);
    assert runs == runs[..j] + runs[j..];
    FlatOne(r);
  }

  lemma {:induction false} CountedInsert(runs: seq<Run>, j: nat, r: Run, length: nat, itemCount: nat)
    requires Counted(runs, length, itemCount) && j <= |runs| && r.len > 0
    ensures Counted(InsertRun(runs, j, r), length + Contribution(r), itemCount + 1)
  {
    FlatInsert(runs, j, r);
  }

  /** The two halves `splitItem` makes of a run. */
  function LeftHalf(r: Run, diff: nat): Run {
    r.(len := diff)
  }

  function RightHalf(r: Run, diff: nat): Run
    requires diff <= r.len
  {
    r.(first := Unit(r.first, diff), len := r.len - diff)
  }

  function SplitRun(runs: seq<Run>, k: nat, diff: nat): seq<Run>
    requires k < |runs| && diff <= runs[k].len
  {
    runs[..k] + [LeftHalf(runs[k], diff), RightHalf(runs[k], diff)] + runs[k + 1..]
  }

  /** Splitting changes no unit and no visible length. */
  lemma {:induction false} FlatSplit(runs: seq<Run>, k: nat, diff: nat)
    requires k < |runs| && diff <= runs[k].len
    ensures Flat(SplitRun(runs, k, diff)) == Flat(runs)
    ensures Visible(SplitRun(runs, k, diff)) == Visible(runs)
  {
    var r := runs[k];
    SplitOne(r, diff);
    assert runs == runs[..k] + [r] + runs[k + 1..];
    FlatThree(runs[..k], [r], runs[k + 1..]);
    FlatThree(runs[..k], [LeftHalf(r, diff), RightHalf(r, diff)], runs[k + 1..]);
  }

  lemma {:induction false} SplitOne(r: Run, diff: nat)
    requires diff <= r.len
    ensures Flat([LeftHalf(r, diff), RightHalf(r, diff)]) == Flat([r])
    ensures Visible([LeftHalf(r, diff), RightHalf(r, diff)]) == Visible([r])
  {
    var a, b := LeftHalf(r, diff), RightHalf(r, diff);
    UnitsSplit(r.first, diff, r.len);
    FlatOne(a);
    FlatOne(b);
    FlatOne(r);
    FlatConcat([a], [b]);
    assert [a] + [b] == [a, b];
  }

  lemma {:induction false} CountedSplit(runs: seq<Run>, k: nat, diff: nat, length: nat, itemCount: nat)
    requires Counted(runs, length, itemCount) && k < |runs| && 0 < diff < runs[k].len
    ensures Counted(SplitRun(runs, k, diff), length, itemCount + 1)
    ensures SplitRun(runs, k, diff) == InsertRun(runs[k := LeftHalf(runs[k], diff)], k + 1, RightHalf(runs[k], diff))
  {
    FlatSplit(runs, k, diff);
  }

  /** The id tests of `canMergeWith` for two neighbouring items. */
  predicate Mergeable(a: Run, b: Run) {
    && a.len > 0
    && IdOf(b.first.origin) == Some(Id(a.first.client, a.first.clock + a.len - 1))
    && IdOf(a.first.rightOrigin) == IdOf(b.first.rightOrigin)
    && a.first.client == b.first.client
    && a.first.clock + a.len == b.first.clock
    && a.deleted == b.deleted
    && a.countable == b.countable
  }

  function MergeRun(runs: seq<Run>, k: nat): seq<Run>
    requires k + 1 < |runs|
  {
    runs[..k] + [runs[k].(len := runs[k].len + runs[k + 1].len)] + runs[k + 2..]
  }

  lemma {:induction false} UnitInFlat(runs: seq<Run>, k: nat, t: nat)
    requires k < |runs| && t < runs[k].len
    ensures Unit(runs[k].first, t) in Flat(runs)
  {
    FlatAt(runs, k, t);
  }

  /** In a list, an id names one item. */
  lemma {:induction false} OriginIs(h: set<Item>, l: seq<Item>, last: Item, b: Item)
    requires Replica(h, l) && last in l && b in l && IdOf(b.origin) == Some(Id(last.client, last.clock))
    ensures b.origin == Some(last)
  {
    assert b in Elems(l) && RefsIn(Elems(l), b);
    SameRef(h, l, Some(last), b.origin);
  }

  lemma {:induction false} RightOriginIs(h: set<Item>, l: seq<Item>, a: Item, b: Item)
    requires Replica(h, l) && a in l && b in l && IdOf(a.rightOrigin) == IdOf(b.rightOrigin)
    ensures b.rightOrigin == a.rightOrigin
  {
    assert a in Elems(l) && RefsIn(Elems(l), a);
    assert b in Elems(l) && RefsIn(Elems(l), b);
    SameRef(h, l, a.rightOrigin, b.rightOrigin);
  }

  /** An item with the next clock behind the last unit, and the same right origin. */
  lemma {:induction false} IsNextUnit(a: Run, b: Item)
    requires a.len > 0 && b.client == a.first.client && b.clock == a.first.clock + a.len
    requires b.origin == Some(Unit(a.first, a.len - 1)) && b.rightOrigin == a.first.rightOrigin
    ensures b == Unit(a.first, a.len)
  {
  }

  /** The id tests are enough: the merged neighbour continues the run. */
  lemma {:induction false} MergeableContinues(h: set<Item>, runs: seq<Run>, k: nat)
    requires Replica(h, Flat(runs)) && k + 1 < |runs| && runs[k].len > 0 && runs[k + 1].len > 0
    requires Mergeable(runs[k], runs[k + 1])
    ensures runs[k + 1].first == Unit(runs[k].first, runs[k].len)
  {
    var a, b := runs[k], runs[k + 1].first;
    UnitInFlat(runs, k, a.len - 1);
    UnitInFlat(runs, k, 0);
    UnitInFlat(runs, k + 1, 0);
    OriginIs(h, Flat(runs), Unit(a.first, a.len - 1), b);
    RightOriginIs(h, Flat(runs), a.first, b);
    IsNextUnit(a, b);
  }

  /** One run goes on where the other one ends, and both are alive and count, or do not. */
  ghost predicate GoesOn(a: Run, b: Run) {
    b.first == Unit(a.first, a.len) && a.deleted == b.deleted && a.countable == b.countable
  }

  /** The tests of a merge are exact: in a replica's list they pass if and only if the right
      neighbour goes on where the left one ends. */
  lemma {:induction false} MergeableIsGoesOn(h: set<Item>, runs: seq<Run>, k: nat)
    requires Replica(h, Flat(runs)) && k + 1 < |runs| && runs[k].len > 0 && runs[k + 1].len > 0
    ensures Mergeable(runs[k], runs[k + 1]) <==> GoesOn(runs[k], runs[k + 1])
  {
    if Mergeable(runs[k], runs[k + 1]) { MergeableContinues(h, runs, k); }
  }

  /** Merging is splitting backwards. */
  lemma {:induction false} FlatMerge(runs: seq<Run>, k: nat)
    requires k + 1 < |runs|
    requires runs[k + 1].first == Unit(runs[k].first, runs[k].len)
    requires runs[k].deleted == runs[k + 1].deleted && runs[k].countable == runs[k + 1].countable
    ensures Flat(MergeRun(runs, k)) == Flat(runs)
    ensures Visible(MergeRun(runs, k)) == Visible(runs)
    ensures SplitRun(MergeRun(runs, k), k, runs[k].len) == runs
  {
    assert SplitRun(MergeRun(runs, k), k, runs[k].len) == runs;
    FlatSplit(MergeRun(runs, k), k, runs[k].len);
  }

  lemma {:induction false} CountedMerge(h: set<Item>, runs: seq<Run>, k: nat, length: nat, itemCount: nat)
    requires Counted(runs, length, itemCount) && Replica(h, Flat(runs)) && k + 1 < |runs| && Mergeable(runs[k], runs[k + 1])
    ensures itemCount > 0 && Counted(MergeRun(runs, k), length, itemCount - 1)
  {
    MergeableContinues(h, runs, k);
    FlatMerge(runs, k);
  }

  lemma {:induction false} MergeIsRemoval(runs: seq<Run>, k: nat)
    requires k + 1 < |runs|
    ensures MergeRun(runs, k) == (runs[..k + 1] + runs[k + 2..])[k := runs[k].(len := runs[k].len + runs[k + 1].len)]
  {
  }

  /** Deleting an item changes no unit and takes its length away. */
  lemma {:induction false} FlatDelete(runs: seq<Run>, k: nat)
    requires k < |runs|
    ensures Flat(runs[k := runs[k].(deleted := true)]) == Flat(runs)
    ensures Visible(runs[k := runs[k].(deleted := true)]) == Visible(runs) - Contribution(runs[k])
  {
    var r := runs[k];
    var d := r.(deleted := true);
    FlatOne(r);
    FlatOne(d);
    assert runs == runs[..k] + [r] + runs[k + 1..];
    assert runs[k := d] == runs[..k] + [d] + runs[k + 1..];
    FlatThree(runs[..k], [r], runs[k + 1..]);
    FlatThree(runs[..k], [d], runs[k + 1..]);
  }

  lemma {:induction false} CountedDelete(runs: seq<Run>, k: nat, length: nat, itemCount: nat)
    requires Counted(runs, length, itemCount) && k < |runs|
    ensures length >= Contribution(runs[k])
    ensures Counted(runs[k := runs[k].(deleted := true)], length - Contribution(runs[k]), itemCount)
  {
    FlatDelete(runs, k);
  }

  // ---------------------------------------------------------------- the scan on runs

  /** `getStruct`: does this run hold the id? */
  predicate Covers(r: Run, id: Id) {
    r.first.client == id.client && r.first.clock <= id.clock < r.first.clock + r.len
  }

  /** `Has` on the set that holds runs `lo..hi`. */
  predicate RunsHave(runs: seq<Run>, lo: nat, hi: nat, id: Id)
    requires lo <= hi <= |runs|
  {
    exists k :: lo <= k < hi && Covers(runs[k], id)
  }

  lemma {:induction false} RunHasId(runs: seq<Run>, lo: nat, hi: nat, k: nat, id: Id)
    requires lo <= k < hi <= |runs| && Covers(runs[k], id)
    ensures Offset(runs, lo) <= Offset(runs, hi) <= |Flat(runs)|
    ensures HasId(Flat(runs), Offset(runs, lo), Offset(runs, hi), id)
  {
    var t := id.clock - runs[k].first.clock;
    FlatAt(runs, k, t);
    OffsetMonotone(runs, lo, k);
    FlatSlice(runs, k);
    OffsetMonotone(runs, k + 1, hi);
    var i := Offset(runs, k) + t;
    assert Offset(runs, lo) <= i < Offset(runs, hi) && Flat(runs)[i].client == id.client && Flat(runs)[i].clock == id.clock;
  }

  lemma {:induction false} UnitInRun(runs: seq<Run>, lo: nat, hi: nat, i: nat, id: Id)
    requires lo <= hi <= |runs| && Offset(runs, lo) <= i < Offset(runs, hi) <= |Flat(runs)|
    requires Flat(runs)[i].client == id.client && Flat(runs)[i].clock == id.clock
    ensures RunsHave(runs, lo, hi, id)
  {
    var k, t := Locate(runs, lo, hi, i);
    FlatAt(runs, k, t);
    assert Covers(runs[k], id);
  }

  lemma {:induction false} RunsHaveIsHasId(runs: seq<Run>, lo: nat, hi: nat, id: Id)
    requires lo <= hi <= |runs|
    ensures Offset(runs, lo) <= Offset(runs, hi) <= |Flat(runs)|
    ensures RunsHave(runs, lo, hi, id) <==> HasId(Flat(runs), Offset(runs, lo), Offset(runs, hi), id)
  {
    OffsetMonotone(runs, lo, hi);
    if RunsHave(runs, lo, hi, id) {
      var k :| lo <= k < hi && Covers(runs[k], id);
      RunHasId(runs, lo, hi, k, id);
    } else if HasId(Flat(runs), Offset(runs, lo), Offset(runs, hi), id) {
      var i :| Offset(runs, lo) <= i < Offset(runs, hi) && Flat(runs)[i].client == id.client && Flat(runs)[i].clock == id.clock;
      UnitInRun(runs, lo, hi, i, id);
    }
  }

  /** The loop body of `integrateWithScratch` for run `k`. */
  function JudgeRun(runs: seq<Run>, x: Item, b: nat, j: nat, k: nat): Verdict
    requires b <= j <= k < |runs|
  {
    var o := runs[k].first;
    if IdOf(x.origin) == IdOf(o.origin) then
      if o.client < x.client then Take
      else if IdOf(x.rightOrigin) == IdOf(o.rightOrigin) then Stop
      else Pass
    else if o.origin.Some? && RunsHave(runs, b, k, IdOf(o.origin).value) then
      if !RunsHave(runs, j, k, IdOf(o.origin).value) then Take else Pass
    else Stop
  }

  lemma {:induction false} JudgeRunIsJudge(runs: seq<Run>, x: Item, b: nat, j: nat, k: nat)
    requires b <= j <= k < |runs| && runs[k].len > 0
    ensures Offset(runs, b) <= Offset(runs, j) <= Offset(runs, k) < |Flat(runs)|
    ensures JudgeRun(runs, x, b, j, k) == Judge(Flat(runs), x, Offset(runs, b), Offset(runs, j), Offset(runs, k))
  {
    OffsetMonotone(runs, b, j);
    OffsetMonotone(runs, j, k);
    RunIsRun(runs, k);
    var o := runs[k].first;
    if o.origin.Some? {
      RunsHaveIsHasId(runs, b, k, IdOf(o.origin).value);
      RunsHaveIsHasId(runs, j, k, IdOf(o.origin).value);
    }
  }

  /** An id lies in at most one run. */
  lemma {:induction false} CoverUnique(h: set<Item>, runs: seq<Run>, a: nat, b: nat, id: Id)
    requires Replica(h, Flat(runs)) && a <= b < |runs| && Covers(runs[a], id) && Covers(runs[b], id)
    ensures a == b
  {
    var s, t := id.clock - runs[a].first.clock, id.clock - runs[b].first.clock;
    FlatAt(runs, a, s);
    FlatAt(runs, b, t);
    var u, v := Flat(runs)[Offset(runs, a) + s], Flat(runs)[Offset(runs, b) + t];
    assert u in Elems(Flat(runs)) && v in Elems(Flat(runs)) && SameId(u, v);
    if a < b {
      FlatSlice(runs, a);
      OffsetMonotone(runs, a + 1, b);
      Asymmetric(u, v);
    }
  }

  /** A run does not hold the origin of its own first unit. */
  lemma {:induction false} OriginElsewhere(h: set<Item>, runs: seq<Run>, k: nat)
    requires Replica(h, Flat(runs)) && k < |runs| && runs[k].len > 0 && runs[k].first.origin.Some?
    ensures !Covers(runs[k], IdOf(runs[k].first.origin).value)
  {
    var first := runs[k].first;
    var id := IdOf(first.origin).value;
    FlatAt(runs, k, 0);
    assert first in Elems(Flat(runs)) && RefsIn(Elems(Flat(runs)), first);
    if Covers(runs[k], id) {
      var t := id.clock - first.clock;
      FlatAt(runs, k, t);
      var u := Flat(runs)[Offset(runs, k) + t];
      assert u in Elems(Flat(runs)) && SameId(u, first.origin.value);
      OriginIsBefore(first);
      OrderGivesIndex(Flat(runs), Offset(runs, k) + t, Offset(runs, k));
    }
  }

  predicate BothCover(a: Run, b: Run, id: Id) {
    Covers(a, id) && Covers(b, id)
  }

  predicate HoldsOwnOrigin(r: Run) {
    r.first.origin.Some? && Covers(r, IdOf(r.first.origin).value)
  }

  /** Ids are unambiguous: no id lies in two runs, and no run holds its own origin. */
  ghost predicate Unambiguous(runs: seq<Run>) {
    && (forall a, b, id {:trigger BothCover(runs[a], runs[b], id)} ::
          0 <= a < b < |runs| ==> !BothCover(runs[a], runs[b], id))
    && (forall k {:trigger HoldsOwnOrigin(runs[k])} :: 0 <= k < |runs| ==> !HoldsOwnOrigin(runs[k]))
  }

  lemma {:induction false} ReplicaIsUnambiguous(h: set<Item>, runs: seq<Run>)
    requires Replica(h, Flat(runs)) && forall k :: 0 <= k < |runs| ==> runs[k].len > 0
    ensures Unambiguous(runs)
  {
    forall a, b, id | 0 <= a < b < |runs| ensures !BothCover(runs[a], runs[b], id) {
      if BothCover(runs[a], runs[b], id) { CoverUnique(h, runs, a, b, id); }
    }
    forall k | 0 <= k < |runs| ensures !HoldsOwnOrigin(runs[k]) {
      if runs[k].first.origin.Some? { OriginElsewhere(h, runs, k); }
    }
  }

  /** The whole loop, from run `k`, with `left` before run `j`; `e` is the right origin's run. */
  function ScanRuns(runs: seq<Run>, x: Item, b: nat, e: nat, j: nat, k: nat): (p: nat)
    requires b <= j <= k <= |runs| && e <= |runs|
    ensures j <= p <= |runs|
    decreases |runs| - k
  {
    if k >= e then j
    else match JudgeRun(runs, x, b, j, k)
      case Take => ScanRuns(runs, x, b, e, k + 1, k + 1)
      case Pass => ScanRuns(runs, x, b, e, j, k + 1)
      case Stop => j
  }

  lemma {:induction false} ScanRunsUnfolds(runs: seq<Run>, x: Item, b: nat, e: nat, j: nat, k: nat)
    requires b <= j <= k < e <= |runs|
    ensures ScanRuns(runs, x, b, e, j, k) ==
            match JudgeRun(runs, x, b, j, k)
            case Take => ScanRuns(runs, x, b, e, k + 1, k + 1)
            case Pass => ScanRuns(runs, x, b, e, j, k + 1)
            case Stop => j
  {
  }

  /** Scanning runs finds the place of the item among the units. */
  lemma {:induction false} ScanRunsIsPlace(h: set<Item>, runs: seq<Run>, x: Item, b: nat, e: nat, j: nat, k: nat)
    requires b <= j <= k <= e <= |runs| && forall i :: k <= i < e ==> runs[i].len > 0
    requires Replica(h, Flat(runs)) && Ready(h, Flat(runs), x)
    requires AfterOrigin(Flat(runs), x, Offset(runs, b)) && AtRightOrigin(Flat(runs), x, Offset(runs, e))
    requires ScanInv(Flat(runs), x, Offset(runs, b), Offset(runs, j), Offset(runs, k))
    ensures IsPlace(Flat(runs), x, Offset(runs, ScanRuns(runs, x, b, e, j, k)))
    decreases |runs| - k
  {
    var l := Flat(runs);
    if k >= e {
      ScanEnds(h, l, x, Offset(runs, b), Offset(runs, e), Offset(runs, j), Offset(runs, k));
    } else {
      RunScanStep(h, runs, x, b, e, j, k);
      match JudgeRun(runs, x, b, j, k) {
        case Take => ScanRunsIsPlace(h, runs, x, b, e, k + 1, k + 1);
        case Pass => ScanRunsIsPlace(h, runs, x, b, e, j, k + 1);
        case Stop => ScanLands(h, l, x, Offset(runs, b), Offset(runs, j), Offset(runs, k));
      }
    }
  }

  lemma {:induction false} RunScanStep(h: set<Item>, runs: seq<Run>, x: Item, b: nat, e: nat, j: nat, k: nat)
    requires b <= j <= k < e <= |runs| && runs[k].len > 0
    requires Replica(h, Flat(runs)) && Ready(h, Flat(runs), x)
    requires AfterOrigin(Flat(runs), x, Offset(runs, b)) && AtRightOrigin(Flat(runs), x, Offset(runs, e))
    requires ScanInv(Flat(runs), x, Offset(runs, b), Offset(runs, j), Offset(runs, k))
    ensures JudgeRun(runs, x, b, j, k).Take? ==>
              ScanInv(Flat(runs), x, Offset(runs, b), Offset(runs, k + 1), Offset(runs, k + 1))
    ensures JudgeRun(runs, x, b, j, k).Pass? ==>
              ScanInv(Flat(runs), x, Offset(runs, b), Offset(runs, j), Offset(runs, k + 1))
    ensures JudgeRun(runs, x, b, j, k).Stop? ==> Offset(runs, k) < |Flat(runs)| && Before(x, Flat(runs)[Offset(runs, k)])
  {
    RunIsRun(runs, k);
    FlatSlice(runs, k);
    OffsetMonotone(runs, k + 1, e);
    JudgeRunIsJudge(runs, x, b, j, k);
    JudgeIsRight(h, Flat(runs), x, Offset(runs, b), Offset(runs, e), Offset(runs, j), Offset(runs, k), Offset(runs, k + 1));
  }

  // ---------------------------------------------------------------- a whole run goes to one place

  /** Outside its origin's subtree, an item compares like its origin. */
  lemma {:induction false} NextUnitCompares(h: set<Item>, l: seq<Item>, u: Item, y: Item)
    requires Replica(h, l) && u !in l && y in l
    ensures Before(y, u) ==> Before(y, NextUnit(u))
    ensures Before(u, y) ==> Before(NextUnit(u), y)
  {
    var v := NextUnit(u);
    OriginIsBefore(v);
    if Before(y, u) { Transitive(y, u, v); }
    if Before(u, y) {
      if Below(v, y) { BelowIsOn(v, y); }
      NotOnAnyPath(h, l, u, y);
      SiblingIsBelow(v, v);
      CompareOutside(v, y, v);
    }
  }

  lemma {:induction false} UnitsShareThePlace(h: set<Item>, l: seq<Item>, first: Item, n: nat, p: nat, k: nat)
    requires Replica(h, l) && IsPlace(l, first, p) && k < n
    requires forall t :: 0 <= t < n ==> Unit(first, t) !in l
    ensures IsPlace(l, Unit(first, k), p)
  {
    if k > 0 {
      UnitsShareThePlace(h, l, first, n, p, k - 1);
      var u := Unit(first, k - 1);
      forall i | 0 <= i < |l|
        ensures Before(l[i], u) ==> Before(l[i], NextUnit(u))
        ensures Before(u, l[i]) ==> Before(NextUnit(u), l[i])
      {
        NextUnitCompares(h, l, u, l[i]);
      }
    }
  }
}

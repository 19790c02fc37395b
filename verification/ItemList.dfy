/** The doubly linked list of a shared type, with the surgery the code performs
    on it: integrating, splitting, merging and deleting items.  The item objects
    are cells at addresses, so that two references may name the same object. */
module ItemList {
  import opened Wrappers
  import opened ItemOrder
  import opened Integration
  import opened ConflictScan
  import opened RunList

  type Ref = nat

  datatype Cell = Cell(left: Option<Ref>, right: Option<Ref>, run: Run)

  // ---------------------------------------------------------------- chains of cells

  /** The reference at index `i`, or nil outside the list. */
  function At(order: seq<Ref>, i: int): Option<Ref> {
    if 0 <= i < |order| then Some(order[i]) else None
  }

  predicate Linked(cells: map<Ref, Cell>, order: seq<Ref>, i: nat)
    requires i < |order|
  {
    && order[i] in cells
    && cells[order[i]].left == At(order, i - 1)
    && cells[order[i]].right == At(order, i + 1)
  }

  predicate Apart(order: seq<Ref>, i: nat, j: nat)
    requires i < |order| && j < |order|
  {
    order[i] != order[j]
  }

  /** Links are mutually consistent and acyclic: from `start` they spell out `order`. */
  ghost predicate Chain(cells: map<Ref, Cell>, start: Option<Ref>, order: seq<Ref>) {
    && start == At(order, 0)
    && (forall i {:trigger Linked(cells, order, i)} :: 0 <= i < |order| ==> Linked(cells, order, i))
    && (forall i, j {:trigger Apart(order, i, j)} :: 0 <= i < j < |order| ==> Apart(order, i, j))
  }

  ghost function RunAt(cells: map<Ref, Cell>, order: seq<Ref>, i: nat): Run
    requires i < |order|
  {
    if order[i] in cells then cells[order[i]].run else Run(Item(0, 0, None, None), 0, false, false)
  }

  ghost function RunsOf(cells: map<Ref, Cell>, order: seq<Ref>): (rs: seq<Run>)
    ensures |rs| == |order| && forall i :: 0 <= i < |order| ==> rs[i] == RunAt(cells, order, i)
  {
    seq(|order|, i requires 0 <= i < |order| => RunAt(cells, order, i))
  }

  lemma {:induction false} SameIndex(cells: map<Ref, Cell>, start: Option<Ref>, order: seq<Ref>, i: nat, j: nat)
    requires Chain(cells, start, order) && i < |order| && j < |order| && order[i] == order[j]
    ensures i == j
  {
    assert i < j ==> Apart(order, i, j);
    assert j < i ==> Apart(order, j, i);
  }

  /** The cells after `a` was put between `left` and `right`. */
  function Spliced(cells: map<Ref, Cell>, a: Ref, run: Run, left: Option<Ref>, right: Option<Ref>): map<Ref, Cell>
    requires left.Some? ==> left.value in cells
    requires right.Some? ==> right.value in cells
  {
    var c1 := cells[a := Cell(left, right, run)];
    var c2 := if left.Some? then c1[left.value := c1[left.value].(right := Some(a))] else c1;
    if right.Some? then c2[right.value := c2[right.value].(left := Some(a))] else c2
  }

  function InsertRef(order: seq<Ref>, j: nat, a: Ref): seq<Ref>
    requires j <= |order|
  {
    order[..j] + [a] + order[j..]
  }

  lemma {:induction false} ChainHas(cells: map<Ref, Cell>, start: Option<Ref>, order: seq<Ref>, i: int)
    requires Chain(cells, start, order)
    ensures 0 <= i < |order| ==> order[i] in cells && Linked(cells, order, i)
  {
    if 0 <= i < |order| { assert Linked(cells, order, i); }
  }

  lemma {:induction false} InsertedLink(cells: map<Ref, Cell>, start: Option<Ref>, order: seq<Ref>, j: nat, a: Ref, run: Run, i: nat)
    requires Chain(cells, start, order) && a !in cells && j <= |order| && i <= |order|
    requires At(order, j - 1).Some? ==> At(order, j - 1).value in cells
    requires At(order, j).Some? ==> At(order, j).value in cells
    ensures var cells' := Spliced(cells, a, run, At(order, j - 1), At(order, j));
            var order' := InsertRef(order, j, a);
            && Linked(cells', order', i)
            && cells'[order'[i]].run == if i < j then RunAt(cells, order, i) else if i == j then run else RunAt(cells, order, i - 1)
  {
    var o := if i < j then i else i - 1;
    if i != j {
      ChainHas(cells, start, order, o);
      if 0 < j { if order[o] == order[j - 1] { SameIndex(cells, start, order, o, j - 1); } }
      if j < |order| { if order[o] == order[j] { SameIndex(cells, start, order, o, j); } }
    }
    if 0 < j < |order| && order[j - 1] == order[j] { SameIndex(cells, start, order, j - 1, j); }
  }

  /** Linking a new cell behind `left`, or first, inserts it into the order. */
  lemma {:induction false} SpliceKeepsChain(cells: map<Ref, Cell>, start: Option<Ref>, order: seq<Ref>, j: nat, a: Ref, run: Run)
    requires Chain(cells, start, order) && a !in cells && j <= |order|
    ensures At(order, j - 1).Some? ==> At(order, j - 1).value in cells
    ensures At(order, j).Some? ==> At(order, j).value in cells
    ensures var cells' := Spliced(cells, a, run, At(order, j - 1), At(order, j));
            var order' := InsertRef(order, j, a);
            && Chain(cells', if j == 0 then Some(a) else start, order')
            && RunsOf(cells', order') == InsertRun(RunsOf(cells, order), j, run)
  {
    ChainHas(cells, start, order, j - 1);
    ChainHas(cells, start, order, j);
    var cells' := Spliced(cells, a, run, At(order, j - 1), At(order, j));
    var order' := InsertRef(order, j, a);
    forall i | 0 <= i < |order'| ensures Linked(cells', order', i) {
      InsertedLink(cells, start, order, j, a, run, i);
    }
    forall x, y | 0 <= x < y < |order'| ensures Apart(order', x, y) {
      var x', y' := if x > j then x - 1 else x, if y > j then y - 1 else y;
      if x != j { ChainHas(cells, start, order, x'); }
      if y != j { ChainHas(cells, start, order, y'); }
      if x != j && y != j { assert Apart(order, x', y'); }
    }
    forall i | 0 <= i < |order'| ensures RunAt(cells', order', i) == InsertRun(RunsOf(cells, order), j, run)[i] {
      InsertedLink(cells, start, order, j, a, run, i);
      if i != j { ChainHas(cells, start, order, if i < j then i else i - 1); }
    }
  }

  /** Replacing the run of a cell leaves the links alone. */
  lemma {:induction false} RewriteKeepsChain(cells: map<Ref, Cell>, start: Option<Ref>, order: seq<Ref>, k: nat, run: Run)
    requires Chain(cells, start, order) && k < |order| && order[k] in cells
    ensures var cells' := cells[order[k] := cells[order[k]].(run := run)];
            Chain(cells', start, order) && RunsOf(cells', order) == RunsOf(cells, order)[k := run]
  {
    var cells' := cells[order[k] := cells[order[k]].(run := run)];
    forall i | 0 <= i < |order|
      ensures Linked(cells', order, i) && RunAt(cells', order, i) == RunsOf(cells, order)[k := run][i]
    {
      ChainHas(cells, start, order, i);
      if order[i] == order[k] { SameIndex(cells, start, order, i, k); }
    }
  }

  /** The cells after `a`'s right neighbour was taken out. */
  function Unlinked(cells: map<Ref, Cell>, a: Ref, right: Option<Ref>): map<Ref, Cell>
    requires a in cells && (right.Some? ==> right.value in cells)
  {
    var c1 := cells[a := cells[a].(right := right)];
    if right.Some? then c1[right.value := c1[right.value].(left := Some(a))] else c1
  }

  lemma {:induction false} RemovedLink(cells: map<Ref, Cell>, start: Option<Ref>, order: seq<Ref>, k: nat, i: nat)
    requires Chain(cells, start, order) && k + 1 < |order| && i < |order| - 1
    requires order[k] in cells && (k + 2 < |order| ==> order[k + 2] in cells)
    ensures var cells' := Unlinked(cells, order[k], At(order, k + 2));
            var order' := order[..k + 1] + order[k + 2..];
            && Linked(cells', order', i)
            && cells'[order'[i]].run == RunAt(cells, order, if i <= k then i else i + 1)
  {
    var o := if i <= k then i else i + 1;
    ChainHas(cells, start, order, o);
    if order[o] == order[k] { SameIndex(cells, start, order, o, k); }
    if k + 2 < |order| && order[o] == order[k + 2] { SameIndex(cells, start, order, o, k + 2); }
    if k + 2 < |order| && order[k] == order[k + 2] { SameIndex(cells, start, order, k, k + 2); }
  }

  lemma {:induction false} UnlinkKeepsChain(cells: map<Ref, Cell>, start: Option<Ref>, order: seq<Ref>, k: nat)
    requires Chain(cells, start, order) && k + 1 < |order|
    ensures order[k] in cells && (k + 2 < |order| ==> order[k + 2] in cells)
    ensures var cells' := Unlinked(cells, order[k], At(order, k + 2));
            var order' := order[..k + 1] + order[k + 2..];
            && Chain(cells', start, order')
            && RunsOf(cells', order') == RunsOf(cells, order)[..k + 1] + RunsOf(cells, order)[k + 2..]
  {
    ChainHas(cells, start, order, k);
    ChainHas(cells, start, order, k + 2);
    var cells' := Unlinked(cells, order[k], At(order, k + 2));
    var order' := order[..k + 1] + order[k + 2..];
    forall i | 0 <= i < |order'|
      ensures Linked(cells', order', i)
      ensures RunAt(cells', order', i) == (RunsOf(cells, order)[..k + 1] + RunsOf(cells, order)[k + 2..])[i]
    {
      RemovedLink(cells, start, order, k, i);
    }
    forall x, y | 0 <= x < y < |order'| ensures Apart(order', x, y) {
      assert Apart(order, if x <= k then x else x + 1, if y <= k then y else y + 1);
    }
  }

  /** The run of `order[k]` after it has taken in its right neighbour's. */
  ghost function MergedRun(cells: map<Ref, Cell>, order: seq<Ref>, k: nat): Run
    requires k + 1 < |order| && order[k] in cells && order[k + 1] in cells
  {
    cells[order[k]].run.(len := cells[order[k]].run.len + cells[order[k + 1]].run.len)
  }

  /** Absorbing the right neighbour: the links skip it, and the run grows. */
  lemma {:induction false} AbsorbKeepsChain(cells: map<Ref, Cell>, start: Option<Ref>, order: seq<Ref>, k: nat)
    requires Chain(cells, start, order) && k + 1 < |order|
    ensures order[k] in cells && order[k + 1] in cells && (k + 2 < |order| ==> order[k + 2] in cells)
    ensures var cells1 := Unlinked(cells, order[k], At(order, k + 2));
            var cells2 := cells1[order[k] := cells1[order[k]].(run := MergedRun(cells, order, k))];
            var order' := order[..k + 1] + order[k + 2..];
            && cells1[order[k]].run == cells[order[k]].run
            && Chain(cells2, start, order') && RunsOf(cells2, order') == MergeRun(RunsOf(cells, order), k)
  {
    ChainHas(cells, start, order, k);
    ChainHas(cells, start, order, k + 1);
    UnlinkKeepsChain(cells, start, order, k);
    var cells1 := Unlinked(cells, order[k], At(order, k + 2));
    var order' := order[..k + 1] + order[k + 2..];
    if k + 2 < |order| && order[k] == order[k + 2] { SameIndex(cells, start, order, k, k + 2); }
    RewriteKeepsChain(cells1, start, order', k, MergedRun(cells, order, k));
    MergeIsRemoval(RunsOf(cells, order), k);
  }

  // ---------------------------------------------------------------- finding items

  /** The references at indices `lo..hi`, as a set. */
  ghost function Slice(order: seq<Ref>, lo: nat, hi: nat): (s: set<Ref>)
    requires lo <= hi <= |order|
    ensures lo == hi ==> s == {}
  {
    set a | a in order[lo..hi]
  }

  lemma {:induction false} SliceGrows(order: seq<Ref>, lo: nat, hi: nat)
    requires lo <= hi < |order|
    ensures Slice(order, lo, hi + 1) == Slice(order, lo, hi) + {order[hi]}
  {
    assert order[lo..hi + 1] == order[lo..hi] + [order[hi]];
  }

  /** `getStruct`: the item, from `n` at index `k` on, that holds the id. */
  function Find(cells: map<Ref, Cell>, id: Id, n: Option<Ref>, ghost start: Option<Ref>, ghost order: seq<Ref>, ghost k: nat): (r: Option<Ref>)
    requires Chain(cells, start, order) && k <= |order| && n == At(order, k)
    ensures r.Some? ==> r.value in cells && Covers(cells[r.value].run, id) && exists i :: k <= i < |order| && order[i] == r.value
    ensures r.None? ==> forall i :: k <= i < |order| ==> !Covers(RunAt(cells, order, i), id)
    decreases |order| - k
  {
    ChainHas(cells, start, order, k);
    if n.None? || Covers(cells[n.value].run, id) then n
    else Find(cells, id, cells[n.value].right, start, order, k + 1)
  }

  /** The set that holds items `lo..k + 1` has the holder of item `k`'s origin
      exactly when one of the items `lo..k` covers it. */
  lemma {:induction false} FoundInSlice(cells: map<Ref, Cell>, start: Option<Ref>, order: seq<Ref>, r: Option<Ref>, id: Id, lo: nat, k: nat)
    requires Chain(cells, start, order) && Unambiguous(RunsOf(cells, order))
    requires lo <= k < |order| && IdOf(RunAt(cells, order, k).first.origin) == Some(id)
    requires r == Find(cells, id, start, start, order, 0)
    ensures RunsHave(RunsOf(cells, order), lo, k, id) <==> r.Some? && r.value in Slice(order, lo, k + 1)
  {
    var runs := RunsOf(cells, order);
    assert !HoldsOwnOrigin(runs[k]);
    if RunsHave(runs, lo, k, id) {
      var c :| lo <= c < k && Covers(runs[c], id);
      assert Covers(RunAt(cells, order, c), id);
      var i :| 0 <= i < |order| && order[i] == r.value;
      assert Covers(runs[i], id);
      if i < c { assert BothCover(runs[i], runs[c], id); }
      if c < i { assert BothCover(runs[c], runs[i], id); }
      assert order[lo..k + 1][c - lo] == r.value;
    } else if r.Some? {
      forall i | lo <= i <= k ensures order[i] != r.value {
        assert !Covers(runs[i], id);
        assert runs[i] == RunAt(cells, order, i);
      }
    }
  }

  /** The body of the conflict scan, for an item `f` just added to both sets. */
  function JudgeCell(cells: map<Ref, Cell>, x: Item, f: Item, itemsBeforeOrigin: set<Ref>, conflictingItems: set<Ref>,
                     start: Option<Ref>, ghost order: seq<Ref>): Verdict
    requires Chain(cells, start, order)
  {
    if IdOf(x.origin) == IdOf(f.origin) then
      if f.client < x.client then Take
      else if IdOf(x.rightOrigin) == IdOf(f.rightOrigin) then Stop
      else Pass
    else if f.origin.Some? then
      var other := Find(cells, IdOf(f.origin).value, start, start, order, 0);
      if other.None? || other.value !in itemsBeforeOrigin then Stop
      else if other.value !in conflictingItems then Take
      else Pass
    else Stop
  }

  /** One pass through the loop of the scan. */
  lemma {:induction false} ScanBody(cells: map<Ref, Cell>, start: Option<Ref>, order: seq<Ref>, x: Item, b: nat, e: nat, j: nat, k: nat)
    requires Chain(cells, start, order) && Unambiguous(RunsOf(cells, order)) && b <= j <= k < e <= |order|
    ensures order[k] in cells && cells[order[k]].right == At(order, k + 1)
    ensures Slice(order, b, k + 1) == Slice(order, b, k) + {order[k]}
    ensures Slice(order, j, k + 1) == Slice(order, j, k) + {order[k]}
    ensures ScanRuns(RunsOf(cells, order), x, b, e, j, k) ==
            match JudgeCell(cells, x, cells[order[k]].run.first, Slice(order, b, k + 1), Slice(order, j, k + 1), start, order)
            case Take => ScanRuns(RunsOf(cells, order), x, b, e, k + 1, k + 1)
            case Pass => ScanRuns(RunsOf(cells, order), x, b, e, j, k + 1)
            case Stop => j
  {
    ChainHas(cells, start, order, k);
    SliceGrows(order, b, k);
    SliceGrows(order, j, k);
    ScanRunsUnfolds(RunsOf(cells, order), x, b, e, j, k);
    var f := cells[order[k]].run.first;
    assert RunsOf(cells, order)[k] == RunAt(cells, order, k);
    if f.origin.Some? {
      var id := IdOf(f.origin).value;
      var other := Find(cells, id, start, start, order, 0);
      FoundInSlice(cells, start, order, other, id, b, k);
      FoundInSlice(cells, start, order, other, id, j, k);
    }
  }

  /** The scan has come to item `k`, with `left` before item `j`, and will end at `goal`. */
  ghost predicate Scanning(cells: map<Ref, Cell>, order: seq<Ref>, x: Item, b: nat, e: nat, j: nat, k: nat,
                           o: Option<Ref>, left: Option<Ref>, before: set<Ref>, conflicts: set<Ref>, goal: nat) {
    && b <= j <= k <= e <= |order| && o == At(order, k) && left == At(order, j - 1)
    && before == Slice(order, b, k) && conflicts == Slice(order, j, k) && ScanRuns(RunsOf(cells, order), x, b, e, j, k) == goal
  }

  lemma {:induction false} ScansOn(cells: map<Ref, Cell>, start: Option<Ref>, order: seq<Ref>, x: Item, b: nat, e: nat, j: nat, k: nat,
                                   o: Ref, left: Option<Ref>, before: set<Ref>, conflicts: set<Ref>, goal: nat)
    requires Chain(cells, start, order) && Unambiguous(RunsOf(cells, order)) && k < e
    requires Scanning(cells, order, x, b, e, j, k, Some(o), left, before, conflicts, goal)
    ensures o in cells
    ensures match JudgeCell(cells, x, cells[o].run.first, before + {o}, conflicts + {o}, start, order)
            case Take => Scanning(cells, order, x, b, e, k + 1, k + 1, cells[o].right, Some(o), before + {o}, {}, goal)
            case Pass => Scanning(cells, order, x, b, e, j, k + 1, cells[o].right, left, before + {o}, conflicts + {o}, goal)
            case Stop => goal == j
  {
    ScanBody(cells, start, order, x, b, e, j, k);
  }

  /** The conflict scan of `integrateWithScratch`.  `left0` stands before index
      `b`, and `right` at index `e`. */
  method ScanCells(cells: map<Ref, Cell>, start: Option<Ref>, x: Item, left0: Option<Ref>, right: Option<Ref>, ghost order: seq<Ref>, ghost b: nat, ghost e: nat)
    returns (left: Option<Ref>, ghost j: nat)
    requires Chain(cells, start, order) && Unambiguous(RunsOf(cells, order))
    requires b <= e <= |order| && left0 == At(order, b - 1) && right == At(order, e)
    ensures j <= |order| && left == At(order, j - 1) && j == ScanRuns(RunsOf(cells, order), x, b, e, b, b)
  {
    left := left0;
    ghost var goal := ScanRuns(RunsOf(cells, order), x, b, e, b, b);
    ChainHas(cells, start, order, b - 1);
    var o := if left.Some? then cells[left.value].right else start;
    var itemsBeforeOrigin: set<Ref>, conflictingItems: set<Ref> := {}, {};
    ghost var k := b;
    j := b;
    while o.Some? && o != right
      invariant Scanning(cells, order, x, b, e, j, k, o, left, itemsBeforeOrigin, conflictingItems, goal)
      decreases |order| - k
    {
      ScansOn(cells, start, order, x, b, e, j, k, o.value, left, itemsBeforeOrigin, conflictingItems, goal);
      itemsBeforeOrigin := itemsBeforeOrigin + {o.value};
      conflictingItems := conflictingItems + {o.value};
      var v := JudgeCell(cells, x, cells[o.value].run.first, itemsBeforeOrigin, conflictingItems, start, order);
      if v.Stop? { return; }
      if v.Take? { left, j, conflictingItems := o, k + 1, {}; }
      o, k := cells[o.value].right, k + 1;
    }
    if o.Some? { SameIndex(cells, start, order, k, e); }
  }

  // ---------------------------------------------------------------- the list of one shared type

  class ListType {
    var cells: map<Ref, Cell>
    var start: Option<Ref>
    var length: nat
    var itemCount: nat
    ghost var order: seq<Ref>

    constructor ()
      ensures Valid() && Runs() == []
    {
      cells, start, length, itemCount, order := map[], None, 0, 0, [];
    }

    ghost function Runs(): seq<Run>
      reads this
    {
      RunsOf(cells, order)
    }

    /** The units of the list, in order. */
    ghost function Contents(): seq<Item>
      reads this
    {
      Flat(Runs())
    }

    ghost predicate Valid()
      reads this
    {
      Chain(cells, start, order) && Counted(Runs(), length, itemCount)
    }

    /** Where `integrateWithScratch` puts the item: it scans only if something
        stands between `left` and `right`. */
    method Place(x: Item, left: Option<Ref>, right: Option<Ref>, ghost h: set<Item>, ghost b: nat, ghost e: nat)
      returns (to: Option<Ref>, ghost j: nat)
      requires Valid() && Replica(h, Contents()) && Ready(h, Contents(), x)
      requires b <= e <= |order| && left == At(order, b - 1) && right == At(order, e)
      requires AfterOrigin(Contents(), x, Offset(Runs(), b)) && AtRightOrigin(Contents(), x, Offset(Runs(), e))
      ensures j <= |order| && to == At(order, j - 1) && IsPlace(Contents(), x, Offset(Runs(), j))
    {
      ghost var runs := Runs();
      ReplicaIsUnambiguous(h, runs);
      ChainHas(cells, start, order, b - 1);
      ChainHas(cells, start, order, e);
      to, j := left, b;
      if (left.None? && (right.None? || cells[right.value].left.Some?)) || (left.Some? && cells[left.value].right != right) {
        to, j := ScanCells(cells, start, x, left, right, order, b, e);
      } else {
        if right.Some? && b > 0 { SameIndex(cells, start, order, b, e); }
        assert b == e;
      }
      ScanRunsIsPlace(h, runs, x, b, e, b, b);
    }

    /** Put the new item `a` behind `left`, or first, and count it. */
    method Link(a: Ref, run: Run, left: Option<Ref>, ghost j: nat)
      requires Valid() && a !in cells && run.len > 0 && j <= |order| && left == At(order, j - 1)
      modifies this
      ensures Valid() && Runs() == InsertRun(old(Runs()), j, run) && order == InsertRef(old(order), j, a)
    {
      ChainHas(cells, start, order, j - 1);
      SpliceKeepsChain(cells, start, order, j, a, run);
      CountedInsert(Runs(), j, run, length, itemCount);
      var right := start;
      if left.Some? {
        right := cells[left.value].right;
        cells := cells[a := Cell(left, right, run)];
        cells := cells[left.value := cells[left.value].(right := Some(a))];
      } else {
        cells := cells[a := Cell(left, right, run)];
        start := Some(a);
      }
      if right.Some? {
        cells := cells[right.value := cells[right.value].(left := Some(a))];
      }
      order := InsertRef(order, j, a);
      if run.countable && !run.deleted {
        length := length + run.len;
      }
      itemCount := itemCount + 1;
    }

    /** `integrateWithScratch`: the item goes to its place in the document order. */
    method Integrate(a: Ref, run: Run, left: Option<Ref>, right: Option<Ref>, ghost h: set<Item>, ghost b: nat, ghost e: nat)
      returns (ghost j: nat)
      requires Valid() && a !in cells && run.len > 0
      requires Replica(h, Contents()) && Ready(h, Contents(), run.first)
      requires b <= e <= |order| && left == At(order, b - 1) && right == At(order, e)
      requires AfterOrigin(Contents(), run.first, Offset(Runs(), b)) && AtRightOrigin(Contents(), run.first, Offset(Runs(), e))
      modifies this
      ensures Valid() && j <= |old(order)| && order == InsertRef(old(order), j, a)
      ensures Runs() == InsertRun(old(Runs()), j, run)
      ensures IsPlace(old(Contents()), run.first, Offset(old(Runs()), j))
    {
      var to;
      to, j := Place(run.first, left, right, h, b, e);
      Link(a, run, to, j);
    }

    /** `splitItem`: the units stay, the item falls in two. */
    method Split(l: Ref, a: Ref, diff: nat, ghost k: nat)
      requires Valid() && k < |order| && order[k] == l && a !in cells && l in cells && 0 < diff < cells[l].run.len
      modifies this
      ensures Valid() && length == old(length) && Contents() == old(Contents()) && order == InsertRef(old(order), k + 1, a) && cells.Keys == old(cells).Keys + {a}
      ensures diff <= old(Runs())[k].len && Runs() == SplitRun(old(Runs()), k, diff)
    {
      ghost var runs := Runs();
      assert runs[k] == cells[l].run;
      CountedSplit(runs, k, diff, length, itemCount);
      FlatSplit(runs, k, diff);
      RewriteKeepsChain(cells, start, order, k, LeftHalf(cells[l].run, diff));
      var right := RightHalf(cells[l].run, diff);
      cells := cells[l := cells[l].(run := LeftHalf(cells[l].run, diff))];
      SpliceKeepsChain(cells, start, order, k + 1, a, right);
      ChainHas(cells, start, order, k);
      var r := cells[l].right;
      cells := cells[a := Cell(Some(l), r, right)];
      cells := cells[l := cells[l].(right := Some(a))];
      if r.Some? {
        cells := cells[r.value := cells[r.value].(left := Some(a))];
      }
      order := InsertRef(order, k + 1, a);
      itemCount := itemCount + 1;
    }

    /** `mergeWithWithoutReadIndexInvalidation`: the right neighbour is absorbed
        exactly if it goes on where the item ends; the id tests decide. */
    method Merge(a: Ref, ghost h: set<Item>, ghost k: nat) returns (ok: bool)
      requires Valid() && Replica(h, Contents()) && k < |order| && order[k] == a
      modifies this
      ensures Valid() && length == old(length) && Contents() == old(Contents())
      ensures ok <==> k + 1 < |old(order)| && GoesOn(old(Runs())[k], old(Runs())[k + 1])
      ensures if ok then Runs() == MergeRun(old(Runs()), k) && order == old(order)[..k + 1] + old(order)[k + 2..] else Runs() == old(Runs()) && order == old(order)
    {
      ChainHas(cells, start, order, k);
      ChainHas(cells, start, order, k + 1);
      var r := cells[a].right;
      if k + 1 < |order| { MergeableIsGoesOn(h, Runs(), k); }
      if r.None? || !Mergeable(cells[a].run, cells[r.value].run) {
        return false;
      }
      CountedMerge(h, Runs(), k, length, itemCount);
      FlatMerge(Runs(), k);
      Absorb(a, r.value, k);
      return true;
    }

    /** The list surgery of `completeMergeWith`. */
    method Absorb(a: Ref, r: Ref, ghost k: nat)
      requires Chain(cells, start, order) && k + 1 < |order| && order[k] == a && order[k + 1] == r
      requires itemCount > 0 && Counted(MergeRun(Runs(), k), length, itemCount - 1)
      modifies this
      ensures Valid() && length == old(length) && Runs() == MergeRun(old(Runs()), k) && order == old(order)[..k + 1] + old(order)[k + 2..]
    {
      ghost var was := cells;
      ChainHas(cells, start, order, k + 1);
      AbsorbKeepsChain(cells, start, order, k);
      var len := cells[a].run.len + cells[r].run.len;
      var next := cells[r].right;
      cells := cells[a := cells[a].(right := next)];
      if next.Some? {
        cells := cells[next.value := cells[next.value].(left := Some(a))];
      }
      assert cells == Unlinked(was, a, At(order, k + 2));
      cells := cells[a := cells[a].(run := cells[a].run.(len := len))];
      order := order[..k + 1] + order[k + 2..];
      itemCount := itemCount - 1;
    }

    /** `deleteItemStruct`: mark the item and shorten the parent, once. */
    method Delete(a: Ref, ghost k: nat)
      requires Valid() && k < |order| && order[k] == a
      modifies this
      ensures Valid() && order == old(order) && Contents() == old(Contents())
      ensures Runs() == old(Runs())[k := old(Runs())[k].(deleted := true)]
    {
      ghost var runs := Runs();
      ChainHas(cells, start, order, k);
      CountedDelete(runs, k, length, itemCount);
      FlatDelete(runs, k);
      var run := cells[a].run;
      assert runs[k] == run;
      RewriteKeepsChain(cells, start, order, k, run.(deleted := true));
      if !run.deleted {
        if run.countable {
          length := length - run.len;
        }
        cells := cells[a := cells[a].(run := run.(deleted := true))];
      }
    }
  }
}

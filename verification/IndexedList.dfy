/** A list and its position index: whatever is done to the list, the index that is kept
    beside it describes the list as it has become. */
module IndexedList {
  import opened Wrappers
  import opened ItemOrder
  import opened ConflictScan
  import opened RunList
  import opened ItemList
  import Convergence
  import RunDelivery
  import Positions = PositionIndex

  /** A format stands for itself: it is one unit, and not countable. */
  predicate IsFormat(r: Run) { !r.countable && !r.deleted }

  function ShownAs(a: Ref, r: Run): Positions.Item {
    Positions.Item(a, Contribution(r), if IsFormat(r) then 1 else 0)
  }

  predicate ShortFormat(r: Run) { IsFormat(r) ==> r.len == 1 }

  ghost predicate Formats(runs: seq<Run>) {
    forall k {:trigger ShortFormat(runs[k])} :: 0 <= k < |runs| ==> ShortFormat(runs[k])
  }

  /** The list as the index sees it. */
  ghost function Shown(order: seq<Ref>, runs: seq<Run>): (s: seq<Positions.Item>)
    requires |order| == |runs|
    ensures |s| == |order| && forall i {:trigger s[i]} :: 0 <= i < |order| ==> s[i] == ShownAs(order[i], runs[i])
  {
    seq(|order|, i requires 0 <= i < |order| => ShownAs(order[i], runs[i]))
  }

  lemma {:induction false} ShownIsDistinct(cells: map<Ref, Cell>, start: Option<Ref>, order: seq<Ref>, runs: seq<Run>)
    requires Chain(cells, start, order) && |order| == |runs|
    ensures Positions.Distinct(Shown(order, runs))
  {
    var s := Shown(order, runs);
    forall i, j | 0 <= i < j < |s| ensures s[i].id != s[j].id { assert Apart(order, i, j); }
  }

  /** The units of the first `n` items that count and are not deleted. */
  ghost function LiveTo(runs: seq<Run>, n: nat): seq<Item>
    requires n <= |runs|
  {
    if n == 0 then [] else LiveTo(runs, n - 1) + if runs[n - 1].deleted || !runs[n - 1].countable then [] else Units(runs[n - 1].first, runs[n - 1].len)
  }

  /** The places of the live formats among the first `n` items. */
  ghost function FormatsIn(runs: seq<Run>, n: nat): set<nat>
    requires n <= |runs|
  {
    set k: nat | k < n && !runs[k].deleted && !runs[k].countable
  }

  /** What the index adds up is the number of live units, and of live formats. */
  lemma {:induction false} ShownAddsUp(order: seq<Ref>, runs: seq<Run>, n: nat)
    requires n <= |order| == |runs|
    ensures Positions.VisibleTo(Shown(order, runs), n) == |LiveTo(runs, n)|
    ensures Positions.FormatsTo(Shown(order, runs), n) == |FormatsIn(runs, n)|
  {
    if n == 0 {
      assert FormatsIn(runs, 0) == {};
    } else {
      ShownAddsUp(order, runs, n - 1);
      var r := runs[n - 1];
      assert FormatsIn(runs, n) == FormatsIn(runs, n - 1) + if !r.deleted && !r.countable then {n - 1} else {};
    }
  }

  // ---------------------------------------------------------------- what the operations show

  lemma {:induction false} ShownInsert(order: seq<Ref>, runs: seq<Run>, j: nat, a: Ref, r: Run)
    requires |order| == |runs| && j <= |order|
    ensures Shown(InsertRef(order, j, a), InsertRun(runs, j, r)) == Positions.Inserted(Shown(order, runs), j, ShownAs(a, r))
  {
  }

  lemma {:induction false} ShownSplit(order: seq<Ref>, runs: seq<Run>, k: nat, a: Ref, diff: nat)
    requires |order| == |runs| && k < |order| && 0 < diff < runs[k].len && ShortFormat(runs[k])
    ensures var s, l, r := Shown(order, runs), ShownAs(order[k], LeftHalf(runs[k], diff)), ShownAs(a, RightHalf(runs[k], diff));
            && Shown(InsertRef(order, k + 1, a), SplitRun(runs, k, diff)) == Positions.Inserted(s[k := l], k + 1, r)
            && l.id == s[k].id && l.visible + r.visible == s[k].visible && l.format == s[k].format && r.format == 0
  {
  }

  lemma {:induction false} ShownDelete(order: seq<Ref>, runs: seq<Run>, k: nat)
    requires |order| == |runs| && k < |order| && !IsFormat(runs[k])
    ensures var s := Shown(order, runs); Shown(order, runs[k := runs[k].(deleted := true)]) == s[k := s[k].(visible := 0)]
  {
  }

  lemma {:induction false} ShownMerge(order: seq<Ref>, runs: seq<Run>, k: nat)
    requires |order| == |runs| && k + 1 < |order| && runs[k].deleted == runs[k + 1].deleted && runs[k].countable == runs[k + 1].countable && !IsFormat(runs[k])
    ensures Shown(order[..k + 1] + order[k + 2..], MergeRun(runs, k)) == Positions.MergedAt(Shown(order, runs), k)
    ensures Shown(order, runs)[k + 1].format == 0
  {
    var s, m := Shown(order, runs), MergeRun(runs, k);
    forall i | 0 <= i < |m| ensures Shown(order[..k + 1] + order[k + 2..], m)[i] == Positions.MergedAt(s, k)[i] { }
  }

  lemma {:induction false} FormatsInsert(runs: seq<Run>, j: nat, r: Run)
    requires Formats(runs) && j <= |runs| && ShortFormat(r)
    ensures Formats(InsertRun(runs, j, r))
  {
    var m := InsertRun(runs, j, r);
    forall i | 0 <= i < |m| ensures ShortFormat(m[i]) { if i != j { assert ShortFormat(runs[if i < j then i else i - 1]); } }
  }

  lemma {:induction false} FormatsSplit(runs: seq<Run>, k: nat, diff: nat)
    requires Formats(runs) && k < |runs| && 0 < diff < runs[k].len
    ensures Formats(SplitRun(runs, k, diff))
  {
    var m := SplitRun(runs, k, diff);
    forall i | 0 <= i < |m| ensures ShortFormat(m[i]) { assert ShortFormat(runs[if i <= k then i else i - 1]); }
  }

  lemma {:induction false} FormatsDelete(runs: seq<Run>, k: nat)
    requires Formats(runs) && k < |runs|
    ensures Formats(runs[k := runs[k].(deleted := true)])
  {
    var m := runs[k := runs[k].(deleted := true)];
    forall i | 0 <= i < |m| ensures ShortFormat(m[i]) { assert ShortFormat(runs[i]); }
  }

  lemma {:induction false} FormatsMerge(runs: seq<Run>, k: nat)
    requires Formats(runs) && k + 1 < |runs| && !IsFormat(runs[k])
    ensures Formats(MergeRun(runs, k))
  {
    var m := MergeRun(runs, k);
    forall i | 0 <= i < |m| ensures ShortFormat(m[i]) { assert ShortFormat(runs[if i <= k then i else i + 1]); }
  }

  /** A walk along the links. */
  function Walk(cells: map<Ref, Cell>, n: Option<Ref>, ghost start: Option<Ref>, ghost order: seq<Ref>, ghost k: nat): (s: seq<Positions.Item>)
    requires Chain(cells, start, order) && k <= |order| && n == At(order, k)
    ensures s == Shown(order, RunsOf(cells, order))[k..]
    decreases |order| - k
  {
    ChainHas(cells, start, order, k);
    if n.None? then [] else [ShownAs(n.value, cells[n.value].run)] + Walk(cells, cells[n.value].right, start, order, k + 1)
  }

  // ---------------------------------------------------------------- clean starts and ends

  /** Some run holds a unit of the list. */
  lemma {:induction false} SomeCovers(runs: seq<Run>, o: Item) returns (k: nat)
    requires o in Flat(runs)
    ensures k < |runs| && Covers(runs[k], Id(o.client, o.clock))
  {
    var i: nat :| i < |Flat(runs)| && Flat(runs)[i] == o;
    assert runs[..|runs|] == runs && runs[..0] == [];
    var t;
    k, t := Locate(runs, 0, |runs|, i);
    FlatAt(runs, k, t);
  }

  /** The unit with an id is where the id says. */
  lemma {:induction false} UnitOfId(h: set<Item>, runs: seq<Run>, k: nat, o: Item)
    requires Replica(h, Flat(runs)) && k < |runs| && o in Flat(runs) && Covers(runs[k], Id(o.client, o.clock))
    ensures var t := o.clock - runs[k].first.clock; Offset(runs, k) + t < Offset(runs, k + 1) <= |Flat(runs)| && Flat(runs)[Offset(runs, k) + t] == o
  {
    var t := o.clock - runs[k].first.clock;
    FlatSlice(runs, k);
    FlatAt(runs, k, t);
    var u := Unit(runs[k].first, t);
    assert u in Elems(Flat(runs)) && o in Elems(Flat(runs)) && SameId(u, o);
  }

  lemma {:induction false} SplitOffsets(runs: seq<Run>, k: nat, diff: nat)
    requires k < |runs| && diff <= runs[k].len
    ensures Offset(SplitRun(runs, k, diff), k + 1) == Offset(runs, k) + diff
    ensures forall i: nat {:trigger Offset(runs, i)} :: i <= k ==> Offset(SplitRun(runs, k, diff), i) == Offset(runs, i)
  {
    var m := SplitRun(runs, k, diff);
    assert m[..k + 1] == runs[..k] + [LeftHalf(runs[k], diff)];
    FlatConcat(runs[..k], [LeftHalf(runs[k], diff)]);
    FlatOne(LeftHalf(runs[k], diff));
    forall i: nat | i <= k ensures Offset(m, i) == Offset(runs, i) { assert m[..i] == runs[..i]; }
  }

  /** A right origin is not before the origin. */
  lemma {:induction false} RightIsBehind(h: set<Item>, runs: seq<Run>, x: Item, b: nat, k: nat)
    requires Replica(h, Flat(runs)) && x in h && b <= |runs| && k < |runs| && AfterOrigin(Flat(runs), x, Offset(runs, b))
    requires x.rightOrigin.Some? && x.rightOrigin.value in Flat(runs) && Covers(runs[k], IdOf(x.rightOrigin).value)
    ensures b <= k
  {
    var o := x.rightOrigin.value;
    UnitOfId(h, runs, k, o);
    if k < b {
      OffsetMonotone(runs, k + 1, b);
      assert WellCreated(h, x);
      if x.origin.Some? { OrderGivesIndex(Flat(runs), Offset(runs, b) - 1, Offset(runs, k) + (o.clock - runs[k].first.clock)); }
    }
  }

  /** The item was created behind run `b - 1` and before run `e`. */
  ghost predicate CreatedIn(runs: seq<Run>, x: Item, b: nat, e: nat) {
    b <= e <= |runs| && AfterOrigin(Flat(runs), x, Offset(runs, b)) && AtRightOrigin(Flat(runs), x, Offset(runs, e))
  }

  lemma {:induction false} CreatedAtEnd(runs: seq<Run>, x: Item, b: nat)
    requires x.rightOrigin.None? && b <= |runs| && AfterOrigin(Flat(runs), x, Offset(runs, b))
    ensures CreatedIn(runs, x, b, |runs|)
  {
    assert runs[..|runs|] == runs;
  }

  /** With the units before the right origin split off, if there are any, it starts an item. */
  lemma {:induction false} StartsClean(h: set<Item>, runs: seq<Run>, order: seq<Ref>, x: Item, b: nat, k: nat, diff: nat, a: Ref)
    requires Replica(h, Flat(runs)) && x in h && |order| == |runs| && b <= |runs| && k < |runs| && AfterOrigin(Flat(runs), x, Offset(runs, b))
    requires x.rightOrigin.Some? && x.rightOrigin.value in Flat(runs) && Covers(runs[k], IdOf(x.rightOrigin).value)
    requires diff == x.rightOrigin.value.clock - runs[k].first.clock
    ensures b <= k && diff < runs[k].len && At(InsertRef(order, k + 1, a), b - 1) == At(order, b - 1)
    ensures if diff == 0 then CreatedIn(runs, x, b, k) else var m := SplitRun(runs, k, diff); Flat(m) == Flat(runs) && CreatedIn(m, x, b, k + 1)
  {
    RightIsBehind(h, runs, x, b, k);
    UnitOfId(h, runs, k, x.rightOrigin.value);
    FlatSplit(runs, k, diff);
    SplitOffsets(runs, k, diff);
    assert Offset(SplitRun(runs, k, diff), b) == Offset(runs, b);
  }

  // ---------------------------------------------------------------- the list with its index

  class IndexedType {
    const list: ListType
    var index: Positions.Index?

    ghost function Show(): seq<Positions.Item>
      reads this, list
    {
      Shown(list.order, list.Runs())
    }

    ghost predicate Valid()
      reads this, list, index
    {
      list.Valid() && Formats(list.Runs()) && (index != null ==> index.Valid(Show()))
    }

    constructor ()
      ensures Valid() && fresh(list) && index == null && list.Runs() == []
    {
      list := new ListType();
      index := null;
    }

    /** `activeListPositionIndex`: an index is built over the whole list. */
    method Activate()
      requires Valid() && index == null
      modifies this
      ensures Valid() && index != null && fresh(index)
    {
      ShownIsDistinct(list.cells, list.start, list.order, list.Runs());
      var shown := Walk(list.cells, list.start, list.start, list.order, 0);
      index := new Positions.Index(shown);
    }

    /** The item that is now at `j` goes into the index; if that fails, the index goes. */
    method AfterInsert(a: Ref, delta: nat, ghost before: seq<Positions.Item>, ghost j: nat)
      requires list.Valid() && (index != null ==> index.Valid(before)) && Positions.Grows(before, Show(), j, delta) && Show()[j].id == a
      modifies `index, index
      ensures index != null ==> index == old(index) && index.Valid(Show())
    {
      if index != null {
        var shown := Walk(list.cells, list.start, list.start, list.order, 0);
        assert shown == Show();
        var i := Positions.IndexOf(shown, a);
        assert shown[i].id == shown[j].id;
        var ok := index.InsertItem(before, shown, i, delta);
        if !ok { index := null; }
      }
    }

    /** Integrating an item, and telling the index. */
    method Integrate(a: Ref, run: Run, left: Option<Ref>, right: Option<Ref>, ghost h: set<Item>, ghost b: nat, ghost e: nat)
      returns (ghost j: nat)
      requires Valid() && a !in list.cells && run.len > 0 && ShortFormat(run)
      requires Replica(h, list.Contents()) && Ready(h, list.Contents(), run.first)
      requires left == At(list.order, b - 1) && right == At(list.order, e) && CreatedIn(list.Runs(), run.first, b, e)
      modifies this, list, index
      ensures Valid() && (index == old(index) || index == null)
      ensures j <= |old(list.order)| && list.Runs() == InsertRun(old(list.Runs()), j, run)
      ensures IsPlace(old(list.Contents()), run.first, Offset(old(list.Runs()), j))
    {
      ghost var order, runs, before := list.order, list.Runs(), Show();
      j := list.Integrate(a, run, left, right, h, b, e);
      FormatsInsert(runs, j, run);
      ShownInsert(order, runs, j, a, run);
      ShownIsDistinct(list.cells, list.start, list.order, list.Runs());
      Positions.IntegrationGrows(before, j, ShownAs(a, run));
      AfterInsert(a, Contribution(run), before, j);
    }

    /** Splitting an item, and telling the index. */
    method Split(l: Ref, a: Ref, diff: nat, ghost k: nat)
      requires Valid() && k < |list.order| && list.order[k] == l && a !in list.cells && l in list.cells && 0 < diff < list.cells[l].run.len
      modifies this, list, index
      ensures Valid() && (index == old(index) || index == null) && list.order == InsertRef(old(list.order), k + 1, a)
      ensures list.cells.Keys == old(list.cells).Keys + {a}
      ensures diff <= old(list.Runs())[k].len && list.Runs() == SplitRun(old(list.Runs()), k, diff)
    {
      ghost var order, runs, before := list.order, list.Runs(), Show();
      assert runs[k] == list.cells[l].run && ShortFormat(runs[k]);
      list.Split(l, a, diff, k);
      FormatsSplit(runs, k, diff);
      ShownSplit(order, runs, k, a, diff);
      ShownIsDistinct(list.cells, list.start, list.order, list.Runs());
      Positions.SplitGrows(before, k, ShownAs(l, LeftHalf(runs[k], diff)), ShownAs(a, RightHalf(runs[k], diff)));
      AfterInsert(a, 0, before, k + 1);
    }

    /** Deleting an item: a format takes the index with it, and what shows nothing leaves it
        as it is. */
    method Delete(a: Ref, ghost k: nat)
      requires Valid() && k < |list.order| && list.order[k] == a
      modifies this, list, index
      ensures Valid() && (index == old(index) || index == null) && list.order == old(list.order)
      ensures list.Runs() == old(list.Runs())[k := old(list.Runs())[k].(deleted := true)]
    {
      ghost var runs := list.Runs();
      ChainHas(list.cells, list.start, list.order, k);
      assert runs[k] == list.cells[a].run;
      var run := list.cells[a].run;
      FormatsDelete(runs, k);
      if IsFormat(run) {
        index := null;
      } else {
        ShownDelete(list.order, runs, k);
        if index != null { ForgetVisible(a, k); }
      }
      list.Delete(a, k);
    }

    /** The index is told that item `a` will not be visible any more. */
    method ForgetVisible(a: Ref, ghost k: nat)
      requires list.Valid() && index != null && index.Valid(Show()) && k < |list.order| && list.order[k] == a
      modifies index
      ensures index.Valid(Show()[k := Show()[k].(visible := 0)])
    {
      var shown := Walk(list.cells, list.start, list.start, list.order, 0);
      assert shown == Show() && shown[k].id == a;
      var i := Positions.IndexOf(shown, a);
      assert shown[i].id == shown[k].id;
      var ok := index.DeleteItem(shown, i);
    }

    /** Merging an item with its right neighbour, after the index was told; a format is never
        merged. */
    method Merge(a: Ref, ghost h: set<Item>, ghost k: nat) returns (ok: bool)
      requires Valid() && Replica(h, list.Contents()) && k < |list.order| && list.order[k] == a
      modifies this, list, index
      ensures Valid() && (index == old(index) || index == null) && list.Contents() == old(list.Contents())
      ensures ok <==> k + 1 < |old(list.order)| && GoesOn(old(list.Runs())[k], old(list.Runs())[k + 1]) && !IsFormat(old(list.Runs())[k])
      ensures if ok then list.Runs() == MergeRun(old(list.Runs()), k) else list.Runs() == old(list.Runs())
    {
      ghost var order, runs := list.order, list.Runs();
      ChainHas(list.cells, list.start, list.order, k);
      ChainHas(list.cells, list.start, list.order, k + 1);
      assert runs[k] == list.cells[a].run;
      var r := list.cells[a].right;
      if k + 1 < |order| { MergeableIsGoesOn(h, runs, k); }
      if r.None? || IsFormat(list.cells[a].run) || !Mergeable(list.cells[a].run, list.cells[r.value].run) {
        return false;
      }
      ShownMerge(order, runs, k);
      FormatsMerge(runs, k);
      if index != null { ForgetRight(a, k); }
      ok := list.Merge(a, h, k);
    }

    /** The index is told that item `a` will take in its right neighbour. */
    method ForgetRight(a: Ref, ghost k: nat)
      requires list.Valid() && index != null && index.Valid(Show()) && k + 1 < |list.order| && list.order[k] == a && Show()[k + 1].format == 0
      modifies index
      ensures index.Valid(Positions.MergedAt(Show(), k))
    {
      var shown := Walk(list.cells, list.start, list.start, list.order, 0);
      assert shown == Show() && shown[k].id == a;
      var i := Positions.IndexOf(shown, a);
      assert shown[i].id == shown[k].id;
      index.RemoveMergedRight(shown, i);
    }

    /** The item that holds a unit of the list. */
    method Holder(id: Id, ghost o: Item) returns (l: Ref, ghost k: nat)
      requires list.Valid() && o in list.Contents() && id == Id(o.client, o.clock)
      ensures k < |list.order| && list.order[k] == l && l in list.cells && list.cells[l].run == list.Runs()[k] && Covers(list.Runs()[k], id)
    {
      ghost var m := SomeCovers(list.Runs(), o);
      assert Covers(RunAt(list.cells, list.order, m), id);
      var found := Find(list.cells, id, list.start, list.start, list.order, 0);
      l := found.value;
      k :| 0 <= k < |list.order| && list.order[k] == l;
    }

    /** `getItemCleanEnd`: the item that ends with the unit; one that goes on is split. */
    method CleanEnd(id: Id, a: Ref, ghost h: set<Item>, ghost o: Item) returns (left: Ref, ghost b: nat)
      requires Valid() && Replica(h, list.Contents()) && o in list.Contents() && id == Id(o.client, o.clock) && a !in list.cells
      modifies this, list, index
      ensures Valid() && (index == old(index) || index == null) && list.Contents() == old(list.Contents()) && list.cells.Keys <= old(list.cells).Keys + {a}
      ensures 0 < b <= |list.order| && list.order[b - 1] == left
      ensures 0 < Offset(list.Runs(), b) <= |list.Contents()| && list.Contents()[Offset(list.Runs(), b) - 1] == o
    {
      ghost var k;
      left, k := Holder(id, o);
      ghost var runs := list.Runs();
      var run := list.cells[left].run;
      var diff := id.clock - run.first.clock + 1;
      UnitOfId(h, runs, k, o);
      b := k + 1;
      if diff < run.len {
        FlatSplit(runs, k, diff);
        SplitOffsets(runs, k, diff);
        Split(left, a, diff, k);
      } else {
        FlatSlice(runs, k);
      }
    }

    /** `getItemCleanStart`: the item that starts with the unit; the units before it are split off. */
    method CleanStart(id: Id, a: Ref, ghost h: set<Item>, ghost x: Item, ghost b: nat) returns (right: Ref, ghost e: nat)
      requires Valid() && Replica(h, list.Contents()) && x in h && x.rightOrigin.Some? && x.rightOrigin.value in list.Contents() && Some(id) == IdOf(x.rightOrigin)
      requires a !in list.cells && b <= |list.order| && AfterOrigin(list.Contents(), x, Offset(list.Runs(), b))
      modifies this, list, index
      ensures Valid() && (index == old(index) || index == null) && list.Contents() == old(list.Contents()) && list.cells.Keys <= old(list.cells).Keys + {a}
      ensures e < |list.order| && list.order[e] == right && At(list.order, b - 1) == At(old(list.order), b - 1) && CreatedIn(list.Runs(), x, b, e)
    {
      ghost var k;
      right, k := Holder(id, x.rightOrigin.value);
      var diff := id.clock - list.cells[right].run.first.clock;
      StartsClean(h, list.Runs(), list.order, x, b, k, diff, a);
      e := k;
      if diff > 0 {
        e := SplitOff(right, a, diff, k, x, b);
        right := a;
      }
    }

    /** The units before the right origin are split off. */
    method SplitOff(r: Ref, a: Ref, diff: nat, ghost k: nat, ghost x: Item, ghost b: nat) returns (ghost e: nat)
      requires Valid() && k < |list.order| && list.order[k] == r && a !in list.cells && r in list.cells && 0 < diff < list.cells[r].run.len && diff < list.Runs()[k].len
      requires At(InsertRef(list.order, k + 1, a), b - 1) == At(list.order, b - 1)
      requires var m := SplitRun(list.Runs(), k, diff); Flat(m) == Flat(list.Runs()) && CreatedIn(m, x, b, k + 1)
      modifies this, list, index
      ensures Valid() && (index == old(index) || index == null) && list.Contents() == old(list.Contents()) && list.cells.Keys <= old(list.cells).Keys + {a}
      ensures e < |list.order| && list.order[e] == a && At(list.order, b - 1) == At(old(list.order), b - 1) && CreatedIn(list.Runs(), x, b, e)
    {
      Split(r, a, diff, k);
      e := k + 1;
    }

    /** `missingClient` and `integrateWithScratch` for an item of which the first `offset` units
        are there already: it is trimmed, its neighbours are split where its origins say, and
        what is left of it goes to its place.  The list is then what delivering the units one
        by one would have made of it. */
    method IntegrateFrom(run: Run, offset: nat, a: Ref, l: Ref, r: Ref, ghost h: set<Item>)
      requires Valid() && offset < run.len && ShortFormat(run) && a !in list.cells && l !in list.cells && r !in list.cells && a != l && a != r && l != r
      requires Replica(h, list.Contents()) && Ready(h, list.Contents(), Unit(run.first, offset))
      requires forall k :: 0 <= k < run.len ==> Unit(run.first, k) in h
      modifies this, list, index
      ensures Valid() && (index == old(index) || index == null) && Replica(h, list.Contents())
      ensures var x := RightHalf(run, offset);
              Convergence.Deliverable(h, old(list.Contents()), Units(x.first, x.len)) && list.Contents() == Convergence.DeliverAll(h, old(list.Contents()), Units(x.first, x.len))
    {
      var x := RightHalf(run, offset);
      ghost var l0 := list.Contents();
      var left, right;
      ghost var b, e;
      left, right, b, e := Neighbours(x.first, l, r, h);
      ghost var runs := list.Runs();
      ghost var j := Integrate(a, x, left, right, h, b, e);
      forall k | 0 <= k < x.len ensures Unit(x.first, k) in h { UnitOfUnit(run.first, offset, k); }
      RunDelivery.IntegratedRuns(h, runs, x, j);
    }

    /** The items to the left and to the right of the place an item was created in. */
    method Neighbours(x: Item, l: Ref, r: Ref, ghost h: set<Item>) returns (left: Option<Ref>, right: Option<Ref>, ghost b: nat, ghost e: nat)
      requires Valid() && l !in list.cells && r !in list.cells && l != r && Replica(h, list.Contents()) && Ready(h, list.Contents(), x)
      modifies this, list, index
      ensures Valid() && (index == old(index) || index == null) && list.Contents() == old(list.Contents()) && list.cells.Keys <= old(list.cells).Keys + {l, r}
      ensures left == At(list.order, b - 1) && right == At(list.order, e) && CreatedIn(list.Runs(), x, b, e)
    {
      assert RefsIn(Elems(list.Contents()), x);
      left, b := LeftOf(x, l, h);
      right := None;
      if x.rightOrigin.Some? {
        var n;
        n, e := CleanStart(IdOf(x.rightOrigin).value, r, h, x, b);
        right := Some(n);
      } else {
        e := |list.order|;
        CreatedAtEnd(list.Runs(), x, b);
      }
    }

    method LeftOf(x: Item, l: Ref, ghost h: set<Item>) returns (left: Option<Ref>, ghost b: nat)
      requires Valid() && l !in list.cells && Replica(h, list.Contents()) && RefsIn(Elems(list.Contents()), x)
      modifies this, list, index
      ensures Valid() && (index == old(index) || index == null) && list.Contents() == old(list.Contents()) && list.cells.Keys <= old(list.cells).Keys + {l}
      ensures left == At(list.order, b - 1) && b <= |list.order| && AfterOrigin(list.Contents(), x, Offset(list.Runs(), b))
    {
      left, b := None, 0;
      assert list.Runs()[..0] == [];
      if x.origin.Some? {
        var n;
        n, b := CleanEnd(IdOf(x.origin).value, l, h, x.origin.value);
        left := Some(n);
      }
    }
  }
}

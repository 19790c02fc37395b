/** A client's struct list: a flat slice that turns into a tree when a large list is
    inserted into, and back when it has shrunk.  Either way it is a plain sequence. */
module HybridList {
  import opened Wrappers
  import opened StructTree
  import opened StructSearch
  import opened StructList

  /** The tree's limits, and the sizes at which the representation changes. */
  datatype Policy = Policy(lim: Limits, activation: nat, deactivation: nat)

  /** A position in the slice, or a cursor of the tree; good for one generation. */
  datatype HybridCursor = InSlice(position: nat, since: nat) | InTree(cursor: Cursor, since: nat)

  /** `grown` begins with struct `p` and ends with struct `q`. */
  predicate Covers(c: seq<Struct>, p: nat, q: nat, grown: Struct)
    requires p < |c| && q < |c|
  {
    grown.clock == c[p].clock && End(grown) == End(c[q])
  }

  lemma {:induction false} ShortenedAscends(c: seq<Struct>, p: nat, left: Struct)
    requires Ascending(c) && p < |c| && left.clock == c[p].clock && 0 < left.len <= c[p].len
    ensures Ascending(c[p := left])
  {
    var d := c[p := left];
    forall i | 0 <= i < |d| ensures Proper(d[i]) { assert Proper(c[i]); }
    forall i | 0 <= i < |d| - 1 ensures Apart(d, i) { assert Apart(c, i); }
  }

  /** A struct is cut in two. */
  lemma {:induction false} HalvesInOrder(c: seq<Struct>, p: nat, left: Struct, right: Struct)
    requires p < |c| && 0 < left.len < c[p].len && left.clock == c[p].clock && right.clock == left.clock + left.len && right.len == c[p].len - left.len
    ensures var d := c[..p] + [left, right] + c[p + 1..]; (Ascending(c) ==> Ascending(d)) && (Contiguous(c) ==> Contiguous(d))
  {
    var d := c[..p] + [left, right] + c[p + 1..];
    if Ascending(c) {
      forall i | 0 <= i < |d| ensures Proper(d[i]) { if i < p { assert Proper(c[i]); } else if i > p + 1 { assert Proper(c[i - 1]); } }
      forall i | 0 <= i < |d| - 1 ensures Apart(d, i) { if i < p { assert Apart(c, i); } else if i > p { assert Apart(c, i - 1); } }
    }
    if Contiguous(c) {
      forall i | 0 <= i < |d| ensures Proper(d[i]) { if i < p { assert Proper(c[i]); } else if i > p + 1 { assert Proper(c[i - 1]); } }
      forall i | 0 <= i < |d| - 1 ensures Joined(d, i) { if i < p { assert Joined(c, i); } else if i > p { assert Joined(c, i - 1); } }
    }
  }

  lemma {:induction false} AbsorbedInOrder(c: seq<Struct>, p: nat, q: nat, grown: Struct)
    requires p < q < |c| && Covers(c, p, q, grown)
    ensures var d := c[..p] + [grown] + c[q + 1..]; (Ascending(c) ==> Ascending(d)) && (Contiguous(c) ==> Contiguous(d))
  {
    var d, n := c[..p] + [grown] + c[q + 1..], q - p;
    if Contiguous(c) { ContiguousAscends(c); }
    if Ascending(c) {
      ClocksInOrder(c, p, q);
      assert Proper(c[q]);
      forall i | 0 <= i < |d| ensures Proper(d[i]) { if i < p { assert Proper(c[i]); } else if i > p { assert Proper(c[i + n]); } }
      forall i | 0 <= i < |d| - 1 ensures Apart(d, i) { if i < p { assert Apart(c, i); } else { assert Apart(c, i + n); } }
    }
    if Contiguous(c) {
      forall i | 0 <= i < |d| - 1 ensures Joined(d, i) { if i < p { assert Joined(c, i); } else { assert Joined(c, i + n); } }
    }
  }

  class StructsOfClient {
    const policy: Policy
    var items: seq<Struct>
    var tree: BPlusTree?
    var generation: nat

    ghost predicate Shaped()
      reads this, tree
    {
      Sane(policy.lim) && policy.activation > 0 && (tree != null ==> tree.lim == policy.lim && items == [])
    }

    ghost predicate Valid()
      reads this, tree
    {
      Shaped() && (tree != null ==> tree.Valid())
    }

    /** The cursor's struct may have changed in place, without the tree having been told. */
    ghost predicate ValidBut(c: HybridCursor)
      reads this, tree
    {
      Shaped() && (tree != null ==> c.InTree? && tree.ValidBut(c.cursor.leaf))
    }

    /** The struct before struct `p` may have changed in place. */
    ghost predicate ValidButBefore(p: nat)
      reads this, tree
    {
      Shaped() && (tree != null ==> tree.Valid() || tree.ChangedBefore(p))
    }

    ghost function Content(): seq<Struct>
      reads this, tree
    {
      if tree == null then items else tree.Content()
    }

    /** The cursor stands on struct `p` of this generation. */
    ghost predicate Denotes(c: HybridCursor, p: nat)
      reads this, tree
    {
      && c.since == generation && p < |Content()|
      && (if tree == null then c == InSlice(p, generation) else c.InTree? && tree.Denotes(c.cursor, p))
    }

    constructor (policy: Policy)
      requires policy.lim.leaf >= 2 && policy.lim.branch >= 3 && policy.activation > 0
      ensures Valid() && Content() == [] && tree == null
    {
      this.policy := policy;
      items, tree, generation := [], null, 0;
    }

    /** `Append`: cursors stay good. */
    method Append(x: Struct) returns (c: HybridCursor)
      requires Valid()
      modifies this, tree
      ensures Valid() && tree == old(tree) && Content() == old(Content()) + [x] && Denotes(c, |old(Content())|)
      ensures forall d, p {:trigger Denotes(d, p)} :: old(Denotes(d, p)) ==> Denotes(d, p)
    {
      if tree != null {
        var d := tree.Append(x);
        return InTree(d, generation);
      }
      items := items + [x];
      c := InSlice(|items| - 1, generation);
    }

    /** `Replace` */
    method Replace(c: HybridCursor, ghost p: nat, x: Struct)
      requires Valid() && Denotes(c, p)
      modifies this, tree
      ensures Valid() && tree == old(tree) && Content() == old(Content())[p := x] && Denotes(c, p)
    {
      if tree != null {
        tree.Replace(c.cursor, p, x);
      } else {
        items := items[c.position := x];
      }
    }

    /** The slice turns into a tree. */
    method Activate(position: nat) returns (c: Cursor)
      requires Valid() && tree == null && position < |items| && Ascending(items)
      modifies this
      ensures Valid() && fresh(tree) && Content() == old(Content()) && generation == old(generation) && tree.Denotes(c, position)
    {
      var anchor := items[position];
      var t := new BPlusTree.FromFlat(items, policy.lim);
      c := t.FindValue(anchor, position);
      tree, items := t, [];
    }

    /** The item itself grows or shrinks, in the slice or behind the tree's back. */
    method ChangeItem(c: HybridCursor, ghost p: nat, x: Struct)
      requires Valid() && Denotes(c, p)
      modifies this, tree
      ensures ValidBut(c) && ValidButBefore(p + 1) && tree == old(tree) && generation == old(generation) && Content() == old(Content())[p := x]
      ensures forall d, q {:trigger Denotes(d, q)} :: old(Denotes(d, q)) ==> Denotes(d, q)
    {
      if tree != null {
        tree.ChangeItem(c.cursor, p, x);
        assert tree.Denotes(c.cursor, p);
      } else {
        items := items[c.position := x];
      }
    }

    /** `InsertAfter`, also behind a struct that was just shortened in place; a large slice
        turns into a tree first. */
    method InsertAfter(c: HybridCursor, ghost p: nat, x: Struct) returns (d: HybridCursor)
      requires ValidBut(c) && Denotes(c, p) && Ascending(Content())
      modifies this, tree
      ensures Valid() && (tree == old(tree) || fresh(tree))
      ensures tree == null <==> old(tree) == null && |old(Content())| < policy.activation
      ensures Content() == old(Content())[..p + 1] + [x] + old(Content())[p + 1..]
      ensures generation == old(generation) + 1 && Denotes(d, p + 1)
    {
      generation := generation + 1;
      if tree != null {
        var e := tree.InsertAfter(c.cursor, p, x);
        return InTree(e, generation);
      }
      if |items| >= policy.activation {
        var anchor := Activate(c.position);
        tree.CursorIsValidBut(anchor, p);
        var e := tree.InsertAfter(anchor, p, x);
        return InTree(e, generation);
      }
      var at := c.position + 1;
      items := items[..at] + [x] + items[at..];
      d := InSlice(at, generation);
    }

    /** An item is split: it keeps its left half, and the right half comes behind it. */
    method Split(c: HybridCursor, ghost p: nat, left: Struct, right: Struct) returns (d: HybridCursor)
      requires Valid() && Denotes(c, p) && Ascending(Content())
      requires var x := Content()[p]; 0 < left.len < x.len && left.clock == x.clock && right.clock == left.clock + left.len && right.len == x.len - left.len
      modifies this, tree
      ensures Valid() && Content() == old(Content())[..p] + [left, right] + old(Content())[p + 1..]
      ensures generation == old(generation) + 1 && Denotes(d, p + 1)
    {
      ghost var before := Content();
      ShortenedAscends(before, p, left);
      ChangeItem(c, p, left);
      assert Denotes(c, p);
      InTwo(before, p, left, right);
      d := InsertAfter(c, p, right);
    }

    /** The tree turns back into a slice; the struct at `p` is found again. */
    method Deactivate(next: Option<Cursor>, ghost p: nat) returns (d: Option<HybridCursor>)
      requires Valid() && tree != null && Ascending(Content()) && (next.Some? ==> p < |Content()| && tree.Denotes(next.value, p))
      modifies this
      ensures Valid() && tree == null && Content() == old(Content()) && generation == old(generation)
      ensures d.Some? == next.Some? && (d.Some? ==> Denotes(d.value, p))
    {
      var t := tree;
      var snapshot := t.Snapshot();
      d := None;
      if next.Some? {
        var value := t.Value(next.value, p);
        var i := 0;
        while snapshot[i] != value
          invariant i <= p
          decreases p - i
        {
          i := i + 1;
        }
        assert Proper(snapshot[p]);
        if i < p { ClocksInOrder(snapshot, i, p); }
        d := Some(InSlice(i, generation));
      }
      items, tree := snapshot, null;
    }

    /** `Remove`, also behind a struct that has just grown in place; a tree that has shrunk turns back into a slice. */
    method Remove(first: HybridCursor, last: HybridCursor, ghost p: nat, ghost q: nat) returns (next: Option<HybridCursor>)
      requires ValidButBefore(p) && Denotes(first, p) && Denotes(last, q) && p <= q && Ascending(Content()[..p] + Content()[q + 1..])
      modifies this, tree
      ensures Valid() && (tree == old(tree) || tree == null)
      ensures tree == null <==> old(tree) == null || |Content()| <= policy.deactivation
      ensures Content() == old(Content())[..p] + old(Content())[q + 1..]
      ensures generation == old(generation) + 1
      ensures next.Some? <==> q + 1 < |old(Content())|
      ensures next.Some? ==> Denotes(next.value, p)
    {
      generation := generation + 1;
      if tree != null {
        var d := tree.Remove(first.cursor, last.cursor, p, q);
        var n := tree.Count();
        if n <= policy.deactivation {
          next := Deactivate(d, p);
        } else {
          next := if d.Some? then Some(InTree(d.value, generation)) else None;
        }
        return;
      }
      items := items[..first.position] + items[last.position + 1..];
      next := if first.position < |items| then Some(InSlice(first.position, generation)) else None;
    }

    /** An item grows over those behind it, up to `last`, which are removed. */
    method Absorb(c: HybridCursor, ghost p: nat, grown: Struct, last: HybridCursor, ghost q: nat) returns (next: Option<HybridCursor>)
      requires Valid() && Denotes(c, p) && Denotes(last, q) && p < q && Ascending(Content()) && Covers(Content(), p, q, grown)
      modifies this, tree
      ensures Valid() && Content() == old(Content())[..p] + [grown] + old(Content())[q + 1..]
      ensures generation == old(generation) + 1
      ensures next.Some? <==> q + 1 < |old(Content())|
      ensures next.Some? ==> Denotes(next.value, p + 1)
    {
      ghost var before, p' := Content(), p + 1;
      var first := NextOf(c, p);
      ChangeItem(c, p, grown);
      assert Denotes(first, p') && Denotes(last, q);
      AbsorbedIs(before, Content(), p, q, grown);
      AbsorbedInOrder(before, p, q, grown);
      next := RemoveTo(first, last, p', q, before[..p] + [grown] + before[q + 1..]);
    }

    /** `Remove`, with what will be left. */
    method RemoveTo(first: HybridCursor, last: HybridCursor, ghost p: nat, ghost q: nat, ghost left: seq<Struct>) returns (next: Option<HybridCursor>)
      requires ValidButBefore(p) && Denotes(first, p) && Denotes(last, q) && p <= q && left == Content()[..p] + Content()[q + 1..] && Ascending(left)
      modifies this, tree
      ensures Valid() && Content() == left && generation == old(generation) + 1
      ensures (next.Some? <==> q + 1 < |old(Content())|) && (next.Some? ==> Denotes(next.value, p))
    {
      next := Remove(first, last, p, q);
    }

    /** `tryMergeWithLeft`, if the item to the left takes in the one at `position`. */
    method MergeWithLeft(position: nat, grown: Struct)
      requires Valid() && 0 < position < |Content()| && Ascending(Content()) && Covers(Content(), position - 1, position, grown)
      modifies this, tree
      ensures Valid() && Content() == old(Content())[..position - 1] + [grown] + old(Content())[position + 1..]
    {
      var left, right := InSlice(position - 1, generation), InSlice(position, generation);
      if tree != null {
        var r := tree.At(position);
        var l := tree.Prev(r.value, position);
        left, right := InTree(l.value, generation), InTree(r.value, generation);
      }
      var _ := Absorb(left, position - 1, grown, right, position);
    }

    /** `Next`, before the end. */
    method NextOf(c: HybridCursor, ghost p: nat) returns (d: HybridCursor)
      requires Valid() && Denotes(c, p) && p + 1 < |Content()|
      ensures Denotes(d, p + 1)
    {
      if tree != null {
        var e := tree.Next(c.cursor, p);
        d := InTree(e.value, generation);
      } else {
        d := InSlice(c.position + 1, generation);
      }
    }

    /** `Find`: the same answer in both representations, for any first pivot. */
    method Find(clock: nat, guess: nat) returns (found: Option<HybridCursor>, ghost p: nat)
      requires Valid() && Contiguous(Content()) && (Content() != [] ==> Content()[0].clock == 0)
      ensures found.None? ==> Past(Content(), clock)
      ensures found.Some? ==> Denotes(found.value, p) && HasClock(Content()[p], clock)
    {
      found, p := None, 0;
      if tree != null {
        var c;
        c, p := tree.Find(clock, guess);
        if c.Some? { found := Some(InTree(c.value, generation)); }
      } else {
        var ok, index := FindIn(items, clock, if guess < |items| then guess else 0);
        if ok {
          found, p := Some(InSlice(index, generation)), index;
        }
      }
    }
  }
}

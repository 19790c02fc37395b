/** Looking things up in the struct tree: by position through the counts, by clock
    through the end clocks. */
module StructSearch {
  import opened StructTree
  import opened StructLeaves

  // ---------------------------------------------------------------- totals are those of the structs

  lemma {:induction false} ItemsTotalOfPrefix(a: seq<Struct>, b: seq<Struct>, n: nat)
    requires n <= |a|
    ensures ItemsTotal(a + b, n) == ItemsTotal(a, n)
  {
    if n > 0 { ItemsTotalOfPrefix(a, b, n - 1); }
  }

  lemma {:induction false} ItemsTotalOfConcat(a: seq<Struct>, b: seq<Struct>, n: nat)
    requires n <= |b|
    ensures ItemsTotal(a + b, |a| + n) == Add(ItemsTotal(a, |a|), ItemsTotal(b, n))
  {
    if n == 0 { ItemsTotalOfPrefix(a, b, |a|); } else { ItemsTotalOfConcat(a, b, n - 1); }
  }

  function TotalOf(items: seq<Struct>): Total { ItemsTotal(items, |items|) }

  lemma {:induction false} TotalCounts(items: seq<Struct>, n: nat)
    requires n <= |items|
    ensures ItemsTotal(items, n).structs == n
  {
    if n > 0 { TotalCounts(items, n - 1); }
  }

  /** The end clock is beyond `clock` exactly if some struct's end is. */
  lemma {:induction false} TotalEnds(items: seq<Struct>, n: nat, clock: nat)
    requires n <= |items|
    ensures ItemsTotal(items, n).endClock > clock <==> exists i :: 0 <= i < n && End(items[i]) > clock
  {
    if n > 0 { TotalEnds(items, n - 1, clock); }
  }

  function ItemsOf(n: Node): seq<Struct> { AllItems(Leaves(n)) }

  lemma {:induction false} TotalIsItems(n: Node, depth: nat, lim: Limits)
    requires RootWf(n, depth, lim) || Wf(n, depth, lim)
    ensures n.total == TotalOf(ItemsOf(n))
    decreases depth, 0
  {
    if n.LeafNode? {
      AllItemsOne(n.leaf);
    } else {
      ChildrenTotalIsItems(n.children, |n.children|, depth - 1, lim);
    }
  }

  lemma {:induction false} ChildrenTotalIsItems(cs: seq<Node>, n: nat, depth: nat, lim: Limits)
    requires AllWf(cs, depth, lim) && n <= |cs|
    ensures ChildrenTotal(cs, n) == TotalOf(AllItems(LeavesTo(cs, n)))
    decreases depth, n + 1
  {
    if n > 0 {
      ChildrenTotalIsItems(cs, n - 1, depth, lim);
      assert Wf(cs[n - 1], depth, lim);
      TotalIsItems(cs[n - 1], depth, lim);
      AllItemsConcat(LeavesTo(cs, n - 1), Leaves(cs[n - 1]));
      ItemsTotalOfConcat(AllItems(LeavesTo(cs, n - 1)), ItemsOf(cs[n - 1]), |ItemsOf(cs[n - 1])|);
    }
  }

  // ---------------------------------------------------------------- descending

  /** The leaves of `n` stand behind `before` in `ls`, and struct `p` is in one of them. */
  ghost predicate Holds(ls: seq<Leaf>, n: Node, before: seq<Leaf>, after: seq<Leaf>, p: nat) {
    ls == before + Leaves(n) + after && |AllItems(before)| <= p < |AllItems(before)| + |ItemsOf(n)|
  }

  lemma {:induction false} Split(cs: seq<Node>, i: nat)
    requires i < |cs|
    ensures AllLeaves(cs) == LeavesTo(cs, i) + Leaves(cs[i]) + AllLeaves(cs[i + 1..])
  {
    assert cs == cs[..i + 1] + cs[i + 1..];
    AllLeavesConcat(cs[..i + 1], cs[i + 1..]);
    LeavesOfPrefix(cs[..i + 1], cs[i + 1..], i + 1);
    assert LeavesTo(cs, i + 1) == LeavesTo(cs, i) + Leaves(cs[i]);
  }

  lemma {:induction false} Regroup(a: seq<Leaf>, b: seq<Leaf>, c: seq<Leaf>, d: seq<Leaf>, e: seq<Leaf>)
    ensures a + (b + c + d) + e == (a + b) + c + (d + e)
  {
  }

  /** Struct `p` is in child `i` if it is neither before it nor behind it. */
  lemma {:induction false} HoldsInChild(ls: seq<Leaf>, cs: seq<Node>, total: Total, before: seq<Leaf>, after: seq<Leaf>, p: nat, i: nat)
    requires Holds(ls, BranchNode(cs, total), before, after, p) && i < |cs|
    requires |AllItems(before)| + |AllItems(LeavesTo(cs, i))| <= p < |AllItems(before)| + |AllItems(LeavesTo(cs, i + 1))|
    ensures Holds(ls, cs[i], before + LeavesTo(cs, i), AllLeaves(cs[i + 1..]) + after, p)
    ensures |AllItems(before + LeavesTo(cs, i))| == |AllItems(before)| + |AllItems(LeavesTo(cs, i))|
  {
    Split(cs, i);
    Regroup(before, LeavesTo(cs, i), Leaves(cs[i]), AllLeaves(cs[i + 1..]), after);
    AllItemsConcat(before, LeavesTo(cs, i));
    AllItemsConcat(LeavesTo(cs, i), Leaves(cs[i]));
  }

  /** At a leaf the slot is known. */
  lemma {:induction false} HoldsInLeaf(ls: seq<Leaf>, l: Leaf, total: Total, before: seq<Leaf>, after: seq<Leaf>, p: nat)
    requires Holds(ls, LeafNode(l, total), before, after, p)
    ensures |before| < |ls| && ls[|before|] == l && IsAt(ls, |before|, p - |AllItems(before)|, p)
  {
    AllItemsOne(l);
    ItemsOfPrefix(before, [l] + after, |before|);
    assert ls == before + ([l] + after);
  }

  lemma {:induction false} ChildCounts(cs: seq<Node>, i: nat, depth: nat, lim: Limits)
    requires AllWf(cs, depth, lim) && i < |cs|
    ensures cs[i].total.structs == |ItemsOf(cs[i])| && |AllItems(LeavesTo(cs, i + 1))| == |AllItems(LeavesTo(cs, i))| + cs[i].total.structs
  {
    assert Wf(cs[i], depth, lim);
    TotalIsItems(cs[i], depth, lim);
    TotalCounts(ItemsOf(cs[i]), |ItemsOf(cs[i])|);
    AllItemsConcat(LeavesTo(cs, i), Leaves(cs[i]));
  }

  /** The child that holds a position, and the position in that child. */
  method ChildAt(cs: seq<Node>, position: nat, ghost depth: nat, ghost lim: Limits) returns (child: nat, rest: nat)
    requires AllWf(cs, depth, lim) && position < |AllItems(AllLeaves(cs))|
    ensures child < |cs| && rest < |ItemsOf(cs[child])| && position == |AllItems(LeavesTo(cs, child))| + rest
  {
    child, rest := 0, position;
    assert AllItems(LeavesTo(cs, 0)) == [];
    while child < |cs| && rest >= cs[child].total.structs
      invariant child <= |cs| && position == |AllItems(LeavesTo(cs, child))| + rest
      decreases |cs| - child
    {
      ChildCounts(cs, child, depth, lim);
      child, rest := child + 1, rest - cs[child].total.structs;
    }
    assert child < |cs|;
    ChildCounts(cs, child, depth, lim);
  }

  /** `At`: descend by the counts. */
  method At(root: Node, position: nat, ghost height: nat, ghost lim: Limits) returns (leaf: Leaf, slot: nat, ghost k: nat)
    requires RootWf(root, height, lim) && position < |ItemsOf(root)|
    ensures k < |Leaves(root)| && Leaves(root)[k] == leaf && IsAt(Leaves(root), k, slot, position)
  {
    var node, rest := root, position;
    ghost var before, after, depth, ls := [], [], height, Leaves(root);
    assert ls == [] + Leaves(root) + [];
    while node.BranchNode?
      invariant (RootWf(node, depth, lim) || Wf(node, depth, lim)) && Holds(ls, node, before, after, position) && rest == position - |AllItems(before)|
      decreases node
    {
      var child;
      ghost var was := rest;
      var cs := node.children;
      child, rest := ChildAt(cs, rest, depth - 1, lim);
      ChildCounts(cs, child, depth - 1, lim);
      HoldsInChild(ls, cs, node.total, before, after, position, child);
      assert Wf(cs[child], depth - 1, lim);
      before, after := before + LeavesTo(cs, child), AllLeaves(cs[child + 1..]) + after;
      node, depth := cs[child], depth - 1;
    }
    HoldsInLeaf(ls, node.leaf, node.total, before, after, position);
    leaf, slot, k := node.leaf, rest, |before|;
  }

  // ---------------------------------------------------------------- by clock

  /** All these structs end at or before `clock`. */
  ghost predicate Past(items: seq<Struct>, clock: nat) {
    forall x {:trigger items[x]} :: 0 <= x < |items| ==> End(items[x]) <= clock
  }

  lemma {:induction false} PastConcat(a: seq<Struct>, b: seq<Struct>, clock: nat)
    ensures Past(a + b, clock) <==> Past(a, clock) && Past(b, clock)
  {
    if Past(a + b, clock) {
      forall x | 0 <= x < |a| ensures End(a[x]) <= clock { assert (a + b)[x] == a[x]; }
      forall x | 0 <= x < |b| ensures End(b[x]) <= clock { assert (a + b)[|a| + x] == b[x]; }
    }
  }

  lemma {:induction false} PastIsTotal(items: seq<Struct>, clock: nat)
    ensures Past(items, clock) <==> TotalOf(items).endClock <= clock
  {
    TotalEnds(items, |items|, clock);
  }

  /** The first child that ends behind `clock`. */
  method ChildBehind(cs: seq<Node>, clock: nat, ghost depth: nat, ghost lim: Limits) returns (child: nat)
    requires AllWf(cs, depth, lim)
    ensures child <= |cs| && Past(AllItems(LeavesTo(cs, child)), clock) && (child < |cs| ==> !Past(ItemsOf(cs[child]), clock))
  {
    child := 0;
    while child < |cs| && cs[child].total.endClock <= clock
      invariant child <= |cs| && Past(AllItems(LeavesTo(cs, child)), clock)
    {
      assert Wf(cs[child], depth, lim);
      TotalIsItems(cs[child], depth, lim);
      PastIsTotal(ItemsOf(cs[child]), clock);
      AllItemsConcat(LeavesTo(cs, child), Leaves(cs[child]));
      PastConcat(AllItems(LeavesTo(cs, child)), ItemsOf(cs[child]), clock);
      child := child + 1;
    }
    if child < |cs| {
      assert Wf(cs[child], depth, lim);
      TotalIsItems(cs[child], depth, lim);
      PastIsTotal(ItemsOf(cs[child]), clock);
    }
  }

  datatype Found = NotFound | InLeaf(leaf: Leaf)

  /** `before` is past; `n` is not, or it is the whole tree. */
  ghost predicate Next(ls: seq<Leaf>, n: Node, before: seq<Leaf>, after: seq<Leaf>, clock: nat) {
    && ls == before + Leaves(n) + after && Past(AllItems(before), clock)
    && (Past(ItemsOf(n), clock) ==> before == [] && after == [])
  }

  lemma {:induction false} NextInChild(ls: seq<Leaf>, cs: seq<Node>, total: Total, before: seq<Leaf>, after: seq<Leaf>, clock: nat, i: nat)
    requires Next(ls, BranchNode(cs, total), before, after, clock) && i < |cs| && Past(AllItems(LeavesTo(cs, i)), clock) && !Past(ItemsOf(cs[i]), clock)
    ensures Next(ls, cs[i], before + LeavesTo(cs, i), AllLeaves(cs[i + 1..]) + after, clock)
  {
    Split(cs, i);
    Regroup(before, LeavesTo(cs, i), Leaves(cs[i]), AllLeaves(cs[i + 1..]), after);
    AllItemsConcat(before, LeavesTo(cs, i));
    PastConcat(AllItems(before), AllItems(LeavesTo(cs, i)), clock);
  }

  /** Leaf `k` is the first that ends behind `clock`, or the only one. */
  ghost predicate FirstBehind(ls: seq<Leaf>, k: nat, clock: nat) {
    k < |ls| && Past(ItemsTo(ls, k), clock) && (Past(ls[k].items, clock) ==> |ls| == 1)
  }

  lemma {:induction false} NextInLeaf(ls: seq<Leaf>, l: Leaf, total: Total, before: seq<Leaf>, after: seq<Leaf>, clock: nat)
    requires Next(ls, LeafNode(l, total), before, after, clock)
    ensures |before| < |ls| && ls[|before|] == l && FirstBehind(ls, |before|, clock)
  {
    AllItemsOne(l);
    ItemsOfPrefix(before, [l] + after, |before|);
    assert ls == before + ([l] + after);
  }

  ghost predicate InTree(n: Node, depth: nat, lim: Limits) { RootWf(n, depth, lim) || Wf(n, depth, lim) }

  lemma {:induction false} ChildrenInTree(n: Node, depth: nat, lim: Limits)
    requires InTree(n, depth, lim) && n.BranchNode?
    ensures depth > 0 && AllWf(n.children, depth - 1, lim)
    ensures forall i {:trigger InTree(n.children[i], depth - 1, lim)} :: 0 <= i < |n.children| ==> InTree(n.children[i], depth - 1, lim)
  {
    assert AllWf(n.children, depth - 1, lim);
    forall i | 0 <= i < |n.children| ensures InTree(n.children[i], depth - 1, lim) { assert Wf(n.children[i], depth - 1, lim); }
  }

  lemma {:induction false} NothingNext(ls: seq<Leaf>, n: Node, before: seq<Leaf>, after: seq<Leaf>, clock: nat)
    requires Next(ls, n, before, after, clock) && Past(ItemsOf(n), clock)
    ensures Past(AllItems(ls), clock)
  {
    assert [] + Leaves(n) + [] == Leaves(n);
  }

  /** `findLeaf`: descend by the end clocks. */
  method FindLeaf(root: Node, clock: nat, ghost height: nat, ghost lim: Limits) returns (found: Found, ghost k: nat)
    requires RootWf(root, height, lim)
    ensures found.NotFound? ==> Past(ItemsOf(root), clock)
    ensures found.InLeaf? ==> FirstBehind(Leaves(root), k, clock) && Leaves(root)[k] == found.leaf
  {
    var node := root;
    ghost var before, after, depth, ls := [], [], height, Leaves(root);
    assert ls == [] + Leaves(root) + [];
    k := 0;
    while node.BranchNode?
      invariant InTree(node, depth, lim) && Next(ls, node, before, after, clock)
      decreases node
    {
      var cs := node.children;
      ChildrenInTree(node, depth, lim);
      var child := ChildBehind(cs, clock, depth - 1, lim);
      if child == |cs| {
        NothingNext(ls, node, before, after, clock);
        found := NotFound;
        return;
      }
      NextInChild(ls, cs, node.total, before, after, clock, child);
      assert InTree(cs[child], depth - 1, lim);
      before, after := before + LeavesTo(cs, child), AllLeaves(cs[child + 1..]) + after;
      node, depth := cs[child], depth - 1;
    }
    NextInLeaf(ls, node.leaf, node.total, before, after, clock);
    found, k := InLeaf(node.leaf), |before|;
  }

  // ---------------------------------------------------------------- contiguous clocks

  predicate Joined(c: seq<Struct>, i: nat)
    requires i + 1 < |c|
  {
    c[i + 1].clock == End(c[i])
  }

  predicate Proper(s: Struct) { s.len > 0 }

  /** The structs of a client follow each other without gap. */
  ghost predicate Contiguous(c: seq<Struct>) {
    && (forall i {:trigger Proper(c[i])} :: 0 <= i < |c| ==> Proper(c[i]))
    && (forall i {:trigger Joined(c, i)} :: 0 <= i < |c| - 1 ==> Joined(c, i))
  }

  predicate Apart(c: seq<Struct>, i: nat)
    requires i + 1 < |c|
  {
    End(c[i]) <= c[i + 1].clock
  }

  /** The structs are in the order of their clocks; there may be gaps, as between the
      shortening of a struct and the insertion of its right half. */
  ghost predicate Ascending(c: seq<Struct>) {
    && (forall i {:trigger Proper(c[i])} :: 0 <= i < |c| ==> Proper(c[i]))
    && (forall i {:trigger Apart(c, i)} :: 0 <= i < |c| - 1 ==> Apart(c, i))
  }

  lemma {:induction false} ContiguousAscends(c: seq<Struct>)
    requires Contiguous(c)
    ensures Ascending(c)
  {
    forall i | 0 <= i < |c| - 1 ensures Apart(c, i) { assert Joined(c, i); }
  }

  lemma {:induction false} ClocksInOrder(c: seq<Struct>, i: nat, j: nat)
    requires Ascending(c) && i < j < |c|
    ensures End(c[i]) <= c[j].clock
    decreases j
  {
    assert Apart(c, j - 1);
    if i < j - 1 {
      ClocksInOrder(c, i, j - 1);
      assert Proper(c[j - 1]);
    }
  }

  lemma {:induction false} ContiguousPart(c: seq<Struct>, i: nat, j: nat)
    requires Contiguous(c) && i <= j <= |c|
    ensures Contiguous(c[i..j])
  {
    var d := c[i..j];
    forall x | 0 <= x < |d| ensures Proper(d[x]) { assert Proper(c[i + x]); }
    forall x | 0 <= x < |d| - 1 ensures Joined(d, x) { assert Joined(c, i + x); }
  }

  ghost predicate HasClock(s: Struct, clock: nat) { s.clock <= clock < End(s) }

  /** `findIndexSS` in one leaf, with any first pivot. */
  method FindIn(items: seq<Struct>, clock: nat, pivot: nat) returns (found: bool, index: nat)
    requires Contiguous(items) && (items != [] ==> pivot < |items|)
    ensures found <==> items != [] && items[0].clock <= clock && !Past(items, clock)
    ensures found ==> index < |items| && HasClock(items[index], clock)
  {
    if items == [] { return false, 0; }
    ContiguousAscends(items);
    PastIsLast(items, clock);
    var left, right, mid := 0, |items| - 1, pivot;
    while left <= right
      invariant 0 <= left <= right + 1 <= |items|
      invariant left <= right ==> left <= mid <= right
      invariant left == 0 || (End(items[left - 1]) <= clock && (left < |items| ==> items[left].clock <= clock))
      invariant right == |items| - 1 || clock < items[right + 1].clock
      decreases right - left
    {
      if items[mid].clock <= clock {
        if clock < End(items[mid]) {
          if mid > 0 { ClocksInOrder(items, 0, mid); }
          return true, mid;
        }
        assert mid + 1 < |items| ==> Joined(items, mid);
        left := mid + 1;
      } else {
        right := mid - 1;
      }
      mid := (left + right) / 2;
    }
    return false, 0;
  }

  lemma {:induction false} PastIsLast(items: seq<Struct>, clock: nat)
    requires Ascending(items) && items != []
    ensures Past(items, clock) <==> End(items[|items| - 1]) <= clock
  {
    forall x | 0 <= x < |items| && End(items[|items| - 1]) <= clock ensures End(items[x]) <= clock {
      if x < |items| - 1 {
        ClocksInOrder(items, x, |items| - 1);
        assert Proper(items[|items| - 1]);
      }
    }
  }

  /** In contiguous structs that begin at 0, the first leaf that ends behind a clock has it. */
  lemma {:induction false} LeafHasClock(ls: seq<Leaf>, k: nat, clock: nat)
    requires FirstBehind(ls, k, clock) && Contiguous(AllItems(ls)) && (AllItems(ls) != [] ==> AllItems(ls)[0].clock == 0)
    ensures Contiguous(ls[k].items)
    ensures !Past(ls[k].items, clock) ==> ls[k].items != [] && ls[k].items[0].clock <= clock
    ensures Past(ls[k].items, clock) ==> Past(AllItems(ls), clock)
  {
    var c, a := AllItems(ls), ItemsTo(ls, k);
    AroundLeaf(ls, k);
    assert ls[k].items == c[|a|..|a| + |ls[k].items|];
    ContiguousPart(c, |a|, |a| + |ls[k].items|);
    if ls[k].items != [] && |a| > 0 {
      assert Joined(c, |a| - 1);
      assert c[|a| - 1] == a[|a| - 1];
    }
    if Past(ls[k].items, clock) {
      assert ls == [ls[0]];
      AllItemsOne(ls[0]);
    } else if |a| > 0 {
      assert End(a[|a| - 1]) <= clock;
    } else {
      assert ls[k].items[0] == c[0];
    }
  }

  /** A struct that has the clock is in that leaf. */
  lemma {:induction false} InFirstBehind(ls: seq<Leaf>, k: nat, clock: nat, p: nat)
    requires FirstBehind(ls, k, clock) && Ascending(AllItems(ls)) && p < |AllItems(ls)| && HasClock(AllItems(ls)[p], clock)
    ensures |ItemsTo(ls, k)| <= p && IsAt(ls, k, p - |ItemsTo(ls, k)|, p)
  {
    var c, a := AllItems(ls), ItemsTo(ls, k);
    AroundLeaf(ls, k);
    if p >= |a| + |ls[k].items| && !Past(ls[k].items, clock) {
      var i :| 0 <= i < |ls[k].items| && End(ls[k].items[i]) > clock;
      assert c[|a| + i] == ls[k].items[i];
      ClocksInOrder(c, |a| + i, p);
    }
    if |ls| == 1 {
      AllItemsOne(ls[0]);
      assert ls == [ls[0]];
    }
  }
}

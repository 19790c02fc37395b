/** The validator of the struct tree.  It reads a tree without any knowledge of how the
    tree came about, and every tree that the list holds passes it. */
module StructCheck {
  import opened Wrappers
  import opened StructTree
  import opened StructLeaves
  import opened StructSearch
  import StructList

  /** What the validator returns about a node. */
  datatype Report = Report(depth: nat, structs: nat, endClock: nat)

  function LatestEnd(items: seq<Struct>, n: nat): nat
    requires n <= |items|
  {
    if n == 0 then 0 else
      var end, so := items[n - 1].clock + items[n - 1].len, LatestEnd(items, n - 1);
      if end > so then end else so
  }

  function CheckLeaf(leaf: Leaf, total: Total, root: bool, last: nat, lim: Limits): Option<Report> {
    var used := |leaf.items|;
    // the last leaf may be below the minimum until it fills
    if used == 0 || used > lim.leaf || (!root && leaf.name != last && used < (lim.leaf + 1) / 2) then None
    else if total.structs != used || total.endClock != LatestEnd(leaf.items, used) then None
    else Some(Report(1, used, total.endClock))
  }

  /** `validateNode` */
  function Check(n: Node, root: bool, last: nat, lim: Limits): Option<Report>
    decreases n, 0
  {
    if n.LeafNode? then CheckLeaf(n.leaf, n.total, root, last, lim)
    else if |n.children| < (if root then 2 else (lim.branch + 1) / 2) || |n.children| > lim.branch then None
    else
      var below := CheckTo(n.children, |n.children|, last, lim);
      if below.None? || n.total.structs != below.value.structs || n.total.endClock != below.value.endClock then None
      else Some(below.value.(depth := below.value.depth + 1))
  }

  /** The first `n` children: of one depth, with separators that do not descend. */
  function CheckTo(cs: seq<Node>, n: nat, last: nat, lim: Limits): Option<Report>
    requires n <= |cs|
    decreases cs, n
  {
    if n == 0 then Some(Report(0, 0, 0)) else
      var so, child := CheckTo(cs, n - 1, last, lim), Check(cs[n - 1], false, last, lim);
      if so.None? || child.None? then None
      else if n > 1 && (child.value.depth != so.value.depth || cs[n - 2].total.endClock > child.value.endClock) then None
      else Some(Report(child.value.depth, so.value.structs + child.value.structs, if child.value.endClock > so.value.endClock then child.value.endClock else so.value.endClock))
  }

  /** A leaf that holds something, and half of what it may hold unless it is the last one. */
  ghost predicate Filled(l: Leaf, last: nat, lim: Limits) {
    l.items != [] && (l.name != last ==> 2 * |l.items| >= lim.leaf)
  }

  ghost predicate AllFilled(ls: seq<Leaf>, last: nat, lim: Limits) {
    forall i {:trigger Filled(ls[i], last, lim)} :: 0 <= i < |ls| ==> Filled(ls[i], last, lim)
  }

  lemma {:induction false} FilledConcat(a: seq<Leaf>, b: seq<Leaf>, last: nat, lim: Limits)
    ensures AllFilled(a + b, last, lim) <==> AllFilled(a, last, lim) && AllFilled(b, last, lim)
  {
    if AllFilled(a + b, last, lim) {
      forall i | 0 <= i < |a| ensures Filled(a[i], last, lim) { assert Filled((a + b)[i], last, lim); }
      forall i | 0 <= i < |b| ensures Filled(b[i], last, lim) { assert Filled((a + b)[|a| + i], last, lim); }
    }
  }

  lemma {:induction false} LatestIsTotal(items: seq<Struct>, n: nat)
    requires n <= |items|
    ensures ItemsTotal(items, n) == Total(n, LatestEnd(items, n))
  {
    if n > 0 { LatestIsTotal(items, n - 1); }
  }

  lemma {:induction false} AscendingPart(c: seq<Struct>, i: nat, j: nat)
    requires Ascending(c) && i <= j <= |c|
    ensures Ascending(c[i..j])
  {
    var d := c[i..j];
    forall x | 0 <= x < |d| ensures Proper(d[x]) { assert Proper(c[i + x]); }
    forall x | 0 <= x < |d| - 1 ensures Apart(d, x) { assert Apart(c, i + x); }
  }

  // ---------------------------------------------------------------- a good tree passes

  /** Leaves and structs that the validator accepts. */
  ghost predicate Sound(ls: seq<Leaf>, last: nat, lim: Limits) {
    AllFilled(ls, last, lim) && Ascending(AllItems(ls))
  }

  lemma {:induction false} SoundParts(a: seq<Leaf>, b: seq<Leaf>, last: nat, lim: Limits)
    requires Sound(a + b, last, lim)
    ensures Sound(a, last, lim) && Sound(b, last, lim)
  {
    FilledConcat(a, b, last, lim);
    AllItemsConcat(a, b);
    var c := AllItems(a + b);
    assert c[0..|AllItems(a)|] == AllItems(a) && c[|AllItems(a)|..|c|] == AllItems(b);
    AscendingPart(c, 0, |AllItems(a)|);
    AscendingPart(c, |AllItems(a)|, |c|);
  }

  lemma {:induction false} HoldsStructs(n: Node, depth: nat, last: nat, lim: Limits)
    requires Sane(lim) && Wf(n, depth, lim) && AllFilled(Leaves(n), last, lim)
    ensures ItemsOf(n) != []
    decreases depth
  {
    if depth == 0 {
      AllItemsOne(n.leaf);
      assert Filled(Leaves(n)[0], last, lim);
    } else {
      var cs := n.children;
      AllLeavesConcat([cs[0]], cs[1..]);
      AllLeavesOne(cs[0]);
      assert [cs[0]] + cs[1..] == cs;
      FilledConcat(Leaves(cs[0]), AllLeaves(cs[1..]), last, lim);
      HoldsStructs(cs[0], depth - 1, last, lim);
      AllItemsConcat(Leaves(cs[0]), AllLeaves(cs[1..]));
    }
  }

  /** What comes first ends first. */
  lemma {:induction false} EndsFirst(a: seq<Struct>, b: seq<Struct>)
    requires Ascending(a + b) && b != []
    ensures TotalOf(a).endClock <= TotalOf(b).endClock
  {
    var c, e := a + b, TotalOf(b).endClock;
    PastIsTotal(b, e);
    forall x | 0 <= x < |a| ensures End(a[x]) <= e {
      ClocksInOrder(c, x, |a|);
      assert c[x] == a[x] && c[|a|] == b[0] && End(b[0]) <= e;
    }
    PastIsTotal(a, e);
  }

  lemma {:induction false} LastTwo(cs: seq<Node>, n: nat, last: nat, lim: Limits)
    requires n + 2 <= |cs| && Sound(LeavesTo(cs, n + 2), last, lim)
    ensures Sound(Leaves(cs[n]) + Leaves(cs[n + 1]), last, lim)
  {
    var front, a, b := LeavesTo(cs, n), Leaves(cs[n]), Leaves(cs[n + 1]);
    assert LeavesTo(cs, n + 1) == front + a;
    assert LeavesTo(cs, n + 2) == front + a + b == front + (a + b);
    SoundParts(front, a + b, last, lim);
  }

  lemma {:induction false} SeparatorsAscend(a: Node, b: Node, depth: nat, last: nat, lim: Limits)
    requires Sane(lim) && Wf(a, depth, lim) && Wf(b, depth, lim) && Sound(Leaves(a) + Leaves(b), last, lim)
    ensures a.total.endClock <= b.total.endClock
  {
    FilledConcat(Leaves(a), Leaves(b), last, lim);
    AllItemsConcat(Leaves(a), Leaves(b));
    HoldsStructs(b, depth, last, lim);
    TotalIsItems(a, depth, lim);
    TotalIsItems(b, depth, lim);
    EndsFirst(ItemsOf(a), ItemsOf(b));
  }

  lemma {:induction false} SeparatorAt(cs: seq<Node>, n: nat, depth: nat, last: nat, lim: Limits)
    requires Sane(lim) && AllWf(cs, depth, lim) && n + 2 <= |cs| && Sound(LeavesTo(cs, n + 2), last, lim)
    ensures cs[n].total.endClock <= cs[n + 1].total.endClock
  {
    LastTwo(cs, n, last, lim);
    assert Wf(cs[n], depth, lim) && Wf(cs[n + 1], depth, lim);
    SeparatorsAscend(cs[n], cs[n + 1], depth, last, lim);
  }

  lemma {:induction false} LeafPasses(leaf: Leaf, root: bool, last: nat, lim: Limits)
    requires |leaf.items| <= lim.leaf && Filled(leaf, last, lim)
    ensures CheckLeaf(leaf, NewLeaf(leaf).total, root, last, lim) == Some(Report(1, NewLeaf(leaf).total.structs, NewLeaf(leaf).total.endClock))
  {
    LatestIsTotal(leaf.items, |leaf.items|);
  }

  lemma {:induction false} Passes(n: Node, root: bool, depth: nat, last: nat, lim: Limits)
    requires Sane(lim) && (if root then RootWf(n, depth, lim) else Wf(n, depth, lim)) && Sound(Leaves(n), last, lim)
    ensures Check(n, root, last, lim) == Some(Report(depth + 1, n.total.structs, n.total.endClock))
    decreases depth, 0
  {
    if depth == 0 {
      assert Filled(Leaves(n)[0], last, lim);
      LeafPasses(n.leaf, root, last, lim);
    } else {
      PassesTo(n.children, |n.children|, depth - 1, last, lim);
    }
  }

  lemma {:induction false} PassesTo(cs: seq<Node>, n: nat, depth: nat, last: nat, lim: Limits)
    requires Sane(lim) && AllWf(cs, depth, lim) && n <= |cs| && Sound(LeavesTo(cs, n), last, lim)
    ensures CheckTo(cs, n, last, lim) == Some(Report(if n == 0 then 0 else depth + 1, ChildrenTotal(cs, n).structs, ChildrenTotal(cs, n).endClock))
    decreases depth, n + 1
  {
    if n > 0 {
      assert Wf(cs[n - 1], depth, lim);
      SoundParts(LeavesTo(cs, n - 1), Leaves(cs[n - 1]), last, lim);
      PassesTo(cs, n - 1, depth, last, lim);
      Passes(cs[n - 1], false, depth, last, lim);
      if n > 1 { SeparatorAt(cs, n - 2, depth, last, lim); }
    }
  }

  /** Every tree of the list passes, whatever was done to it. */
  lemma {:induction false} ValidPasses(t: StructList.BPlusTree)
    requires t.Valid() && t.root.Some? && Ascending(t.Content())
    ensures var ls, c := t.Linked(), t.Content();
            ls != [] && Check(t.root.value, true, ls[|ls| - 1].name, t.lim) == Some(Report(t.height + 1, |c|, LatestEnd(c, |c|)))
  {
    var n, ls, c := t.root.value, t.Linked(), t.Content();
    StructList.SomeLeaves(n, t.height, t.lim);
    var last := ls[|ls| - 1].name;
    forall i | 0 <= i < |ls| ensures Filled(ls[i], last, t.lim) { assert !Bad(ls, i, MinLeaf(t.lim)); }
    Passes(n, true, t.height, last, t.lim);
    TotalIsItems(n, t.height, t.lim);
    LatestIsTotal(c, |c|);
  }

  // ---------------------------------------------------------------- what passes is good

  lemma {:induction false} PassedNode(n: Node, root: bool, last: nat, lim: Limits)
    requires Sane(lim) && Check(n, root, last, lim).Some?
    ensures var d := Check(n, root, last, lim).value.depth;
            d > 0 && (if root then RootWf(n, d - 1, lim) else Wf(n, d - 1, lim))
    ensures Check(n, root, last, lim).value == Report(Check(n, root, last, lim).value.depth, n.total.structs, n.total.endClock)
    ensures !root || n.BranchNode? ==> AllFilled(Leaves(n), last, lim)
    ensures forall l {:trigger l in Leaves(n)} :: l in Leaves(n) ==> l.items != []
    decreases n, 0
  {
    if n.LeafNode? {
      LatestIsTotal(n.leaf.items, |n.leaf.items|);
      if !root { assert Filled(n.leaf, last, lim); }
    } else {
      PassedChildren(n.children, |n.children|, last, lim);
      var d := CheckTo(n.children, |n.children|, last, lim).value.depth;
      assert AllWf(n.children, d - 1, lim) by { assert n.children[..|n.children|] == n.children; }
      forall l | l in Leaves(n) ensures l.items != [] {
        var i :| 0 <= i < |Leaves(n)| && Leaves(n)[i] == l;
        assert Filled(Leaves(n)[i], last, lim);
      }
    }
  }

  lemma {:induction false} PassedChildren(cs: seq<Node>, n: nat, last: nat, lim: Limits)
    requires Sane(lim) && n <= |cs| && CheckTo(cs, n, last, lim).Some?
    ensures var r := CheckTo(cs, n, last, lim).value;
            && (n > 0 ==> r.depth > 0 && AllWf(cs[..n], r.depth - 1, lim))
            && Total(r.structs, r.endClock) == ChildrenTotal(cs, n)
    ensures AllFilled(LeavesTo(cs, n), last, lim)
    decreases cs, n
  {
    if n > 0 {
      PassedChildren(cs, n - 1, last, lim);
      PassedNode(cs[n - 1], false, last, lim);
      FilledConcat(LeavesTo(cs, n - 1), Leaves(cs[n - 1]), last, lim);
      var d := CheckTo(cs, n, last, lim).value.depth - 1;
      forall i | 0 <= i < n ensures Wf(cs[..n][i], d, lim) { if i < n - 1 { assert Wf(cs[..n - 1][i], d, lim); } }
    }
  }

  /** The other way round, the validator misses nothing that the list relies on. */
  lemma {:induction false} PassedIsValid(root: Node, lim: Limits)
    requires Sane(lim) && Distinct(Leaves(root)) && Leaves(root) != []
    requires Check(root, true, Leaves(root)[|Leaves(root)| - 1].name, lim).Some?
    ensures var d := Check(root, true, Leaves(root)[|Leaves(root)| - 1].name, lim).value.depth; d > 0 && RootWf(root, d - 1, lim)
    ensures Tight(Leaves(root), MinLeaf(lim))
  {
    var ls := Leaves(root);
    var last := ls[|ls| - 1].name;
    PassedNode(root, true, last, lim);
    forall i | 0 <= i < |ls| ensures !Bad(ls, i, MinLeaf(lim)) {
      assert ls[i] in ls;
      if i < |ls| - 1 { assert Filled(ls[i], last, lim) && ls[i].name != last; }
    }
  }
}

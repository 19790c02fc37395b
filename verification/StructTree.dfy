/** The B+ tree that holds a client's structs: leaves of structs at one depth, below
    branches that cache how many structs there are and where their clocks end. */
module StructTree {
  datatype Struct = Struct(id: int, clock: nat, len: nat)

  /** A leaf keeps its identity while its contents change. */
  datatype Leaf = Leaf(name: nat, items: seq<Struct>)

  /** What a node caches: its number of structs and its exclusive maximum clock. */
  datatype Total = Total(structs: nat, endClock: nat)

  datatype Node =
    | LeafNode(leaf: Leaf, total: Total)
    | BranchNode(children: seq<Node>, total: Total)

  /** A leaf holds at least 2, a branch at least 3 entries when full. */
  datatype Limits = Limits(leaf: nat, branch: nat)

  predicate Sane(lim: Limits) { lim.leaf >= 2 && lim.branch >= 3 }

  function MinLeaf(lim: Limits): nat { (lim.leaf + 1) / 2 }
  function MinBranch(lim: Limits): nat { (lim.branch + 1) / 2 }

  function End(s: Struct): nat { s.clock + s.len }

  function Add(a: Total, b: Total): Total {
    Total(a.structs + b.structs, if a.endClock < b.endClock then b.endClock else a.endClock)
  }

  /** `refreshLeaf` and `refreshBranch`. */
  function ItemsTotal(items: seq<Struct>, n: nat): Total
    requires n <= |items|
  {
    if n == 0 then Total(0, 0) else Add(ItemsTotal(items, n - 1), Total(1, End(items[n - 1])))
  }

  function ChildrenTotal(cs: seq<Node>, n: nat): Total
    requires n <= |cs|
  {
    if n == 0 then Total(0, 0) else Add(ChildrenTotal(cs, n - 1), cs[n - 1].total)
  }

  function NewLeaf(l: Leaf): Node { LeafNode(l, ItemsTotal(l.items, |l.items|)) }
  function NewBranch(cs: seq<Node>): Node { BranchNode(cs, ChildrenTotal(cs, |cs|)) }

  // ---------------------------------------------------------------- the leaves of a tree

  /** The linked list of leaves, in order. */
  function Leaves(n: Node): seq<Leaf>
    decreases n, 0
  {
    if n.LeafNode? then [n.leaf] else LeavesTo(n.children, |n.children|)
  }

  function LeavesTo(cs: seq<Node>, n: nat): seq<Leaf>
    requires n <= |cs|
    decreases cs, n
  {
    if n == 0 then [] else LeavesTo(cs, n - 1) + Leaves(cs[n - 1])
  }

  function AllLeaves(cs: seq<Node>): seq<Leaf> { LeavesTo(cs, |cs|) }

  lemma {:induction false} LeavesOfPrefix(a: seq<Node>, b: seq<Node>, n: nat)
    requires n <= |a|
    ensures LeavesTo(a + b, n) == LeavesTo(a, n)
  {
    if n > 0 { LeavesOfPrefix(a, b, n - 1); }
  }

  lemma {:induction false} LeavesOfConcat(a: seq<Node>, b: seq<Node>, n: nat)
    requires n <= |b|
    ensures LeavesTo(a + b, |a| + n) == AllLeaves(a) + LeavesTo(b, n)
  {
    if n == 0 { LeavesOfPrefix(a, b, |a|); } else { LeavesOfConcat(a, b, n - 1); }
  }

  lemma {:induction false} AllLeavesConcat(a: seq<Node>, b: seq<Node>)
    ensures AllLeaves(a + b) == AllLeaves(a) + AllLeaves(b)
  {
    LeavesOfConcat(a, b, |b|);
  }

  lemma {:induction false} AllLeavesOne(n: Node)
    ensures AllLeaves([n]) == Leaves(n)
  {
    assert LeavesTo([n], 1) == LeavesTo([n], 0) + Leaves([n][0]);
  }

  lemma {:induction false} AllLeavesThree(a: seq<Node>, b: seq<Node>, c: seq<Node>)
    ensures AllLeaves(a + b + c) == AllLeaves(a) + AllLeaves(b) + AllLeaves(c)
  {
    AllLeavesConcat(a, b);
    AllLeavesConcat(a + b, c);
  }

  // ---------------------------------------------------------------- well-formed trees

  /** An inner node `depth` levels above the leaves, with exact totals. */
  ghost predicate Wf(n: Node, depth: nat, lim: Limits)
    decreases depth, 0
  {
    if depth == 0 then n.LeafNode? && |n.leaf.items| <= lim.leaf && n == NewLeaf(n.leaf)
    else n.BranchNode? && MinBranch(lim) <= |n.children| <= lim.branch && AllWf(n.children, depth - 1, lim) && n.total == ChildrenTotal(n.children, |n.children|)
  }

  ghost predicate AllWf(cs: seq<Node>, depth: nat, lim: Limits)
    decreases depth, 1
  {
    forall i {:trigger Wf(cs[i], depth, lim)} :: 0 <= i < |cs| ==> Wf(cs[i], depth, lim)
  }

  /** The root may have as few as two children. */
  ghost predicate RootWf(n: Node, depth: nat, lim: Limits) {
    if depth == 0 then Wf(n, 0, lim)
    else n.BranchNode? && 2 <= |n.children| <= lim.branch && AllWf(n.children, depth - 1, lim) && n.total == ChildrenTotal(n.children, |n.children|)
  }

  lemma {:induction false} AllWfConcat(a: seq<Node>, b: seq<Node>, depth: nat, lim: Limits)
    requires AllWf(a, depth, lim) && AllWf(b, depth, lim)
    ensures AllWf(a + b, depth, lim)
  {
    forall i | 0 <= i < |a + b| ensures Wf((a + b)[i], depth, lim) {
      if i < |a| { assert Wf(a[i], depth, lim); } else { assert Wf(b[i - |a|], depth, lim); }
    }
  }

  lemma {:induction false} AllWfSlice(a: seq<Node>, i: nat, j: nat, depth: nat, lim: Limits)
    requires AllWf(a, depth, lim) && i <= j <= |a|
    ensures AllWf(a[i..j], depth, lim)
  {
    forall k | 0 <= k < j - i ensures Wf(a[i..j][k], depth, lim) { assert Wf(a[i + k], depth, lim); }
  }

  lemma {:induction false} AllWfOne(n: Node, depth: nat, lim: Limits)
    requires Wf(n, depth, lim)
    ensures AllWf([n], depth, lim)
  {
  }

  lemma {:induction false} BranchIsWf(cs: seq<Node>, depth: nat, lim: Limits)
    requires AllWf(cs, depth, lim) && |cs| <= lim.branch
    ensures MinBranch(lim) <= |cs| ==> Wf(NewBranch(cs), depth + 1, lim)
    ensures 2 <= |cs| ==> RootWf(NewBranch(cs), depth + 1, lim)
    ensures Leaves(NewBranch(cs)) == AllLeaves(cs)
  {
  }

  lemma {:induction false} WfIsRootWf(n: Node, depth: nat, lim: Limits)
    requires Sane(lim) && Wf(n, depth, lim)
    ensures RootWf(n, depth, lim)
  {
  }

  // ---------------------------------------------------------------- a node in its tree

  /** The siblings to both sides, and the parent's own place. */
  datatype Context = Top | Under(left: seq<Node>, right: seq<Node>, up: Context)

  ghost predicate CtxWf(k: Context, depth: nat, lim: Limits) {
    k.Under? ==>
      && AllWf(k.left, depth, lim) && AllWf(k.right, depth, lim)
      && (if k.up == Top then 2 else MinBranch(lim)) <= |k.left| + 1 + |k.right| <= lim.branch
      && CtxWf(k.up, depth + 1, lim)
  }

  function Before(k: Context): seq<Leaf> {
    if k == Top then [] else Before(k.up) + AllLeaves(k.left)
  }

  function After(k: Context): seq<Leaf> {
    if k == Top then [] else AllLeaves(k.right) + After(k.up)
  }

  function Whole(k: Context, ls: seq<Leaf>): seq<Leaf> {
    Before(k) + ls + After(k)
  }

  lemma {:induction false} Reassociate(a: seq<Leaf>, b: seq<Leaf>, c: seq<Leaf>, d: seq<Leaf>, e: seq<Leaf>)
    ensures a + (b + c + d) + e == (a + b) + c + (d + e)
  {
  }

  lemma {:induction false} StepUp(k: Context, mid: seq<Node>)
    requires k.Under?
    ensures Whole(k.up, AllLeaves(k.left + mid + k.right)) == Whole(k, AllLeaves(mid))
  {
    AllLeavesThree(k.left, mid, k.right);
    Reassociate(Before(k.up), AllLeaves(k.left), AllLeaves(mid), AllLeaves(k.right), After(k.up));
  }

  /** A node that may stand at `k`. */
  ghost predicate Stands(n: Node, k: Context, depth: nat, lim: Limits) {
    CtxWf(k, depth, lim) && if k == Top then RootWf(n, depth, lim) else Wf(n, depth, lim)
  }

  lemma {:induction false} ParentStands(n: Node, k: Context, depth: nat, lim: Limits)
    requires k.Under? && Stands(n, k, depth, lim)
    ensures Stands(NewBranch(k.left + [n] + k.right), k.up, depth + 1, lim)
    ensures Whole(k.up, Leaves(NewBranch(k.left + [n] + k.right))) == Whole(k, Leaves(n))
  {
    var cs := k.left + [n] + k.right;
    AllWfOne(n, depth, lim);
    AllWfConcat(k.left, [n], depth, lim);
    AllWfConcat(k.left + [n], k.right, depth, lim);
    BranchIsWf(cs, depth, lim);
    StepUp(k, [n]);
    AllLeavesOne(n);
  }

  /** `refreshUp`: the totals are recalculated up to the root. */
  method RefreshUp(n: Node, k: Context, ghost depth: nat, ghost lim: Limits) returns (root: Node, ghost height: nat)
    requires Stands(n, k, depth, lim)
    ensures RootWf(root, height, lim) && Leaves(root) == Whole(k, Leaves(n))
  {
    root, height := n, depth;
    var up := k;
    while up != Top
      invariant Stands(root, up, height, lim) && Whole(up, Leaves(root)) == Whole(k, Leaves(n))
      decreases up
    {
      ParentStands(root, up, height, lim);
      root, up, height := NewBranch(up.left + [root] + up.right), up.up, height + 1;
    }
  }

  // ---------------------------------------------------------------- growing

  lemma {:induction false} PairLeaves(l: Node, r: Node)
    ensures AllLeaves([l, r]) == Leaves(l) + Leaves(r)
  {
    AllLeavesConcat([l], [r]);
    AllLeavesOne(l);
    AllLeavesOne(r);
    assert [l] + [r] == [l, r];
  }

  lemma {:induction false} PairIsWf(l: Node, r: Node, depth: nat, lim: Limits)
    requires Wf(l, depth, lim) && Wf(r, depth, lim)
    ensures AllWf([l, r], depth, lim)
  {
  }

  /** The children of a parent into which `mid` is put. */
  lemma {:induction false} PutIn(k: Context, mid: seq<Node>, depth: nat, lim: Limits)
    requires k.Under? && AllWf(k.left, depth, lim) && AllWf(k.right, depth, lim) && AllWf(mid, depth, lim)
    ensures AllWf(k.left + mid + k.right, depth, lim) && Whole(k.up, AllLeaves(k.left + mid + k.right)) == Whole(k, AllLeaves(mid))
  {
    AllWfConcat(k.left, mid, depth, lim);
    AllWfConcat(k.left + mid, k.right, depth, lim);
    StepUp(k, mid);
  }

  /** `splitBranch`: both halves of an overfull branch are full enough. */
  lemma {:induction false} HalvesAreWf(cs: seq<Node>, depth: nat, lim: Limits)
    requires Sane(lim) && AllWf(cs, depth, lim) && |cs| == lim.branch + 1
    ensures var split := |cs| / 2; var l, r := NewBranch(cs[..split]), NewBranch(cs[split..]);
            Wf(l, depth + 1, lim) && Wf(r, depth + 1, lim) && Leaves(l) + Leaves(r) == AllLeaves(cs)
  {
    var split := |cs| / 2;
    AllWfSlice(cs, 0, split, depth, lim);
    AllWfSlice(cs, split, |cs|, depth, lim);
    BranchIsWf(cs[..split], depth, lim);
    BranchIsWf(cs[split..], depth, lim);
    AllLeavesConcat(cs[..split], cs[split..]);
    assert cs[..split] + cs[split..] == cs;
  }

  /** `insertSiblingAfter`: `right` comes behind `left`, which stands at `k`; branches
      that get too large are split. */
  method InsertSiblingAfter(left: Node, right: Node, k: Context, ghost depth: nat, lim: Limits) returns (root: Node, ghost height: nat)
    requires Sane(lim) && Wf(left, depth, lim) && Wf(right, depth, lim) && CtxWf(k, depth, lim)
    ensures RootWf(root, height, lim) && Leaves(root) == Whole(k, Leaves(left) + Leaves(right))
  {
    var l, r, up := left, right, k;
    height := depth;
    while true
      invariant Wf(l, height, lim) && Wf(r, height, lim) && CtxWf(up, height, lim)
      invariant Whole(up, Leaves(l) + Leaves(r)) == Whole(k, Leaves(left) + Leaves(right))
      decreases up
    {
      PairLeaves(l, r);
      PairIsWf(l, r, height, lim);
      if up == Top {
        BranchIsWf([l, r], height, lim);
        root, height := NewBranch([l, r]), height + 1;
        return;
      }
      var cs := up.left + [l, r] + up.right;
      PutIn(up, [l, r], height, lim);
      if |cs| <= lim.branch {
        BranchIsWf(cs, height, lim);
        root, height := RefreshUp(NewBranch(cs), up.up, height + 1, lim);
        return;
      }
      var split := |cs| / 2;
      HalvesAreWf(cs, height, lim);
      l, r, up, height := NewBranch(cs[..split]), NewBranch(cs[split..]), up.up, height + 1;
    }
  }

  // ---------------------------------------------------------------- shrinking

  function Butlast(cs: seq<Node>): seq<Node> requires cs != [] { cs[..|cs| - 1] }
  function Last(cs: seq<Node>): Node requires cs != [] { cs[|cs| - 1] }

  /** The same tree seen from between the last two left siblings, or the first two right ones. */
  lemma {:induction false} TakeSibling(k: Context, ls: seq<Leaf>, depth: nat, lim: Limits)
    requires k.Under? && CtxWf(k, depth, lim)
    ensures k.left != [] ==>
              AllWf(Butlast(k.left), depth, lim) && Wf(Last(k.left), depth, lim) && Whole(k.(left := Butlast(k.left)), Leaves(Last(k.left)) + ls) == Whole(k, ls)
    ensures k.right != [] ==>
              AllWf(k.right[1..], depth, lim) && Wf(k.right[0], depth, lim) && Whole(k.(right := k.right[1..]), ls + Leaves(k.right[0])) == Whole(k, ls)
  {
    if k.left != [] {
      AllWfSlice(k.left, 0, |k.left| - 1, depth, lim);
      AllLeavesConcat(Butlast(k.left), [Last(k.left)]);
      AllLeavesOne(Last(k.left));
      assert Butlast(k.left) + [Last(k.left)] == k.left;
      Shift(Before(k.up), AllLeaves(Butlast(k.left)), Leaves(Last(k.left)), ls, After(k));
    }
    if k.right != [] {
      AllWfSlice(k.right, 1, |k.right|, depth, lim);
      AllLeavesConcat([k.right[0]], k.right[1..]);
      AllLeavesOne(k.right[0]);
      assert [k.right[0]] + k.right[1..] == k.right;
      Shift2(Before(k), ls, Leaves(k.right[0]), AllLeaves(k.right[1..]), After(k.up));
    }
  }

  lemma {:induction false} Shift(a: seq<Leaf>, b: seq<Leaf>, c: seq<Leaf>, d: seq<Leaf>, e: seq<Leaf>)
    ensures (a + b) + (c + d) + e == (a + (b + c)) + d + e
  {
  }

  lemma {:induction false} Shift2(a: seq<Leaf>, b: seq<Leaf>, c: seq<Leaf>, d: seq<Leaf>, e: seq<Leaf>)
    ensures a + (b + c) + (d + e) == a + b + ((c + d) + e)
  {
  }

  /** A sibling lends its last child: both branches are full enough then. */
  lemma {:induction false} BorrowLeft(l: Node, cs: seq<Node>, depth: nat, lim: Limits)
    requires Sane(lim) && Wf(l, depth + 1, lim) && |l.children| > MinBranch(lim) && AllWf(cs, depth, lim) && |cs| == MinBranch(lim) - 1
    ensures var l', b := NewBranch(Butlast(l.children)), NewBranch([Last(l.children)] + cs);
            Wf(l', depth + 1, lim) && Wf(b, depth + 1, lim) && Leaves(l') + Leaves(b) == Leaves(l) + AllLeaves(cs)
  {
    var front, child := Butlast(l.children), Last(l.children);
    AllWfSlice(l.children, 0, |l.children| - 1, depth, lim);
    AllWfOne(child, depth, lim);
    AllWfConcat([child], cs, depth, lim);
    BranchIsWf(front, depth, lim);
    BranchIsWf([child] + cs, depth, lim);
    AllLeavesConcat(front, [child]);
    AllLeavesConcat([child], cs);
    assert front + [child] == l.children;
  }

  lemma {:induction false} BorrowRight(cs: seq<Node>, r: Node, depth: nat, lim: Limits)
    requires Sane(lim) && Wf(r, depth + 1, lim) && |r.children| > MinBranch(lim) && AllWf(cs, depth, lim) && |cs| == MinBranch(lim) - 1
    ensures var b, r' := NewBranch(cs + [r.children[0]]), NewBranch(r.children[1..]);
            Wf(b, depth + 1, lim) && Wf(r', depth + 1, lim) && Leaves(b) + Leaves(r') == AllLeaves(cs) + Leaves(r)
  {
    var child, back := r.children[0], r.children[1..];
    AllWfSlice(r.children, 1, |r.children|, depth, lim);
    AllWfOne(child, depth, lim);
    AllWfConcat(cs, [child], depth, lim);
    BranchIsWf(cs + [child], depth, lim);
    BranchIsWf(back, depth, lim);
    AllLeavesConcat(cs, [child]);
    AllLeavesConcat([child], back);
    assert [child] + back == r.children;
  }

  /** Two small siblings make one branch that is not too large. */
  lemma {:induction false} Join(a: seq<Node>, b: seq<Node>, depth: nat, lim: Limits)
    requires Sane(lim) && AllWf(a, depth, lim) && AllWf(b, depth, lim) && MinBranch(lim) <= |a| + |b| < 2 * MinBranch(lim)
    ensures Wf(NewBranch(a + b), depth + 1, lim) && Leaves(NewBranch(a + b)) == AllLeaves(a) + AllLeaves(b)
  {
    AllWfConcat(a, b, depth, lim);
    BranchIsWf(a + b, depth, lim);
    AllLeavesConcat(a, b);
  }

  /** Two nodes in place of two siblings: the parent keeps its size. */
  lemma {:induction false} PairInParent(k: Context, l: Node, r: Node, depth: nat, lim: Limits)
    requires k.Under? && AllWf(k.left, depth, lim) && AllWf(k.right, depth, lim) && Wf(l, depth, lim) && Wf(r, depth, lim)
    requires (if k.up == Top then 2 else MinBranch(lim)) <= |k.left| + 2 + |k.right| <= lim.branch && CtxWf(k.up, depth + 1, lim)
    ensures var p := NewBranch(k.left + [l, r] + k.right);
            Stands(p, k.up, depth + 1, lim) && Whole(k.up, Leaves(p)) == Whole(k, Leaves(l) + Leaves(r))
  {
    PairLeaves(l, r);
    PairIsWf(l, r, depth, lim);
    PutIn(k, [l, r], depth, lim);
    BranchIsWf(k.left + [l, r] + k.right, depth, lim);
  }

  /** One node in place of two siblings: the parent loses a child. */
  lemma {:induction false} OneInParent(k: Context, n: Node, depth: nat, lim: Limits)
    requires k.Under? && AllWf(k.left, depth, lim) && AllWf(k.right, depth, lim) && Wf(n, depth, lim)
    ensures var cs := k.left + [n] + k.right; AllWf(cs, depth, lim) && Whole(k.up, AllLeaves(cs)) == Whole(k, Leaves(n))
  {
    AllLeavesOne(n);
    AllWfOne(n, depth, lim);
    PutIn(k, [n], depth, lim);
  }

  /** A branch at `k` with too few children, `cs`. */
  ghost predicate Underfull(cs: seq<Node>, k: Context, depth: nat, lim: Limits) {
    Sane(lim) && k.Under? && AllWf(cs, depth, lim) && CtxWf(k, depth + 1, lim) && |cs| == MinBranch(lim) - 1
  }

  /** The parent after the left sibling has lent its last child. */
  function LentByLeft(cs: seq<Node>, k: Context): Node
    requires k.Under? && k.left != [] && Last(k.left).BranchNode? && Last(k.left).children != []
  {
    var l := Last(k.left).children;
    NewBranch(Butlast(k.left) + [NewBranch(Butlast(l)), NewBranch([Last(l)] + cs)] + k.right)
  }

  lemma {:induction false} LendLeft(cs: seq<Node>, k: Context, depth: nat, lim: Limits)
    requires Underfull(cs, k, depth, lim) && k.left != [] && Wf(Last(k.left), depth + 1, lim) && |Last(k.left).children| > MinBranch(lim)
    ensures Stands(LentByLeft(cs, k), k.up, depth + 2, lim) && Whole(k.up, Leaves(LentByLeft(cs, k))) == Whole(k, AllLeaves(cs))
  {
    var l := Last(k.left).children;
    TakeSibling(k, AllLeaves(cs), depth + 1, lim);
    BorrowLeft(Last(k.left), cs, depth, lim);
    PairInParent(k.(left := Butlast(k.left)), NewBranch(Butlast(l)), NewBranch([Last(l)] + cs), depth + 1, lim);
  }

  function LentByRight(cs: seq<Node>, k: Context): Node
    requires k.Under? && k.right != [] && k.right[0].BranchNode? && k.right[0].children != []
  {
    var r := k.right[0].children;
    NewBranch(k.left + [NewBranch(cs + [r[0]]), NewBranch(r[1..])] + k.right[1..])
  }

  lemma {:induction false} LendRight(cs: seq<Node>, k: Context, depth: nat, lim: Limits)
    requires Underfull(cs, k, depth, lim) && k.right != [] && Wf(k.right[0], depth + 1, lim) && |k.right[0].children| > MinBranch(lim)
    ensures Stands(LentByRight(cs, k), k.up, depth + 2, lim) && Whole(k.up, Leaves(LentByRight(cs, k))) == Whole(k, AllLeaves(cs))
  {
    var r := k.right[0].children;
    TakeSibling(k, AllLeaves(cs), depth + 1, lim);
    BorrowRight(cs, k.right[0], depth, lim);
    PairInParent(k.(right := k.right[1..]), NewBranch(cs + [r[0]]), NewBranch(r[1..]), depth + 1, lim);
  }

  /** The parent's children after a merge with the left or right sibling. */
  function MergedLeft(cs: seq<Node>, k: Context): seq<Node>
    requires k.Under? && k.left != [] && Last(k.left).BranchNode?
  {
    Butlast(k.left) + [NewBranch(Last(k.left).children + cs)] + k.right
  }

  lemma {:induction false} MergeLeft(cs: seq<Node>, k: Context, depth: nat, lim: Limits)
    requires Underfull(cs, k, depth, lim) && k.left != [] && Wf(Last(k.left), depth + 1, lim) && |Last(k.left).children| == MinBranch(lim)
    ensures |MergedLeft(cs, k)| == |k.left| + |k.right|
    ensures AllWf(MergedLeft(cs, k), depth + 1, lim) && Whole(k.up, AllLeaves(MergedLeft(cs, k))) == Whole(k, AllLeaves(cs))
  {
    TakeSibling(k, AllLeaves(cs), depth + 1, lim);
    Join(Last(k.left).children, cs, depth, lim);
    OneInParent(k.(left := Butlast(k.left)), NewBranch(Last(k.left).children + cs), depth + 1, lim);
  }

  function MergedRight(cs: seq<Node>, k: Context): seq<Node>
    requires k.Under? && k.right != [] && k.right[0].BranchNode?
  {
    k.left + [NewBranch(cs + k.right[0].children)] + k.right[1..]
  }

  lemma {:induction false} MergeRight(cs: seq<Node>, k: Context, depth: nat, lim: Limits)
    requires Underfull(cs, k, depth, lim) && k.right != [] && Wf(k.right[0], depth + 1, lim) && |k.right[0].children| == MinBranch(lim)
    ensures |MergedRight(cs, k)| == |k.left| + |k.right|
    ensures AllWf(MergedRight(cs, k), depth + 1, lim) && Whole(k.up, AllLeaves(MergedRight(cs, k))) == Whole(k, AllLeaves(cs))
  {
    TakeSibling(k, AllLeaves(cs), depth + 1, lim);
    Join(cs, k.right[0].children, depth, lim);
    OneInParent(k.(right := k.right[1..]), NewBranch(cs + k.right[0].children), depth + 1, lim);
  }

  /** `removeBranchChild` and `rebalanceBranch`: `cs` are the children that are left in
      the branch at `k`; a branch that gets too small borrows or is merged. */
  method Rebalance(cs: seq<Node>, k: Context, ghost depth: nat, lim: Limits) returns (root: Node, ghost height: nat)
    requires Sane(lim) && AllWf(cs, depth, lim) && CtxWf(k, depth + 1, lim)
    requires (if k == Top then 1 else MinBranch(lim) - 1) <= |cs| <= lim.branch
    ensures RootWf(root, height, lim) && Leaves(root) == Whole(k, AllLeaves(cs))
    decreases k
  {
    if k == Top {
      root, height := RootOf(cs, depth, lim);
      return;
    }
    if |cs| >= MinBranch(lim) {
      BranchIsWf(cs, depth, lim);
      root, height := RefreshUp(NewBranch(cs), k, depth + 1, lim);
      return;
    }
    assert Underfull(cs, k, depth, lim);
    assert k.left != [] ==> Wf(Last(k.left), depth + 1, lim);
    assert k.right != [] ==> Wf(k.right[0], depth + 1, lim);
    if k.left != [] && |Last(k.left).children| > MinBranch(lim) {
      LendLeft(cs, k, depth, lim);
      root, height := RefreshUp(LentByLeft(cs, k), k.up, depth + 2, lim);
    } else if k.right != [] && |k.right[0].children| > MinBranch(lim) {
      LendRight(cs, k, depth, lim);
      root, height := RefreshUp(LentByRight(cs, k), k.up, depth + 2, lim);
    } else if k.left != [] {
      MergeLeft(cs, k, depth, lim);
      root, height := Rebalance(MergedLeft(cs, k), k.up, depth + 1, lim);
    } else {
      MergeRight(cs, k, depth, lim);
      root, height := Rebalance(MergedRight(cs, k), k.up, depth + 1, lim);
    }
  }

  /** The root gives way to an only child. */
  method RootOf(cs: seq<Node>, ghost depth: nat, ghost lim: Limits) returns (root: Node, ghost height: nat)
    requires Sane(lim) && AllWf(cs, depth, lim) && 1 <= |cs| <= lim.branch
    ensures RootWf(root, height, lim) && Leaves(root) == Whole(Top, AllLeaves(cs))
  {
    if |cs| == 1 {
      root, height := cs[0], depth;
      WfIsRootWf(root, depth, lim);
      AllLeavesOne(root);
      assert cs == [root];
    } else {
      root, height := NewBranch(cs), depth + 1;
      BranchIsWf(cs, depth, lim);
    }
  }
}

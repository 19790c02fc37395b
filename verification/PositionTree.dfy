/** The balanced tree of the list position index.  Its nodes are blocks of neighbouring
    items; each node caches the totals of its subtree. */
module PositionTree {
  import opened Wrappers
  import opened Powers

  /** A block: its first item, and what its items add up to. */
  datatype Block = Block(first: Option<int>, items: nat, visible: nat, formats: nat)

  /** What a node caches about its subtree. */
  datatype Totals = Totals(height: nat, items: nat, visible: nat, formats: nat)

  datatype Tree =
    | Nil
    | Node(left: Tree, block: Block, right: Tree, totals: Totals)

  function Cached(t: Tree): Totals {
    if t.Nil? then Totals(0, 0, 0, 0) else t.totals
  }

  function Height(t: Tree): nat { Cached(t).height }
  function Visible(t: Tree): nat { Cached(t).visible }

  function Max(a: nat, b: nat): nat { if a > b then a else b }

  function Sum(l: Totals, block: Block, r: Totals): Totals {
    Totals(Max(l.height, r.height) + 1, block.items + l.items + r.items, block.visible + l.visible + r.visible, block.formats + l.formats + r.formats)
  }

  /** `recalculate`: a node with the totals its children call for. */
  function Recalculated(left: Tree, block: Block, right: Tree): Tree {
    Node(left, block, right, Sum(Cached(left), block, Cached(right)))
  }

  function InOrder(t: Tree): seq<Block> {
    if t.Nil? then [] else InOrder(t.left) + [t.block] + InOrder(t.right)
  }

  /** What the first `n` blocks show. */
  function SumTo(bs: seq<Block>, n: nat): nat
    requires n <= |bs|
  {
    if n == 0 then 0 else SumTo(bs, n - 1) + bs[n - 1].visible
  }

  function SumVisible(bs: seq<Block>): nat {
    SumTo(bs, |bs|)
  }

  predicate Near(a: nat, b: nat) { a <= b + 1 && b <= a + 1 }

  /** All totals are exact and the tree is balanced. */
  ghost predicate Avl(t: Tree) {
    t.Node? ==> Avl(t.left) && Avl(t.right) && Near(Height(t.left), Height(t.right)) && t.totals == Sum(Cached(t.left), t.block, Cached(t.right))
  }

  lemma {:induction false} RecalculatedIsAvl(left: Tree, block: Block, right: Tree)
    requires Avl(left) && Avl(right) && Near(Height(left), Height(right))
    ensures Avl(Recalculated(left, block, right)) && Height(Recalculated(left, block, right)) == Max(Height(left), Height(right)) + 1
  {
  }

  lemma {:induction false} SumOfPrefix(a: seq<Block>, b: seq<Block>, n: nat)
    requires n <= |a|
    ensures SumTo(a + b, n) == SumTo(a, n)
  {
    if n > 0 { SumOfPrefix(a, b, n - 1); }
  }

  lemma {:induction false} SumOfConcat(a: seq<Block>, b: seq<Block>, n: nat)
    requires n <= |b|
    ensures SumTo(a + b, |a| + n) == SumVisible(a) + SumTo(b, n)
  {
    if n == 0 { SumOfPrefix(a, b, |a|); } else { SumOfConcat(a, b, n - 1); }
  }

  lemma {:induction false} SumVisibleConcat(a: seq<Block>, b: seq<Block>)
    ensures SumVisible(a + b) == SumVisible(a) + SumVisible(b)
  {
    SumOfConcat(a, b, |b|);
  }

  lemma {:induction false} SumOne(b: Block)
    ensures SumVisible([b]) == b.visible
  {
    assert SumTo([b], 1) == SumTo([b], 0) + [b][0].visible;
  }

  lemma {:induction false} VisibleIsSum(t: Tree)
    requires Avl(t)
    ensures Visible(t) == SumVisible(InOrder(t))
  {
    if t.Node? {
      VisibleIsSum(t.left);
      VisibleIsSum(t.right);
      SumVisibleConcat(InOrder(t.left) + [t.block], InOrder(t.right));
      SumVisibleConcat(InOrder(t.left), [t.block]);
      SumOne(t.block);
    }
  }

  // ---------------------------------------------------------------- what the totals mean

  /** The levels of a tree. */
  function Depth(t: Tree): nat {
    if t.Nil? then 0 else if Depth(t.left) > Depth(t.right) then Depth(t.left) + 1 else Depth(t.right) + 1
  }

  /** What some blocks hold together, added up from the left. */
  function Held(bs: seq<Block>, n: nat): (nat, nat, nat)
    requires n <= |bs|
  {
    if n == 0 then (0, 0, 0) else
      var (items, visible, formats) := Held(bs, n - 1);
      (items + bs[n - 1].items, visible + bs[n - 1].visible, formats + bs[n - 1].formats)
  }

  lemma {:induction false} HeldOfConcat(a: seq<Block>, b: seq<Block>, n: nat)
    requires n <= |a| + |b|
    ensures n <= |a| ==> Held(a + b, n) == Held(a, n)
    ensures n > |a| ==> var x, y := Held(a, |a|), Held(b, n - |a|); Held(a + b, n) == (x.0 + y.0, x.1 + y.1, x.2 + y.2)
  {
    if n > 0 { HeldOfConcat(a, b, n - 1); }
  }

  lemma {:induction false} HeldWhole(a: seq<Block>, b: seq<Block>)
    ensures var x, y := Held(a, |a|), Held(b, |b|); Held(a + b, |a + b|) == (x.0 + y.0, x.1 + y.1, x.2 + y.2)
  {
    HeldOfConcat(a, b, |a| + |b|);
    assert b == [] ==> a + b == a;
  }

  /** The totals of a balanced tree are those of its levels and its blocks, and no two
      sibling subtrees differ by more than one level. */
  lemma {:induction false} TotalsAreExact(t: Tree)
    requires Avl(t)
    ensures var held := Held(InOrder(t), |InOrder(t)|); Cached(t) == Totals(Depth(t), held.0, held.1, held.2)
    ensures t.Node? ==> -1 <= Depth(t.left) - Depth(t.right) <= 1
  {
    if t.Node? {
      TotalsAreExact(t.left);
      TotalsAreExact(t.right);
      HeldWhole(InOrder(t.left) + [t.block], InOrder(t.right));
      HeldWhole(InOrder(t.left), [t.block]);
      assert Held([t.block], 1) == (t.block.items, t.block.visible, t.block.formats) by { assert Held([t.block], 0) == (0, 0, 0); }
    }
  }

  // ---------------------------------------------------------------- the height is logarithmic

  /** Twice as high takes at least the square of the nodes. */
  lemma {:induction false} HeightIsLogarithmic(t: Tree)
    requires Avl(t)
    ensures Power2(Height(t) / 2) <= |InOrder(t)| + 1 && Height(t) == Depth(t)
  {
    if t.Node? {
      HeightIsLogarithmic(t.left);
      HeightIsLogarithmic(t.right);
      var h := Height(t);
      if h >= 2 {
        Power2Grows((h - 2) / 2, Height(t.left) / 2);
        Power2Grows((h - 2) / 2, Height(t.right) / 2);
        assert h / 2 == (h - 2) / 2 + 1;
      }
    }
  }

  /** With fewer than 2^63 - 1 blocks the height fits a signed byte. */
  lemma {:induction false} HeightFitsByte(t: Tree)
    requires Avl(t) && |InOrder(t)| + 1 < Power2(63)
    ensures Height(t) <= 127
  {
    HeightIsLogarithmic(t);
    if Height(t) > 127 { Power2Grows(63, Height(t) / 2); }
  }

  // ---------------------------------------------------------------- rotations

  function RotateLeft(t: Tree): Tree
    requires t.Node? && t.right.Node?
  {
    Recalculated(Recalculated(t.left, t.block, t.right.left), t.right.block, t.right.right)
  }

  function RotateRight(t: Tree): Tree
    requires t.Node? && t.left.Node?
  {
    Recalculated(t.left.left, t.left.block, Recalculated(t.left.right, t.block, t.right))
  }

  lemma {:induction false} RotationsKeepOrder(t: Tree)
    ensures t.Node? && t.right.Node? ==> InOrder(RotateLeft(t)) == InOrder(t)
    ensures t.Node? && t.left.Node? ==> InOrder(RotateRight(t)) == InOrder(t)
  {
    if t.Node? && t.right.Node? {
      var r := t.right;
      calc {
        InOrder(RotateLeft(t));
        (InOrder(t.left) + [t.block] + InOrder(r.left)) + [r.block] + InOrder(r.right);
        InOrder(t.left) + [t.block] + (InOrder(r.left) + [r.block] + InOrder(r.right));
        InOrder(t);
      }
    }
    if t.Node? && t.left.Node? {
      var l := t.left;
      calc {
        InOrder(RotateRight(t));
        InOrder(l.left) + [l.block] + (InOrder(l.right) + [t.block] + InOrder(t.right));
        (InOrder(l.left) + [l.block] + InOrder(l.right)) + [t.block] + InOrder(t.right);
        InOrder(t);
      }
    }
  }

  /** The loop body of `rebalanceFrom`. */
  function Balanced(left: Tree, block: Block, right: Tree): Tree {
    if Height(left) > Height(right) + 1 then
      var l := if Height(left.left) < Height(left.right) && left.right.Node? then RotateLeft(left) else left;
      RotateRight(Recalculated(l, block, right))
    else if Height(right) > Height(left) + 1 then
      var r := if Height(right.right) < Height(right.left) && right.left.Node? then RotateRight(right) else right;
      RotateLeft(Recalculated(left, block, r))
    else Recalculated(left, block, right)
  }

  lemma {:induction false} BalancedKeepsOrder(left: Tree, block: Block, right: Tree)
    ensures InOrder(Balanced(left, block, right)) == InOrder(left) + [block] + InOrder(right)
  {
    if Height(left) > Height(right) + 1 {
      var l := if Height(left.left) < Height(left.right) && left.right.Node? then RotateLeft(left) else left;
      RotationsKeepOrder(left);
      RotationsKeepOrder(Recalculated(l, block, right));
    } else if Height(right) > Height(left) + 1 {
      var r := if Height(right.right) < Height(right.left) && right.left.Node? then RotateRight(right) else right;
      RotationsKeepOrder(right);
      RotationsKeepOrder(Recalculated(left, block, r));
    }
  }

  lemma {:induction false} RotateRightIsAvl(left: Tree, block: Block, right: Tree)
    requires left.Node? && Avl(left.left) && Avl(left.right) && Avl(right)
    requires Near(Height(left.right), Height(right)) && Near(Height(left.left), Max(Height(left.right), Height(right)) + 1)
    ensures var t := RotateRight(Recalculated(left, block, right));
            Avl(t) && Height(t) == Max(Height(left.left), Max(Height(left.right), Height(right)) + 1) + 1
  {
    RecalculatedIsAvl(left.right, block, right);
    RecalculatedIsAvl(left.left, left.block, Recalculated(left.right, block, right));
  }

  lemma {:induction false} RotateLeftIsAvl(left: Tree, block: Block, right: Tree)
    requires right.Node? && Avl(right.left) && Avl(right.right) && Avl(left)
    requires Near(Height(left), Height(right.left)) && Near(Max(Height(left), Height(right.left)) + 1, Height(right.right))
    ensures var t := RotateLeft(Recalculated(left, block, right));
            Avl(t) && Height(t) == Max(Max(Height(left), Height(right.left)) + 1, Height(right.right)) + 1
  {
    RecalculatedIsAvl(left, block, right.left);
    RecalculatedIsAvl(Recalculated(left, block, right.left), right.block, right.right);
  }

  lemma {:induction false} LeftHeavy(left: Tree, block: Block, right: Tree)
    requires Avl(left) && Avl(right) && Height(left) == Height(right) + 2
    ensures var t := Balanced(left, block, right); Avl(t) && Height(left) <= Height(t) <= Height(left) + 1
  {
    if Height(left.left) < Height(left.right) {
      var m := left.right;
      RecalculatedIsAvl(left.left, left.block, m.left);
      assert RotateLeft(left) == Recalculated(Recalculated(left.left, left.block, m.left), m.block, m.right);
      RotateRightIsAvl(RotateLeft(left), block, right);
    } else {
      RotateRightIsAvl(left, block, right);
    }
  }

  lemma {:induction false} RightHeavy(left: Tree, block: Block, right: Tree)
    requires Avl(left) && Avl(right) && Height(right) == Height(left) + 2
    ensures var t := Balanced(left, block, right); Avl(t) && Height(right) <= Height(t) <= Height(right) + 1
  {
    if Height(right.right) < Height(right.left) {
      var m := right.left;
      RecalculatedIsAvl(m.right, right.block, right.right);
      assert RotateRight(right) == Recalculated(m.left, m.block, Recalculated(m.right, right.block, right.right));
      RotateLeftIsAvl(left, block, RotateRight(right));
    } else {
      RotateLeftIsAvl(left, block, right);
    }
  }

  /** Two subtrees that are out of balance by two at most are brought into balance. */
  lemma {:induction false} BalancedIsAvl(left: Tree, block: Block, right: Tree)
    requires Avl(left) && Avl(right) && Height(left) <= Height(right) + 2 && Height(right) <= Height(left) + 2
    ensures Avl(Balanced(left, block, right))
    ensures var h := Height(Balanced(left, block, right));
            if Near(Height(left), Height(right)) then h == Max(Height(left), Height(right)) + 1
            else Max(Height(left), Height(right)) <= h <= Max(Height(left), Height(right)) + 1
  {
    if Height(left) > Height(right) + 1 {
      LeftHeavy(left, block, right);
    } else if Height(right) > Height(left) + 1 {
      RightHeavy(left, block, right);
    } else {
      RecalculatedIsAvl(left, block, right);
    }
  }

  // ---------------------------------------------------------------- walking up

  /** Where a subtree hangs: what its parent links lead to. */
  datatype Context =
    | Root
    | OnLeft(block: Block, right: Tree, up: Context)
    | OnRight(left: Tree, block: Block, up: Context)

  function Before(k: Context): seq<Block> {
    match k
    case Root => []
    case OnLeft(_, _, up) => Before(up)
    case OnRight(l, b, up) => Before(up) + InOrder(l) + [b]
  }

  function After(k: Context): seq<Block> {
    match k
    case Root => []
    case OnLeft(b, r, up) => [b] + InOrder(r) + After(up)
    case OnRight(_, _, up) => After(up)
  }

  /** A balanced tree results if a balanced tree of height `h` hangs here. */
  ghost predicate Takes(k: Context, h: nat) {
    match k
    case Root => true
    case OnLeft(_, r, up) => Avl(r) && Near(h, Height(r)) && Takes(up, Max(h, Height(r)) + 1)
    case OnRight(l, _, up) => Avl(l) && Near(Height(l), h) && Takes(up, Max(Height(l), h) + 1)
  }

  /** The blocks of the whole tree when `t` hangs in `k`. */
  function Whole(k: Context, bs: seq<Block>): seq<Block> {
    Before(k) + bs + After(k)
  }

  lemma {:induction false} StepUp(k: Context, bs: seq<Block>)
    ensures k.OnLeft? ==> Whole(k.up, bs + [k.block] + InOrder(k.right)) == Whole(k, bs)
    ensures k.OnRight? ==> Whole(k.up, InOrder(k.left) + [k.block] + bs) == Whole(k, bs)
  {
  }

  /** The parent with its link replaced. */
  function Parent(k: Context, t: Tree): Tree
    requires k != Root
  {
    if k.OnLeft? then Recalculated(t, k.block, k.right) else Recalculated(k.left, k.block, t)
  }

  lemma {:induction false} ParentIsAvl(k: Context, t: Tree)
    requires k != Root && Avl(t) && Takes(k, Height(t))
    ensures Avl(Parent(k, t)) && Takes(k.up, Height(Parent(k, t))) && Whole(k.up, InOrder(Parent(k, t))) == Whole(k, InOrder(t))
  {
    StepUp(k, InOrder(t));
  }

  /** `refreshFrom`: totals are recalculated up to the root. */
  method RefreshFrom(t: Tree, k: Context) returns (root: Tree)
    requires Avl(t) && Takes(k, Height(t))
    ensures Avl(root) && InOrder(root) == Whole(k, InOrder(t))
  {
    root := t;
    var up := k;
    while up != Root
      invariant Avl(root) && Takes(up, Height(root)) && Whole(up, InOrder(root)) == Whole(k, InOrder(t))
      decreases up
    {
      ParentIsAvl(up, root);
      root, up := Parent(up, root), up.up;
    }
  }

  function BalancedParent(k: Context, t: Tree): Tree
    requires k != Root
  {
    if k.OnLeft? then Balanced(t, k.block, k.right) else Balanced(k.left, k.block, t)
  }

  ghost function HeightAbove(k: Context, h: nat): nat
    requires k != Root
  {
    if k.OnLeft? then Max(h, Height(k.right)) + 1 else Max(Height(k.left), h) + 1
  }

  lemma {:induction false} BalancedParentIsAvl(k: Context, t: Tree, h: nat)
    requires k != Root && Avl(t) && Takes(k, h) && h <= Height(t) <= h + 1
    ensures var p := BalancedParent(k, t); var h' := HeightAbove(k, h);
            Avl(p) && Takes(k.up, h') && h' <= Height(p) <= h' + 1 && Whole(k.up, InOrder(p)) == Whole(k, InOrder(t))
  {
    StepUp(k, InOrder(t));
    if k.OnLeft? {
      BalancedKeepsOrder(t, k.block, k.right);
      BalancedIsAvl(t, k.block, k.right);
    } else {
      BalancedKeepsOrder(k.left, k.block, t);
      BalancedIsAvl(k.left, k.block, t);
    }
  }

  /** `rebalanceFrom`: below `k` hung a tree of height `h`, which may have grown by one. */
  method RebalanceFrom(left: Tree, block: Block, right: Tree, k: Context, ghost h: nat) returns (root: Tree)
    requires Avl(left) && Avl(right) && Takes(k, h) && Grown(Height(left), Height(right), h)
    ensures Avl(root) && InOrder(root) == Whole(k, InOrder(left) + [block] + InOrder(right))
  {
    var up := k;
    root := Balanced(left, block, right);
    BalancedKeepsOrder(left, block, right);
    BalancedIsAvl(left, block, right);
    ghost var was: nat := h;
    while up != Root
      invariant Avl(root) && Takes(up, was) && was <= Height(root) <= was + 1
      invariant Whole(up, InOrder(root)) == Whole(k, InOrder(left) + [block] + InOrder(right))
      decreases up
    {
      BalancedParentIsAvl(up, root, was);
      root, up, was := BalancedParent(up, root), up.up, HeightAbove(up, was);
    }
  }

  /** A node of height `h` has these child heights now, one of them at most one higher. */
  ghost predicate Grown(l: nat, r: nat, h: nat) {
    || (Near(l, r) && h == Max(l, r) + 1)
    || (l > 0 && Near(l - 1, r) && h == Max(l - 1, r) + 1)
    || (r > 0 && Near(l, r - 1) && h == Max(l, r - 1) + 1)
  }

  function Leaf(b: Block): (t: Tree)
    ensures Avl(t) && Height(t) == 1 && InOrder(t) == [b]
  {
    Recalculated(Nil, b, Nil)
  }

  /** The blocks up to a node, and those behind it. */
  function UpTo(node: Tree, k: Context): seq<Block>
    requires node.Node?
  {
    Before(k) + InOrder(node.left) + [node.block]
  }

  function Behind(node: Tree, k: Context): seq<Block>
    requires node.Node?
  {
    InOrder(node.right) + After(k)
  }

  lemma {:induction false} StepDown(parent: Tree, k: Context)
    requires parent.Node? && Avl(parent) && Takes(k, Height(parent))
    ensures var up := OnLeft(parent.block, parent.right, k);
            Takes(up, Height(parent.left)) && Before(up) == Before(k) && InOrder(parent.left) + After(up) == InOrder(parent) + After(k)
  {
  }

  /** `insertNodeAfter`: the new block comes right behind the node it is inserted after. */
  method InsertNodeAfter(node: Tree, k: Context, inserted: Block) returns (root: Tree)
    requires node.Node? && Avl(node) && Takes(k, Height(node))
    ensures Avl(root) && InOrder(root) == UpTo(node, k) + [inserted] + Behind(node, k)
  {
    if node.right == Nil {
      root := RebalanceFrom(node.left, node.block, Leaf(inserted), k, Height(node));
      return;
    }
    root := InsertFirst(node.right, OnRight(node.left, node.block, k), inserted);
  }

  /** The new block comes before all blocks of a subtree. */
  method InsertFirst(node: Tree, k: Context, inserted: Block) returns (root: Tree)
    requires node.Node? && Avl(node) && Takes(k, Height(node))
    ensures Avl(root) && InOrder(root) == Before(k) + [inserted] + (InOrder(node) + After(k))
  {
    var parent, up := node, k;
    while parent.left != Nil
      invariant parent.Node? && Avl(parent) && Takes(up, Height(parent))
      invariant Before(up) == Before(k) && InOrder(parent) + After(up) == InOrder(node) + After(k)
      decreases parent
    {
      StepDown(parent, up);
      parent, up := parent.left, OnLeft(parent.block, parent.right, up);
    }
    root := RebalanceFrom(Leaf(inserted), parent.block, parent.right, up, Height(parent));
    InsertedFirst(parent, up, inserted);
  }

  lemma {:induction false} InsertedFirst(parent: Tree, k: Context, inserted: Block)
    requires parent.Node? && parent.left.Nil?
    ensures Whole(k, [inserted] + [parent.block] + InOrder(parent.right)) == Before(k) + [inserted] + (InOrder(parent) + After(k))
  {
  }

  // ---------------------------------------------------------------- building

  /** `h` levels are needed for `n` blocks, and enough. */
  ghost predicate Levels(n: nat, h: nat) {
    if n == 0 then h == 0 else h > 0 && Power2(h - 1) <= n < Power2(h)
  }

  lemma {:induction false} LevelsOfHalves(a: nat, b: nat, h: nat, g: nat)
    requires Levels(a, h) && Levels(b, g) && b <= a <= b + 1
    ensures g <= h <= g + 1 && Levels(a + b + 1, h + 1)
  {
    if b > 0 && g > h { Power2Grows(h, g - 1); }
    if b > 0 && h > g + 1 { Power2Grows(g + 1, h - 1); }
  }

  /** `t` is a tree of the blocks from `begin` to `end`, as low as possible. */
  ghost predicate Built(t: Tree, bs: seq<Block>, begin: nat, end: nat) {
    begin <= end <= |bs| && Avl(t) && InOrder(t) == bs[begin..end] && Levels(end - begin, Height(t))
  }

  lemma {:induction false} HalvesAreBuilt(l: Tree, r: Tree, bs: seq<Block>, begin: nat, middle: nat, end: nat)
    requires middle < end && middle - begin == (end - begin) / 2 && Built(l, bs, begin, middle) && Built(r, bs, middle + 1, end)
    ensures Built(Recalculated(l, bs[middle], r), bs, begin, end)
  {
    LevelsOfHalves(middle - begin, end - middle - 1, Height(l), Height(r));
    RecalculatedIsAvl(l, bs[middle], r);
    assert bs[begin..end] == bs[begin..middle] + [bs[middle]] + bs[middle + 1..end];
  }

  /** `buildBalancedListPositionNodes` */
  method BuildBalanced(bs: seq<Block>, begin: nat, end: nat) returns (t: Tree)
    requires begin <= end <= |bs|
    ensures Built(t, bs, begin, end)
    decreases end - begin
  {
    if begin == end {
      return Nil;
    }
    var middle := (begin + end) / 2;
    var l := BuildBalanced(bs, begin, middle);
    var r := BuildBalanced(bs, middle + 1, end);
    HalvesAreBuilt(l, r, bs, begin, middle, end);
    t := Recalculated(l, bs[middle], r);
  }

  // ---------------------------------------------------------------- finding

  lemma {:induction false} WholeOfRoot(t: Tree)
    ensures Whole(Root, InOrder(t)) == InOrder(t)
  {
  }

  /** How many blocks come before a node's own. */
  ghost function Rank(t: Tree, k: Context): nat
    requires t.Node?
  {
    |Before(k) + InOrder(t.left)|
  }

  lemma {:induction false} Regroup(a: seq<Block>, l: seq<Block>, b: Block, r: seq<Block>, z: seq<Block>)
    ensures a + (l + [b] + r) + z == (a + l) + [b] + (r + z)
  {
  }

  lemma {:induction false} Cut(front: seq<Block>, b: Block, back: seq<Block>)
    ensures var bs := front + [b] + back; var n := |front|; n < |bs| && bs[n] == b && bs[..n] == front && bs[n + 1..] == back
  {
  }

  lemma {:induction false} SumCut(front: seq<Block>, b: Block, back: seq<Block>)
    ensures SumVisible(front + [b] + back) == SumVisible(front) + b.visible + SumVisible(back)
    ensures SumTo(front + [b] + back, |front|) == SumVisible(front)
    ensures SumVisible(front + [b]) == SumVisible(front) + b.visible
  {
    SumVisibleConcat(front + [b], back);
    SumVisibleConcat(front, [b]);
    SumOfPrefix(front + [b], back, |front|);
    SumOfPrefix(front, [b], |front|);
  }

  /** At a node: the blocks before it, the node's block, and the blocks behind it. */
  lemma {:induction false} NodeInWhole(t: Tree, k: Context)
    requires t.Node?
    ensures var bs := Whole(k, InOrder(t)); var n := Rank(t, k);
            n < |bs| && bs[n] == t.block && bs[..n] == Before(k) + InOrder(t.left) && bs[n + 1..] == Behind(t, k)
  {
    Regroup(Before(k), InOrder(t.left), t.block, InOrder(t.right), After(k));
    Cut(Before(k) + InOrder(t.left), t.block, Behind(t, k));
  }

  ghost function GoLeft(t: Tree, k: Context): Context
    requires t.Node?
  {
    OnLeft(t.block, t.right, k)
  }

  ghost function GoRight(t: Tree, k: Context): Context
    requires t.Node?
  {
    OnRight(t.left, t.block, k)
  }

  /** The subtree `t` hangs in `k`; `base` is visible before it. */
  ghost predicate Spot(t: Tree, k: Context, bs: seq<Block>, base: nat) {
    Avl(t) && Whole(k, InOrder(t)) == bs && base == SumVisible(Before(k))
  }

  lemma {:induction false} SpotLeft(t: Tree, k: Context, bs: seq<Block>, base: nat)
    requires t.Node? && Spot(t, k, bs, base)
    ensures Spot(t.left, GoLeft(t, k), bs, base)
    ensures SumVisible(After(GoLeft(t, k))) == t.block.visible + Visible(t.right) + SumVisible(After(k))
  {
    StepUp(GoLeft(t, k), InOrder(t.left));
    VisibleIsSum(t.right);
    SumVisibleConcat([t.block] + InOrder(t.right), After(k));
    SumVisibleConcat([t.block], InOrder(t.right));
    SumOne(t.block);
  }

  lemma {:induction false} SpotRight(t: Tree, k: Context, bs: seq<Block>, base: nat)
    requires t.Node? && Spot(t, k, bs, base)
    ensures Spot(t.right, GoRight(t, k), bs, base + Visible(t.left) + t.block.visible)
  {
    StepUp(GoRight(t, k), InOrder(t.right));
    VisibleIsSum(t.left);
    SumVisibleConcat(Before(k), InOrder(t.left));
    SumCut(Before(k) + InOrder(t.left), t.block, []);
  }

  lemma {:induction false} SpotHere(t: Tree, k: Context, bs: seq<Block>, base: nat)
    requires t.Node? && Spot(t, k, bs, base)
    ensures StartsAt(bs, Rank(t, k), t.block, base + Visible(t.left))
    ensures SumVisible(bs) == base + Visible(t.left) + t.block.visible + Visible(t.right) + SumVisible(After(k))
  {
    NodeInWhole(t, k);
    Regroup(Before(k), InOrder(t.left), t.block, InOrder(t.right), After(k));
    SumCut(Before(k) + InOrder(t.left), t.block, Behind(t, k));
    VisibleIsSum(t.left);
    VisibleIsSum(t.right);
    SumVisibleConcat(Before(k), InOrder(t.left));
    SumVisibleConcat(InOrder(t.right), After(k));
  }

  /** The block `k` of `bs` starts at visible position `base`. */
  ghost predicate StartsAt(bs: seq<Block>, k: nat, block: Block, base: nat) {
    k < |bs| && bs[k] == block && base == SumTo(bs, k)
  }

  /** `findPosition`, at the visible end: the last block that has something visible. */
  method FindEnd(root: Tree) returns (block: Block, base: nat, ghost at: nat)
    requires Avl(root) && Visible(root) > 0
    ensures StartsAt(InOrder(root), at, block, base) && block.visible > 0 && base + block.visible == SumVisible(InOrder(root))
  {
    var node := root;
    ghost var k, bs := Root, InOrder(root);
    base := 0;
    WholeOfRoot(root);
    while true
      invariant node.Node? && Visible(node) > 0 && Spot(node, k, bs, base) && SumVisible(After(k)) == 0
      decreases node
    {
      SpotHere(node, k, bs, base);
      var nodeBase := base + Visible(node.left);
      if Visible(node.right) > 0 {
        SpotRight(node, k, bs, base);
        base, k, node := nodeBase + node.block.visible, GoRight(node, k), node.right;
      } else if node.block.visible > 0 {
        block, base, at := node.block, nodeBase, Rank(node, k);
        return;
      } else {
        SpotLeft(node, k, bs, base);
        k, node := GoLeft(node, k), node.left;
      }
    }
  }

  /** `findPosition`, inside: the block that shows visible position `target`. */
  method FindInside(root: Tree, target: nat) returns (block: Block, base: nat, ghost at: nat)
    requires Avl(root) && target < Visible(root)
    ensures StartsAt(InOrder(root), at, block, base) && base <= target < base + block.visible
  {
    var node := root;
    ghost var k, bs := Root, InOrder(root);
    base := 0;
    WholeOfRoot(root);
    while true
      invariant node.Node? && Spot(node, k, bs, base) && base <= target < base + Visible(node)
      decreases node
    {
      if target < base + Visible(node.left) {
        SpotLeft(node, k, bs, base);
        k, node := GoLeft(node, k), node.left;
        continue;
      }
      var nodeBase := base + Visible(node.left);
      if node.block.visible > 0 && target < nodeBase + node.block.visible {
        SpotHere(node, k, bs, base);
        block, base, at := node.block, nodeBase, Rank(node, k);
        return;
      }
      SpotRight(node, k, bs, base);
      base, k, node := nodeBase + node.block.visible, GoRight(node, k), node.right;
    }
  }

  /** `findPosition` for any target. */
  method FindPosition(root: Tree, target: int) returns (found: Option<(Block, nat)>, ghost at: nat)
    requires Avl(root)
    ensures found.Some? <==> 0 <= target <= SumVisible(InOrder(root)) && SumVisible(InOrder(root)) > 0
    ensures found.Some? ==> StartsAt(InOrder(root), at, found.value.0, found.value.1) && found.value.0.visible > 0
    ensures found.Some? ==> var (b, base) := found.value;
                            if target < SumVisible(InOrder(root)) then base <= target < base + b.visible
                            else base + b.visible == target
  {
    VisibleIsSum(root);
    if root == Nil || target < 0 || target > Visible(root) || Visible(root) == 0 {
      return None, 0;
    }
    var block, base;
    if target == Visible(root) {
      block, base, at := FindEnd(root);
    } else {
      block, base, at := FindInside(root, target);
    }
    found := Some((block, base));
  }

  /** The climb of `indexedVisibleStart`: what is visible before the node's block. */
  method VisibleBefore(node: Tree, k: Context) returns (visible: nat)
    requires node.Node? && Avl(node) && Takes(k, Height(node))
    ensures visible == SumVisible(Before(k) + InOrder(node.left))
  {
    visible := Visible(node.left);
    VisibleIsSum(node.left);
    SumVisibleConcat(Before(k), InOrder(node.left));
    var up := k;
    ghost var h: nat := Height(node);
    while up != Root
      invariant Takes(up, h) && visible + SumVisible(Before(up)) == SumVisible(Before(k) + InOrder(node.left))
      decreases up
    {
      if up.OnRight? {
        SumBefore(up);
        visible := visible + Visible(up.left) + up.block.visible;
      }
      h := HeightAbove(up, h);
      up := up.up;
    }
  }

  lemma {:induction false} SumBefore(k: Context)
    requires k.OnRight? && Avl(k.left)
    ensures SumVisible(Before(k)) == SumVisible(Before(k.up)) + Visible(k.left) + k.block.visible
  {
    VisibleIsSum(k.left);
    SumVisibleConcat(Before(k.up), InOrder(k.left));
    SumCut(Before(k.up) + InOrder(k.left), k.block, []);
  }

  // ---------------------------------------------------------------- a node in its tree

  datatype Place = Place(node: Tree, context: Context)

  /** `place` is a node of the balanced tree with the blocks `bs`. */
  ghost predicate Points(place: Place, bs: seq<Block>) {
    && place.node.Node? && Avl(place.node) && Takes(place.context, Height(place.node))
    && Whole(place.context, InOrder(place.node)) == bs
  }

  /** The node whose block begins with item `id`, with its parent links. */
  function Locate(t: Tree, k: Context, id: int): Option<Place> {
    if t.Nil? then None
    else if t.block.first == Some(id) then Some(Place(t, k))
    else
      var l := Locate(t.left, OnLeft(t.block, t.right, k), id);
      if l.Some? then l else Locate(t.right, OnRight(t.left, t.block, k), id)
  }

  predicate Begins(bs: seq<Block>, id: int) {
    exists i :: 0 <= i < |bs| && bs[i].first == Some(id)
  }

  lemma {:induction false} LocatePoints(t: Tree, k: Context, id: int)
    requires Avl(t) && Takes(k, Height(t))
    ensures var p := Locate(t, k, id); p.Some? ==> Points(p.value, Whole(k, InOrder(t))) && p.value.node.block.first == Some(id)
    decreases t
  {
    if t.Node? {
      StepUp(GoLeft(t, k), InOrder(t.left));
      StepUp(GoRight(t, k), InOrder(t.right));
      LocatePoints(t.left, OnLeft(t.block, t.right, k), id);
      LocatePoints(t.right, OnRight(t.left, t.block, k), id);
    }
  }

  lemma {:induction false} LocateFinds(t: Tree, k: Context, id: int)
    ensures Locate(t, k, id).Some? <==> Begins(InOrder(t), id)
    decreases t
  {
    if t.Node? {
      LocateFinds(t.left, OnLeft(t.block, t.right, k), id);
      LocateFinds(t.right, OnRight(t.left, t.block, k), id);
      BeginsEither(InOrder(t.left), t.block, InOrder(t.right), id);
    }
  }

  lemma {:induction false} BeginsEither(l: seq<Block>, b: Block, r: seq<Block>, id: int)
    ensures Begins(l + [b] + r, id) <==> Begins(l, id) || b.first == Some(id) || Begins(r, id)
  {
    var bs := l + [b] + r;
    assert forall i :: 0 <= i < |l| ==> bs[i] == l[i];
    assert bs[|l|] == b;
    assert forall i :: 0 <= i < |r| ==> bs[|l| + 1 + i] == r[i];
    if Begins(bs, id) {
      var i :| 0 <= i < |bs| && bs[i].first == Some(id);
      assert i < |l| || i == |l| || bs[i] == r[i - |l| - 1];
    }
  }

  ghost function RankOf(place: Place): nat
    requires place.node.Node?
  {
    Rank(place.node, place.context)
  }

  lemma {:induction false} AroundPlace(place: Place, bs: seq<Block>)
    requires Points(place, bs)
    ensures var n := RankOf(place);
            n < |bs| && bs[n] == place.node.block && bs[..n] == Before(place.context) + InOrder(place.node.left) && bs[n + 1..] == Behind(place.node, place.context)
  {
    NodeInWhole(place.node, place.context);
  }

  /** A changed block in place: only that block changes. */
  method ReplaceBlock(place: Place, block: Block, ghost bs: seq<Block>) returns (root: Tree)
    requires Points(place, bs)
    ensures Avl(root) && RankOf(place) < |bs| && InOrder(root) == bs[..RankOf(place)] + [block] + bs[RankOf(place) + 1..]
  {
    AroundPlace(place, bs);
    var node := Recalculated(place.node.left, block, place.node.right);
    root := RefreshFrom(node, place.context);
    Regroup(Before(place.context), InOrder(node.left), block, InOrder(node.right), After(place.context));
  }

  /** A changed block, and a new one right behind it. */
  method ReplaceByTwo(place: Place, block: Block, inserted: Block, ghost bs: seq<Block>) returns (root: Tree)
    requires Points(place, bs)
    ensures Avl(root) && RankOf(place) < |bs| && InOrder(root) == bs[..RankOf(place)] + [block, inserted] + bs[RankOf(place) + 1..]
  {
    AroundPlace(place, bs);
    var node := Recalculated(place.node.left, block, place.node.right);
    root := InsertNodeAfter(node, place.context, inserted);
    assert [block] + [inserted] == [block, inserted];
  }
}

/** The struct tree as a list: whatever is done to the tree, its structs are those a
    plain sequence would hold, and it stays balanced and filled. */
module StructList {
  import opened Wrappers
  import opened StructTree
  import opened StructLeaves
  import opened StructSearch
  import opened LeafChain
  import StructBuild

  /** A leaf in its tree. */
  datatype Place = Place(leaf: Leaf, context: Context)

  ghost predicate Points(place: Place, ls: seq<Leaf>, lim: Limits) {
    CtxWf(place.context, 0, lim) && |place.leaf.items| <= lim.leaf && Whole(place.context, [place.leaf]) == ls
  }

  /** The leaf called `name`, with its parent links. */
  function Locate(n: Node, k: Context, name: nat): Option<Place>
    decreases n, 0
  {
    if n.LeafNode? then (if n.leaf.name == name then Some(Place(n.leaf, k)) else None)
    else LocateIn(n.children, 0, k, name)
  }

  function LocateIn(cs: seq<Node>, i: nat, k: Context, name: nat): Option<Place>
    requires i <= |cs|
    decreases cs, |cs| - i
  {
    if i == |cs| then None else
      var p := Locate(cs[i], Under(cs[..i], cs[i + 1..], k), name);
      if p.Some? then p else LocateIn(cs, i + 1, k, name)
  }

  lemma {:induction false} ChildStands(cs: seq<Node>, i: nat, k: Context, depth: nat, lim: Limits)
    requires i < |cs| && AllWf(cs, depth, lim) && CtxWf(k, depth + 1, lim) && (if k == Top then 2 else MinBranch(lim)) <= |cs| <= lim.branch
    ensures Stands(cs[i], Under(cs[..i], cs[i + 1..], k), depth, lim)
    ensures Whole(Under(cs[..i], cs[i + 1..], k), Leaves(cs[i])) == Whole(k, AllLeaves(cs))
  {
    AllWfSlice(cs, 0, i, depth, lim);
    AllWfSlice(cs, i + 1, |cs|, depth, lim);
    assert Wf(cs[i], depth, lim);
    StepUp(Under(cs[..i], cs[i + 1..], k), [cs[i]]);
    AllLeavesOne(cs[i]);
    assert cs[..i] + [cs[i]] + cs[i + 1..] == cs;
  }

  lemma {:induction false} LocatePoints(n: Node, k: Context, depth: nat, lim: Limits, name: nat)
    requires Stands(n, k, depth, lim)
    ensures var p := Locate(n, k, name); p.Some? ==> Points(p.value, Whole(k, Leaves(n)), lim) && p.value.leaf.name == name
    decreases n, 0
  {
    if n.BranchNode? { LocateInPoints(n.children, 0, k, depth - 1, lim, name); }
  }

  lemma {:induction false} LocateInPoints(cs: seq<Node>, i: nat, k: Context, depth: nat, lim: Limits, name: nat)
    requires i <= |cs| && AllWf(cs, depth, lim) && CtxWf(k, depth + 1, lim) && (if k == Top then 2 else MinBranch(lim)) <= |cs| <= lim.branch
    ensures var p := LocateIn(cs, i, k, name); p.Some? ==> Points(p.value, Whole(k, AllLeaves(cs)), lim) && p.value.leaf.name == name
    decreases cs, |cs| - i
  {
    if i < |cs| {
      ChildStands(cs, i, k, depth, lim);
      LocatePoints(cs[i], Under(cs[..i], cs[i + 1..], k), depth, lim, name);
      LocateInPoints(cs, i + 1, k, depth, lim, name);
    }
  }

  lemma {:induction false} LocateNames(n: Node, k: Context, name: nat)
    ensures var p := Locate(n, k, name); p.Some? ==> p.value.leaf.name == name
    decreases n, 0
  {
    if n.BranchNode? { LocateInNames(n.children, 0, k, name); }
  }

  lemma {:induction false} LocateInNames(cs: seq<Node>, i: nat, k: Context, name: nat)
    requires i <= |cs|
    ensures var p := LocateIn(cs, i, k, name); p.Some? ==> p.value.leaf.name == name
    decreases cs, |cs| - i
  {
    if i < |cs| {
      LocateNames(cs[i], Under(cs[..i], cs[i + 1..], k), name);
      LocateInNames(cs, i + 1, k, name);
    }
  }

  ghost predicate Has(ls: seq<Leaf>, name: nat) { exists i :: Named(ls, i, name) }

  lemma {:induction false} HasEither(a: seq<Leaf>, b: seq<Leaf>, name: nat)
    ensures Has(a + b, name) <==> Has(a, name) || Has(b, name)
  {
    if Has(a, name) { var i :| Named(a, i, name); assert Named(a + b, i, name); }
    if Has(b, name) { var i :| Named(b, i, name); assert Named(a + b, |a| + i, name); }
    if Has(a + b, name) {
      var i: nat :| Named(a + b, i, name);
      assert if i < |a| then Named(a, i, name) else Named(b, i - |a|, name);
    }
  }

  lemma {:induction false} LocateFinds(n: Node, k: Context, name: nat)
    ensures Locate(n, k, name).Some? <==> Has(Leaves(n), name)
    decreases n, 0
  {
    if n.LeafNode? {
      assert Named([n.leaf], 0, name) <==> n.leaf.name == name;
    } else {
      LocateInFinds(n.children, 0, k, name);
      assert !Has([], name);
    }
  }

  lemma {:induction false} LocateInFinds(cs: seq<Node>, i: nat, k: Context, name: nat)
    requires i <= |cs|
    ensures LocateIn(cs, i, k, name).Some? || Has(LeavesTo(cs, i), name) <==> Has(AllLeaves(cs), name)
    decreases cs, |cs| - i
  {
    if i < |cs| {
      LocateFinds(cs[i], Under(cs[..i], cs[i + 1..], k), name);
      LocateInFinds(cs, i + 1, k, name);
      HasEither(LeavesTo(cs, i), Leaves(cs[i]), name);
    }
  }

  ghost function Rank(place: Place): nat { |Before(place.context)| }

  lemma {:induction false} AroundPlace(place: Place, ls: seq<Leaf>, lim: Limits)
    requires Points(place, ls, lim)
    ensures Rank(place) < |ls| && ls[Rank(place)] == place.leaf && ls[..Rank(place)] == Before(place.context) && ls[Rank(place) + 1..] == After(place.context)
  {
    CutAt(Before(place.context), place.leaf, After(place.context));
  }

  lemma {:induction false} SameRank(ls: seq<Leaf>, i: nat, j: nat)
    requires Distinct(ls) && i < |ls| && j < |ls| && ls[i].name == ls[j].name
    ensures i == j
  {
  }

  lemma {:induction false} CutAt(a: seq<Leaf>, l: Leaf, b: seq<Leaf>)
    ensures var s := a + [l] + b; |a| < |s| && s[|a|] == l && s[..|a|] == a && s[|a| + 1..] == b
  {
  }

  lemma {:induction false} SomeLeaves(n: Node, depth: nat, lim: Limits)
    requires Sane(lim) && RootWf(n, depth, lim)
    ensures Leaves(n) != []
    decreases depth
  {
    if depth > 0 {
      var cs := n.children;
      assert Wf(cs[|cs| - 1], depth - 1, lim);
      WfIsRootWf(cs[|cs| - 1], depth - 1, lim);
      SomeLeaves(cs[|cs| - 1], depth - 1, lim);
    }
  }

  // ---------------------------------------------------------------- a leaf whose totals are out of date

  /** Leaf `l` takes the place of the leaf of its name; no total is recalculated. */
  function Patched(n: Node, l: Leaf): Node {
    if n.LeafNode? then (if n.leaf.name == l.name then LeafNode(l, n.total) else n)
    else BranchNode(seq(|n.children|, i requires 0 <= i < |n.children| => Patched(n.children[i], l)), n.total)
  }

  lemma {:induction false} PatchedElsewhere(n: Node, l: Leaf)
    ensures Has(Leaves(n), l.name) || Patched(n, l) == n
    decreases n
  {
    if n.LeafNode? {
      assert Named(Leaves(n), 0, l.name) <==> n.leaf.name == l.name;
    } else {
      var cs := n.children;
      forall i | 0 <= i < |cs| ensures Has(Leaves(n), l.name) || Patched(cs[i], l) == cs[i] {
        ChildHas(cs, i, l.name);
        PatchedElsewhere(cs[i], l);
      }
      assert Has(Leaves(n), l.name) || Patched(n, l).children == cs;
    }
  }

  lemma {:induction false} ChildHas(cs: seq<Node>, i: nat, name: nat)
    requires i < |cs|
    ensures Has(AllLeaves(cs), name) <==> Has(LeavesTo(cs, i), name) || Has(Leaves(cs[i]), name) || Has(AllLeaves(cs[i + 1..]), name)
  {
    Split(cs, i);
    HasEither(LeavesTo(cs, i) + Leaves(cs[i]), AllLeaves(cs[i + 1..]), name);
    HasEither(LeavesTo(cs, i), Leaves(cs[i]), name);
  }

  /** `l` in the list of leaves. */
  function InPlaceOf(ls: seq<Leaf>, l: Leaf): seq<Leaf> {
    seq(|ls|, i requires 0 <= i < |ls| => if ls[i].name == l.name then l else ls[i])
  }

  lemma {:induction false} InPlaceOfConcat(a: seq<Leaf>, b: seq<Leaf>, l: Leaf)
    ensures InPlaceOf(a + b, l) == InPlaceOf(a, l) + InPlaceOf(b, l)
  {
  }

  lemma {:induction false} PatchedLeaves(n: Node, l: Leaf)
    ensures Leaves(Patched(n, l)) == InPlaceOf(Leaves(n), l)
    decreases n, 0
  {
    if n.BranchNode? { PatchedLeavesTo(n.children, |n.children|, l); }
  }

  function PatchedAll(cs: seq<Node>, l: Leaf): seq<Node> {
    seq(|cs|, i requires 0 <= i < |cs| => Patched(cs[i], l))
  }

  lemma {:induction false} PatchedLeavesTo(cs: seq<Node>, m: nat, l: Leaf)
    requires m <= |cs|
    ensures LeavesTo(PatchedAll(cs, l), m) == InPlaceOf(LeavesTo(cs, m), l)
    decreases cs, m
  {
    if m > 0 {
      PatchedLeavesTo(cs, m - 1, l);
      PatchedLeaves(cs[m - 1], l);
      InPlaceOfConcat(LeavesTo(cs, m - 1), Leaves(cs[m - 1]), l);
    }
  }

  /** The leaf is found at the same place, between the same siblings. */
  lemma {:induction false} LocatePatched(n: Node, k: Context, l: Leaf)
    requires Distinct(Leaves(n))
    ensures var p := Locate(n, k, l.name); Locate(Patched(n, l), k, l.name) == if p.Some? then Some(Place(l, p.value.context)) else None
    decreases n, 0
  {
    if n.BranchNode? {
      LocateInPatched(n.children, 0, k, l);
      assert Patched(n, l).children == PatchedAll(n.children, l);
    }
  }

  lemma {:induction false} LocateInPatched(cs: seq<Node>, i: nat, k: Context, l: Leaf)
    requires i <= |cs| && Distinct(AllLeaves(cs))
    ensures var p := LocateIn(cs, i, k, l.name); LocateIn(PatchedAll(cs, l), i, k, l.name) == if p.Some? then Some(Place(l, p.value.context)) else None
    decreases cs, |cs| - i
  {
    if i < |cs| {
      var k', cs' := Under(cs[..i], cs[i + 1..], k), PatchedAll(cs, l);
      DistinctChild(cs, i);
      LocatePatched(cs[i], k', l);
      LocateInPatched(cs, i + 1, k, l);
      LocateFinds(cs[i], k', l.name);
      PatchedElsewhere(cs[i], l);
      if Has(Leaves(cs[i]), l.name) {
        OnlyChild(cs, i, l);
      } else {
        LocateFinds(cs[i], Under(cs'[..i], cs'[i + 1..], k), l.name);
      }
    }
  }

  lemma {:induction false} DistinctChild(cs: seq<Node>, i: nat)
    requires i < |cs| && Distinct(AllLeaves(cs))
    ensures Distinct(Leaves(cs[i]))
  {
    Split(cs, i);
    var all, o := AllLeaves(cs), |LeavesTo(cs, i)|;
    forall a, b | 0 <= a < b < |Leaves(cs[i])| ensures Leaves(cs[i])[a].name != Leaves(cs[i])[b].name {
      assert all[o + a].name != all[o + b].name;
    }
  }

  /** The other children do not change. */
  lemma {:induction false} OnlyChild(cs: seq<Node>, i: nat, l: Leaf)
    requires i < |cs| && Distinct(AllLeaves(cs)) && Has(Leaves(cs[i]), l.name)
    ensures PatchedAll(cs, l)[..i] == cs[..i] && PatchedAll(cs, l)[i + 1..] == cs[i + 1..]
  {
    forall j | 0 <= j < |cs| && j != i ensures PatchedAll(cs, l)[j] == cs[j] {
      PatchedElsewhere(cs[j], l);
      if j < i { NotTwice(cs, j, i, l.name); } else { NotTwice(cs, i, j, l.name); }
    }
  }

  lemma {:induction false} NotTwice(cs: seq<Node>, i: nat, j: nat, name: nat)
    requires i < j < |cs| && Distinct(AllLeaves(cs))
    ensures !(Has(Leaves(cs[i]), name) && Has(Leaves(cs[j]), name))
  {
    if Has(Leaves(cs[i]), name) {
      var a: nat :| Named(Leaves(cs[i]), a, name);
      forall b: nat ensures !Named(Leaves(cs[j]), b, name) {
        if b < |Leaves(cs[j])| { OtherName(cs, i, a, j, b); }
      }
    }
  }

  lemma {:induction false} OtherName(cs: seq<Node>, i: nat, a: nat, j: nat, b: nat)
    requires i < j < |cs| && Distinct(AllLeaves(cs)) && a < |Leaves(cs[i])| && b < |Leaves(cs[j])|
    ensures Leaves(cs[i])[a].name != Leaves(cs[j])[b].name
  {
    Split(cs, i);
    Split(cs, j);
    LeavesGrow(cs, i + 1, j);
    var all := AllLeaves(cs);
    assert all[|LeavesTo(cs, i)| + a] == Leaves(cs[i])[a];
    assert all[|LeavesTo(cs, j)| + b] == Leaves(cs[j])[b];
  }

  lemma {:induction false} LeavesGrow(cs: seq<Node>, m: nat, n: nat)
    requires m <= n <= |cs|
    ensures |LeavesTo(cs, m)| <= |LeavesTo(cs, n)|
  {
    if m < n { LeavesGrow(cs, m, n - 1); }
  }

  // ---------------------------------------------------------------- the list

  /** A cursor names a slot of a leaf; it is good for one generation. */
  datatype Cursor = Cursor(leaf: nat, slot: nat, generation: nat)

  function NameOf(ls: seq<Leaf>, i: int): Option<nat> {
    if 0 <= i < |ls| then Some(ls[i].name) else None
  }

  ghost predicate Slot(ls: seq<Leaf>, c: Cursor, k: nat, p: nat) {
    Named(ls, k, c.leaf) && IsAt(ls, k, c.slot, p)
  }

  ghost predicate HasSlot(ls: seq<Leaf>, c: Cursor, p: nat) {
    exists k :: Slot(ls, c, k, p)
  }

  class BPlusTree {
    const lim: Limits
    var root: Option<Node>
    var generation: nat
    var nextName: nat
    var chain: Links
    ghost var names: seq<nat>
    ghost var height: nat

    /** The leaves, in the order of the tree. */
    ghost function Linked(): seq<Leaf>
      reads this
    {
      if root.Some? then Leaves(root.value) else []
    }

    ghost function Content(): seq<Struct>
      reads this
    {
      AllItems(Linked())
    }

    /** The links run through the leaves in the order of the tree. */
    ghost predicate Chained()
      reads this
    {
      Sane(lim) && Distinct(Linked()) && Fresh(Linked(), nextName) && Called(Linked(), names) && Chain(chain, names)
    }

    /** Linked, balanced, exact totals, branches filled, leaves not overfull. */
    ghost predicate Loose()
      reads this
    {
      Chained() && (root.Some? ==> RootWf(root.value, height, lim))
    }

    ghost predicate Valid()
      reads this
    {
      Loose() && Tight(Linked(), MinLeaf(lim))
    }

    /** As `Loose`, except that the totals above leaf `name` may be out of date. */
    ghost predicate Stale(name: nat)
      reads this
    {
      && Chained() && root.Some?
      && var p := Locate(root.value, Top, name); p.Some? && Points(p.value, Linked(), lim)
    }

    /** As `Valid`, except that the totals above leaf `name` may be out of date. */
    ghost predicate ValidBut(name: nat)
      reads this
    {
      Stale(name) && Tight(Linked(), MinLeaf(lim))
    }

    lemma {:induction false} ValidIsValidBut(name: nat)
      requires Valid() && Has(Linked(), name)
      ensures ValidBut(name)
    {
      LocateFinds(root.value, Top, name);
      LocatePoints(root.value, Top, height, lim, name);
      assert Whole(Top, Leaves(root.value)) == Leaves(root.value);
    }

    /** The cursor stands on struct `p`. */
    ghost predicate Denotes(c: Cursor, p: nat)
      reads this
    {
      c.generation == generation && HasSlot(Linked(), c, p)
    }

    constructor (lim: Limits)
      requires lim.leaf >= 2 && lim.branch >= 3
      ensures Valid() && Content() == [] && this.lim == lim
    {
      this.lim := lim;
      root, generation, nextName, chain, names, height := None, 0, 0, NoLinks, [], 0;
    }

    /** `newClientStructTreeFromFlat` */
    constructor FromFlat(values: seq<Struct>, lim: Limits)
      requires lim.leaf >= 2 && lim.branch >= 3
      ensures Valid() && Content() == values && this.lim == lim
    {
      this.lim := lim;
      generation := 0;
      if values == [] {
        root, nextName, chain, names, height := None, 0, NoLinks, [], 0;
      } else {
        var nodes, links;
        ghost var called;
        nodes, links, called := StructBuild.BuildLeaves(values, lim);
        var r;
        ghost var h;
        r, h := StructBuild.BuildLevels(nodes, lim);
        root, nextName, chain, names, height := Some(r), |nodes|, links, called, h;
      }
    }

    /** Following a pointer to a leaf that may be detached. */
    function Seek(name: nat): (found: Option<Place>)
      requires Loose() && root.Some?
      reads this
      ensures found.Some? <==> Has(Linked(), name)
      ensures found.Some? ==> Points(found.value, Linked(), lim) && found.value.leaf.name == name
    {
      LocateFinds(root.value, Top, name);
      LocatePoints(root.value, Top, height, lim, name);
      assert Whole(Top, Leaves(root.value)) == Leaves(root.value);
      Locate(root.value, Top, name)
    }

    /** Following a pointer to a leaf. */
    function Get(name: nat): (place: Place)
      requires Loose() && Has(Linked(), name)
      reads this
      ensures Points(place, Linked(), lim) && place.leaf.name == name
    {
      Seek(name).value
    }

    /** A leaf changes in place. */
    method Update(place: Place, items: seq<Struct>)
      requires Chained() && Points(place, Linked(), lim) && |items| <= lim.leaf
      modifies `root, `height
      ensures Loose() && root.Some? && Rank(place) < |old(Linked())| && Linked() == old(Linked())[Rank(place) := place.leaf.(items := items)]
    {
      ghost var ls, k := Linked(), Rank(place);
      var l := place.leaf.(items := items);
      AroundPlace(place, ls, lim);
      ChangeKeepsNames(ls, k, l, nextName);
      NamesOfChange(ls, names, k, l);
      var r;
      r, height := RefreshUp(NewLeaf(l), place.context, 0, lim);
      root := Some(r);
      assert Whole(place.context, [l]) == ls[k := l];
    }

    /** A leaf is replaced by itself with other contents and a new one behind it. */
    method UpdateAndInsert(place: Place, left: seq<Struct>, right: seq<Struct>)
      requires Chained() && Points(place, Linked(), lim) && |left| <= lim.leaf && |right| <= lim.leaf
      modifies this
      ensures Loose() && nextName == old(nextName) + 1 && generation == old(generation) && Rank(place) < |old(Linked())|
      ensures Linked() == old(Linked())[..Rank(place)] + [place.leaf.(items := left), Leaf(old(nextName), right)] + old(Linked())[Rank(place) + 1..]
    {
      ghost var ls, k := Linked(), Rank(place);
      var a, b := place.leaf.(items := left), Leaf(nextName, right);
      AroundPlace(place, ls, lim);
      CutKeepsChain(ls, names, chain, k, a, b, nextName);
      CutInPlace(place, ls, a, b, lim);
      chain, names := LinkBehind(chain, a.name, b.name), InsertName(names, k + 1, b.name);
      var r;
      r, height := InsertSiblingAfter(NewLeaf(a), NewLeaf(b), place.context, 0, lim);
      root, nextName := Some(r), nextName + 1;
    }

    /** `t.last` */
    function LastLeaf(): (place: Place)
      requires Loose() && root.Some?
      reads this
      ensures Points(place, Linked(), lim) && Rank(place) == |Linked()| - 1
    {
      LastIsThere();
      AroundPlace(Get(chain.last.value), Linked(), lim);
      SameRank(Linked(), |Linked()| - 1, Rank(Get(chain.last.value)));
      Get(chain.last.value)
    }

    lemma {:induction false} LastIsThere()
      requires Loose() && root.Some?
      ensures Linked() != [] && chain.last == Some(Linked()[|Linked()| - 1].name) && Has(Linked(), chain.last.value)
    {
      SomeLeaves(root.value, height, lim);
      ghost var ls := Linked();
      assert CalledAt(ls, names, |ls| - 1);
      assert Named(ls, |ls| - 1, ls[|ls| - 1].name);
    }

    /** `Append`: the struct comes last, and no cursor is lost. */
    method Append(x: Struct) returns (c: Cursor)
      requires Valid()
      modifies this
      ensures Valid() && Content() == old(Content()) + [x] && Denotes(c, |old(Content())|)
      ensures generation == old(generation) && forall d, p {:trigger Denotes(d, p)} :: old(Denotes(d, p)) ==> Denotes(d, p)
    {
      if root.None? {
        c := AppendFirst(x);
      } else {
        c := AppendLast(x);
      }
    }

    method AppendFirst(x: Struct) returns (c: Cursor)
      requires Valid() && root.None?
      modifies this
      ensures Valid() && Content() == [x] && generation == old(generation) && Denotes(c, 0)
    {
      var l := Leaf(nextName, [x]);
      AddLastKeepsChain(chain, [], l.name);
      root, nextName, chain, names, height := Some(NewLeaf(l)), nextName + 1, AddLast(chain, l.name), [l.name], 0;
      assert [] + [l.name] == names && CalledAt([l], names, 0);
      AllItemsOne(l);
      c := Cursor(l.name, 0, generation);
      assert Slot(Linked(), c, 0, 0);
    }

    method AppendLast(x: Struct) returns (c: Cursor)
      requires Valid() && root.Some?
      modifies this
      ensures Valid() && Content() == old(Content()) + [x] && Denotes(c, |old(Content())|)
      ensures generation == old(generation) && forall d, p {:trigger Denotes(d, p)} :: old(Denotes(d, p)) ==> Denotes(d, p)
    {
      ghost var ls := Linked();
      var place := LastLeaf();
      ghost var k := Rank(place);
      var items := place.leaf.items;
      AroundPlace(place, ls, lim);
      if |items| < lim.leaf {
        c := Cursor(place.leaf.name, |items|, generation);
        AppendInside(ls, k, x, c, MinLeaf(lim));
        Update(place, items + [x]);
      } else {
        c := Cursor(nextName, 0, generation);
        AppendBehind(ls, k, x, Leaf(nextName, [x]), c, MinLeaf(lim));
        UpdateAndInsert(place, items, [x]);
      }
    }

    /** The place of the cursor's leaf. */
    ghost predicate Under(c: Cursor, p: nat, place: Place)
      reads this
    {
      Points(place, Linked(), lim) && Rank(place) < |Linked()| && Linked()[Rank(place)] == place.leaf && Slot(Linked(), c, Rank(place), p)
    }

    lemma {:induction false} SlotIsUnder(c: Cursor, p: nat, place: Place)
      requires Chained() && Denotes(c, p) && Points(place, Linked(), lim) && place.leaf.name == c.leaf
      ensures Under(c, p, place)
    {
      ghost var k: nat :| Slot(Linked(), c, k, p);
      AroundPlace(place, Linked(), lim);
      SameRank(Linked(), k, Rank(place));
    }

    lemma {:induction false} CursorHas(c: Cursor, p: nat)
      requires Denotes(c, p)
      ensures Has(Linked(), c.leaf)
    {
      ghost var k: nat :| Slot(Linked(), c, k, p);
      assert Named(Linked(), k, c.leaf);
    }

    lemma {:induction false} CursorIsValidBut(c: Cursor, p: nat)
      requires Valid() && Denotes(c, p)
      ensures ValidBut(c.leaf)
    {
      CursorHas(c, p);
      ValidIsValidBut(c.leaf);
    }

    /** `requireCursor`: the leaf a cursor stands in. */
    function Deref(c: Cursor, ghost p: nat): (place: Place)
      requires Loose() && Denotes(c, p)
      reads this
      ensures Under(c, p, place)
    {
      CursorHas(c, p);
      SlotIsUnder(c, p, Get(c.leaf));
      Get(c.leaf)
    }

    /** The same, if the totals above the leaf may be out of date. */
    function DerefStale(c: Cursor, ghost p: nat): (place: Place)
      requires Stale(c.leaf) && Denotes(c, p)
      reads this
      ensures Under(c, p, place)
    {
      LocateNames(root.value, Top, c.leaf);
      SlotIsUnder(c, p, Locate(root.value, Top, c.leaf).value);
      Locate(root.value, Top, c.leaf).value
    }

    /** `Value` */
    method Value(c: Cursor, ghost p: nat) returns (x: Struct)
      requires Loose() && Denotes(c, p)
      ensures p < |Content()| && x == Content()[p]
    {
      var place := Deref(c, p);
      AtPosition(Linked(), Rank(place), c.slot, p);
      x := place.leaf.items[c.slot];
    }

    /** `Replace` */
    method Replace(c: Cursor, ghost p: nat, x: Struct)
      requires Valid() && Denotes(c, p)
      modifies this
      ensures Valid() && p < |old(Content())| && Content() == old(Content())[p := x]
      ensures generation == old(generation) && Denotes(c, p)
    {
      ghost var ls := Linked();
      var place := Deref(c, p);
      ghost var k := Rank(place);
      var items := place.leaf.items;
      ReplacedIn(ls, k, c.slot, p, x, MinLeaf(lim));
      Update(place, items[c.slot := x]);
      assert Slot(Linked(), c, k, p);
    }

    /** `InsertAfter`: the struct comes behind the cursor's; an overfull leaf is split.  The
        cursor's struct may have been shortened just before, behind the tree's back. */
    method InsertAfter(c: Cursor, ghost p: nat, x: Struct) returns (d: Cursor)
      requires ValidBut(c.leaf) && Denotes(c, p)
      modifies this
      ensures Valid() && p < |old(Content())| && Content() == old(Content())[..p + 1] + [x] + old(Content())[p + 1..]
      ensures generation == old(generation) + 1 && Denotes(d, p + 1)
    {
      ghost var ls := Linked();
      var place := DerefStale(c, p);
      ghost var k := Rank(place);
      var slot := c.slot + 1;
      var items := place.leaf.items[..slot] + [x] + place.leaf.items[slot..];
      generation := generation + 1;
      InsertedIn(ls, k, c.slot, p, x, MinLeaf(lim));
      if |items| <= lim.leaf {
        Update(place, items);
        d := Cursor(place.leaf.name, slot, generation);
        assert Slot(Linked(), d, k, p + 1);
      } else {
        d := SplitLeaf(place, items, slot, p + 1);
      }
    }

    /** An overfull leaf is split in the middle. */
    method SplitLeaf(place: Place, items: seq<Struct>, slot: nat, ghost p: nat) returns (d: Cursor)
      requires Chained() && Points(place, Linked(), lim) && Rank(place) < |Linked()| && Linked()[Rank(place)] == place.leaf && |items| == lim.leaf + 1
      requires var ls := Linked()[Rank(place) := place.leaf.(items := items)]; IsAt(ls, Rank(place), slot, p) && Tight(ls, MinLeaf(lim))
      modifies this
      ensures Valid() && generation == old(generation) && Denotes(d, p)
      ensures Content() == old(AllItems(Linked()[Rank(place) := place.leaf.(items := items)]))
    {
      ghost var ls, k := Linked(), Rank(place);
      var split := |items| / 2;
      d := if slot < split then Cursor(place.leaf.name, slot, generation) else Cursor(nextName, slot - split, generation);
      SplitInTwo(ls, k, place.leaf.(items := items), slot, p, split, nextName, MinLeaf(lim), d);
      UpdateAndInsert(place, items[..split], items[split..]);
    }

    /** Two neighbouring leaves exchange structs. */
    method Exchange(k: Context, ghost l: Leaf, ghost c: Leaf, l': Leaf, c': Leaf)
      requires Loose() && Between(k, l, c, Linked(), lim) && l'.name == l.name && c'.name == c.name && |l'.items| <= lim.leaf && |c'.items| <= lim.leaf
      modifies `root, `height
      ensures Loose() && |Before(k)| + 1 < |old(Linked())| && Linked() == Exchanged(old(Linked()), |Before(k)|, l', c')
    {
      ghost var ls := Linked();
      PairAt(Before(k), l, c, After(k), l', c');
      ExchangeKeepsNames(ls, |Before(k)|, l', c', nextName);
      NamesOfExchanged(ls, names, |Before(k)|, l', c');
      PairInParent(k, NewLeaf(l'), NewLeaf(c'), 0, lim);
      var r;
      r, height := RefreshUp(NewBranch(k.left + [NewLeaf(l'), NewLeaf(c')] + k.right), k.up, 1, lim);
      root := Some(r);
    }

    /** Two neighbouring leaves become one; the right one is unlinked. */
    method Fuse(k: Context, ghost l: Leaf, c: Leaf, m: Leaf)
      requires Loose() && Between(k, l, c, Linked(), lim) && m.name == l.name && |m.items| <= lim.leaf
      modifies `root, `height, `chain, `names
      ensures Loose() && |Before(k)| + 1 < |old(Linked())| && Linked() == Fused(old(Linked()), |Before(k)|, m)
    {
      ghost var ls := Linked();
      PairAt(Before(k), l, c, After(k), m, m);
      FuseKeepsNames(ls, |Before(k)|, m, nextName);
      NamesOfFused(ls, names, |Before(k)|, m);
      assert CalledAt(ls, names, |Before(k)| + 1);
      UnlinkKeepsChain(chain, names, |Before(k)| + 1);
      chain, names := Unlinked(chain, c.name), RemoveName(names, |Before(k)| + 1);
      OneInParent(k, NewLeaf(m), 0, lim);
      var r;
      r, height := Rebalance(k.left + [NewLeaf(m)] + k.right, k.up, 0, lim);
      root := Some(r);
    }

    /** A leaf borrows the last struct of its left neighbour, or the first of its right one. */
    method Borrow(k: Context, ghost l: Leaf, ghost c: Leaf, l': Leaf, c': Leaf, survivor: nat, ghost queue: seq<nat>)
      requires Loose() && Between(k, l, c, Linked(), lim) && l'.name == l.name && c'.name == c.name
      requires |l'.items| <= lim.leaf && |c'.items| <= lim.leaf && l'.items + c'.items == l.items + c.items
      requires Deficit(l', MinLeaf(lim)) + Deficit(c', MinLeaf(lim)) < Deficit(l, MinLeaf(lim)) + Deficit(c, MinLeaf(lim))
      requires (survivor == l.name && |c'.items| >= MinLeaf(lim)) || (survivor == c.name && |l'.items| >= MinLeaf(lim))
      requires Awaited(Linked(), MinLeaf(lim), [survivor] + queue)
      modifies `root, `height
      ensures Loose() && Progress(old(Linked()), Linked(), MinLeaf(lim))
      ensures Awaited(Linked(), MinLeaf(lim), queue + [survivor])
    {
      ghost var ls, n, min := Linked(), |Before(k)|, MinLeaf(lim);
      PairAt(Before(k), l, c, After(k), l', c');
      ExchangeProgress(ls, n, l', c', min);
      Exchange(k, l, c, l', c');
      ExchangeAwaits(ls, n, l', c', survivor, min, queue, queue + [survivor]);
    }

    /** A leaf and its neighbour become one. */
    method Merge(k: Context, ghost l: Leaf, c: Leaf, m: Leaf, ghost popped: nat, ghost queue: seq<nat>)
      requires Loose() && Between(k, l, c, Linked(), lim) && m.name == l.name && |m.items| <= lim.leaf && m.items == l.items + c.items
      requires (popped == l.name || popped == c.name) && Awaited(Linked(), MinLeaf(lim), [popped] + queue)
      modifies `root, `height, `chain, `names
      ensures Loose() && Progress(old(Linked()), Linked(), MinLeaf(lim))
      ensures Awaited(Linked(), MinLeaf(lim), queue + [m.name])
    {
      ghost var ls, n, min := Linked(), |Before(k)|, MinLeaf(lim);
      PairAt(Before(k), l, c, After(k), m, m);
      FuseProgress(ls, n, m, min);
      Fuse(k, l, c, m);
      FuseAwaits(ls, n, m, popped, min, queue, queue + [m.name]);
    }

    /** `rebalanceLeaf`: an underfull leaf borrows from a sibling or is merged with it. */
    method RebalanceLeaf(place: Place, ghost queue: seq<nat>) returns (survivor: nat)
      requires Loose() && Points(place, Linked(), lim) && place.context.Under? && |place.leaf.items| < MinLeaf(lim)
      requires Awaited(Linked(), MinLeaf(lim), [place.leaf.name] + queue)
      modifies `root, `height, `chain, `names
      ensures Loose() && Progress(old(Linked()), Linked(), MinLeaf(lim))
      ensures Awaited(Linked(), MinLeaf(lim), queue + [survivor])
    {
      var k, leaf, min := place.context, place.leaf, MinLeaf(lim);
      WithSibling(place, Linked(), lim);
      survivor := leaf.name;
      if k.left != [] && |Last(k.left).leaf.items| > min {
        var l := Last(k.left).leaf;
        var n := |l.items| - 1;
        assert l.items[..n] + ([l.items[n]] + leaf.items) == l.items + leaf.items;
        Borrow(k.(left := Butlast(k.left)), l, leaf, l.(items := l.items[..n]), leaf.(items := [l.items[n]] + leaf.items), survivor, queue);
      } else if k.right != [] && |k.right[0].leaf.items| > min {
        var r := k.right[0].leaf;
        assert (leaf.items + [r.items[0]]) + r.items[1..] == leaf.items + r.items;
        Borrow(k.(right := k.right[1..]), leaf, r, leaf.(items := leaf.items + [r.items[0]]), r.(items := r.items[1..]), survivor, queue);
      } else if k.left != [] {
        var l := Last(k.left).leaf;
        survivor := l.name;
        Merge(k.(left := Butlast(k.left)), l, leaf, l.(items := l.items + leaf.items), leaf.name, queue);
      } else {
        var r := k.right[0].leaf;
        Merge(k.(right := k.right[1..]), leaf, r, leaf.(items := leaf.items + r.items), leaf.name, queue);
      }
    }

    /** One turn of the work queue. */
    method RepairOne(queue: seq<nat>) returns (rest: seq<nat>)
      requires Loose() && Content() != [] && queue != [] && Awaited(Linked(), MinLeaf(lim), queue)
      modifies `root, `height, `chain, `names
      ensures Loose() && Content() == old(Content()) && Awaited(Linked(), MinLeaf(lim), rest)
      ensures Progress(old(Linked()), Linked(), MinLeaf(lim)) || (Linked() == old(Linked()) && rest == queue[1..])
    {
      var name := queue[0];
      rest := queue[1..];
      assert queue == [name] + rest;
      var found := Seek(name);
      if found.None? || found.value.context == Top || |found.value.leaf.items| >= MinLeaf(lim) {
        NotBad(Linked(), name, found, lim, rest);
        return;
      }
      var survivor := RebalanceLeaf(found.value, rest);
      var around := Around(survivor);
      MoreAwaited(Linked(), MinLeaf(lim), rest, survivor, around);
      rest := rest + around;
    }

    /** The work queue of `Remove`: every underfull leaf but the last one is repaired. */
    method Repair(todo: seq<nat>)
      requires Loose() && Content() != [] && Awaited(Linked(), MinLeaf(lim), todo)
      modifies `root, `height, `chain, `names
      ensures Valid() && Content() == old(Content())
    {
      var queue := todo;
      while queue != []
        invariant Loose() && Content() == old(Content()) && Awaited(Linked(), MinLeaf(lim), queue)
        decreases |Linked()|, DeficitTo(Linked(), MinLeaf(lim), |Linked()|), |queue|
      {
        queue := RepairOne(queue);
      }
    }

    /** The leaf's neighbours. */
    ghost predicate LinksOf(name: nat, k: nat)
      reads this
    {
      Named(Linked(), k, name) && name in chain.of && chain.of[name] == Link(NameOf(Linked(), k - 1), NameOf(Linked(), k + 1))
    }

    lemma {:induction false} ItsLinks(name: nat, k: nat)
      requires Chained() && Named(Linked(), k, name)
      ensures LinksOf(name, k)
    {
      ghost var ls := Linked();
      assert LinkedAt(chain, names, k) && CalledAt(ls, names, k);
      assert k > 0 ==> CalledAt(ls, names, k - 1);
      assert k + 1 < |ls| ==> CalledAt(ls, names, k + 1);
    }

    /** A leaf's name, with those of the leaves before and behind it, if there are any. */
    method Around(name: nat) returns (names: seq<nat>)
      ensures forall n :: n in names <==> n == name || (name in chain.of && (chain.of[name].prev == Some(n) || chain.of[name].next == Some(n)))
    {
      names := [name];
      if name in chain.of {
        var link := chain.of[name];
        names := (if link.prev.Some? then [link.prev.value] else []) + names + (if link.next.Some? then [link.next.value] else []);
      }
    }

    /** The touched leaves, each with its neighbours. */
    method WithNeighbours(touched: seq<nat>) returns (queue: seq<nat>)
      ensures forall n :: n in touched ==> n in queue
    {
      queue := [];
      for i := 0 to |touched|
        invariant forall n :: n in touched[..i] ==> n in queue
      {
        var names := Around(touched[i]);
        assert touched[..i + 1] == touched[..i] + [touched[i]];
        queue := queue + names;
      }
      assert touched[..|touched|] == touched;
    }

    /** Raw compaction: the structs from `first` to `last` go, leaf by leaf along the links. */
    method Compact(first: Cursor, last: Cursor, ghost p: nat, ghost q: nat) returns (touched: seq<nat>)
      requires Valid() && Denotes(first, p) && Denotes(last, q) && p <= q
      modifies `root, `height
      ensures Loose() && Linked() != [] && q < |old(Content())| && Content() == Spliced(old(Content()), p, q + 1, []) && Awaited(Linked(), MinLeaf(lim), touched)
    {
      ghost var ls := Linked();
      ghost var m: nat :| Slot(ls, first, m, p);
      ghost var n: nat :| Slot(ls, last, n, q);
      SlotsInOrder(ls, m, first.slot, p, n, last.slot, q);
      ghost var now;
      touched, now := CompactLeaves(ls, first, last.leaf, m, n, p);
      CompactEnd(ls, n, first, last, p, now, q, touched, m);
    }

    /** The leaves before the last one of the range. */
    method CompactLeaves(ghost ls: seq<Leaf>, first: Cursor, last: nat, ghost m: nat, ghost n: nat, ghost p: nat) returns (touched: seq<nat>, ghost now: nat)
      requires Loose() && ls == Linked() && Slot(ls, first, m, p) && Named(ls, n, last) && m <= n
      modifies `root, `height
      ensures Loose() && Removing(ls, Linked(), m, first.slot, n, p, now) && Touched(ls, m, n, touched)
    {
      RemovingStarts(ls, m, first.slot, p);
      var leaf := first.leaf;
      touched, now := [leaf], p;
      ghost var j := m;
      while leaf != last
        invariant Loose() && j <= n && Removing(ls, Linked(), m, first.slot, j, p, now) && leaf == ls[j].name
        invariant Touched(ls, m, j, touched)
        decreases n - j
      {
        now := CompactRest(ls, leaf, j, first, m, p, now);
        leaf := chain.of[leaf].next.value;
        TouchedNext(ls, m, j, touched, leaf);
        touched := touched + [leaf];
        j := j + 1;
      }
      SameRank(ls, j, n);
    }

    /** A leaf loses its structs from the cursor on. */
    method CompactRest(ghost ls: seq<Leaf>, leaf: nat, ghost j: nat, first: Cursor, ghost m: nat, ghost p: nat, ghost now: nat) returns (ghost next: nat)
      requires Loose() && Distinct(ls) && Named(ls, m, first.leaf) && Removing(ls, Linked(), m, first.slot, j, p, now) && j + 1 < |ls| && ls[j].name == leaf
      modifies `root, `height
      ensures Loose() && Removing(ls, Linked(), m, first.slot, j + 1, p, next)
      ensures leaf in chain.of && chain.of[leaf].next == Some(ls[j + 1].name)
    {
      assert ls[j].name == ls[m].name ==> j == m;
      var start := if leaf == first.leaf then first.slot else 0;
      ghost var l, before := Without(ls[j], start, |ls[j].items|), Linked();
      next := now + |ls[j].items| - start;
      RemoveRestOfLeaf(ls, before, m, first.slot, j, p, now, l);
      StillThere(ls, before, m, first.slot, j, p, now);
      ItsLinks(leaf, j);
      CompactLeaf(leaf, start, None, j);
    }

    /** The last leaf of the range keeps what is behind it. */
    method CompactEnd(ghost ls: seq<Leaf>, ghost j: nat, first: Cursor, last: Cursor, ghost p: nat, ghost now: nat, ghost q: nat, ghost touched: seq<nat>, ghost m: nat)
      requires Loose() && Distinct(ls) && Tight(ls, MinLeaf(lim)) && Named(ls, m, first.leaf) && Removing(ls, Linked(), m, first.slot, j, p, now)
      requires Slot(ls, last, j, q) && p <= q && Touched(ls, m, j, touched)
      modifies `root, `height
      ensures Loose() && Linked() != [] && Awaited(Linked(), MinLeaf(lim), touched)
      ensures q < |AllItems(ls)| && Content() == Spliced(AllItems(ls), p, q + 1, [])
    {
      assert ls[j].name == ls[m].name ==> j == m;
      var start := if last.leaf == first.leaf then first.slot else 0;
      RemovingEnds(ls, Linked(), m, first.slot, j, p, now, last.slot, q);
      ghost var l, before := Without(ls[j], start, last.slot + 1), Linked();
      RemoveInLeaf(ls, before, m, first.slot, j, p, now, last.slot + 1, l);
      RemovedAwaits(ls, before, m, first.slot, j, p, now, l, MinLeaf(lim), touched);
      StillThere(ls, before, m, first.slot, j, p, now);
      CompactLeaf(last.leaf, start, Some(last.slot + 1), j);
    }

    /** One leaf loses the structs from `start` on, or up to `end`. */
    method CompactLeaf(name: nat, start: nat, end: Option<nat>, ghost j: nat)
      requires Loose() && Named(Linked(), j, name) && start <= (if end.Some? then end.value else |Linked()[j].items|) <= |Linked()[j].items|
      modifies `root, `height
      ensures Loose() && Linked() == old(Linked())[j := Without(old(Linked())[j], start, if end.Some? then end.value else |old(Linked())[j].items|)]
    {
      ghost var ls := Linked();
      var place := Get(name);
      AroundPlace(place, ls, lim);
      SameRank(ls, j, Rank(place));
      Update(place, Spliced(place.leaf.items, start, if end.Some? then end.value else |place.leaf.items|, []));
    }

    /** `At` */
    method At(position: int) returns (found: Option<Cursor>)
      requires Valid()
      ensures found.Some? <==> 0 <= position < |Content()|
      ensures found.Some? ==> Denotes(found.value, position)
    {
      found := None;
      if root.Some? {
        CountIsTotal();
        if 0 <= position < root.value.total.structs {
          var leaf, slot;
          ghost var k;
          leaf, slot, k := StructSearch.At(root.value, position, height, lim);
          found := Some(Cursor(leaf.name, slot, generation));
          assert Slot(Linked(), found.value, k, position);
        }
      }
    }

    /** `Find`: the struct that has a clock; the first pivot of the search does not matter. */
    method Find(clock: nat, guess: nat) returns (found: Option<Cursor>, ghost p: nat)
      requires Valid() && Contiguous(Content()) && (Content() != [] ==> Content()[0].clock == 0)
      ensures found.None? ==> Past(Content(), clock)
      ensures found.Some? ==> Denotes(found.value, p) && p < |Content()| && HasClock(Content()[p], clock)
    {
      found, p := None, 0;
      if root.Some? {
        ghost var ls, k := Linked(), 0;
        var hit;
        hit, k := FindLeaf(root.value, clock, height, lim);
        if hit.InLeaf? {
          LeafHasClock(ls, k, clock);
          var items := hit.leaf.items;
          var ok, index := FindIn(items, clock, if guess < |items| then guess else 0);
          if ok {
            p := |ItemsTo(ls, k)| + index;
            AtPosition(ls, k, index, p);
            found := Some(Cursor(hit.leaf.name, index, generation));
            assert Slot(ls, found.value, k, p);
          }
        }
      }
    }

    /** `Next` over the linked leaves. */
    method Next(c: Cursor, ghost p: nat) returns (d: Option<Cursor>)
      requires Valid() && Denotes(c, p)
      ensures d.Some? <==> p + 1 < |Content()|
      ensures d.Some? ==> Denotes(d.value, p + 1)
    {
      var place := Deref(c, p);
      ghost var ls, k := Linked(), Rank(place);
      NextSlot(ls, k, c.slot, p, MinLeaf(lim));
      ItsLinks(c.leaf, k);
      d := None;
      if c.slot + 1 < |place.leaf.items| {
        d := Some(Cursor(c.leaf, c.slot + 1, generation));
        assert Slot(ls, d.value, k, p + 1);
      } else if chain.of[c.leaf].next.Some? {
        d := Some(Cursor(chain.of[c.leaf].next.value, 0, generation));
        assert Slot(ls, d.value, k + 1, p + 1);
      }
    }

    /** The structs in a leaf. */
    function ItemsIn(name: nat, ghost k: nat): (items: seq<Struct>)
      requires Loose() && Named(Linked(), k, name)
      reads this
      ensures items == Linked()[k].items
    {
      AroundPlace(Get(name), Linked(), lim);
      SameRank(Linked(), k, Rank(Get(name)));
      Get(name).leaf.items
    }

    /** `Prev` */
    method Prev(c: Cursor, ghost p: nat) returns (d: Option<Cursor>)
      requires Valid() && Denotes(c, p)
      ensures d.Some? <==> p > 0
      ensures d.Some? ==> Denotes(d.value, p - 1)
    {
      var place := Deref(c, p);
      ghost var ls, k := Linked(), Rank(place);
      PrevSlot(ls, k, c.slot, p, MinLeaf(lim));
      ItsLinks(c.leaf, k);
      d := None;
      if c.slot > 0 {
        d := Some(Cursor(c.leaf, c.slot - 1, generation));
        assert Slot(ls, d.value, k, p - 1);
      } else if chain.of[c.leaf].prev.Some? {
        var before := chain.of[c.leaf].prev.value;
        var items := ItemsIn(before, k - 1);
        d := Some(Cursor(before, |items| - 1, generation));
        assert Slot(ls, d.value, k - 1, p - 1);
      }
    }

    /** `Index`: climb to the root and count what stands to the left. */
    method Index(c: Cursor, ghost p: nat) returns (position: nat)
      requires Valid() && Denotes(c, p)
      ensures position == p
    {
      var place := Deref(c, p);
      AroundPlace(place, Linked(), lim);
      AroundLeaf(Linked(), Rank(place));
      var left := CountBefore(place.context, 0, lim);
      position := left + c.slot;
    }

    /** `Len` */
    method Count() returns (n: nat)
      requires Valid()
      ensures n == |Content()|
    {
      if root.Some? {
        CountIsTotal();
        n := root.value.total.structs;
      } else {
        n := 0;
      }
    }

    /** `Snapshot`: along the linked leaves. */
    method Snapshot() returns (items: seq<Struct>)
      requires Valid()
      ensures items == Content()
    {
      ghost var ls := Linked();
      items := [];
      var leaf := chain.first;
      ghost var i := 0;
      assert ls != [] ==> CalledAt(ls, names, 0);
      while leaf.Some?
        invariant i <= |ls| && leaf == NameOf(ls, i) && items == ItemsTo(ls, i)
        decreases |ls| - i
      {
        var more := ItemsIn(leaf.value, i);
        items := items + more;
        ItsLinks(leaf.value, i);
        leaf := chain.of[leaf.value].next;
        i := i + 1;
      }
    }

    /** `findValue`: the cursor of a struct that is in the list. */
    method FindValue(x: Struct, ghost p: nat) returns (c: Cursor)
      requires Valid() && Ascending(Content()) && p < |Content()| && Content()[p] == x
      ensures Denotes(c, p)
    {
      ghost var ls, k := Linked(), 0;
      assert Proper(Content()[p]);
      var hit;
      hit, k := FindLeaf(root.value, x.clock, height, lim);
      InFirstBehind(ls, k, x.clock, p);
      AtPosition(ls, k, p - |ItemsTo(ls, k)|, p);
      var slot := 0;
      while hit.leaf.items[slot] != x
        invariant slot <= p - |ItemsTo(ls, k)|
        decreases p - |ItemsTo(ls, k)| - slot
      {
        slot := slot + 1;
      }
      OnlyOnce(ls, k, slot, p);
      c := Cursor(hit.leaf.name, slot, generation);
      assert Slot(ls, c, k, p);
    }

    /** The structs from `first` to `last` go, and the tree is repaired. */
    method RemoveRange(first: Cursor, last: Cursor, ghost p: nat, ghost q: nat)
      requires Valid() && Denotes(first, p) && Denotes(last, q) && p <= q
      modifies this
      ensures Valid() && q < |old(Content())| && Content() == old(Content())[..p] + old(Content())[q + 1..]
      ensures generation == old(generation) + 1
    {
      ghost var c := Content();
      var touched := Compact(first, last, p, q);
      assert Spliced(c, p, q + 1, []) == c[..p] + c[q + 1..];
      generation := generation + 1;
      Settle(touched);
    }

    method Clear()
      requires Sane(lim)
      modifies `root, `height, `chain, `names
      ensures Valid() && Content() == []
    {
      root, chain, names := None, NoLinks, [];
    }

    /** An empty tree goes, another one is repaired. */
    method Settle(touched: seq<nat>)
      requires Loose() && root.Some? && Awaited(Linked(), MinLeaf(lim), touched)
      modifies `root, `height, `chain, `names
      ensures Valid() && Content() == old(Content())
    {
      CountIsTotal();
      if root.value.total.structs == 0 {
        Clear();
      } else {
        var queue := WithNeighbours(touched);
        assert Awaited(Linked(), MinLeaf(lim), queue);
        Repair(queue);
      }
    }

    lemma {:induction false} CountIsTotal()
      requires Loose() && root.Some?
      ensures root.value.total.structs == |Content()|
    {
      TotalIsItems(root.value, height, lim);
      TotalCounts(Content(), |Content()|);
    }

    /** A struct changes in its leaf, and no total is recalculated: the item itself has
        grown or shrunk, behind the tree's back. */
    method ChangeItem(c: Cursor, ghost p: nat, x: Struct)
      requires Valid() && Denotes(c, p)
      modifies `root
      ensures ValidBut(c.leaf) && generation == old(generation) && p < |old(Content())| && Content() == old(Content())[p := x]
      ensures forall d, q {:trigger Denotes(d, q)} :: old(Denotes(d, q)) ==> Denotes(d, q)
    {
      ghost var ls := Linked();
      var place := Deref(c, p);
      ghost var k := Rank(place);
      var l := place.leaf.(items := place.leaf.items[c.slot := x]);
      ReplacedIn(ls, k, c.slot, p, x, MinLeaf(lim));
      PatchedIsStale(root.value, height, lim, k, l, nextName);
      NamesOfChange(ls, names, k, l);
      root := Some(Patched(root.value, l));
      assert Linked() == ls[k := l];
      forall d, q | old(Denotes(d, q)) ensures Denotes(d, q) {
        SlotKept(ls, k, l, d, q);
      }
    }

    /** `splitItem` and `InsertAfter`: the cursor's struct is cut down to its left half, in
        its leaf, and the right half comes behind it. */
    method SplitStruct(c: Cursor, ghost p: nat, left: Struct, right: Struct) returns (d: Cursor)
      requires Valid() && Denotes(c, p)
      modifies this
      ensures Valid() && p < |old(Content())| && Content() == old(Content())[..p] + [left, right] + old(Content())[p + 1..]
      ensures generation == old(generation) + 1 && Denotes(d, p + 1)
    {
      ghost var before := Content();
      ChangeItem(c, p, left);
      assert Denotes(c, p);
      InTwo(before, p, left, right);
      d := InsertAfter(c, p, right);
    }

    /** `refreshTouchedLeaves`, for the leaf that is out of date. */
    method RefreshLeaf(name: nat)
      requires Stale(name)
      modifies `root, `height
      ensures Loose() && Linked() == old(Linked())
    {
      var found := Locate(root.value, Top, name);
      var place := found.value;
      LeafStands(place, Linked(), lim);
      var r;
      r, height := RefreshUp(NewLeaf(place.leaf), place.context, 0, lim);
      root := Some(r);
    }

    /** The struct before struct `p` has changed in its leaf. */
    ghost predicate ChangedBefore(p: nat)
      reads this
    {
      exists c: Cursor, r: nat :: r + 1 == p && Denotes(c, r) && ValidBut(c.leaf)
    }

    /** The leaf that is touched first holds the struct before the range: it is the first of
        the range or, if that begins a leaf, the one before. */
    method RefreshFirst(first: Cursor, ghost p: nat)
      requires (Valid() || ChangedBefore(p)) && Denotes(first, p)
      modifies `root, `height
      ensures Valid() && Linked() == old(Linked())
    {
      ghost var ls := Linked();
      ghost var m: nat :| Slot(ls, first, m, p);
      ItsLinks(first.leaf, m);
      var prev := chain.of[first.leaf].prev;
      var touched := if first.slot == 0 && prev.Some? then prev.value else first.leaf;
      if Valid() {
        assert Named(ls, if first.slot == 0 && m > 0 then m - 1 else m, touched);
        ValidIsValidBut(touched);
      } else {
        ghost var c: Cursor, r: nat :| r + 1 == p && Denotes(c, r) && ValidBut(c.leaf);
        ghost var k: nat :| Slot(ls, c, k, r);
        TouchedIsStale(ls, c, k, r, first, m, MinLeaf(lim));
      }
      RefreshLeaf(touched);
    }

    /** `Remove`: the cursor returned stands on the struct that followed the range.  The
        struct before the range may have grown just before, behind the tree's back. */
    method Remove(first: Cursor, last: Cursor, ghost p: nat, ghost q: nat) returns (next: Option<Cursor>)
      requires (Valid() || ChangedBefore(p)) && Denotes(first, p) && Denotes(last, q) && p <= q < |Content()| && Ascending(Content()[..p] + Content()[q + 1..])
      modifies this
      ensures Valid() && Content() == old(Content())[..p] + old(Content())[q + 1..]
      ensures generation == old(generation) + 1
      ensures next.Some? <==> q + 1 < |old(Content())|
      ensures next.Some? ==> Denotes(next.value, p)
    {
      RefreshFirst(first, p);
      var follower := Next(last, q);
      var successor := None;
      if follower.Some? {
        var x := Value(follower.value, q + 1);
        successor := Some(x);
      }
      RemoveRange(first, last, p, q);
      next := None;
      if successor.Some? {
        var c := FindValue(successor.value, p);
        next := Some(c);
      }
    }

    /** `tryMergeCursor`: struct `p` grows over the range behind it, which is removed. */
    method Absorb(c: Cursor, ghost p: nat, grown: Struct, last: Cursor, ghost q: nat) returns (next: Option<Cursor>)
      requires Valid() && Denotes(c, p) && Denotes(last, q) && p < q < |Content()|
      requires Ascending(Content()[..p] + [grown] + Content()[q + 1..])
      modifies this
      ensures Valid() && Content() == old(Content())[..p] + [grown] + old(Content())[q + 1..]
      ensures generation == old(generation) + 1
      ensures next.Some? <==> q + 1 < |old(Content())|
      ensures next.Some? ==> Denotes(next.value, p + 1)
    {
      ghost var before, p' := Content(), p + 1;
      var follower := Next(c, p);
      ChangeItem(c, p, grown);
      assert Denotes(c, p) && Denotes(follower.value, p') && Denotes(last, q);
      AbsorbedIs(before, Content(), p, q, grown);
      next := Remove(follower.value, last, p', q);
    }
  }

  lemma {:induction false} StillThere(was: seq<Leaf>, ls: seq<Leaf>, m: nat, slot: nat, j: nat, p: nat, now: nat)
    requires Removing(was, ls, m, slot, j, p, now)
    ensures Named(ls, j, was[j].name) && ls[j] == was[j] && (j + 1 < |was| ==> Named(ls, j + 1, was[j + 1].name)) && |ls| == |was|
  {
    assert SameName(was, ls, j);
    assert j + 1 < |was| ==> SameName(was, ls, j + 1);
  }

  lemma {:induction false} CutKeepsChain(ls: seq<Leaf>, names: seq<nat>, chain: Links, k: nat, a: Leaf, b: Leaf, next: nat)
    requires k < |ls| && Distinct(ls) && Fresh(ls, next) && Called(ls, names) && Chain(chain, names) && a.name == ls[k].name && b.name == next
    ensures a.name in chain.of && (chain.of[a.name].next.Some? ==> chain.of[a.name].next.value in chain.of)
    ensures var ls', names' := ls[..k] + [a, b] + ls[k + 1..], InsertName(names, k + 1, next);
            Distinct(ls') && Fresh(ls', next + 1) && Called(ls', names') && Chain(LinkBehind(chain, a.name, next), names')
  {
    CutKeepsNames(ls, k, a, b, next);
    NamesOfCut(ls, names, k, a, b);
    FreshIsNew(ls, names, next);
    assert CalledAt(ls, names, k);
    LinkBehindKeepsChain(chain, names, k, next);
  }

  lemma {:induction false} CutInPlace(place: Place, ls: seq<Leaf>, a: Leaf, b: Leaf, lim: Limits)
    requires Points(place, ls, lim)
    ensures Rank(place) < |ls| && Whole(place.context, [a] + [b]) == ls[..Rank(place)] + [a, b] + ls[Rank(place) + 1..]
  {
    AroundPlace(place, ls, lim);
    assert [a] + [b] == [a, b];
  }

  lemma {:induction false} MoreAwaited(ls: seq<Leaf>, min: nat, queue: seq<nat>, x: nat, more: seq<nat>)
    requires Awaited(ls, min, queue + [x]) && x in more
    ensures Awaited(ls, min, queue + more)
  {
  }

  /** A leaf that is gone, or the only one, or full enough, need not wait. */
  lemma {:induction false} NotBad(ls: seq<Leaf>, name: nat, found: Option<Place>, lim: Limits, queue: seq<nat>)
    requires Sane(lim) && Awaited(ls, MinLeaf(lim), [name] + queue) && AllItems(ls) != [] && Distinct(ls)
    requires found.Some? <==> Has(ls, name)
    requires found.Some? ==> Points(found.value, ls, lim) && found.value.leaf.name == name
    requires found.Some? ==> found.value.context == Top || |found.value.leaf.items| >= MinLeaf(lim)
    ensures Awaited(ls, MinLeaf(lim), queue)
  {
    forall i | 0 <= i < |ls| && Bad(ls, i, MinLeaf(lim)) ensures ls[i].name in queue {
      if ls[i].name == name {
        assert Named(ls, i, name);
        AroundPlace(found.value, ls, lim);
        var k := Rank(found.value);
        assert ls[k].name == ls[i].name;
        if found.value.context == Top {
          assert ls == [ls[i]];
          AllItemsOne(ls[i]);
        }
      }
    }
  }

  /** The same slot of a list whose leaves up to there have only grown. */
  lemma {:induction false} SlotSurvives(ls: seq<Leaf>, ls': seq<Leaf>, c: Cursor, k: nat, p: nat)
    requires Slot(ls, c, k, p) && |ls| <= |ls'| && ls'[..k] == ls[..k] && ls'[k].name == ls[k].name && |ls'[k].items| >= |ls[k].items|
    ensures Slot(ls', c, k, p)
  {
    ItemsBefore(ls, ls', k);
  }

  /** `ls'` has `x` behind what `ls` has, where the cursor `c` stands; no other slot has moved. */
  ghost predicate Extends(ls: seq<Leaf>, ls': seq<Leaf>, x: Struct, c: Cursor, min: nat) {
    && AllItems(ls') == AllItems(ls) + [x] && Tight(ls', min) && HasSlot(ls', c, |AllItems(ls)|)
    && forall d, p {:trigger HasSlot(ls', d, p)} :: HasSlot(ls, d, p) ==> HasSlot(ls', d, p)
  }

  /** Appending to the last leaf. */
  lemma {:induction false} AppendInside(ls: seq<Leaf>, k: nat, x: Struct, c: Cursor, min: nat)
    requires 0 < |ls| == k + 1 && Tight(ls, min) && c.leaf == ls[k].name && c.slot == |ls[k].items|
    ensures Extends(ls, ls[k := ls[k].(items := ls[k].items + [x])], x, c, min)
  {
    var n, a := |ls[k].items|, ls[k].(items := ls[k].items + [x]);
    var ls' := ls[k := a];
    AroundLeaf(ls, k);
    SpliceLeaf(ls, k, n, n, [x]);
    assert Spliced(ls[k].items, n, n, [x]) == a.items;
    assert Spliced(AllItems(ls), |AllItems(ls)|, |AllItems(ls)|, [x]) == AllItems(ls) + [x];
    ChangeKeepsTight(ls, k, a, min);
    ItemsBefore(ls, ls', k);
    assert Slot(ls', c, k, |AllItems(ls)|);
    SlotsAfterAppend(ls, ls', k);
  }

  /** Appending in a new leaf behind the last one, which is full. */
  lemma {:induction false} AppendBehind(ls: seq<Leaf>, k: nat, x: Struct, l: Leaf, c: Cursor, min: nat)
    requires 0 < |ls| == k + 1 && Tight(ls, min) && |ls[k].items| >= min && l.items == [x] && c.leaf == l.name && c.slot == 0
    ensures Extends(ls, ls[..k] + [ls[k].(items := ls[k].items), l] + ls[k + 1..], x, c, min)
  {
    var ls' := ls[..k] + [ls[k].(items := ls[k].items), l] + ls[k + 1..];
    assert ls' == ls + [l];
    AllItemsConcat(ls, [l]);
    AllItemsOne(l);
    ItemsOfPrefix(ls, [l], |ls|);
    assert !Bad(ls, k, min);
    CutKeepsTight(ls, k, ls[k].(items := ls[k].items), l, min);
    assert Slot(ls', c, k + 1, |AllItems(ls)|);
    SlotsAfterAppend(ls, ls', k);
  }

  lemma {:induction false} CutOfUpdate(ls: seq<Leaf>, k: nat, l: Leaf, a: Leaf, b: Leaf)
    requires k < |ls|
    ensures var ls1 := ls[k := l]; ls1[..k] + [a, b] + ls1[k + 1..] == ls[..k] + [a, b] + ls[k + 1..]
  {
  }

  lemma {:induction false} ReplacedIn(ls: seq<Leaf>, k: nat, slot: nat, p: nat, x: Struct, min: nat)
    requires IsAt(ls, k, slot, p) && Tight(ls, min)
    ensures var ls' := ls[k := ls[k].(items := ls[k].items[slot := x])];
            p < |AllItems(ls)| && AllItems(ls') == AllItems(ls)[p := x] && Tight(ls', min) && IsAt(ls', k, slot, p)
  {
    var l := ls[k].(items := ls[k].items[slot := x]);
    AtPosition(ls, k, slot, p);
    SpliceLeaf(ls, k, slot, slot + 1, [x]);
    assert Spliced(ls[k].items, slot, slot + 1, [x]) == l.items;
    assert Spliced(AllItems(ls), p, p + 1, [x]) == AllItems(ls)[p := x];
    ChangeKeepsTight(ls, k, l, min);
    ItemsBefore(ls, ls[k := l], k);
  }

  lemma {:induction false} InsertedIn(ls: seq<Leaf>, k: nat, slot: nat, p: nat, x: Struct, min: nat)
    requires IsAt(ls, k, slot, p) && Tight(ls, min)
    ensures var items := ls[k].items[..slot + 1] + [x] + ls[k].items[slot + 1..];
            var ls' := ls[k := ls[k].(items := items)];
            p < |AllItems(ls)| && AllItems(ls') == AllItems(ls)[..p + 1] + [x] + AllItems(ls)[p + 1..] && Tight(ls', min) && IsAt(ls', k, slot + 1, p + 1)
  {
    var l := ls[k].(items := ls[k].items[..slot + 1] + [x] + ls[k].items[slot + 1..]);
    AtPosition(ls, k, slot, p);
    SpliceLeaf(ls, k, slot + 1, slot + 1, [x]);
    ChangeKeepsTight(ls, k, l, min);
    ItemsBefore(ls, ls[k := l], k);
  }

  /** Both halves of a split leaf are full enough, and the slot is in one of them. */
  lemma {:induction false} SplitIn(ls: seq<Leaf>, k: nat, slot: nat, p: nat, split: nat, name: nat, min: nat)
    requires IsAt(ls, k, slot, p) && Tight(ls, min) && 0 < min <= split <= |ls[k].items| - min
    ensures var ls' := ls[..k] + [ls[k].(items := ls[k].items[..split]), Leaf(name, ls[k].items[split..])] + ls[k + 1..];
            && AllItems(ls') == AllItems(ls) && Tight(ls', min)
            && if slot < split then IsAt(ls', k, slot, p) else IsAt(ls', k + 1, slot - split, p)
  {
    var a, b := ls[k].(items := ls[k].items[..split]), Leaf(name, ls[k].items[split..]);
    var ls' := ls[..k] + [a, b] + ls[k + 1..];
    assert a.items + b.items == ls[k].items;
    CutLeaf(ls, k, a, b);
    CutKeepsTight(ls, k, a, b, min);
    ItemsBefore(ls, ls', k);
    assert ItemsTo(ls', k + 1) == ItemsTo(ls', k) + ls'[k].items;
  }

  lemma {:induction false} SplitInTwo(ls: seq<Leaf>, k: nat, l: Leaf, slot: nat, p: nat, split: nat, name: nat, min: nat, d: Cursor)
    requires k < |ls| && IsAt(ls[k := l], k, slot, p) && Tight(ls[k := l], min) && 0 < min <= split <= |l.items| - min
    requires d == if slot < split then Cursor(l.name, slot, d.generation) else Cursor(name, slot - split, d.generation)
    ensures var ls' := ls[..k] + [l.(items := l.items[..split]), Leaf(name, l.items[split..])] + ls[k + 1..];
            AllItems(ls') == AllItems(ls[k := l]) && Tight(ls', min) && HasSlot(ls', d, p)
  {
    var a, b := l.(items := l.items[..split]), Leaf(name, l.items[split..]);
    SplitIn(ls[k := l], k, slot, p, split, name, min);
    CutOfUpdate(ls, k, l, a, b);
    assert Slot(ls[..k] + [a, b] + ls[k + 1..], d, if slot < split then k else k + 1, p);
  }

  /** Two leaves with one parent stand between the siblings of `k`. */
  ghost predicate Between(k: Context, l: Leaf, c: Leaf, ls: seq<Leaf>, lim: Limits) {
    && k.Under? && AllWf(k.left, 0, lim) && AllWf(k.right, 0, lim) && CtxWf(k.up, 1, lim)
    && (if k.up == Top then 2 else MinBranch(lim)) <= |k.left| + 2 + |k.right| <= lim.branch
    && Whole(k, [l] + [c]) == ls
  }

  lemma {:induction false} PairAt(a: seq<Leaf>, l: Leaf, c: Leaf, b: seq<Leaf>, l': Leaf, c': Leaf)
    ensures var ls := a + ([l] + [c]) + b; var n := |a|;
            && n + 1 < |ls| && ls[n] == l && ls[n + 1] == c
            && Exchanged(ls, n, l', c') == a + ([l'] + [c']) + b && Fused(ls, n, l') == a + [l'] + b
  {
  }

  /** A leaf and its left or right sibling. */
  lemma {:induction false} WithSibling(place: Place, ls: seq<Leaf>, lim: Limits)
    requires Sane(lim) && Points(place, ls, lim) && place.context.Under?
    ensures var k := place.context;
            && (k.left != [] ==> Last(k.left).LeafNode? && |Last(k.left).leaf.items| <= lim.leaf && Between(k.(left := Butlast(k.left)), Last(k.left).leaf, place.leaf, ls, lim))
            && (k.right != [] ==> k.right[0].LeafNode? && |k.right[0].leaf.items| <= lim.leaf && Between(k.(right := k.right[1..]), place.leaf, k.right[0].leaf, ls, lim))
            && (k.left != [] || k.right != [])
  {
    TakeSibling(place.context, [place.leaf], 0, lim);
  }

  lemma {:induction false} NextSlot(ls: seq<Leaf>, k: nat, slot: nat, p: nat, min: nat)
    requires IsAt(ls, k, slot, p) && Tight(ls, min)
    ensures if slot + 1 < |ls[k].items| then IsAt(ls, k, slot + 1, p + 1) && p + 1 < |AllItems(ls)|
            else if k + 1 < |ls| then IsAt(ls, k + 1, 0, p + 1) && p + 1 < |AllItems(ls)|
            else p + 1 == |AllItems(ls)|
  {
    AtPosition(ls, k, slot, p);
    assert ItemsTo(ls, k + 1) == ItemsTo(ls, k) + ls[k].items;
    ItemsToGrows(ls, k + 1, |ls|);
    if slot + 1 == |ls[k].items| && k + 1 < |ls| {
      assert !Bad(ls, k + 1, min);
      AtPosition(ls, k + 1, 0, p + 1);
    }
  }

  lemma {:induction false} PrevSlot(ls: seq<Leaf>, k: nat, slot: nat, p: nat, min: nat)
    requires IsAt(ls, k, slot, p) && Tight(ls, min)
    ensures if slot > 0 then IsAt(ls, k, slot - 1, p - 1)
            else if k > 0 then |ls[k - 1].items| > 0 && p > 0 && IsAt(ls, k - 1, |ls[k - 1].items| - 1, p - 1)
            else p == 0
  {
    if slot == 0 && k > 0 {
      assert !Bad(ls, k - 1, min);
      assert ItemsTo(ls, k) == ItemsTo(ls, k - 1) + ls[k - 1].items;
    }
  }

  /** The structs in the siblings to the left, level by level. */
  method CountBefore(k: Context, ghost depth: nat, ghost lim: Limits) returns (n: nat)
    requires CtxWf(k, depth, lim)
    ensures n == |AllItems(Before(k))|
  {
    n := 0;
    var up := k;
    ghost var d := depth;
    while up != Top
      invariant CtxWf(up, d, lim) && n + |AllItems(Before(up))| == |AllItems(Before(k))|
      decreases up
    {
      ChildrenTotalIsItems(up.left, |up.left|, d, lim);
      TotalCounts(AllItems(AllLeaves(up.left)), |AllItems(AllLeaves(up.left))|);
      AllItemsConcat(Before(up.up), AllLeaves(up.left));
      n := n + ChildrenTotal(up.left, |up.left|).structs;
      up, d := up.up, d + 1;
    }
  }

  /** A struct stands in one slot. */
  lemma {:induction false} OnlyOnce(ls: seq<Leaf>, k: nat, slot: nat, p: nat)
    requires Ascending(AllItems(ls)) && k < |ls| && slot < |ls[k].items| && p < |AllItems(ls)| && ls[k].items[slot] == AllItems(ls)[p]
    ensures IsAt(ls, k, slot, p)
  {
    var c, q := AllItems(ls), |ItemsTo(ls, k)| + slot;
    AtPosition(ls, k, slot, q);
    assert Proper(c[p]);
    if p < q { ClocksInOrder(c, p, q); }
    if q < p { ClocksInOrder(c, q, p); }
  }

  lemma {:induction false} OneExchanged(ls: seq<Leaf>, k: nat, l: Leaf)
    requires Distinct(ls) && k < |ls| && ls[k].name == l.name
    ensures InPlaceOf(ls, l) == ls[k := l]
  {
    forall i | 0 <= i < |ls| ensures InPlaceOf(ls, l)[i] == ls[k := l][i] {
      if i < k { assert ls[i].name != ls[k].name; }
      if i > k { assert ls[k].name != ls[i].name; }
    }
  }

  lemma {:induction false} PointsAfter(place: Place, ls: seq<Leaf>, k: nat, l: Leaf, lim: Limits)
    requires Points(place, ls, lim) && Distinct(ls) && k < |ls| && ls[k].name == l.name == place.leaf.name && |l.items| <= lim.leaf
    ensures Points(Place(l, place.context), ls[k := l], lim)
  {
    AroundPlace(place, ls, lim);
    assert ls[k].name == ls[Rank(place)].name;
    assert Whole(place.context, [l]) == ls[k := l];
  }

  lemma {:induction false} SlotKept(ls: seq<Leaf>, k: nat, l: Leaf, c: Cursor, p: nat)
    requires HasSlot(ls, c, p) && k < |ls| && l.name == ls[k].name && |l.items| == |ls[k].items|
    ensures HasSlot(ls[k := l], c, p)
  {
    var j: nat :| Slot(ls, c, j, p);
    CountKept(ls, k, l, j);
    assert Slot(ls[k := l], c, j, p);
  }

  /** The patched tree has the new leaf where the old one was, with the siblings it had. */
  lemma {:induction false} PatchedIsStale(root: Node, height: nat, lim: Limits, k: nat, l: Leaf, next: nat)
    requires RootWf(root, height, lim) && Distinct(Leaves(root)) && Fresh(Leaves(root), next) && Named(Leaves(root), k, l.name) && |l.items| <= lim.leaf
    ensures Leaves(Patched(root, l)) == Leaves(root)[k := l] && Distinct(Leaves(root)[k := l]) && Fresh(Leaves(root)[k := l], next)
    ensures var p := Locate(Patched(root, l), Top, l.name); p.Some? && Points(p.value, Leaves(root)[k := l], lim)
  {
    var ls := Leaves(root);
    LocateFinds(root, Top, l.name);
    LocatePoints(root, Top, height, lim, l.name);
    assert Whole(Top, ls) == ls;
    LocatePatched(root, Top, l);
    PatchedLeaves(root, l);
    OneExchanged(ls, k, l);
    ChangeKeepsNames(ls, k, l, next);
    PointsAfter(Locate(root, Top, l.name).value, ls, k, l, lim);
  }

  lemma {:induction false} CountKept(ls: seq<Leaf>, k: nat, l: Leaf, n: nat)
    requires k < |ls| && |l.items| == |ls[k].items| && n <= |ls|
    ensures |ItemsTo(ls[k := l], n)| == |ItemsTo(ls, n)|
  {
    if n > 0 { CountKept(ls, k, l, n - 1); }
  }

  /** The slot behind a slot is in the same leaf, or the first of the next one. */
  lemma {:induction false} TouchedIsStale(ls: seq<Leaf>, c: Cursor, k: nat, p: nat, d: Cursor, m: nat, min: nat)
    requires Slot(ls, c, k, p) && Slot(ls, d, m, p + 1) && Tight(ls, min)
    ensures c.leaf == if d.slot == 0 && m > 0 then ls[m - 1].name else d.leaf
  {
    NextIsNear(ls, k, c.slot, p, m, d.slot, min);
  }

  lemma {:induction false} NextIsNear(ls: seq<Leaf>, k: nat, s: nat, p: nat, m: nat, t: nat, min: nat)
    requires IsAt(ls, k, s, p) && IsAt(ls, m, t, p + 1) && Tight(ls, min)
    ensures (m == k && t == s + 1) || (m == k + 1 && t == 0)
  {
    NextSlot(ls, k, s, p, min);
    AtPosition(ls, m, t, p + 1);
    if s + 1 < |ls[k].items| {
      OneSlot(ls, k, s + 1, m, t, p + 1);
    } else if k + 1 < |ls| {
      OneSlot(ls, k + 1, 0, m, t, p + 1);
    }
  }

  lemma {:induction false} AbsorbedIs(c: seq<Struct>, d: seq<Struct>, p: nat, q: nat, x: Struct)
    requires p < q < |c| && d == c[p := x]
    ensures |d| == |c| && d[..p + 1] + d[q + 1..] == c[..p] + [x] + c[q + 1..]
  {
  }

  lemma {:induction false} InTwo(c: seq<Struct>, p: nat, left: Struct, right: Struct)
    requires p < |c|
    ensures var d := c[p := left]; d[..p + 1] + [right] + d[p + 1..] == c[..p] + [left, right] + c[p + 1..]
  {
  }

  lemma {:induction false} LeafStands(place: Place, ls: seq<Leaf>, lim: Limits)
    requires Points(place, ls, lim)
    ensures Stands(NewLeaf(place.leaf), place.context, 0, lim) && Whole(place.context, Leaves(NewLeaf(place.leaf))) == ls
  {
  }

  /** Appending to the last leaf, or behind it, moves no slot. */
  lemma {:induction false} SlotsAfterAppend(ls: seq<Leaf>, ls': seq<Leaf>, k: nat)
    requires 0 < |ls| == k + 1 && |ls'| >= |ls| && ls'[..k] == ls[..k] && ls'[k].name == ls[k].name && |ls'[k].items| >= |ls[k].items|
    ensures forall c, p {:trigger HasSlot(ls', c, p)} :: HasSlot(ls, c, p) ==> HasSlot(ls', c, p)
  {
    forall c, p | HasSlot(ls, c, p) ensures HasSlot(ls', c, p) {
      var j: nat :| Slot(ls, c, j, p);
      assert ls'[..k][..j] == ls'[..j] && ls[..k][..j] == ls[..j];
      assert j < k ==> ls'[j] == ls'[..k][j] == ls[..k][j] == ls[j];
      SlotSurvives(ls, ls', c, j, p);
    }
  }
}

/** Building a struct tree from a flat slice. */
module StructBuild {
  import opened StructTree
  import opened StructLeaves
  import opened LeafChain

  function SumTo(sizes: seq<nat>, n: nat): nat
    requires n <= |sizes|
  {
    if n == 0 then 0 else SumTo(sizes, n - 1) + sizes[n - 1]
  }

  predicate GoodSize(size: nat, maximum: nat, alone: bool) {
    0 < size <= maximum && (alone || (maximum + 1) / 2 <= size)
  }

  lemma {:induction false} TimesSucc(a: nat, b: nat)
    ensures a * (b + 1) == a * b + a
  {
  }

  lemma {:induction false} TimesGrows(a: nat, b: nat, c: nat)
    requires b <= c
    ensures a * b <= a * c
  {
  }

  lemma {:induction false} NotTooLarge(groups: nat, base: nat, extra: nat, maximum: nat)
    requires groups > 0 && groups * base + extra <= groups * maximum
    ensures base <= maximum && (extra > 0 ==> base < maximum)
  {
    if base > maximum {
      TimesGrows(groups, maximum + 1, base);
      TimesSucc(groups, maximum);
    }
  }

  /** `g` groups of fewer than half of the maximum would hold less than `g - 1` full ones. */
  lemma {:induction false} HalvesAreLess(g: nat, m: nat)
    requires m >= 1
    ensures (g + 2) * (m + 1) <= 2 * ((g + 1) * m) + 2
  {
    assert (g + 2) * (m + 1) == g * m + g + 2 * m + 2;
    assert 2 * ((g + 1) * m) == 2 * (g * m) + 2 * m;
    TimesGrows(g, 1, m);
  }

  lemma {:induction false} NotTooSmall(groups: nat, base: nat, extra: nat, maximum: nat)
    requires groups > 1 && maximum >= 2 && extra < groups && (groups - 1) * maximum < groups * base + extra
    ensures (maximum + 1) / 2 <= base
  {
    var min := (maximum + 1) / 2;
    if base < min {
      TimesGrows(groups, base + 1, min);
      TimesSucc(groups, base);
      TimesGrows(groups, 2 * min, maximum + 1);
      Doubled(groups, min);
      HalvesAreLess(groups - 2, maximum);
    }
  }

  lemma {:induction false} Doubled(a: nat, b: nat)
    ensures a * (2 * b) == 2 * (a * b)
  {
  }

  /** The average size of the groups is large enough, and not too large. */
  lemma {:induction false} GroupSizes(total: nat, maximum: nat, groups: nat, base: nat, extra: nat)
    requires total > 0 && maximum >= 2 && groups > 0 && (groups - 1) * maximum < total <= groups * maximum
    requires total == groups * base + extra && extra < groups
    ensures GoodSize(base, maximum, groups == 1) && (extra > 0 ==> GoodSize(base + 1, maximum, groups == 1))
  {
    NotTooLarge(groups, base, extra, maximum);
    if groups > 1 { NotTooSmall(groups, base, extra, maximum); }
  }

  lemma {:induction false} Quotient(total: nat, groups: nat)
    requires groups > 0
    ensures total == groups * (total / groups) + total % groups && total % groups < groups
  {
  }

  /** `clientStructTreePartition`: sizes that add up, none too large, and none too small
      unless there is only one. */
  method Partition(total: nat, maximum: nat) returns (sizes: seq<nat>)
    requires total > 0 && maximum >= 2
    ensures sizes != [] && SumTo(sizes, |sizes|) == total
    ensures forall i :: 0 <= i < |sizes| ==> GoodSize(sizes[i], maximum, |sizes| == 1)
    ensures |sizes| < total || total == 1
  {
    var groups := (total + maximum - 1) / maximum;
    GroupCount(total, maximum);
    var base, extra := total / groups, total % groups;
    Quotient(total, groups);
    GroupSizes(total, maximum, groups, base, extra);
    sizes := Spread(groups, base, extra);
  }

  /** `extra` groups get one more. */
  method Spread(groups: nat, base: nat, extra: nat) returns (sizes: seq<nat>)
    requires extra < groups
    ensures |sizes| == groups && SumTo(sizes, groups) == groups * base + extra
    ensures forall j :: 0 <= j < groups ==> sizes[j] == if j < extra then base + 1 else base
  {
    sizes := [];
    for i := 0 to groups
      invariant |sizes| == i && SumTo(sizes, i) == i * base + (if i < extra then i else extra)
      invariant forall j :: 0 <= j < i ==> sizes[j] == if j < extra then base + 1 else base
    {
      ghost var before := sizes;
      sizes := sizes + [if i < extra then base + 1 else base];
      SumOfPrefix(before, sizes[i], i);
      TimesSucc(base, i);
    }
  }

  lemma {:induction false} GroupCount(total: nat, maximum: nat)
    requires total > 0 && maximum >= 2
    ensures var groups := (total + maximum - 1) / maximum; groups > 0 && (groups - 1) * maximum < total <= groups * maximum && (groups < total || total == 1)
  {
    var groups := (total + maximum - 1) / maximum;
    Quotient(total + maximum - 1, maximum);
    assert (groups - 1) * maximum == maximum * groups - maximum;
    if groups >= total && total > 1 {
      TimesGrows(maximum, total, groups);
      TimesGrows(total - 1, 2, maximum);
    }
  }

  lemma {:induction false} SumOfPrefix(sizes: seq<nat>, x: nat, n: nat)
    requires n <= |sizes|
    ensures SumTo(sizes + [x], n) == SumTo(sizes, n)
  {
    if n > 0 { SumOfPrefix(sizes, x, n - 1); }
  }

  lemma {:induction false} SumGrows(sizes: seq<nat>, m: nat, n: nat)
    requires m <= n <= |sizes|
    ensures SumTo(sizes, m) <= SumTo(sizes, n)
  {
    if m < n { SumGrows(sizes, m, n - 1); }
  }

  // ---------------------------------------------------------------- the levels

  /** One level of branches over `nodes`. */
  method GroupLevel(nodes: seq<Node>, ghost depth: nat, lim: Limits) returns (parents: seq<Node>)
    requires Sane(lim) && |nodes| > 1 && AllWf(nodes, depth, lim)
    ensures 0 < |parents| < |nodes| && AllLeaves(parents) == AllLeaves(nodes)
    ensures if |parents| == 1 then RootWf(parents[0], depth + 1, lim) else AllWf(parents, depth + 1, lim)
  {
    var sizes := Partition(|nodes|, lim.branch);
    parents := [];
    var offset := 0;
    for i := 0 to |sizes|
      invariant |parents| == i && offset == SumTo(sizes, i) <= |nodes|
      invariant AllLeaves(parents) == AllLeaves(nodes[..offset])
      invariant |sizes| > 1 ==> AllWf(parents, depth + 1, lim)
      invariant |sizes| == 1 && i == 1 ==> RootWf(parents[0], depth + 1, lim)
    {
      SumGrows(sizes, i + 1, |sizes|);
      assert GoodSize(sizes[i], lim.branch, |sizes| == 1);
      var group := nodes[offset..offset + sizes[i]];
      NextGroup(nodes, parents, offset, offset + sizes[i], depth, lim);
      if |sizes| > 1 {
        AllWfOne(NewBranch(group), depth + 1, lim);
        AllWfConcat(parents, [NewBranch(group)], depth + 1, lim);
      }
      parents, offset := parents + [NewBranch(group)], offset + sizes[i];
    }
    assert nodes[..|nodes|] == nodes;
  }

  lemma {:induction false} NextGroup(nodes: seq<Node>, parents: seq<Node>, i: nat, j: nat, depth: nat, lim: Limits)
    requires i <= j <= |nodes| && AllWf(nodes, depth, lim) && AllLeaves(parents) == AllLeaves(nodes[..i]) && j - i <= lim.branch
    ensures AllLeaves(parents + [NewBranch(nodes[i..j])]) == AllLeaves(nodes[..j])
    ensures MinBranch(lim) <= j - i ==> Wf(NewBranch(nodes[i..j]), depth + 1, lim)
    ensures 2 <= j - i ==> RootWf(NewBranch(nodes[i..j]), depth + 1, lim)
  {
    var group := nodes[i..j];
    AllWfSlice(nodes, i, j, depth, lim);
    BranchIsWf(group, depth, lim);
    AllLeavesConcat(parents, [NewBranch(group)]);
    AllLeavesOne(NewBranch(group));
    AllLeavesConcat(nodes[..i], group);
    assert nodes[..i] + group == nodes[..j];
  }

  /** Levels are put on top of each other until one node is left. */
  method BuildLevels(leaves: seq<Node>, lim: Limits) returns (root: Node, ghost height: nat)
    requires Sane(lim) && leaves != [] && AllWf(leaves, 0, lim)
    ensures RootWf(root, height, lim) && Leaves(root) == AllLeaves(leaves)
  {
    var nodes := leaves;
    height := 0;
    assert Wf(leaves[0], 0, lim);
    while |nodes| > 1
      invariant nodes != [] && AllLeaves(nodes) == AllLeaves(leaves)
      invariant if |nodes| == 1 then RootWf(nodes[0], height, lim) else AllWf(nodes, height, lim)
      decreases |nodes|
    {
      nodes := GroupLevel(nodes, height, lim);
      height := height + 1;
    }
    root := nodes[0];
    AllLeavesOne(root);
    assert nodes == [root];
  }

  /** The first leaves of the bottom level, with `sizes` structs of `values`. */
  ghost predicate Built(nodes: seq<Node>, chain: Links, ls: seq<Leaf>, names: seq<nat>, values: seq<Struct>, sizes: seq<nat>, offset: nat, lim: Limits) {
    && |nodes| == |ls| <= |sizes| && offset == SumTo(sizes, |ls|) <= |values|
    && AllLeaves(nodes) == ls && AllItems(ls) == values[..offset] && AllWf(nodes, 0, lim) && Called(ls, names) && Chain(chain, names)
    && forall j {:trigger ls[j]} :: 0 <= j < |ls| ==> ls[j].name == j && |ls[j].items| == sizes[j]
  }

  lemma {:induction false} BuiltNext(nodes: seq<Node>, chain: Links, ls: seq<Leaf>, names: seq<nat>, values: seq<Struct>, sizes: seq<nat>, offset: nat, leaf: Leaf, lim: Limits)
    requires Built(nodes, chain, ls, names, values, sizes, offset, lim) && |ls| < |sizes| && sizes[|ls|] <= lim.leaf && offset + sizes[|ls|] <= |values|
    requires leaf == Leaf(|ls|, values[offset..offset + sizes[|ls|]])
    ensures chain.last.Some? ==> chain.last.value in chain.of && chain.of[chain.last.value].next.None?
    ensures Built(nodes + [NewLeaf(leaf)], AddLast(chain, leaf.name), ls + [leaf], names + [leaf.name], values, sizes, offset + sizes[|ls|], lim)
  {
    NextLeaf(nodes, ls, leaf, lim);
    forall j | 0 <= j < |ls| ensures names[j] != leaf.name { assert CalledAt(ls, names, j); }
    AddLastKeepsChain(chain, names, leaf.name);
    NamesOfLast(ls, names, leaf);
    assert values[..offset] + leaf.items == values[..offset + sizes[|ls|]];
  }

  lemma {:induction false} BuiltAll(nodes: seq<Node>, chain: Links, ls: seq<Leaf>, names: seq<nat>, values: seq<Struct>, sizes: seq<nat>, lim: Limits)
    requires Built(nodes, chain, ls, names, values, sizes, |values|, lim) && |ls| == |sizes|
    requires forall i :: 0 <= i < |sizes| ==> GoodSize(sizes[i], lim.leaf, |sizes| == 1)
    ensures AllItems(ls) == values && Distinct(ls) && Fresh(ls, |nodes|) && Tight(ls, MinLeaf(lim))
  {
    assert values[..|values|] == values;
    forall j | 0 <= j < |ls| ensures Below(ls[j], |nodes|) && !Bad(ls, j, MinLeaf(lim)) {
      assert GoodSize(sizes[j], lim.leaf, |sizes| == 1) && ls[j].name == j;
    }
  }

  /** The leaves of the given sizes, each linked behind the one before. */
  method CutLeaves(values: seq<Struct>, sizes: seq<nat>, lim: Limits) returns (nodes: seq<Node>, chain: Links, ghost ls: seq<Leaf>, ghost names: seq<nat>)
    requires SumTo(sizes, |sizes|) == |values| && forall i :: 0 <= i < |sizes| ==> sizes[i] <= lim.leaf
    ensures Built(nodes, chain, ls, names, values, sizes, |values|, lim) && |ls| == |sizes|
  {
    nodes, chain, ls, names := [], NoLinks, [], [];
    var offset: nat := 0;
    for i := 0 to |sizes|
      invariant |ls| == i && Built(nodes, chain, ls, names, values, sizes, offset, lim)
    {
      SumGrows(sizes, i + 1, |sizes|);
      var leaf := Leaf(i, values[offset..offset + sizes[i]]);
      BuiltNext(nodes, chain, ls, names, values, sizes, offset, leaf, lim);
      nodes, chain, offset := nodes + [NewLeaf(leaf)], AddLast(chain, i), offset + sizes[i];
      ls, names := ls + [leaf], names + [leaf.name];
    }
  }

  /** The bottom level: the values cut into leaves. */
  method BuildLeaves(values: seq<Struct>, lim: Limits) returns (nodes: seq<Node>, chain: Links, ghost names: seq<nat>)
    requires Sane(lim) && values != []
    ensures nodes != [] && AllWf(nodes, 0, lim)
    ensures var ls := AllLeaves(nodes); AllItems(ls) == values && Distinct(ls) && Fresh(ls, |nodes|) && Tight(ls, MinLeaf(lim)) && Called(ls, names) && Chain(chain, names)
  {
    var sizes := Partition(|values|, lim.leaf);
    forall i | 0 <= i < |sizes| ensures sizes[i] <= lim.leaf { assert GoodSize(sizes[i], lim.leaf, |sizes| == 1); }
    ghost var ls;
    nodes, chain, ls, names := CutLeaves(values, sizes, lim);
    BuiltAll(nodes, chain, ls, names, values, sizes, lim);
  }

  lemma {:induction false} NextLeaf(nodes: seq<Node>, ls: seq<Leaf>, leaf: Leaf, lim: Limits)
    requires AllWf(nodes, 0, lim) && AllLeaves(nodes) == ls && |leaf.items| <= lim.leaf
    ensures AllWf(nodes + [NewLeaf(leaf)], 0, lim) && AllLeaves(nodes + [NewLeaf(leaf)]) == ls + [leaf]
    ensures AllItems(ls + [leaf]) == AllItems(ls) + leaf.items
  {
    AllWfOne(NewLeaf(leaf), 0, lim);
    AllWfConcat(nodes, [NewLeaf(leaf)], 0, lim);
    AllLeavesConcat(nodes, [NewLeaf(leaf)]);
    AllLeavesOne(NewLeaf(leaf));
    AllItemsConcat(ls, [leaf]);
    AllItemsOne(leaf);
  }
}

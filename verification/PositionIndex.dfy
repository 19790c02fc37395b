/** The list position index: its blocks, read in order, are the linked list, and a
    position found through the tree is the one a walk over the list gives. */
module PositionIndex {
  import opened Wrappers
  import opened PositionTree

  const BlockItems: nat := 8
  const BlockMaxItems: nat := 16

  /** An item of the list: what it shows, and how many live formats it is (0 or 1). */
  datatype Item = Item(id: int, visible: nat, format: nat)

  /** A walk over the first `n` items. */
  function VisibleTo(list: seq<Item>, n: nat): nat
    requires n <= |list|
  {
    if n == 0 then 0 else VisibleTo(list, n - 1) + list[n - 1].visible
  }

  function FormatsTo(list: seq<Item>, n: nat): nat
    requires n <= |list|
  {
    if n == 0 then 0 else FormatsTo(list, n - 1) + list[n - 1].format
  }

  /** Where block `n` starts in the list. */
  function ItemsTo(bs: seq<Block>, n: nat): nat
    requires n <= |bs|
  {
    if n == 0 then 0 else ItemsTo(bs, n - 1) + bs[n - 1].items
  }

  /** Block `k` describes its stretch of the list. */
  ghost predicate Fits(bs: seq<Block>, list: seq<Item>, k: nat)
    requires k < |bs|
  {
    var s := ItemsTo(bs, k);
    var e := s + bs[k].items;
    && e <= |list|
    && bs[k].visible == VisibleTo(list, e) - VisibleTo(list, s)
    && bs[k].formats == FormatsTo(list, e) - FormatsTo(list, s)
    && bs[k].first == if s == e then None else Some(list[s].id)
  }

  ghost predicate Models(bs: seq<Block>, list: seq<Item>) {
    && ItemsTo(bs, |bs|) == |list|
    && forall k {:trigger Fits(bs, list, k)} :: 0 <= k < |bs| ==> Fits(bs, list, k)
  }

  predicate Small(b: Block) { b.items <= BlockMaxItems }

  ghost predicate Bounded(bs: seq<Block>) {
    forall k {:trigger Small(bs[k])} :: 0 <= k < |bs| ==> Small(bs[k])
  }

  ghost predicate Distinct(list: seq<Item>) {
    forall i, j {:trigger list[i].id, list[j].id} :: 0 <= i < j < |list| ==> list[i].id != list[j].id
  }

  // ---------------------------------------------------------------- positions

  lemma {:induction false} ItemsToGrows(bs: seq<Block>, m: nat, n: nat)
    requires m <= n <= |bs|
    ensures ItemsTo(bs, m) <= ItemsTo(bs, n)
    ensures m < n ==> ItemsTo(bs, m) + bs[m].items <= ItemsTo(bs, n)
    decreases n
  {
    if m < n { ItemsToGrows(bs, m, n - 1); }
  }

  /** The tree's sums are those of the walk. */
  lemma {:induction false} SumIsWalk(bs: seq<Block>, list: seq<Item>, n: nat)
    requires Models(bs, list) && n <= |bs|
    ensures ItemsTo(bs, n) <= |list| && SumTo(bs, n) == VisibleTo(list, ItemsTo(bs, n))
  {
    ItemsToGrows(bs, n, |bs|);
    if n > 0 {
      SumIsWalk(bs, list, n - 1);
      assert Fits(bs, list, n - 1);
    }
  }

  ghost predicate Inside(bs: seq<Block>, k: nat, i: nat) {
    k < |bs| && ItemsTo(bs, k) <= i < ItemsTo(bs, k) + bs[k].items
  }

  lemma {:induction false} SomeBlock(bs: seq<Block>, n: nat, i: nat) returns (k: nat)
    requires n <= |bs| && i < ItemsTo(bs, n)
    ensures Inside(bs, k, i)
  {
    if ItemsTo(bs, n - 1) <= i { k := n - 1; } else { k := SomeBlock(bs, n - 1, i); }
  }

  lemma {:induction false} OneBlock(bs: seq<Block>, k: nat, m: nat, i: nat)
    requires Inside(bs, k, i) && Inside(bs, m, i)
    ensures k == m
  {
    if k < m { ItemsToGrows(bs, k, m); }
    if m < k { ItemsToGrows(bs, m, k); }
  }

  // ---------------------------------------------------------------- changing one block

  ghost function Changed(bs: seq<Block>, k: nat, b: Block): seq<Block>
    requires k < |bs|
  {
    bs[..k] + [b] + bs[k + 1..]
  }

  lemma {:induction false} ChangedItems(bs: seq<Block>, k: nat, b: Block, n: nat)
    requires k < |bs| && n <= |bs|
    ensures ItemsTo(Changed(bs, k, b), n) == ItemsTo(bs, n) + if n <= k then 0 else b.items - bs[k].items
  {
    if n > 0 { ChangedItems(bs, k, b, n - 1); }
  }

  /** Up to `n` two lists add up to the same. */
  ghost predicate Kept(list: seq<Item>, list': seq<Item>, n: nat) {
    && n <= |list| && n <= |list'| && VisibleTo(list', n) == VisibleTo(list, n) && FormatsTo(list', n) == FormatsTo(list, n)
  }

  /** Up to `n` one list adds up to more, `d` items further. */
  ghost predicate Shifted(list: seq<Item>, list': seq<Item>, n: nat, d: int, v: int, f: int) {
    && n <= |list| && 0 <= n + d <= |list'|
    && VisibleTo(list', n + d) == VisibleTo(list, n) + v && FormatsTo(list', n + d) == FormatsTo(list, n) + f
    && (n < |list| && n + d < |list'| ==> list'[n + d].id == list[n].id)
  }

  /** Outside `s..e` the list is the same, shifted by `d` items and `v` visible behind. */
  ghost predicate Same(list: seq<Item>, list': seq<Item>, s: nat, e: nat, d: int, v: int, f: int) {
    && |list'| == |list| + d && s <= e <= |list| && s <= e + d
    && (forall n: nat {:trigger Kept(list, list', n)} :: n <= s ==> Kept(list, list', n))
    && (forall n: nat {:trigger list'[n]} {:trigger list[n]} :: n < s ==> list'[n].id == list[n].id)
    && (forall n: nat {:trigger Shifted(list, list', n, d, v, f)} :: e <= n <= |list| ==> Shifted(list, list', n, d, v, f))
  }

  /** One block takes up what changed in its stretch of the list. */
  ghost predicate TakesUp(bs: seq<Block>, list: seq<Item>, k: nat, b: Block, list': seq<Item>, d: int, v: int, f: int) {
    && Models(bs, list) && k < |bs| && Same(list, list', ItemsTo(bs, k), ItemsTo(bs, k) + bs[k].items, d, v, f)
    && b.items == bs[k].items + d && b.visible == bs[k].visible + v && b.formats == bs[k].formats + f
    && b.first == if b.items == 0 then None else Some(list'[ItemsTo(bs, k)].id)
  }

  lemma {:induction false} FitsBefore(bs: seq<Block>, list: seq<Item>, k: nat, b: Block, list': seq<Item>, d: int, v: int, f: int, j: nat)
    requires TakesUp(bs, list, k, b, list', d, v, f) && j < k
    ensures Fits(Changed(bs, k, b), list', j)
  {
    assert Fits(bs, list, j);
    ChangedItems(bs, k, b, j);
    ItemsToGrows(bs, j, k);
    assert Kept(list, list', ItemsTo(bs, j)) && Kept(list, list', ItemsTo(bs, j) + bs[j].items);
  }

  lemma {:induction false} FitsAt(bs: seq<Block>, list: seq<Item>, k: nat, b: Block, list': seq<Item>, d: int, v: int, f: int)
    requires TakesUp(bs, list, k, b, list', d, v, f)
    ensures Fits(Changed(bs, k, b), list', k)
  {
    assert Fits(bs, list, k);
    ChangedItems(bs, k, b, k);
    assert Kept(list, list', ItemsTo(bs, k)) && Shifted(list, list', ItemsTo(bs, k) + bs[k].items, d, v, f);
  }

  lemma {:induction false} FitsBehind(bs: seq<Block>, list: seq<Item>, k: nat, b: Block, list': seq<Item>, d: int, v: int, f: int, j: nat)
    requires TakesUp(bs, list, k, b, list', d, v, f) && k < j < |bs|
    ensures Fits(Changed(bs, k, b), list', j)
  {
    assert Fits(bs, list, j);
    ChangedItems(bs, k, b, j);
    ItemsToGrows(bs, k, j);
    assert Shifted(list, list', ItemsTo(bs, j), d, v, f) && Shifted(list, list', ItemsTo(bs, j) + bs[j].items, d, v, f);
  }

  lemma {:induction false} BlockChanged(bs: seq<Block>, list: seq<Item>, k: nat, b: Block, list': seq<Item>, d: int, v: int, f: int)
    requires TakesUp(bs, list, k, b, list', d, v, f)
    ensures Models(Changed(bs, k, b), list')
  {
    ChangedItems(bs, k, b, |bs|);
    forall j | 0 <= j < |bs| ensures Fits(Changed(bs, k, b), list', j) {
      if j < k { FitsBefore(bs, list, k, b, list', d, v, f, j); }
      else if j == k { FitsAt(bs, list, k, b, list', d, v, f); }
      else { FitsBehind(bs, list, k, b, list', d, v, f, j); }
    }
  }

  /** `a` and `b` are the two parts of block `k`. */
  ghost predicate Parts(bs: seq<Block>, list: seq<Item>, k: nat, a: Block, b: Block) {
    && Models(bs, list) && k < |bs| && a.items + b.items == bs[k].items && a.items > 0 && b.items > 0
    && var s := ItemsTo(bs, k); var m := s + a.items; var e := m + b.items;
       && e <= |list| && a.first == bs[k].first && b.first == Some(list[m].id)
       && a.visible == bs[k].visible - b.visible && a.formats == bs[k].formats - b.formats
       && b.visible == VisibleTo(list, e) - VisibleTo(list, m) && b.formats == FormatsTo(list, e) - FormatsTo(list, m)
  }

  lemma {:induction false} CutFits(bs: seq<Block>, list: seq<Item>, k: nat, a: Block, b: Block, j: nat)
    requires Parts(bs, list, k, a, b) && j <= |bs|
    ensures Fits(bs[..k] + [a, b] + bs[k + 1..], list, j)
  {
    CutItems(bs, k, a, b, j);
    assert Fits(bs, list, if j <= k then j else j - 1);
  }

  /** A block is cut in two. */
  lemma {:induction false} BlockCut(bs: seq<Block>, list: seq<Item>, k: nat, a: Block, b: Block)
    requires Parts(bs, list, k, a, b)
    ensures Models(bs[..k] + [a, b] + bs[k + 1..], list)
  {
    var bs' := bs[..k] + [a, b] + bs[k + 1..];
    CutItems(bs, k, a, b, |bs'|);
    forall j | 0 <= j < |bs'| ensures Fits(bs', list, j) { CutFits(bs, list, k, a, b, j); }
  }

  lemma {:induction false} CutItems(bs: seq<Block>, k: nat, a: Block, b: Block, n: nat)
    requires k < |bs| && n <= |bs| + 1 && a.items + b.items == bs[k].items
    ensures var bs' := bs[..k] + [a, b] + bs[k + 1..];
            ItemsTo(bs', n) == if n <= k then ItemsTo(bs, n) else if n == k + 1 then ItemsTo(bs, k) + a.items else ItemsTo(bs, n - 1)
  {
    if n > 0 { CutItems(bs, k, a, b, n - 1); }
  }

  // ---------------------------------------------------------------- changes of the list

  ghost function Inserted(list: seq<Item>, i: nat, x: Item): seq<Item>
    requires i <= |list|
  {
    list[..i] + [x] + list[i..]
  }

  lemma {:induction false} InsertedSums(list: seq<Item>, i: nat, x: Item, n: nat)
    requires i <= |list| && n <= |list| + 1
    ensures VisibleTo(Inserted(list, i, x), n) == if n <= i then VisibleTo(list, n) else VisibleTo(list, n - 1) + x.visible
    ensures FormatsTo(Inserted(list, i, x), n) == if n <= i then FormatsTo(list, n) else FormatsTo(list, n - 1) + x.format
  {
    if n > 0 { InsertedSums(list, i, x, n - 1); }
  }

  lemma {:induction false} InsertedSame(list: seq<Item>, i: nat, x: Item, s: nat, e: nat)
    requires s <= i <= e <= |list|
    ensures Same(list, Inserted(list, i, x), s, e, 1, x.visible, x.format)
  {
    var list' := Inserted(list, i, x);
    forall n: nat | n <= s ensures Kept(list, list', n) { InsertedSums(list, i, x, n); }
    forall n: nat | e <= n <= |list| ensures Shifted(list, list', n, 1, x.visible, x.format) { InsertedSums(list, i, x, n + 1); }
  }

  lemma {:induction false} UpdatedSums(list: seq<Item>, i: nat, x: Item, n: nat)
    requires i < |list| && n <= |list|
    ensures VisibleTo(list[i := x], n) == VisibleTo(list, n) + if n <= i then 0 else x.visible - list[i].visible
    ensures FormatsTo(list[i := x], n) == FormatsTo(list, n) + if n <= i then 0 else x.format - list[i].format
  {
    if n > 0 { UpdatedSums(list, i, x, n - 1); }
  }

  /** An item changes what it shows. */
  lemma {:induction false} UpdatedSame(list: seq<Item>, i: nat, x: Item, s: nat, e: nat)
    requires s <= i < e <= |list| && x.id == list[i].id
    ensures Same(list, list[i := x], s, e, 0, x.visible - list[i].visible, x.format - list[i].format)
  {
    var list' := list[i := x];
    forall n: nat | n <= s ensures Kept(list, list', n) { UpdatedSums(list, i, x, n); }
    var v, f := x.visible - list[i].visible, x.format - list[i].format;
    forall n: nat | e <= n <= |list| ensures Shifted(list, list', n, 0, v, f) { UpdatedSums(list, i, x, n); }
  }

  lemma {:induction false} SameCompose(a: seq<Item>, b: seq<Item>, c: seq<Item>, s: nat, e: nat, d: int, d': int, v: int, v': int, f: int, f': int)
    requires Same(a, b, s, e, d, v, f) && e + d >= 0 && Same(b, c, s, e + d, d', v', f')
    ensures Same(a, c, s, e, d + d', v + v', f + f')
  {
    forall n: nat | n <= s ensures Kept(a, c, n) { assert Kept(a, b, n) && Kept(b, c, n); }
    forall n: nat | n < s ensures c[n].id == a[n].id { assert c[n].id == b[n].id; }
    var dd, vv, ff := d + d', v + v', f + f';
    forall n: nat | e <= n <= |a| ensures Shifted(a, c, n, dd, vv, ff) {
      assert Shifted(a, b, n, d, v, f) && Shifted(b, c, n + d, d', v', f');
    }
  }

  ghost function Removed(list: seq<Item>, i: nat): seq<Item>
    requires i < |list|
  {
    list[..i] + list[i + 1..]
  }

  lemma {:induction false} RemovedSame(list: seq<Item>, i: nat, s: nat, e: nat)
    requires s <= i < e <= |list|
    ensures Same(list, Removed(list, i), s, e, -1, 0 - list[i].visible, 0 - list[i].format)
  {
    var list' := Removed(list, i);
    assert Inserted(list', i, list[i]) == list;
    forall n: nat | n <= s ensures Kept(list, list', n) { InsertedSums(list', i, list[i], n); }
    var v, f: int := 0 - list[i].visible, 0 - list[i].format;
    forall n: nat | e <= n <= |list| ensures Shifted(list, list', n, -1, v, f) { InsertedSums(list', i, list[i], n); }
  }

  lemma {:induction false} SameWidens(list: seq<Item>, list': seq<Item>, s: nat, e: nat, s': nat, e': nat, d: int, v: int, f: int)
    requires Same(list, list', s, e, d, v, f) && s' <= s && e <= e' <= |list|
    ensures Same(list, list', s', e', d, v, f)
  {
  }

  /** `list` is `before` with one more item at `i`; `v` more is visible from there on. */
  ghost predicate Grows(before: seq<Item>, list: seq<Item>, i: nat, v: nat) {
    && |list| == |before| + 1 && i < |list| && Distinct(list)
    && (before == [] ==> v == list[0].visible)
    && (before != [] && i == 0 ==> Same(before, list, 0, 1, 1, v, list[0].format) && list[1].id == before[0].id)
    && (i > 0 ==> Same(before, list, i - 1, i, 1, v, list[i].format) && list[i - 1].id == before[i - 1].id)
  }

  /** Integrating an item makes the list grow like that. */
  lemma {:induction false} IntegrationGrows(before: seq<Item>, i: nat, x: Item)
    requires i <= |before| && Distinct(Inserted(before, i, x))
    ensures Grows(before, Inserted(before, i, x), i, x.visible)
  {
    if before != [] { InsertedSame(before, i, x, if i == 0 then 0 else i - 1, if i == 0 then 1 else i); }
  }

  /** So does splitting an item in two, with nothing more to see. */
  lemma {:induction false} SplitGrows(before: seq<Item>, i: nat, l: Item, r: Item)
    requires i < |before| && l.id == before[i].id && l.visible + r.visible == before[i].visible && l.format == before[i].format && r.format == 0
    requires Distinct(Inserted(before[i := l], i + 1, r))
    ensures Grows(before, Inserted(before[i := l], i + 1, r), i + 1, 0)
  {
    UpdatedSame(before, i, l, i, i + 1);
    InsertedSame(before[i := l], i + 1, r, i, i + 1);
    SameCompose(before, before[i := l], Inserted(before[i := l], i + 1, r), i, i + 1, 0, 1, l.visible - before[i].visible, r.visible, 0, 0);
  }

  lemma {:induction false} VisibleToGrows(list: seq<Item>, m: nat, n: nat)
    requires m <= n <= |list|
    ensures VisibleTo(list, m) <= VisibleTo(list, n)
    ensures FormatsTo(list, m) <= FormatsTo(list, n)
  {
    if m < n { VisibleToGrows(list, m, n - 1); }
  }

  lemma {:induction false} BlockShows(bs: seq<Block>, list: seq<Item>, k: nat, i: nat)
    requires Models(bs, list) && Inside(bs, k, i)
    ensures ItemsTo(bs, k) + bs[k].items <= |list| && list[i].visible <= bs[k].visible
  {
    assert Fits(bs, list, k);
    VisibleToGrows(list, ItemsTo(bs, k), i);
    VisibleToGrows(list, i + 1, ItemsTo(bs, k) + bs[k].items);
  }

  lemma {:induction false} ChangedBounded(bs: seq<Block>, k: nat, b: Block)
    requires Bounded(bs) && k < |bs| && Small(b)
    ensures Bounded(Changed(bs, k, b))
  {
    forall j | 0 <= j < |bs| ensures Small(Changed(bs, k, b)[j]) { if j != k { assert Small(bs[j]); } }
  }

  lemma {:induction false} CutBounded(bs: seq<Block>, k: nat, a: Block, b: Block)
    requires Bounded(bs) && k < |bs| && Small(a) && Small(b)
    ensures Bounded(bs[..k] + [a, b] + bs[k + 1..])
  {
    var bs' := bs[..k] + [a, b] + bs[k + 1..];
    forall j | 0 <= j < |bs'| ensures Small(bs'[j]) {
      if j < k { assert Small(bs[j]); }
      if j > k + 1 { assert Small(bs[j - 1]); }
    }
  }

  lemma {:induction false} CutOfChanged(bs: seq<Block>, k: nat, b: Block, l: Block, r: Block)
    requires k < |bs|
    ensures var bs' := Changed(bs, k, b); bs'[..k] + [l, r] + bs'[k + 1..] == bs[..k] + [l, r] + bs[k + 1..]
  {
  }

  // ---------------------------------------------------------------- anchors

  ghost predicate Heads(bs: seq<Block>, k: nat, id: int) {
    k < |bs| && bs[k].first == Some(id)
  }

  ghost predicate IsHead(bs: seq<Block>, id: int) {
    exists k: nat :: Heads(bs, k, id)
  }

  /** The anchors are the first items of the blocks. */
  ghost predicate Anchored(anchors: set<int>, bs: seq<Block>) {
    forall id {:trigger id in anchors} {:trigger IsHead(bs, id)} :: id in anchors <==> IsHead(bs, id)
  }

  /** `changeFirst` */
  function Reanchored(anchors: set<int>, was: Option<int>, now: Option<int>): set<int> {
    anchors - (if was.Some? then {was.value} else {}) + if now.Some? then {now.value} else {}
  }

  /** No two blocks have the same first item. */
  lemma {:induction false} OneHead(bs: seq<Block>, list: seq<Item>, j: nat, k: nat, id: int)
    requires Models(bs, list) && Distinct(list) && Heads(bs, j, id) && Heads(bs, k, id)
    ensures j == k
  {
    assert Fits(bs, list, j) && Fits(bs, list, k);
    var i := ItemsTo(bs, k);
    assert list[i].id == list[ItemsTo(bs, j)].id;
    OneBlock(bs, j, k, i);
  }

  lemma {:induction false} ChangedAnchors(bs: seq<Block>, list: seq<Item>, k: nat, b: Block, anchors: set<int>)
    requires Models(bs, list) && Distinct(list) && k < |bs| && Anchored(anchors, bs)
    ensures Anchored(Reanchored(anchors, bs[k].first, b.first), Changed(bs, k, b))
    ensures b.first == bs[k].first ==> Anchored(anchors, Changed(bs, k, b))
  {
    if bs[k].first.Some? {
      assert Heads(bs, k, bs[k].first.value);
      assert b.first == bs[k].first ==> Reanchored(anchors, bs[k].first, b.first) == anchors;
    }
    var bs', anchors' := Changed(bs, k, b), Reanchored(anchors, bs[k].first, b.first);
    forall id ensures id in anchors' <==> IsHead(bs', id) {
      if id in anchors' {
        if b.first == Some(id) { assert Heads(bs', k, id); } else {
          assert IsHead(bs, id);
          var j: nat :| Heads(bs, j, id);
          assert Heads(bs', j, id);
        }
      }
      if IsHead(bs', id) {
        var j: nat :| Heads(bs', j, id);
        if j != k {
          assert Heads(bs, j, id) && IsHead(bs, id);
          if bs[k].first == Some(id) { OneHead(bs, list, j, k, id); }
        }
      }
    }
  }

  /** The right part of a block that is cut is anchored at its first item. */
  lemma {:induction false} CutAnchors(bs: seq<Block>, k: nat, a: Block, b: Block, anchors: set<int>)
    requires k < |bs| && Anchored(anchors, bs) && a.first == bs[k].first && b.first.Some?
    ensures Anchored(anchors + {b.first.value}, bs[..k] + [a, b] + bs[k + 1..])
  {
    var bs' := bs[..k] + [a, b] + bs[k + 1..];
    forall id ensures id in anchors + {b.first.value} <==> IsHead(bs', id) {
      if IsHead(bs, id) {
        var j: nat :| Heads(bs, j, id);
        assert Heads(bs', if j <= k then j else j + 1, id);
      }
      if id == b.first.value { assert Heads(bs', k + 1, id); }
      if IsHead(bs', id) {
        var j: nat :| Heads(bs', j, id);
        assert j != k + 1 ==> Heads(bs, if j <= k then j else j - 1, id);
      }
    }
  }

  lemma {:induction false} NextAnchor(bs: seq<Block>, b: Block, anchors: set<int>)
    requires Anchored(anchors, bs) && b.first.Some?
    ensures Anchored(anchors + {b.first.value}, bs + [b])
  {
    var bs' := bs + [b];
    forall id ensures id in anchors + {b.first.value} <==> IsHead(bs', id) {
      if IsHead(bs, id) {
        var j: nat :| Heads(bs, j, id);
        assert Heads(bs', j, id);
      }
      if id == b.first.value { assert Heads(bs', |bs|, id); }
      if IsHead(bs', id) {
        var j: nat :| Heads(bs', j, id);
        assert j < |bs| ==> Heads(bs, j, id);
      }
    }
  }

  // ---------------------------------------------------------------- the index

  /** The place of an item in the list: following a pointer to it. */
  method IndexOf(list: seq<Item>, id: int) returns (i: nat)
    requires exists j :: 0 <= j < |list| && list[j].id == id
    ensures i < |list| && list[i].id == id
  {
    i := 0;
    while list[i].id != id
      invariant i < |list| && forall j :: 0 <= j < i ==> list[j].id != id
      decreases |list| - i
    {
      i := i + 1;
    }
  }

  /** What `count` items from `from` on show. */
  method Walk(list: seq<Item>, from: nat, count: nat) returns (visible: nat, formats: nat)
    requires from + count <= |list|
    ensures visible == VisibleTo(list, from + count) - VisibleTo(list, from)
    ensures formats == FormatsTo(list, from + count) - FormatsTo(list, from)
  {
    visible, formats := 0, 0;
    for n := 0 to count
      invariant visible == VisibleTo(list, from + n) - VisibleTo(list, from)
      invariant formats == FormatsTo(list, from + n) - FormatsTo(list, from)
    {
      visible, formats := visible + list[from + n].visible, formats + list[from + n].format;
    }
  }

  /** A block that begins with an item of block `k` is block `k`, and it is its first item. */
  lemma {:induction false} FirstOfBlock(bs: seq<Block>, list: seq<Item>, n: nat, k: nat, j: nat)
    requires Models(bs, list) && Distinct(list) && n < |bs| && Inside(bs, k, j) && j < |list| && bs[n].first == Some(list[j].id)
    ensures n == k && ItemsTo(bs, k) == j
  {
    assert Fits(bs, list, n) && Fits(bs, list, k);
    OneBlock(bs, n, k, j);
  }

  lemma {:induction false} PrefixSums(list: seq<Item>, m: nat, n: nat)
    requires n <= m <= |list|
    ensures VisibleTo(list[..m], n) == VisibleTo(list, n) && FormatsTo(list[..m], n) == FormatsTo(list, n)
  {
    if n > 0 { PrefixSums(list, m, n - 1); }
  }

  lemma {:induction false} PrefixItems(bs: seq<Block>, b: Block, n: nat)
    requires n <= |bs|
    ensures ItemsTo(bs + [b], n) == ItemsTo(bs, n)
  {
    if n > 0 { PrefixItems(bs, b, n - 1); }
  }

  /** The next block of a walk. */
  lemma {:induction false} NextBlock(bs: seq<Block>, list: seq<Item>, n: nat, b: Block)
    requires n + b.items <= |list| && 0 < b.items <= BlockItems && Models(bs, list[..n]) && Bounded(bs) && b.first == Some(list[n].id)
    requires b.visible == VisibleTo(list, n + b.items) - VisibleTo(list, n) && b.formats == FormatsTo(list, n + b.items) - FormatsTo(list, n)
    ensures Models(bs + [b], list[..n + b.items]) && Bounded(bs + [b])
  {
    var bs', m := bs + [b], n + b.items;
    PrefixItems(bs, b, |bs|);
    forall k | 0 <= k < |bs'| ensures Fits(bs', list[..m], k) {
      PrefixItems(bs, b, k);
      if k < |bs| {
        assert Fits(bs, list[..n], k);
        PrefixFits(bs, list, n, m, k);
      } else {
        PrefixSums(list, m, n);
        PrefixSums(list, m, m);
      }
    }
    forall k | 0 <= k < |bs'| ensures Small(bs'[k]) { if k < |bs| { assert Small(bs[k]); } }
  }

  lemma {:induction false} PrefixFits(bs: seq<Block>, list: seq<Item>, n: nat, m: nat, k: nat)
    requires n <= m <= |list| && k < |bs| && Fits(bs, list[..n], k)
    ensures Fits(bs, list[..m], k)
  {
    var s := ItemsTo(bs, k);
    PrefixSums(list, n, s);
    PrefixSums(list, n, s + bs[k].items);
    PrefixSums(list, m, s);
    PrefixSums(list, m, s + bs[k].items);
  }

  /** `place` is the node whose block holds item `i`. */
  ghost predicate Owns(place: Place, bs: seq<Block>, i: nat) {
    Points(place, bs) && Inside(bs, RankOf(place), i) && bs[RankOf(place)] == place.node.block
  }

  /** Looking for a block that begins with the item `j`, which is in block `k`. */
  lemma {:induction false} LocateFirst(root: Tree, list: seq<Item>, k: nat, j: nat)
    requires Avl(root) && Models(InOrder(root), list) && Distinct(list) && Inside(InOrder(root), k, j) && j < |list|
    ensures var found := Locate(root, Root, list[j].id);
            if found.Some? then Points(found.value, InOrder(root)) && RankOf(found.value) == k && found.value.node.block == InOrder(root)[k] && ItemsTo(InOrder(root), k) == j
            else ItemsTo(InOrder(root), k) < j
  {
    var bs, id := InOrder(root), list[j].id;
    WholeOfRoot(root);
    LocatePoints(root, Root, id);
    LocateFinds(root, Root, id);
    var found := Locate(root, Root, id);
    if found.Some? {
      AroundPlace(found.value, bs);
      FirstOfBlock(bs, list, RankOf(found.value), k, j);
    } else {
      assert Fits(bs, list, k);
    }
  }

  /** The anchor `j`, which is in block `k`, leads to block `k`; what is no anchor is not its
      first item. */
  lemma {:induction false} AnchorLeads(root: Tree, anchors: set<int>, list: seq<Item>, k: nat, j: nat)
    requires Avl(root) && Models(InOrder(root), list) && Distinct(list) && Anchored(anchors, InOrder(root)) && Inside(InOrder(root), k, j) && j < |list|
    ensures var bs, found := InOrder(root), Locate(root, Root, list[j].id);
            if list[j].id in anchors then found.Some? && Points(found.value, bs) && RankOf(found.value) == k && found.value.node.block == bs[k] && ItemsTo(bs, k) == j
            else ItemsTo(bs, k) < j
  {
    var bs, id := InOrder(root), list[j].id;
    LocateFirst(root, list, k, j);
    assert Fits(bs, list, k);
    if ItemsTo(bs, k) == j { assert Heads(bs, k, id); }
    if id in anchors {
      assert IsHead(bs, id);
      var n: nat :| Heads(bs, n, id);
      FirstOfBlock(bs, list, n, k, j);
    }
  }

  /** Blocks of eight items; the last one has what is left of `n`. */
  ghost predicate InEights(bs: seq<Block>, n: nat) {
    && 8 * |bs| <= n + 7 && n <= 8 * |bs|
    && forall k {:trigger bs[k]} :: 0 <= k < |bs| ==> bs[k].items == if 8 * k + 8 <= n then 8 else n - 8 * k
  }

  class Index {
    var root: Tree
    var anchors: set<int>
    var items: nat

    ghost predicate Valid(list: seq<Item>)
      reads this
    {
      && Avl(root) && Models(InOrder(root), list) && Bounded(InOrder(root)) && Distinct(list) && items == |list|
      && Anchored(anchors, InOrder(root))
    }

    /** `buildListPositionIndex`: blocks of eight, and a tree over them. */
    constructor (list: seq<Item>)
      requires Distinct(list)
      ensures Valid(list) && InEights(InOrder(root), |list|)
    {
      var bs: seq<Block>, heads: set<int> := [], {};
      var n := 0;
      while n < |list|
        invariant n <= |list| && Models(bs, list[..n]) && Bounded(bs) && Anchored(heads, bs)
        invariant InEights(bs, n) && (n < |list| ==> n == 8 * |bs|)
        decreases |list| - n
      {
        var count := if |list| - n < BlockItems then |list| - n else BlockItems;
        var visible, formats := Walk(list, n, count);
        var b := Block(Some(list[n].id), count, visible, formats);
        NextBlock(bs, list, n, b);
        NextAnchor(bs, b, heads);
        bs, heads, n := bs + [b], heads + {list[n].id}, n + count;
      }
      assert list[..|list|] == list;
      var t := BuildBalanced(bs, 0, |bs|);
      assert bs[0..|bs|] == bs;
      root, anchors, items := t, heads, |list|;
    }

    /** `blockFor`: walk left from item `i` to the anchor of its block. */
    method BlockFor(walk: seq<Item>, i: nat, ghost list: seq<Item>) returns (place: Option<Place>)
      requires Valid(list) && i < |walk| && i < |list| && forall j {:trigger walk[j].id} :: 0 <= j <= i ==> walk[j].id == list[j].id
      ensures place.Some? && Owns(place.value, InOrder(root), i) && place.value.node.block.items <= 16
    {
      ghost var bs := InOrder(root);
      ghost var k := SomeBlock(bs, |bs|, i);
      assert Small(bs[k]);
      place := None;
      var steps := 0;
      while steps < BlockMaxItems && steps <= i
        invariant steps <= i - ItemsTo(bs, k) && place == None
        decreases i - steps
      {
        AnchorLeads(root, anchors, list, k, i - steps);
        if walk[i - steps].id in anchors {
          var found := Locate(root, Root, walk[i - steps].id);
          place := if steps < found.value.node.block.items then found else None;
          return;
        }
        steps := steps + 1;
      }
    }

    /** `findPosition`: the first item of a block and how much is visible before it; the
        target is in that block, or at its end if it is the visible end of the list. */
    method FindPosition(target: int, ghost list: seq<Item>) returns (found: Option<(int, nat)>, ghost p: nat, ghost n: nat)
      requires Valid(list)
      ensures found.Some? <==> 0 <= target <= VisibleTo(list, |list|) && VisibleTo(list, |list|) > 0
      ensures found.Some? ==>
                && 0 < n <= 16 && p + n <= |list| && list[p].id == found.value.0 && found.value.1 == VisibleTo(list, p)
                && if target < VisibleTo(list, |list|) then VisibleTo(list, p) <= target < VisibleTo(list, p + n)
                   else VisibleTo(list, p) < target == VisibleTo(list, p + n)
    {
      ghost var bs, at := InOrder(root), 0;
      var hit;
      hit, at := PositionTree.FindPosition(root, target);
      SumIsWalk(bs, list, |bs|);
      found, p, n := None, 0, 0;
      if hit.Some? {
        SumIsWalk(bs, list, at);
        assert Fits(bs, list, at) && Small(bs[at]);
        p, n := ItemsTo(bs, at), bs[at].items;
        found := Some((hit.value.0.first.value, hit.value.1));
      }
    }

    /** `indexedVisibleStart`: what is visible before item `i`. */
    method VisibleStart(list: seq<Item>, i: nat) returns (visible: nat)
      requires Valid(list) && i < |list|
      ensures visible == VisibleTo(list, i)
    {
      var place := BlockFor(list, i, list);
      var node := place.value.node;
      ghost var bs, k := InOrder(root), RankOf(place.value);
      visible := VisibleBefore(node, place.value.context);
      AroundPlace(place.value, bs);
      SumOfPrefix(bs[..k], bs[k..], k);
      assert bs[..k] + bs[k..] == bs;
      SumIsWalk(bs, list, k);
      assert Fits(bs, list, k);
      var from := IndexOf(list, node.block.first.value);
      assert from == ItemsTo(bs, k);
      var more, formats := Walk(list, from, i - from);
      visible := visible + more;
    }

    /** A block takes up a change of the list; nothing else in the tree changes. */
    method Change(place: Place, b: Block, ghost list: seq<Item>, ghost list': seq<Item>, ghost i: nat, ghost d: int, ghost v: int)
      requires Valid(list) && Owns(place, InOrder(root), i) && Small(b) && Distinct(list')
      requires TakesUp(InOrder(root), list, RankOf(place), b, list', d, v, b.formats - place.node.block.formats)
      modifies `root, `anchors
      ensures Avl(root) && Models(InOrder(root), list') && Bounded(InOrder(root)) && Anchored(anchors, InOrder(root))
    {
      ghost var bs := InOrder(root);
      ChangedAnchors(bs, list, RankOf(place), b, anchors);
      if b.first != place.node.block.first { anchors := Reanchored(anchors, place.node.block.first, b.first); }
      BlockChanged(bs, list, RankOf(place), b, list', d, v, b.formats - place.node.block.formats);
      ChangedBounded(bs, RankOf(place), b);
      root := ReplaceBlock(place, b, bs);
    }

    /** `deleteItem`: item `i` is not visible any more. */
    method DeleteItem(list: seq<Item>, i: nat) returns (ok: bool)
      requires Valid(list) && i < |list|
      modifies this
      ensures ok && Valid(list[i := list[i].(visible := 0)])
    {
      var place := BlockFor(list, i, list);
      var b := place.value.node.block;
      ghost var bs, k := InOrder(root), RankOf(place.value);
      BlockShows(bs, list, k, i);
      ok := list[i].visible <= b.visible;
      if ok {
        ghost var x := list[i].(visible := 0);
        ghost var list' := list[i := x];
        UpdatedSame(list, i, x, ItemsTo(bs, k), ItemsTo(bs, k) + b.items);
        assert Fits(bs, list, k);
        Change(place.value, b.(visible := b.visible - list[i].visible), list, list', i, 0, 0 - list[i].visible);
      }
    }

    /** Item `i` has grown in place at the tail. */
    method GrowTail(list: seq<Item>, i: nat, delta: nat)
      requires Valid(list) && i < |list|
      modifies this
      ensures Valid(list[i := list[i].(visible := list[i].visible + delta)])
    {
      var place := BlockFor(list, i, list);
      var b := place.value.node.block;
      ghost var bs, k := InOrder(root), RankOf(place.value);
      ghost var x := list[i].(visible := list[i].visible + delta);
      ghost var list' := list[i := x];
      BlockShows(bs, list, k, i);
      UpdatedSame(list, i, x, ItemsTo(bs, k), ItemsTo(bs, k) + b.items);
      assert Fits(bs, list, k);
      Change(place.value, b.(visible := b.visible + delta), list, list', i, 0, delta);
    }

    /** `splitBlock`: a block that has grown beyond the limit is cut after eight items. */
    method SplitGrown(place: Place, b: Block, list: seq<Item>, ghost bs: seq<Block>)
      requires Points(place, bs) && RankOf(place) < |bs| && Bounded(bs) && Models(Changed(bs, RankOf(place), b), list) && Distinct(list)
      requires BlockMaxItems < b.items <= BlockMaxItems + BlockItems && Anchored(anchors, Changed(bs, RankOf(place), b))
      modifies `root, `anchors
      ensures Avl(root) && Models(InOrder(root), list) && Bounded(InOrder(root)) && Anchored(anchors, InOrder(root))
      ensures var now, k := InOrder(root), RankOf(place); |now| == |bs| + 1 && now[k].items == 8 && now[k + 1].items == b.items - 8
    {
      ghost var k := RankOf(place);
      ghost var bs' := Changed(bs, k, b);
      assert bs'[k] == b && Fits(bs', list, k);
      var from := IndexOf(list, b.first.value);
      assert from == ItemsTo(bs', k);
      var visible, formats := Walk(list, from + BlockItems, b.items - BlockItems);
      VisibleToGrows(list, from, from + BlockItems);
      var left := b.(items := BlockItems, visible := b.visible - visible, formats := b.formats - formats);
      var right := Block(Some(list[from + BlockItems].id), b.items - BlockItems, visible, formats);
      BlockCut(bs', list, k, left, right);
      CutOfChanged(bs, k, b, left, right);
      CutBounded(bs, k, left, right);
      CutAnchors(bs', k, left, right, anchors);
      anchors := anchors + {right.first.value};
      root := ReplaceByTwo(place, left, right, bs);
    }

    /** `insertItem`: item `i` has been linked into the list, or split off its left neighbour. */
    method InsertItem(ghost before: seq<Item>, list: seq<Item>, i: nat, visibleDelta: nat) returns (ok: bool)
      requires Valid(before) && Grows(before, list, i, visibleDelta)
      modifies this
      ensures ok <==> before != [] || old(root) == Nil
      ensures ok ==> Valid(list)
      ensures !ok ==> root == old(root) && items == old(items)
    {
      if |list| == 1 {
        ok := root == Nil;
        if ok { InsertFirst(before, list, visibleDelta); }
        return;
      }
      var x := list[i];
      ghost var bs := InOrder(root);
      var place := BlockNear(before, list, i, visibleDelta);
      var b := place.node.block;
      var grown := b.(items := b.items + 1, visible := b.visible + visibleDelta, formats := b.formats + x.format,
                      first := if i == 0 then Some(x.id) else b.first);
      GrownBlock(bs, before, list, i, visibleDelta, RankOf(place), grown);
      ChangedAnchors(bs, before, RankOf(place), grown, anchors);
      if i == 0 { anchors := Reanchored(anchors, b.first, grown.first); }
      Accept(place, grown, list, bs);
      items := items + 1;
      ok := true;
    }

    /** The first item of a list gets the first block. */
    method InsertFirst(ghost before: seq<Item>, list: seq<Item>, visibleDelta: nat)
      requires Valid(before) && before == [] && Grows(before, list, 0, visibleDelta) && root == Nil
      modifies this
      ensures Valid(list)
    {
      var b := Block(Some(list[0].id), 1, visibleDelta, list[0].format);
      NextAnchor([], b, anchors);
      assert [] + [b] == [b];
      root, anchors, items := Leaf(b), anchors + {list[0].id}, items + 1;
      OneItem(list);
    }

    /** The block of the left neighbour, or of the right one at the start. */
    method BlockNear(ghost before: seq<Item>, list: seq<Item>, i: nat, ghost v: nat) returns (place: Place)
      requires Valid(before) && before != [] && Grows(before, list, i, v)
      ensures Owns(place, InOrder(root), if i == 0 then 0 else i - 1) && Small(place.node.block)
    {
      var found;
      if i > 0 {
        found := BlockFor(list, i - 1, before);
      } else {
        found := BlockFor(list[1..], 0, before);
      }
      place := found.value;
    }

    /** A block that has grown takes the place of the old one, or is cut. */
    method Accept(place: Place, grown: Block, list: seq<Item>, ghost bs: seq<Block>)
      requires Points(place, bs) && RankOf(place) < |bs| && Bounded(bs) && Models(Changed(bs, RankOf(place), grown), list) && Distinct(list)
      requires 0 < grown.items <= BlockMaxItems + 1 && Anchored(anchors, Changed(bs, RankOf(place), grown))
      modifies `root, `anchors
      ensures Avl(root) && Models(InOrder(root), list) && Bounded(InOrder(root)) && Anchored(anchors, InOrder(root))
      ensures |InOrder(root)| == if grown.items <= 16 then |bs| else |bs| + 1
    {
      if grown.items <= BlockMaxItems {
        ChangedBounded(bs, RankOf(place), grown);
        root := ReplaceBlock(place, grown, bs);
      } else {
        SplitGrown(place, grown, list, bs);
      }
    }

    /** An item leaves its block. */
    method TakeOut(list: seq<Item>, j: nat)
      requires Valid(list) && j < |list| && list[j].format == 0 && Distinct(Removed(list, j))
      modifies this
      ensures Valid(Removed(list, j))
    {
      var place := BlockFor(list, j, list);
      var b := place.value.node.block;
      ghost var bs, k := InOrder(root), RankOf(place.value);
      BlockShows(bs, list, k, j);
      FirstIsFirst(bs, list, k, j);
      var rest := b.(items := b.items - 1, visible := b.visible - list[j].visible,
                     first := if b.first != Some(list[j].id) then b.first else if b.items > 1 then Some(list[j + 1].id) else None);
      LeavesBlock(bs, list, j, k, rest);
      Change(place.value, rest, list, Removed(list, j), j, -1, 0 - list[j].visible);
      items := items - 1;
    }

    /** Both items are in one block. */
    method MergeInside(ghost list: seq<Item>, ghost i: nat, place: Place)
      requires Valid(list) && i + 1 < |list| && list[i + 1].format == 0 && Distinct(MergedAt(list, i))
      requires Owns(place, InOrder(root), i) && Small(place.node.block) && Inside(InOrder(root), RankOf(place), i + 1)
      modifies this
      ensures Valid(MergedAt(list, i))
    {
      var b := place.node.block;
      MergeInBlock(InOrder(root), list, i, RankOf(place));
      Change(place, b.(items := b.items - 1), list, MergedAt(list, i), i, -1, 0);
      items := items - 1;
    }

    /** `removeMergedRight`: item `i + 1` has been merged into item `i`. */
    method RemoveMergedRight(list: seq<Item>, i: nat)
      requires Valid(list) && i + 1 < |list| && list[i + 1].format == 0
      modifies this
      ensures Valid(MergedAt(list, i))
    {
      var left := BlockFor(list, i, list);
      var right := BlockFor(list, i + 1, list);
      MergedStaysDistinct(list, i);
      if left.value.node.block.first == right.value.node.block.first {
        SameFirstSameBlock(InOrder(root), list, RankOf(left.value), RankOf(right.value));
        MergeInside(list, i, left.value);
      } else {
        // what the right item shows moves to the left block
        var v: nat := list[i + 1].visible;
        GrowTail(list, i, v);
        TakeOut(list[i := list[i].(visible := list[i].visible + v)], i + 1);
      }
    }
  }

  lemma {:induction false} FirstIsFirst(bs: seq<Block>, list: seq<Item>, k: nat, j: nat)
    requires Models(bs, list) && Distinct(list) && Inside(bs, k, j) && j < |list|
    ensures bs[k].first == Some(list[j].id) <==> ItemsTo(bs, k) == j
    ensures ItemsTo(bs, k) + bs[k].items <= |list|
  {
    assert Fits(bs, list, k);
  }

  ghost function MergedAt(list: seq<Item>, i: nat): seq<Item>
    requires i + 1 < |list|
  {
    Removed(list[i := list[i].(visible := list[i].visible + list[i + 1].visible)], i + 1)
  }

  lemma {:induction false} MergedStaysDistinct(list: seq<Item>, i: nat)
    requires Distinct(list) && i + 1 < |list|
    ensures Distinct(MergedAt(list, i))
  {
    var m := MergedAt(list, i);
    forall a, b | 0 <= a < b < |m| ensures m[a].id != m[b].id {
      assert list[if a <= i then a else a + 1].id != list[if b <= i then b else b + 1].id;
    }
  }

  lemma {:induction false} SameFirstSameBlock(bs: seq<Block>, list: seq<Item>, k: nat, m: nat)
    requires Models(bs, list) && Distinct(list) && k < |bs| && m < |bs| && bs[k].items > 0 && bs[m].items > 0 && bs[k].first == bs[m].first
    ensures k == m
  {
    assert Fits(bs, list, k) && Fits(bs, list, m);
    FirstOfBlock(bs, list, m, k, ItemsTo(bs, k));
  }

  /** Both items are in one block, which keeps what it shows. */
  lemma {:induction false} MergeInBlock(bs: seq<Block>, list: seq<Item>, i: nat, k: nat)
    requires Models(bs, list) && i + 1 < |list| && list[i + 1].format == 0 && Inside(bs, k, i) && Inside(bs, k, i + 1)
    ensures TakesUp(bs, list, k, bs[k].(items := bs[k].items - 1), MergedAt(list, i), -1, 0, 0)
  {
    assert Fits(bs, list, k);
    var s, e := ItemsTo(bs, k), ItemsTo(bs, k) + bs[k].items;
    var v: int := list[i + 1].visible;
    var x := list[i].(visible := list[i].visible + list[i + 1].visible);
    UpdatedSame(list, i, x, s, e);
    var list1 := list[i := x];
    RemovedSame(list1, i + 1, s, e);
    SameCompose(list, list1, Removed(list1, i + 1), s, e, 0, -1, v, -v, 0, 0);
  }

  /** An item leaves its block. */
  lemma {:induction false} LeavesBlock(bs: seq<Block>, list: seq<Item>, j: nat, k: nat, rest: Block)
    requires j < |list| && list[j].format == 0 && Models(bs, list) && Inside(bs, k, j) && list[j].visible <= bs[k].visible
    requires bs[k].items > 1 && ItemsTo(bs, k) == j ==> j + 1 < |list|
    requires rest == bs[k].(items := bs[k].items - 1, visible := bs[k].visible - list[j].visible,
                            first := if ItemsTo(bs, k) != j then bs[k].first else if bs[k].items > 1 then Some(list[j + 1].id) else None)
    ensures TakesUp(bs, list, k, rest, Removed(list, j), -1, 0 - list[j].visible, 0)
  {
    assert Fits(bs, list, k);
    RemovedSame(list, j, ItemsTo(bs, k), ItemsTo(bs, k) + bs[k].items);
  }

  lemma {:induction false} OneItem(list: seq<Item>)
    requires |list| == 1
    ensures Models([Block(Some(list[0].id), 1, list[0].visible, list[0].format)], list)
    ensures Bounded([Block(Some(list[0].id), 1, list[0].visible, list[0].format)])
  {
    var bs := [Block(Some(list[0].id), 1, list[0].visible, list[0].format)];
    assert ItemsTo(bs, 1) == ItemsTo(bs, 0) + bs[0].items;
    assert VisibleTo(list, 1) == VisibleTo(list, 0) + list[0].visible && FormatsTo(list, 1) == FormatsTo(list, 0) + list[0].format;
    assert Fits(bs, list, 0);
  }

  /** The block of the left neighbour (or of the right one, at the start) takes the item in. */
  lemma {:induction false} GrownBlock(bs: seq<Block>, before: seq<Item>, list: seq<Item>, i: nat, v: nat, k: nat, b: Block)
    requires Models(bs, before) && Grows(before, list, i, v) && before != [] && Inside(bs, k, if i == 0 then 0 else i - 1)
    requires b == bs[k].(items := bs[k].items + 1, visible := bs[k].visible + v, formats := bs[k].formats + list[i].format,
                         first := if i == 0 then Some(list[i].id) else bs[k].first)
    ensures Models(Changed(bs, k, b), list)
  {
    assert Fits(bs, before, k);
    var s, e := ItemsTo(bs, k), ItemsTo(bs, k) + bs[k].items;
    SameWidens(before, list, if i == 0 then 0 else i - 1, if i == 0 then 1 else i, s, e, 1, v, list[i].format);
    assert i > 0 ==> list[s].id == before[s].id;
    BlockChanged(bs, before, k, b, list, 1, v, list[i].format);
  }
}

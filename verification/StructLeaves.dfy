/** The leaves of the struct tree as a list: contents, occupancy, and what borrowing,
    merging, splitting and removing do to them. */
module StructLeaves {
  import opened StructTree
  import opened LeafChain

  /** The structs in the first `n` leaves. */
  function ItemsTo(ls: seq<Leaf>, n: nat): seq<Struct>
    requires n <= |ls|
  {
    if n == 0 then [] else ItemsTo(ls, n - 1) + ls[n - 1].items
  }

  function AllItems(ls: seq<Leaf>): seq<Struct> { ItemsTo(ls, |ls|) }

  lemma {:induction false} ItemsOfPrefix(a: seq<Leaf>, b: seq<Leaf>, n: nat)
    requires n <= |a|
    ensures ItemsTo(a + b, n) == ItemsTo(a, n)
  {
    if n > 0 { ItemsOfPrefix(a, b, n - 1); }
  }

  lemma {:induction false} ItemsOfConcat(a: seq<Leaf>, b: seq<Leaf>, n: nat)
    requires n <= |b|
    ensures ItemsTo(a + b, |a| + n) == AllItems(a) + ItemsTo(b, n)
  {
    if n == 0 { ItemsOfPrefix(a, b, |a|); } else { ItemsOfConcat(a, b, n - 1); }
  }

  lemma {:induction false} AllItemsConcat(a: seq<Leaf>, b: seq<Leaf>)
    ensures AllItems(a + b) == AllItems(a) + AllItems(b)
  {
    ItemsOfConcat(a, b, |b|);
  }

  lemma {:induction false} AllItemsOne(l: Leaf)
    ensures AllItems([l]) == l.items
  {
    assert ItemsTo([l], 1) == ItemsTo([l], 0) + [l][0].items;
  }

  lemma {:induction false} AllItemsAround(a: seq<Leaf>, mid: seq<Leaf>, b: seq<Leaf>)
    ensures AllItems(a + mid + b) == AllItems(a) + AllItems(mid) + AllItems(b)
  {
    AllItemsConcat(a, mid);
    AllItemsConcat(a + mid, b);
  }

  lemma {:induction false} AllItemsPair(l: Leaf, r: Leaf)
    ensures AllItems([l, r]) == l.items + r.items
  {
    AllItemsConcat([l], [r]);
    AllItemsOne(l);
    AllItemsOne(r);
    assert [l] + [r] == [l, r];
  }

  // ---------------------------------------------------------------- positions

  /** Leaf `name` is leaf `k`. */
  predicate Named(ls: seq<Leaf>, k: nat, name: nat) {
    k < |ls| && ls[k].name == name
  }

  ghost predicate Distinct(ls: seq<Leaf>) {
    forall i, j {:trigger ls[i].name, ls[j].name} :: 0 <= i < j < |ls| ==> ls[i].name != ls[j].name
  }

  /** Slot `slot` of leaf `k` is struct `p` of the whole list. */
  ghost predicate IsAt(ls: seq<Leaf>, k: nat, slot: nat, p: nat) {
    k < |ls| && slot < |ls[k].items| && p == |ItemsTo(ls, k)| + slot
  }

  lemma {:induction false} ItemsToGrows(ls: seq<Leaf>, m: nat, n: nat)
    requires m <= n <= |ls|
    ensures ItemsTo(ls, m) <= ItemsTo(ls, n)
    decreases n
  {
    if m < n { ItemsToGrows(ls, m, n - 1); }
  }

  /** The struct in a slot is the struct at its position. */
  lemma {:induction false} AtPosition(ls: seq<Leaf>, k: nat, slot: nat, p: nat)
    requires IsAt(ls, k, slot, p)
    ensures p < |AllItems(ls)| && AllItems(ls)[p] == ls[k].items[slot]
  {
    ItemsToGrows(ls, k + 1, |ls|);
    assert ItemsTo(ls, k + 1) == ItemsTo(ls, k) + ls[k].items;
    assert ItemsTo(ls, k + 1)[p] == ls[k].items[slot];
  }

  /** A position has one slot. */
  lemma {:induction false} OneSlot(ls: seq<Leaf>, k: nat, s: nat, m: nat, t: nat, p: nat)
    requires IsAt(ls, k, s, p) && IsAt(ls, m, t, p)
    ensures k == m && s == t
  {
    if k < m { ItemsToGrows(ls, k + 1, m); }
    if m < k { ItemsToGrows(ls, m + 1, k); }
  }

  lemma {:induction false} SomeSlot(ls: seq<Leaf>, n: nat, p: nat) returns (k: nat, slot: nat)
    requires n <= |ls| && p < |ItemsTo(ls, n)|
    ensures IsAt(ls, k, slot, p)
  {
    if p < |ItemsTo(ls, n - 1)| { k, slot := SomeSlot(ls, n - 1, p); } else { k, slot := n - 1, p - |ItemsTo(ls, n - 1)|; }
  }

  // ---------------------------------------------------------------- occupancy

  /** A leaf that must not stay as it is: empty, or too small and not the last one. */
  ghost predicate Bad(ls: seq<Leaf>, i: nat, min: nat)
    requires i < |ls|
  {
    |ls[i].items| == 0 || (|ls[i].items| < min && i < |ls| - 1)
  }

  /** Only the last leaf may be underfull, and none is empty. */
  ghost predicate Tight(ls: seq<Leaf>, min: nat) {
    forall i {:trigger Bad(ls, i, min)} :: 0 <= i < |ls| ==> !Bad(ls, i, min)
  }

  /** Every bad leaf waits in the queue. */
  ghost predicate Awaited(ls: seq<Leaf>, min: nat, queue: seq<nat>) {
    forall i {:trigger Bad(ls, i, min)} :: 0 <= i < |ls| && Bad(ls, i, min) ==> ls[i].name in queue
  }

  function DeficitTo(ls: seq<Leaf>, min: nat, n: nat): nat
    requires n <= |ls|
  {
    if n == 0 then 0 else DeficitTo(ls, min, n - 1) + if |ls[n - 1].items| < min then min - |ls[n - 1].items| else 0
  }

  lemma {:induction false} DeficitOfChange(ls: seq<Leaf>, k: nat, a: Leaf, b: Leaf, min: nat, n: nat)
    requires k + 1 < |ls| && n <= |ls|
    ensures DeficitTo(ls[k := a][k + 1 := b], min, n) == DeficitTo(ls, min, n)
              + (if n > k then Deficit(a, min) - Deficit(ls[k], min) else 0) + (if n > k + 1 then Deficit(b, min) - Deficit(ls[k + 1], min) else 0)
  {
    if n > 0 { DeficitOfChange(ls, k, a, b, min, n - 1); }
  }

  function Deficit(l: Leaf, min: nat): nat {
    if |l.items| < min then min - |l.items| else 0
  }

  // ---------------------------------------------------------------- two neighbours change

  /** Leaves `k` and `k + 1` exchange structs. */
  lemma {:induction false} PairChanged(ls: seq<Leaf>, k: nat, a: Leaf, b: Leaf)
    requires k + 1 < |ls| && a.items + b.items == ls[k].items + ls[k + 1].items
    ensures AllItems(ls[k := a][k + 1 := b]) == AllItems(ls)
  {
    var p, s := ls[..k], ls[k + 2..];
    assert ls == p + [ls[k], ls[k + 1]] + s;
    assert ls[k := a][k + 1 := b] == p + [a, b] + s;
    AllItemsAround(p, [ls[k], ls[k + 1]], s);
    AllItemsAround(p, [a, b], s);
    AllItemsPair(ls[k], ls[k + 1]);
    AllItemsPair(a, b);
  }

  /** Leaves `k` and `k + 1` become one. */
  lemma {:induction false} PairMerged(ls: seq<Leaf>, k: nat, a: Leaf)
    requires k + 1 < |ls| && a.items == ls[k].items + ls[k + 1].items
    ensures AllItems(ls[..k] + [a] + ls[k + 2..]) == AllItems(ls)
  {
    var p, s := ls[..k], ls[k + 2..];
    assert ls == p + [ls[k], ls[k + 1]] + s;
    AllItemsAround(p, [ls[k], ls[k + 1]], s);
    AllItemsAround(p, [a], s);
    AllItemsPair(ls[k], ls[k + 1]);
    AllItemsOne(a);
  }

  // ---------------------------------------------------------------- one leaf changes

  lemma {:induction false} AroundLeaf(ls: seq<Leaf>, k: nat)
    requires k < |ls|
    ensures AllItems(ls) == AllItems(ls[..k]) + ls[k].items + AllItems(ls[k + 1..]) && ItemsTo(ls, k) == AllItems(ls[..k])
  {
    assert ls == ls[..k] + [ls[k]] + ls[k + 1..];
    AllItemsAround(ls[..k], [ls[k]], ls[k + 1..]);
    AllItemsOne(ls[k]);
    ItemsOfPrefix(ls[..k], ls[k..], k);
    assert ls[..k] + ls[k..] == ls;
  }

  function Spliced<T>(s: seq<T>, i: nat, j: nat, xs: seq<T>): seq<T>
    requires i <= j <= |s|
  {
    s[..i] + xs + s[j..]
  }

  lemma {:induction false} SplicedInside<T>(a: seq<T>, b: seq<T>, c: seq<T>, i: nat, j: nat, xs: seq<T>)
    requires i <= j <= |b|
    ensures a + Spliced(b, i, j, xs) + c == Spliced(a + b + c, |a| + i, |a| + j, xs)
  {
    assert (a + b + c)[..|a| + i] == a + b[..i];
    assert (a + b + c)[|a| + j..] == b[j..] + c;
  }

  /** Splicing one leaf splices the whole list. */
  lemma {:induction false} SpliceLeaf(ls: seq<Leaf>, k: nat, i: nat, j: nat, xs: seq<Struct>)
    requires k < |ls| && i <= j <= |ls[k].items|
    ensures var p := |ItemsTo(ls, k)|; var l := ls[k].(items := Spliced(ls[k].items, i, j, xs));
            p + j <= |AllItems(ls)| && AllItems(ls[k := l]) == Spliced(AllItems(ls), p + i, p + j, xs)
  {
    var l := ls[k].(items := Spliced(ls[k].items, i, j, xs));
    var ls' := ls[k := l];
    AroundLeaf(ls, k);
    AroundLeaf(ls', k);
    assert ls'[..k] == ls[..k] && ls'[k + 1..] == ls[k + 1..];
    SplicedInside(AllItems(ls[..k]), ls[k].items, AllItems(ls[k + 1..]), i, j, xs);
  }

  /** Cutting a leaf in two leaves the list as it is. */
  lemma {:induction false} CutLeaf(ls: seq<Leaf>, k: nat, a: Leaf, b: Leaf)
    requires k < |ls| && a.items + b.items == ls[k].items
    ensures AllItems(ls[..k] + [a, b] + ls[k + 1..]) == AllItems(ls)
  {
    AroundLeaf(ls, k);
    AllItemsAround(ls[..k], [a, b], ls[k + 1..]);
    AllItemsPair(a, b);
  }

  lemma {:induction false} ItemsBefore(ls: seq<Leaf>, ls': seq<Leaf>, k: nat)
    requires k <= |ls| && k <= |ls'| && ls[..k] == ls'[..k]
    ensures ItemsTo(ls, k) == ItemsTo(ls', k)
  {
    ItemsOfPrefix(ls[..k], ls[k..], k);
    ItemsOfPrefix(ls'[..k], ls'[k..], k);
    assert ls[..k] + ls[k..] == ls && ls'[..k] + ls'[k..] == ls';
  }

  // ---------------------------------------------------------------- names and occupancy under change

  predicate Below(l: Leaf, next: nat) { l.name < next }

  ghost predicate Fresh(ls: seq<Leaf>, next: nat) {
    forall i {:trigger Below(ls[i], next)} :: 0 <= i < |ls| ==> Below(ls[i], next)
  }

  lemma {:induction false} ChangeKeepsNames(ls: seq<Leaf>, k: nat, l: Leaf, next: nat)
    requires k < |ls| && Distinct(ls) && Fresh(ls, next) && l.name == ls[k].name
    ensures Distinct(ls[k := l]) && Fresh(ls[k := l], next)
  {
    var ls' := ls[k := l];
    forall i, j | 0 <= i < j < |ls'| ensures ls'[i].name != ls'[j].name { assert ls[i].name != ls[j].name; }
    forall i | 0 <= i < |ls'| ensures Below(ls'[i], next) { assert Below(ls[i], next); }
  }

  lemma {:induction false} CutKeepsNames(ls: seq<Leaf>, k: nat, a: Leaf, b: Leaf, next: nat)
    requires k < |ls| && Distinct(ls) && Fresh(ls, next) && a.name == ls[k].name && b.name == next
    ensures Distinct(ls[..k] + [a, b] + ls[k + 1..]) && Fresh(ls[..k] + [a, b] + ls[k + 1..], next + 1)
  {
    var ls' := ls[..k] + [a, b] + ls[k + 1..];
    forall i | 0 <= i < |ls'| ensures Below(ls'[i], next + 1) && (i != k + 1 ==> Below(ls'[i], next)) {
      if i <= k { assert Below(ls[i], next); } else if i > k + 1 { assert Below(ls[i - 1], next); }
    }
    forall i, j | 0 <= i < j < |ls'| ensures ls'[i].name != ls'[j].name {
      assert Below(ls'[i], next + 1) && Below(ls'[j], next + 1);
      if i != k + 1 && j != k + 1 {
        var oi, oj := if i <= k then i else i - 1, if j <= k then j else j - 1;
        assert ls[oi].name != ls[oj].name;
      }
    }
  }

  lemma {:induction false} ChangeKeepsTight(ls: seq<Leaf>, k: nat, l: Leaf, min: nat)
    requires k < |ls| && Tight(ls, min) && |l.items| >= |ls[k].items|
    ensures Tight(ls[k := l], min)
  {
    var ls' := ls[k := l];
    forall i | 0 <= i < |ls| ensures !Bad(ls', i, min) { assert !Bad(ls, i, min); }
  }

  /** A leaf that is cut into two full enough ones; behind the last leaf any new one will do. */
  lemma {:induction false} CutKeepsTight(ls: seq<Leaf>, k: nat, a: Leaf, b: Leaf, min: nat)
    requires k < |ls| && Tight(ls, min) && |a.items| >= min && |a.items| > 0 && |b.items| > 0 && (|b.items| >= min || k == |ls| - 1)
    ensures Tight(ls[..k] + [a, b] + ls[k + 1..], min)
  {
    var ls' := ls[..k] + [a, b] + ls[k + 1..];
    forall i | 0 <= i < |ls'| ensures !Bad(ls', i, min) {
      if i < k { assert !Bad(ls, i, min); }
      if i > k + 1 { assert !Bad(ls, i - 1, min); }
    }
  }

  predicate CalledAt(ls: seq<Leaf>, names: seq<nat>, i: nat)
    requires i < |ls| == |names|
  {
    ls[i].name == names[i]
  }

  /** The leaves' names. */
  ghost predicate Called(ls: seq<Leaf>, names: seq<nat>) {
    |ls| == |names| && forall i {:trigger CalledAt(ls, names, i)} :: 0 <= i < |ls| ==> CalledAt(ls, names, i)
  }

  lemma {:induction false} NamesOfChange(ls: seq<Leaf>, names: seq<nat>, k: nat, l: Leaf)
    requires Called(ls, names) && k < |ls| && l.name == ls[k].name
    ensures Called(ls[k := l], names)
  {
    var ls' := ls[k := l];
    forall i | 0 <= i < |ls| ensures CalledAt(ls', names, i) { assert CalledAt(ls, names, i); }
  }

  lemma {:induction false} NamesOfCut(ls: seq<Leaf>, names: seq<nat>, k: nat, a: Leaf, b: Leaf)
    requires Called(ls, names) && k < |ls| && a.name == ls[k].name
    ensures Called(ls[..k] + [a, b] + ls[k + 1..], InsertName(names, k + 1, b.name))
  {
    var ls', names' := ls[..k] + [a, b] + ls[k + 1..], InsertName(names, k + 1, b.name);
    forall i | 0 <= i < |ls'| ensures CalledAt(ls', names', i) {
      if i != k + 1 { assert CalledAt(ls, names, if i <= k then i else i - 1); }
    }
  }

  lemma {:induction false} NamesOfLast(ls: seq<Leaf>, names: seq<nat>, l: Leaf)
    requires Called(ls, names)
    ensures Called(ls + [l], names + [l.name])
  {
    var ls', names' := ls + [l], names + [l.name];
    forall i | 0 <= i < |ls'| ensures CalledAt(ls', names', i) { assert i < |ls| ==> CalledAt(ls, names, i); }
  }

  lemma {:induction false} FreshIsNew(ls: seq<Leaf>, names: seq<nat>, next: nat)
    requires Called(ls, names) && Fresh(ls, next)
    ensures next !in names
  {
    forall i | 0 <= i < |ls| ensures names[i] != next { assert CalledAt(ls, names, i) && Below(ls[i], next); }
  }

  // ---------------------------------------------------------------- rebalancing two neighbours

  function Exchanged(ls: seq<Leaf>, k: nat, a: Leaf, b: Leaf): seq<Leaf>
    requires k + 1 < |ls|
  {
    ls[k := a][k + 1 := b]
  }

  function Fused(ls: seq<Leaf>, k: nat, a: Leaf): seq<Leaf>
    requires k + 1 < |ls|
  {
    ls[..k] + [a] + ls[k + 2..]
  }

  lemma {:induction false} NamesOfExchanged(ls: seq<Leaf>, names: seq<nat>, k: nat, a: Leaf, b: Leaf)
    requires Called(ls, names) && k + 1 < |ls| && a.name == ls[k].name && b.name == ls[k + 1].name
    ensures Called(Exchanged(ls, k, a, b), names)
  {
    NamesOfChange(ls, names, k, a);
    NamesOfChange(ls[k := a], names, k + 1, b);
  }

  lemma {:induction false} NamesOfFused(ls: seq<Leaf>, names: seq<nat>, k: nat, a: Leaf)
    requires Called(ls, names) && k + 1 < |ls| && a.name == ls[k].name
    ensures Called(Fused(ls, k, a), RemoveName(names, k + 1))
  {
    var ls', names' := Fused(ls, k, a), RemoveName(names, k + 1);
    forall i | 0 <= i < |ls'| ensures CalledAt(ls', names', i) {
      assert CalledAt(ls, names, if i <= k then i else i + 1);
    }
  }

  lemma {:induction false} ExchangeKeepsNames(ls: seq<Leaf>, k: nat, a: Leaf, b: Leaf, next: nat)
    requires k + 1 < |ls| && Distinct(ls) && Fresh(ls, next) && a.name == ls[k].name && b.name == ls[k + 1].name
    ensures Distinct(Exchanged(ls, k, a, b)) && Fresh(Exchanged(ls, k, a, b), next)
  {
    ChangeKeepsNames(ls, k, a, next);
    ChangeKeepsNames(ls[k := a], k + 1, b, next);
  }

  lemma {:induction false} FuseKeepsNames(ls: seq<Leaf>, k: nat, a: Leaf, next: nat)
    requires k + 1 < |ls| && Distinct(ls) && Fresh(ls, next) && a.name == ls[k].name
    ensures Distinct(Fused(ls, k, a)) && Fresh(Fused(ls, k, a), next)
  {
    var ls' := Fused(ls, k, a);
    forall i | 0 <= i < |ls'| ensures Below(ls'[i], next) { assert Below(ls[if i <= k then i else i + 1], next); }
    forall i, j | 0 <= i < j < |ls'| ensures ls'[i].name != ls'[j].name {
      assert ls[if i <= k then i else i + 1].name != ls[if j <= k then j else j + 1].name;
    }
  }

  /** After an exchange only the survivor can still be bad. */
  lemma {:induction false} ExchangeAwaits(ls: seq<Leaf>, k: nat, a: Leaf, b: Leaf, survivor: nat, min: nat, queue: seq<nat>, queue': seq<nat>)
    requires k + 1 < |ls| && min > 0 && Distinct(ls) && a.name == ls[k].name && b.name == ls[k + 1].name
    requires (survivor == a.name && |b.items| >= min) || (survivor == b.name && |a.items| >= min)
    requires Awaited(ls, min, [survivor] + queue) && survivor in queue' && forall n :: n in queue ==> n in queue'
    ensures Awaited(Exchanged(ls, k, a, b), min, queue')
  {
    var ls' := Exchanged(ls, k, a, b);
    forall i | 0 <= i < |ls'| && Bad(ls', i, min) ensures ls'[i].name in queue' {
      if i != k && i != k + 1 { assert Bad(ls, i, min); }
    }
  }

  /** After a merge only the survivor can still be bad. */
  lemma {:induction false} FuseAwaits(ls: seq<Leaf>, k: nat, a: Leaf, popped: nat, min: nat, queue: seq<nat>, queue': seq<nat>)
    requires k + 1 < |ls| && Distinct(ls) && a.name == ls[k].name && (popped == ls[k].name || popped == ls[k + 1].name)
    requires Awaited(ls, min, [popped] + queue) && a.name in queue' && forall n :: n in queue ==> n in queue'
    ensures Awaited(Fused(ls, k, a), min, queue')
  {
    var ls' := Fused(ls, k, a);
    forall i | 0 <= i < |ls'| && Bad(ls', i, min) ensures ls'[i].name in queue' {
      if i != k {
        var o := if i < k then i else i + 1;
        assert Bad(ls, o, min) && ls[o].name in [popped] + queue;
        assert ls[o].name != ls[k].name && ls[o].name != ls[k + 1].name;
      }
    }
  }

  /** A step of rebalancing: the same structs, in fewer leaves or with less missing. */
  ghost predicate Progress(ls: seq<Leaf>, ls': seq<Leaf>, min: nat) {
    && AllItems(ls') == AllItems(ls)
    && (|ls'| < |ls| || (|ls'| == |ls| && DeficitTo(ls', min, |ls'|) < DeficitTo(ls, min, |ls|)))
  }

  lemma {:induction false} ExchangeProgress(ls: seq<Leaf>, k: nat, a: Leaf, b: Leaf, min: nat)
    requires k + 1 < |ls| && a.items + b.items == ls[k].items + ls[k + 1].items
    requires Deficit(a, min) + Deficit(b, min) < Deficit(ls[k], min) + Deficit(ls[k + 1], min)
    ensures Progress(ls, Exchanged(ls, k, a, b), min)
  {
    PairChanged(ls, k, a, b);
    DeficitOfChange(ls, k, a, b, min, |ls|);
  }

  lemma {:induction false} FuseProgress(ls: seq<Leaf>, k: nat, a: Leaf, min: nat)
    requires k + 1 < |ls| && a.items == ls[k].items + ls[k + 1].items
    ensures Progress(ls, Fused(ls, k, a), min)
  {
    PairMerged(ls, k, a);
  }

  // ---------------------------------------------------------------- removing a range, leaf by leaf

  ghost predicate SameName(ls: seq<Leaf>, ls': seq<Leaf>, i: nat)
    requires i < |ls| && i < |ls'|
  {
    ls'[i].name == ls[i].name
  }

  /** Of `was`, from slot `slot` of leaf `m` on, everything before leaf `j` has been removed;
      the range begins at struct `p` and has been removed up to struct `now`. */
  ghost predicate Removing(was: seq<Leaf>, ls: seq<Leaf>, m: nat, slot: nat, j: nat, p: nat, now: nat) {
    && |ls| == |was| && m <= j < |was| && slot < |was[m].items| && p == |ItemsTo(was, m)| + slot
    && (forall i {:trigger SameName(was, ls, i)} :: 0 <= i < |was| ==> SameName(was, ls, i) && (i < m || j <= i ==> ls[i] == was[i]))
    && now == (if j == m then p else |ItemsTo(was, j)|) && |ItemsTo(ls, j)| == (if j == m then p - slot else p)
    && p <= now <= |AllItems(was)| && AllItems(ls) == Spliced(AllItems(was), p, now, [])
  }

  lemma {:induction false} SpliceTwice<T>(s: seq<T>, p: nat, now: nat, n: nat)
    requires p <= now <= |s| && now + n <= |s|
    ensures Spliced(Spliced(s, p, now, []), p, p + n, []) == Spliced(s, p, now + n, [])
  {
    assert Spliced(s, p, now, []) == s[..p] + s[now..];
    assert (s[..p] + s[now..])[p + n..] == s[now + n..];
  }

  function Without(l: Leaf, start: nat, end: nat): Leaf
    requires start <= end <= |l.items|
  {
    l.(items := Spliced(l.items, start, end, []))
  }

  function StartIn(m: nat, slot: nat, j: nat): nat {
    if j == m then slot else 0
  }

  /** The next leaf loses its part of the range. */
  lemma {:induction false} RemoveInLeaf(was: seq<Leaf>, ls: seq<Leaf>, m: nat, slot: nat, j: nat, p: nat, now: nat, end: nat, l: Leaf)
    requires Removing(was, ls, m, slot, j, p, now) && StartIn(m, slot, j) <= end <= |was[j].items| && l == Without(was[j], StartIn(m, slot, j), end)
    ensures ls[j] == was[j] && now + end - StartIn(m, slot, j) <= |AllItems(was)|
    ensures AllItems(ls[j := l]) == Spliced(AllItems(was), p, now + end - StartIn(m, slot, j), [])
  {
    var start := StartIn(m, slot, j);
    RoomInLeaf(was, ls, m, slot, j, p, now, end);
    SpliceInLeaf(AllItems(was), ls, j, start, end, p, now, l);
  }

  lemma {:induction false} SpliceInLeaf(c: seq<Struct>, ls: seq<Leaf>, j: nat, start: nat, end: nat, p: nat, now: nat, l: Leaf)
    requires j < |ls| && start <= end <= |ls[j].items| && |ItemsTo(ls, j)| + start == p && l == Without(ls[j], start, end)
    requires p <= now && now + end - start <= |c| && AllItems(ls) == Spliced(c, p, now, [])
    ensures AllItems(ls[j := l]) == Spliced(c, p, now + end - start, [])
  {
    SpliceAt(ls, j, start, end, p, l);
    SpliceAgain(c, AllItems(ls), p, now, end - start);
  }

  lemma {:induction false} RoomInLeaf(was: seq<Leaf>, ls: seq<Leaf>, m: nat, slot: nat, j: nat, p: nat, now: nat, end: nat)
    requires Removing(was, ls, m, slot, j, p, now) && StartIn(m, slot, j) <= end <= |was[j].items|
    ensures ls[j] == was[j] && |ItemsTo(ls, j)| + StartIn(m, slot, j) == p
    ensures p <= now && now + end - StartIn(m, slot, j) <= |AllItems(was)|
  {
    assert SameName(was, ls, j);
    ItemsToGrows(was, j + 1, |was|);
    assert ItemsTo(was, j + 1) == ItemsTo(was, j) + was[j].items;
  }

  lemma {:induction false} SpliceAt(ls: seq<Leaf>, j: nat, start: nat, end: nat, p: nat, l: Leaf)
    requires j < |ls| && start <= end <= |ls[j].items| && |ItemsTo(ls, j)| + start == p && l == Without(ls[j], start, end)
    ensures p + end - start <= |AllItems(ls)| && AllItems(ls[j := l]) == Spliced(AllItems(ls), p, p + end - start, [])
  {
    SpliceLeaf(ls, j, start, end, []);
  }

  lemma {:induction false} SpliceAgain(c: seq<Struct>, d: seq<Struct>, p: nat, now: nat, n: nat)
    requires p <= now <= |c| && now + n <= |c| && d == Spliced(c, p, now, [])
    ensures p + n <= |d| && Spliced(d, p, p + n, []) == Spliced(c, p, now + n, [])
  {
    SpliceTwice(c, p, now, n);
  }

  /** A whole rest of a leaf goes: on to the next one. */
  lemma {:induction false} RemoveRestOfLeaf(was: seq<Leaf>, ls: seq<Leaf>, m: nat, slot: nat, j: nat, p: nat, now: nat, l: Leaf)
    requires Removing(was, ls, m, slot, j, p, now) && j + 1 < |was| && StartIn(m, slot, j) <= |was[j].items| && l == Without(was[j], StartIn(m, slot, j), |was[j].items|)
    ensures ls[j] == was[j] && Removing(was, ls[j := l], m, slot, j + 1, p, now + |was[j].items| - StartIn(m, slot, j))
  {
    var ls' := ls[j := l];
    RemoveInLeaf(was, ls, m, slot, j, p, now, |was[j].items|, l);
    forall i | 0 <= i < |was| ensures SameName(was, ls', i) && (i < m || j + 1 <= i ==> ls'[i] == was[i]) { assert SameName(was, ls, i); }
    ItemsBefore(ls, ls', j);
    assert ItemsTo(ls', j + 1) == ItemsTo(ls', j) + l.items;
    assert |l.items| == StartIn(m, slot, j);
  }

  /** The start of the removal. */
  lemma {:induction false} RemovingStarts(ls: seq<Leaf>, m: nat, slot: nat, p: nat)
    requires IsAt(ls, m, slot, p)
    ensures Removing(ls, ls, m, slot, m, p, p)
  {
    AtPosition(ls, m, slot, p);
    forall i | 0 <= i < |ls| ensures SameName(ls, ls, i) { }
    assert Spliced(AllItems(ls), p, p, []) == AllItems(ls);
  }

  lemma {:induction false} RemovingEnds(was: seq<Leaf>, ls: seq<Leaf>, m: nat, slot: nat, n: nat, p: nat, now: nat, t: nat, q: nat)
    requires Removing(was, ls, m, slot, n, p, now) && IsAt(was, n, t, q) && p <= q
    ensures StartIn(m, slot, n) <= t && now + t - StartIn(m, slot, n) == q && q < |AllItems(was)|
  {
    SlotsInOrder(was, m, slot, p, n, t, q);
    AtPosition(was, n, t, q);
  }

  lemma {:induction false} SlotsInOrder(ls: seq<Leaf>, m: nat, s: nat, p: nat, n: nat, t: nat, q: nat)
    requires IsAt(ls, m, s, p) && IsAt(ls, n, t, q) && p <= q
    ensures m <= n && (m == n ==> s <= t)
  {
    if n < m { ItemsToGrows(ls, n + 1, m); }
  }

  /** The leaves from `m` to `n` are noted. */
  ghost predicate Touched(ls: seq<Leaf>, m: nat, n: nat, touched: seq<nat>) {
    n < |ls| && forall i {:trigger ls[i]} :: m <= i <= n ==> ls[i].name in touched
  }

  lemma {:induction false} TouchedNext(ls: seq<Leaf>, m: nat, n: nat, touched: seq<nat>, name: nat)
    requires Touched(ls, m, n, touched) && n + 1 < |ls| && ls[n + 1].name == name
    ensures Touched(ls, m, n + 1, touched + [name])
  {
  }

  /** Only leaves from which something was removed can have become bad. */
  lemma {:induction false} RemovedAwaits(was: seq<Leaf>, ls: seq<Leaf>, m: nat, slot: nat, n: nat, p: nat, now: nat, l: Leaf, min: nat, touched: seq<nat>)
    requires Removing(was, ls, m, slot, n, p, now) && Tight(was, min) && l.name == was[n].name
    requires Touched(was, m, n, touched)
    ensures Awaited(ls[n := l], min, touched)
  {
    var ls' := ls[n := l];
    forall i | 0 <= i < |ls'| && Bad(ls', i, min) ensures ls'[i].name in touched {
      assert SameName(was, ls, i) && !Bad(was, i, min);
      assert m <= i <= n;
    }
  }
}

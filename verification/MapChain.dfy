/** The chain of values a map key has had.  Every item of it was created behind
    the current value with no right origin, so the chain is the preorder of the
    origin tree with siblings in ascending client order, and the last item wins. */
module MapChain {
  import opened Wrappers
  import opened ItemOrder
  import opened Integration
  import opened ConflictScan
  import opened Convergence

  /** The chain of one key at one replica, which of its items are deleted, and for which of
      them a delete was made or heard of here. */
  datatype Key = Key(chain: seq<Item>, deleted: set<Item>, heard: set<Item>)

  /** The item `parentMap[key]` points at. */
  function Current(k: Key): Option<Item> {
    if k.chain == [] then None else Some(k.chain[|k.chain| - 1])
  }

  /** What `typeMapGet` finds. */
  function Value(k: Key): Option<Item> {
    if Current(k).Some? && Current(k).value !in k.deleted then Current(k) else None
  }

  /** The key after `x` was integrated, with `r` as its chain: an item that lands last deletes
      the value on its left, and an item that lands anywhere else deletes itself. */
  function Grown(k: Key, x: Item, r: seq<Item>): Key
    requires r != []
  {
    if r[|r| - 1] == x then Key(r, k.deleted + (if |r| > 1 then {r[|r| - 2]} else {}), k.heard)
    else Key(r, k.deleted + {x}, k.heard)
  }

  /** `integrateWithScratch` for a map item. */
  function IntegrateKey(k: Key, x: Item): Key
    requires x.origin.Some? ==> x.origin.value in k.chain
    requires x.rightOrigin.Some? ==> x.rightOrigin.value in k.chain
  {
    var chain := Integrate(k.chain, x);
    Grown(k, x, chain)
  }

  /** `deleteItemStruct` on purpose or for a delete set. */
  function Hear(k: Key, x: Item): Key {
    k.(deleted := k.deleted + {x}, heard := k.heard + {x})
  }

  /** The item `typeMapSet` creates: behind the current value, nothing on its right. */
  function NewValue(k: Key, client: int, clock: nat): Item {
    NewItem(k.chain, |k.chain|, client, clock)
  }

  // ---------------------------------------------------------------- the shape of a chain

  ghost predicate NoRightOrigins(h: set<Item>) {
    forall x :: x in h ==> x.rightOrigin.None?
  }

  /** Without right origins, siblings are ordered by client id alone. */
  lemma {:induction false} SiblingsByClient(h: set<Item>, a: Item, b: Item)
    requires ValidHistory(h) && NoRightOrigins(h) && a in h && b in h && a != b && a.origin == b.origin
    ensures Before(a, b) <==> a.client < b.client
    ensures a.client != b.client
  {
    assert RightPath(a) == [a] && RightPath(b) == [b];
    SiblingsCompare(a, b);
    SiblingsCompare(b, a);
    SiblingTotal(h, a, b);
  }

  /** An item comes after its origin and before whatever follows the origin's subtree. */
  lemma {:induction false} ChainIsPreorder(h: set<Item>, k: Key, i: nat, j: nat)
    requires Replica(h, k.chain) && NoRightOrigins(h) && i < j < |k.chain|
    ensures IsOn(k.chain[i], k.chain[j]) ||
            exists a, b :: IsOn(a, k.chain[i]) && IsOn(b, k.chain[j]) && a.origin == b.origin && a.client < b.client
  {
    var x, y := k.chain[i], k.chain[j];
    assert Before(x, y);
    var p, q := OriginPath(x), OriginPath(y);
    var n := Common(p, q);
    LexBeforeAt(p, q, n);
    if n < |p| && n < |q| {
      PartAtSiblings(x, y);
      PathsStayInside(Elems(k.chain), x);
      PathsStayInside(Elems(k.chain), y);
      var a, b := p[n], q[n];
      assert a in p && b in q && a in Elems(k.chain) && b in Elems(k.chain);
      SiblingsCompare(a, b);
      SiblingsByClient(h, a, b);
      assert IsOn(a, x) && IsOn(b, y);
    } else {
      assert p[|p| - 1] == x;
      assert n == |p| && q[n - 1] == q[..n][n - 1] == p[..n][n - 1];
    }
  }

  // ---------------------------------------------------------------- one replica

  ghost function AllButLast(l: seq<Item>): set<Item> {
    if l == [] then {} else Elems(l) - {l[|l| - 1]}
  }

  /** A chain a replica can hold: deleted is every item but the last, and what a delete was
      heard of. */
  ghost predicate GoodKey(h: set<Item>, k: Key) {
    && Replica(h, k.chain)
    && NoRightOrigins(h)
    && k.heard <= Elems(k.chain)
    && k.deleted == AllButLast(k.chain) + k.heard
  }

  lemma {:induction false} NotLast(h: set<Item>, l: seq<Item>, i: nat)
    requires Replica(h, l) && i < |l| - 1
    ensures l[i] in AllButLast(l)
  {
    Asymmetric(l[i], l[|l| - 1]);
  }

  lemma {:induction false} LastIsWhere(l: seq<Item>, x: Item, j: nat)
    requires Sorted(l) && IsPlace(l, x, j)
    ensures var r := Insert(l, j, x); r[|r| - 1] == x <==> j == |l|
  {
    if j < |l| { Asymmetric(x, l[|l| - 1]); }
  }

  /** Integrating keeps every item but the last deleted. */
  lemma {:induction false} IntegrateKeyKeeps(h: set<Item>, k: Key, x: Item)
    requires GoodKey(h, k) && Ready(h, k.chain, x)
    ensures GoodKey(h, IntegrateKey(k, x))
    ensures Elems(IntegrateKey(k, x).chain) == Elems(k.chain) + {x}
  {
    IntegrateKeepsReplica(h, k.chain, x);
    IntegrateAtPlace(h, k.chain, x);
    var j: nat :| IsPlace(k.chain, x, j) && Integrate(k.chain, x) == Insert(k.chain, j, x);
    LastIsWhere(k.chain, x, j);
    KeyGrows(k, x, j, Integrate(k.chain, x));
  }

  lemma {:induction false} KeyGrows(k: Key, x: Item, j: nat, r: seq<Item>)
    requires x !in k.chain && j <= |k.chain| && r == Insert(k.chain, j, x) && Elems(r) == Elems(k.chain) + {x}
    requires k.heard <= Elems(k.chain) && k.deleted == AllButLast(k.chain) + k.heard
    ensures var k' := Grown(k, x, r); k'.heard <= Elems(r) && k'.deleted == AllButLast(r) + k'.heard
  {
    AllButLastGrows(k.chain, x, r);
    if j == |k.chain| {
      assert r[|r| - 1] == x;
      assert |r| > 1 ==> r[|r| - 2] == k.chain[|k.chain| - 1];
    } else {
      assert r[|r| - 1] == k.chain[|k.chain| - 1];
    }
  }

  lemma {:induction false} AllButLastGrows(l: seq<Item>, x: Item, r: seq<Item>)
    requires x !in l && r != [] && Elems(r) == Elems(l) + {x}
    ensures r[|r| - 1] == x ==> AllButLast(r) == AllButLast(l) + if l == [] then {} else {l[|l| - 1]}
    ensures l != [] && r[|r| - 1] == l[|l| - 1] ==> AllButLast(r) == AllButLast(l) + {x}
  {
    if l != [] { assert l[|l| - 1] in Elems(l); }
  }

  /** The winner, and all that is deleted on the way, in terms of the order alone. */
  lemma {:induction false} DeletedOnTheWay(h: set<Item>, k: Key, x: Item, y: Item)
    requires GoodKey(h, k) && Ready(h, k.chain, x)
    requires y in IntegrateKey(k, x).deleted && y !in k.deleted
    ensures exists z :: z in IntegrateKey(k, x).chain && Before(y, z)
  {
    IntegrateKeyKeeps(h, k, x);
    var r := Integrate(k.chain, x);
    var last := r[|r| - 1];
    var i := IndexOf(r, y);
    assert Before(r[i], last);
  }

  // ---------------------------------------------------------------- the system

  /** Everything ever set, what users unset on purpose, and the replicas. */
  datatype World = World(history: set<Item>, unset: set<Item>, keys: map<int, Key>)

  datatype Step =
    | Set(client: int, clock: nat)
    | Unset(client: int)
    | DeliverItem(client: int, item: Item)
    | DeliverDelete(client: int, from: int, item: Item)

  ghost predicate Init(s: World) {
    s.history == {} && s.unset == {} && forall c :: c in s.keys ==> s.keys[c] == Key([], {}, {})
  }

  ghost predicate Enabled(s: World, t: Step) {
    && t.client in s.keys
    && match t
       case Set(c, clock) => forall u {:trigger u in s.history} :: u in s.history && u.client == c ==> u.clock < clock
       case Unset(c) => Value(s.keys[c]).Some?
       case DeliverItem(c, x) => Ready(s.history, s.keys[c].chain, x)
       case DeliverDelete(c, d, x) => d in s.keys && x in s.keys[d].deleted && x in s.keys[c].chain
  }

  ghost function Apply(s: World, t: Step): (s': World)
    requires Enabled(s, t)
  {
    match t
    case Set(c, clock) =>
      var k := s.keys[c];
      var x := NewValue(k, c, clock);
      // the new item is the tail: the value before it is deleted
      World(s.history + {x}, s.unset, s.keys[c := Key(k.chain + [x], k.deleted + (if k.chain == [] then {} else {k.chain[|k.chain| - 1]}), k.heard)])
    case Unset(c) =>
      var x := Current(s.keys[c]).value;
      World(s.history, s.unset + {x}, s.keys[c := Hear(s.keys[c], x)])
    case DeliverItem(c, x) => s.(keys := s.keys[c := IntegrateKey(s.keys[c], x)])
    case DeliverDelete(c, d, x) => s.(keys := s.keys[c := Hear(s.keys[c], x)])
  }

  ghost predicate Run(states: seq<World>, steps: seq<Step>) {
    && |states| == |steps| + 1
    && Init(states[0])
    && forall i :: 0 <= i < |steps| ==> Enabled(states[i], steps[i]) && states[i + 1] == Apply(states[i], steps[i])
  }

  /** A deleted item was unset on purpose or has something after it. */
  ghost predicate Superseded(s: World, x: Item) {
    x in s.unset || exists z :: z in s.history && Before(x, z)
  }

  ghost predicate Accounted(s: World, k: Key) {
    forall x :: x in k.deleted ==> Superseded(s, x)
  }

  ghost predicate Good(s: World) {
    && ValidHistory(s.history) && NoRightOrigins(s.history)
    && (forall c {:trigger GoodKey(s.history, s.keys[c])} :: c in s.keys ==> GoodKey(s.history, s.keys[c]))
    && (forall c {:trigger Accounted(s, s.keys[c])} :: c in s.keys ==> Accounted(s, s.keys[c]))
    && (forall c, u {:trigger c in s.keys, u in s.history} :: c in s.keys && u in s.history && u.client == c ==> u in s.keys[c].chain)
  }

  lemma {:induction false} SupersededStays(s: World, s': World, k: Key)
    requires Accounted(s, k) && s.history <= s'.history && s.unset <= s'.unset
    ensures Accounted(s', k)
  {
    forall x | x in k.deleted ensures Superseded(s', x) {
      assert Superseded(s, x);
    }
  }

  lemma {:induction false} SetKeepsGood(s: World, c: int, clock: nat)
    requires Good(s) && Enabled(s, Set(c, clock))
    ensures Good(Apply(s, Set(c, clock)))
  {
    var s' := Apply(s, Set(c, clock));
    var k := s.keys[c];
    var x := NewValue(k, c, clock);
    assert GoodKey(s.history, k);
    SetIsSound(s.history, k, c, clock);
    forall d | d in s'.keys ensures GoodKey(s'.history, s'.keys[d]) {
      assert GoodKey(s.history, s.keys[d]);
      if d != c { ListSurvives(s.history, s.keys[d].chain, x); } else { SetKeyIsGood(s.history, s'.history, k, x); }
    }
    forall d | d in s'.keys ensures Accounted(s', s'.keys[d]) {
      assert Accounted(s, s.keys[d]);
      SupersededStays(s, s', s.keys[d]);
      if d == c && k.chain != [] { SetSupersedes(s', k, x); }
    }
    forall d, u | d in s'.keys && u in s'.history && u.client == d ensures u in s'.keys[d].chain {
      if u != x { assert u in s.keys[d].chain; }
    }
  }

  lemma {:induction false} SetIsSound(h: set<Item>, k: Key, c: int, clock: nat)
    requires GoodKey(h, k) && NextClock(h, k.chain, c, clock)
    ensures var x := NewValue(k, c, clock);
            x !in h && ValidHistory(h + {x}) && NoRightOrigins(h + {x}) && Replica(h + {x}, k.chain + [x])
  {
    var x, n := NewValue(k, c, clock), |k.chain|;
    CreateIsSound(h, k.chain, n, c, clock);
    IntegrateKeepsReplica(h + {x}, k.chain, x);
    AddedLast(k.chain, x);
  }

  lemma {:induction false} AddedLast(l: seq<Item>, x: Item)
    ensures l[..|l|] + [x] + l[|l|..] == l + [x]
  {
  }

  lemma {:induction false} SetKeyIsGood(h: set<Item>, h': set<Item>, k: Key, x: Item)
    requires GoodKey(h, k) && NoRightOrigins(h') && Replica(h', k.chain + [x])
    ensures GoodKey(h', Key(k.chain + [x], k.deleted + (if k.chain == [] then {} else {k.chain[|k.chain| - 1]}), k.heard))
  {
    var r := k.chain + [x];
    forall i | 0 <= i < |k.chain| ensures k.chain[i] != x { assert Before(r[i], r[|k.chain|]); Asymmetric(r[i], r[|k.chain|]); }
    AllButLastGrows(k.chain, x, r);
  }

  lemma {:induction false} SetSupersedes(s: World, k: Key, x: Item)
    requires k.chain != [] && x in s.history && Sorted(k.chain + [x])
    ensures Superseded(s, k.chain[|k.chain| - 1])
  {
    var r := k.chain + [x];
    assert Before(r[|r| - 2], r[|r| - 1]);
  }

  lemma {:induction false} DeliverKeepsGood(s: World, c: int, x: Item)
    requires Good(s) && Enabled(s, DeliverItem(c, x))
    ensures Good(Apply(s, DeliverItem(c, x)))
  {
    var s' := Apply(s, DeliverItem(c, x));
    assert GoodKey(s.history, s.keys[c]) && Accounted(s, s.keys[c]);
    IntegrateKeyKeeps(s.history, s.keys[c], x);
    forall d | d in s'.keys ensures GoodKey(s'.history, s'.keys[d]) && Accounted(s', s'.keys[d]) {
      assert GoodKey(s.history, s.keys[d]) && Accounted(s, s.keys[d]);
      forall y | y in s'.keys[d].deleted ensures Superseded(s', y) {
        if y in s.keys[d].deleted {
          assert Superseded(s, y);
        } else {
          DeletedOnTheWay(s.history, s.keys[c], x, y);
          var z :| z in s'.keys[c].chain && Before(y, z);
          assert z in Elems(s'.keys[c].chain);
        }
      }
    }
    forall d, u | d in s'.keys && u in s'.history && u.client == d ensures u in s'.keys[d].chain {
      assert u in s.keys[d].chain;
      if d == c { assert u in Elems(s.keys[c].chain); }
    }
  }

  lemma {:induction false} DeleteKeepsGood(s: World, t: Step)
    requires Good(s) && Enabled(s, t) && (t.Unset? || t.DeliverDelete?)
    ensures Good(Apply(s, t))
  {
    var s' := Apply(s, t);
    var c := t.client;
    forall d | d in s'.keys ensures GoodKey(s'.history, s'.keys[d]) && Accounted(s', s'.keys[d]) {
      assert GoodKey(s.history, s.keys[d]) && Accounted(s, s.keys[d]);
      SupersededStays(s, s', s.keys[d]);
      if t.DeliverDelete? && d == c {
        assert Accounted(s, s.keys[t.from]) && Superseded(s, t.item);
      }
    }
    forall d, u | d in s'.keys && u in s'.history && u.client == d ensures u in s'.keys[d].chain {
      assert u in s.keys[d].chain;
    }
  }

  lemma {:induction false} RunIsGood(states: seq<World>, steps: seq<Step>, n: nat)
    requires Run(states, steps) && n < |states|
    ensures Good(states[n])
  {
    if n > 0 {
      RunIsGood(states, steps, n - 1);
      var s := states[n - 1];
      match steps[n - 1] {
        case Set(c, clock) => SetKeepsGood(s, c, clock);
        case DeliverItem(c, x) => DeliverKeepsGood(s, c, x);
        case Unset(c) => DeleteKeepsGood(s, Unset(c));
        case DeliverDelete(c, d, x) => DeleteKeepsGood(s, DeliverDelete(c, d, x));
      }
    } else {
      forall c | c in states[0].keys ensures GoodKey(states[0].history, states[0].keys[c]) { }
    }
  }

  /** After any run: at every replica all items but the current one are deleted. */
  lemma {:induction false} OnlyTheLastLives(states: seq<World>, steps: seq<Step>, n: nat, c: int, i: nat)
    requires Run(states, steps) && n < |states| && c in states[n].keys && i + 1 < |states[n].keys[c].chain|
    ensures states[n].keys[c].chain[i] in states[n].keys[c].deleted
  {
    RunIsGood(states, steps, n);
    assert GoodKey(states[n].history, states[n].keys[c]);
    NotLast(states[n].history, states[n].keys[c].chain, i);
  }

  /** After any run: two replicas with the same values of a key have the same chain and the
      same current value; they show the same if they agree on whether it was unset. */
  lemma {:induction false} SameValuesSameWinner(states: seq<World>, steps: seq<Step>, n: nat, c: int, d: int)
    requires Run(states, steps) && n < |states| && c in states[n].keys && d in states[n].keys
    requires Elems(states[n].keys[c].chain) == Elems(states[n].keys[d].chain)
    ensures var k, m := states[n].keys[c], states[n].keys[d];
            && k.chain == m.chain && Current(k) == Current(m)
            && (Current(k).Some? && (Current(k).value in k.heard <==> Current(k).value in m.heard) ==> Value(k) == Value(m))
            && (k.heard == m.heard ==> k.deleted == m.deleted)
  {
    RunIsGood(states, steps, n);
    var k, m := states[n].keys[c], states[n].keys[d];
    assert GoodKey(states[n].history, k) && GoodKey(states[n].history, m);
    SortedUnique(k.chain, m.chain);
  }

  /** After any run: a replica that has every item shows the item that is last in
      the document order, unless a user unset that very item; so two such replicas
      that also heard of that deletion show the same value. */
  lemma {:induction false} WinnerIsDetermined(states: seq<World>, steps: seq<Step>, n: nat, c: int, w: Item)
    requires Run(states, steps) && n < |states| && c in states[n].keys
    requires Elems(states[n].keys[c].chain) == states[n].history
    requires w in states[n].history && forall z :: z in states[n].history && z != w ==> Before(z, w)
    ensures Current(states[n].keys[c]) == Some(w)
    ensures w !in states[n].unset ==> Value(states[n].keys[c]) == Some(w)
    ensures w in states[n].keys[c].deleted ==> Value(states[n].keys[c]) == None
  {
    RunIsGood(states, steps, n);
    var s := states[n];
    var k := s.keys[c];
    assert GoodKey(s.history, k) && Accounted(s, k);
    assert w in Elems(k.chain);
    var last := k.chain[|k.chain| - 1];
    assert last in Elems(k.chain);
    var i := IndexOf(k.chain, w);
    if last != w {
      Asymmetric(last, w);
    }
    if w in k.deleted {
      assert Superseded(s, w);
      forall z | z in s.history ensures !Before(w, z) {
        if z != w { Asymmetric(z, w); } else if Before(w, w) { Asymmetric(w, w); }
      }
    }
  }
}

/** Replicas that create, exchange and integrate items, and the theorem the
    library exists for: replicas holding the same items show the same list. */
module Convergence {
  import opened Wrappers
  import opened ItemOrder
  import opened Integration
  import opened ConflictScan

  // ---------------------------------------------------------------- integrating one item

  function IndexOf(l: seq<Item>, y: Item): (k: nat)
    requires y in l
    ensures k < |l| && l[k] == y
  {
    if l[0] == y then 0 else 1 + IndexOf(l[1..], y)
  }

  /** Where the scan starts and where it has to stop. */
  function Start(l: seq<Item>, x: Item): nat
    requires x.origin.Some? ==> x.origin.value in l
  {
    if x.origin.Some? then IndexOf(l, x.origin.value) + 1 else 0
  }

  function End(l: seq<Item>, x: Item): nat
    requires x.rightOrigin.Some? ==> x.rightOrigin.value in l
  {
    if x.rightOrigin.Some? then IndexOf(l, x.rightOrigin.value) else |l|
  }

  /** `integrateWithScratch` on a list of units. */
  function Integrate(l: seq<Item>, x: Item): seq<Item>
    requires x.origin.Some? ==> x.origin.value in l
    requires x.rightOrigin.Some? ==> x.rightOrigin.value in l
  {
    Insert(l, Scan(l, x, Start(l, x), End(l, x), Start(l, x), Start(l, x)), x)
  }

  lemma {:induction false} StartBeforeEnd(h: set<Item>, l: seq<Item>, x: Item)
    requires Replica(h, l) && Ready(h, l, x)
    ensures Start(l, x) <= End(l, x)
    ensures AfterOrigin(l, x, Start(l, x)) && AtRightOrigin(l, x, End(l, x))
  {
    assert WellCreated(h, x);
    if x.origin.Some? && x.rightOrigin.Some? {
      OrderGivesIndex(l, IndexOf(l, x.origin.value), IndexOf(l, x.rightOrigin.value));
    }
  }

  /** Integration puts the item at its place in the document order. */
  lemma {:induction false} IntegrateAtPlace(h: set<Item>, l: seq<Item>, x: Item)
    requires Replica(h, l) && Ready(h, l, x)
    ensures exists j :: IsPlace(l, x, j) && Integrate(l, x) == Insert(l, j, x)
  {
    StartBeforeEnd(h, l, x);
    var b := Start(l, x);
    ScanIsPlace(h, l, x, b, End(l, x), b, b);
  }

  lemma {:induction false} PlaceUnique(l: seq<Item>, x: Item, i: nat, j: nat)
    requires IsPlace(l, x, i) && IsPlace(l, x, j)
    ensures i == j
  {
    if i < j {
      Asymmetric(l[i], x);
    } else if j < i {
      Asymmetric(l[j], x);
    }
  }

  /** There is only one such place. */
  lemma {:induction false} IntegrateIs(h: set<Item>, l: seq<Item>, x: Item, j: nat)
    requires Replica(h, l) && Ready(h, l, x) && IsPlace(l, x, j)
    ensures Integrate(l, x) == Insert(l, j, x)
  {
    IntegrateAtPlace(h, l, x);
    var i :| IsPlace(l, x, i) && Integrate(l, x) == Insert(l, i, x);
    PlaceUnique(l, x, i, j);
  }

  lemma {:induction false} InsertSorted(l: seq<Item>, x: Item, j: nat)
    requires Sorted(l) && IsPlace(l, x, j)
    ensures Sorted(Insert(l, j, x))
    ensures Elems(Insert(l, j, x)) == Elems(l) + {x}
  {
    var r := Insert(l, j, x);
    forall a, b | 0 <= a < b < |r| ensures Before(r[a], r[b]) {
      var a', b' := if a > j then a - 1 else a, if b > j then b - 1 else b;
      assert a != j ==> r[a] == l[a'];
      assert b != j ==> r[b] == l[b'];
    }
    assert r == l[..j] + [x] + l[j..];
    forall y | y in l ensures y in r {
      var k :| 0 <= k < |l| && l[k] == y;
      assert r[if k < j then k else k + 1] == y;
    }
  }

  /** Integration keeps everything a replica relies on. */
  lemma {:induction false} IntegrateKeepsReplica(h: set<Item>, l: seq<Item>, x: Item)
    requires Replica(h, l) && Ready(h, l, x)
    ensures Replica(h, Integrate(l, x))
    ensures Elems(Integrate(l, x)) == Elems(l) + {x}
  {
    IntegrateAtPlace(h, l, x);
    var j :| IsPlace(l, x, j) && Integrate(l, x) == Insert(l, j, x);
    InsertSorted(l, x, j);
    var r := Integrate(l, x);
    AddedStaysClosed(Elems(l), x);
    forall u, y | u in h && y in r && Earlier(u, y) ensures u in r {
      if y in l { assert u in l; } else { assert y == x; }
      assert u in Elems(l);
    }
  }

  lemma {:induction false} AddedStaysClosed(s: set<Item>, x: Item)
    requires Closed(s) && RefsIn(s, x)
    ensures Closed(s + {x})
  {
    forall y | y in s + {x} ensures RefsIn(s + {x}, y) {
      if y != x { assert RefsIn(s, y); }
    }
  }

  // ---------------------------------------------------------------- sorted lists are determined by their items

  lemma {:induction false} SortedUnique(a: seq<Item>, b: seq<Item>)
    requires Sorted(a) && Sorted(b) && Elems(a) == Elems(b)
    ensures a == b
  {
    assert b != [] ==> b[0] in Elems(b);
    if a != [] {
      assert a[0] in Elems(b);
      assert b != [];
      assert b[0] in Elems(a);
      var i, j := IndexOf(a, b[0]), IndexOf(b, a[0]);
      if i > 0 && j > 0 { Asymmetric(a[0], a[i]); }
      assert a[0] == b[0];
      TailElems(a);
      TailElems(b);
      SortedUnique(a[1..], b[1..]);
      assert a == [a[0]] + a[1..] && b == [b[0]] + b[1..];
    }
  }

  lemma {:induction false} TailElems(a: seq<Item>)
    requires Sorted(a) && a != []
    ensures Sorted(a[1..]) && Elems(a[1..]) == Elems(a) - {a[0]}
  {
    forall y | y in a[1..] ensures y in a && y != a[0] {
      var k :| 0 <= k < |a[1..]| && a[1..][k] == y;
      assert a[k + 1] == y;
      Asymmetric(a[0], a[k + 1]);
    }
    forall y | y in a && y != a[0] ensures y in a[1..] {
      var k :| 0 <= k < |a| && a[k] == y;
      assert a[1..][k - 1] == y;
    }
  }

  // ---------------------------------------------------------------- any delivery order

  /** Each item is ready when its turn comes. */
  ghost predicate Deliverable(h: set<Item>, l: seq<Item>, xs: seq<Item>)
    decreases |xs|
  {
    xs == [] || (Ready(h, l, xs[0]) && Deliverable(h, Integrate(l, xs[0]), xs[1..]))
  }

  ghost function DeliverAll(h: set<Item>, l: seq<Item>, xs: seq<Item>): seq<Item>
    requires Deliverable(h, l, xs)
    decreases |xs|
  {
    if xs == [] then l else DeliverAll(h, Integrate(l, xs[0]), xs[1..])
  }

  lemma {:induction false} DeliverAllKeeps(h: set<Item>, l: seq<Item>, xs: seq<Item>)
    requires Replica(h, l) && Deliverable(h, l, xs)
    ensures Replica(h, DeliverAll(h, l, xs))
    ensures Elems(DeliverAll(h, l, xs)) == Elems(l) + Elems(xs)
    decreases |xs|
  {
    if xs != [] {
      IntegrateKeepsReplica(h, l, xs[0]);
      DeliverAllKeeps(h, Integrate(l, xs[0]), xs[1..]);
      assert Elems(xs) == {xs[0]} + Elems(xs[1..]) by { assert xs == [xs[0]] + xs[1..]; }
    } else {
      assert Elems(l) + Elems(xs) == Elems(l);
    }
  }

  /** Every causally consistent delivery order of the same items gives the same list. */
  lemma {:induction false} DeliveryOrderIsIrrelevant(h: set<Item>, l: seq<Item>, xs: seq<Item>, ys: seq<Item>)
    requires Replica(h, l) && Deliverable(h, l, xs) && Deliverable(h, l, ys)
    requires Elems(xs) == Elems(ys)
    ensures DeliverAll(h, l, xs) == DeliverAll(h, l, ys)
  {
    DeliverAllKeeps(h, l, xs);
    DeliverAllKeeps(h, l, ys);
    SortedUnique(DeliverAll(h, l, xs), DeliverAll(h, l, ys));
  }

  /** Two items that are both ready commute. */
  lemma {:induction false} ConcurrentItemsCommute(h: set<Item>, l: seq<Item>, x: Item, y: Item)
    requires Replica(h, l) && Ready(h, l, x) && Ready(h, l, y) && x != y
    ensures Ready(h, Integrate(l, x), y) && Ready(h, Integrate(l, y), x)
    ensures Integrate(Integrate(l, x), y) == Integrate(Integrate(l, y), x)
  {
    StillReady(h, l, x, y);
    StillReady(h, l, y, x);
    IntegrateKeepsReplica(h, l, x);
    IntegrateKeepsReplica(h, l, y);
    IntegrateKeepsReplica(h, Integrate(l, x), y);
    IntegrateKeepsReplica(h, Integrate(l, y), x);
    SortedUnique(Integrate(Integrate(l, x), y), Integrate(Integrate(l, y), x));
  }

  lemma {:induction false} StillReady(h: set<Item>, l: seq<Item>, x: Item, y: Item)
    requires Replica(h, l) && Ready(h, l, x) && Ready(h, l, y) && x != y
    ensures Ready(h, Integrate(l, x), y)
  {
    IntegrateKeepsReplica(h, l, x);
    var r := Integrate(l, x);
    assert y !in Elems(r);
    forall u | u in h && Earlier(u, y) ensures u in r {
      assert u in Elems(l);
    }
  }

  // ---------------------------------------------------------------- creating an item

  /** The item a replica creates at index `j` of its list. */
  function NewItem(l: seq<Item>, j: nat, client: int, clock: nat): Item
    requires j <= |l|
  {
    Item(client, clock, if j == 0 then None else Some(l[j - 1]), if j == |l| then None else Some(l[j]))
  }

  /** All items of the client are in its own list, and the clock is new. */
  ghost predicate NextClock(h: set<Item>, l: seq<Item>, client: int, clock: nat) {
    forall u {:trigger u in h} :: u in h && u.client == client ==> u in l && u.clock < clock
  }

  lemma {:induction false} NewIsWellCreated(h: set<Item>, l: seq<Item>, j: nat, client: int, clock: nat)
    requires Replica(h, l) && j <= |l| && NextClock(h, l, client, clock)
    ensures WellCreated(h, NewItem(l, j, client, clock))
  {
    var x := NewItem(l, j, client, clock);
    if x.rightOrigin.Some? {
      var r := x.rightOrigin.value;
      if x.origin.None? {
        FirstHasNoOrigin(h, l);
      } else if IsOn(x.origin.value, r) {
        NeighbourIsChild(h, l, j - 1);
      }
    }
    forall u | u in h && EarlierTwin(u, x)
      ensures RightSibling(x).Some? && (x.rightOrigin.value == u || SiblingBefore(x.rightOrigin.value, u))
    {
      assert u in l;
      TwinIsToTheRight(h, l, j, x, u);
    }
  }

  lemma {:induction false} FirstHasNoOrigin(h: set<Item>, l: seq<Item>)
    requires Replica(h, l) && l != []
    ensures l[0].origin.None?
  {
    if l[0].origin.Some? {
      assert RefsIn(Elems(l), l[0]);
      OriginIsBefore(l[0]);
      OrderGivesIndex(l, IndexOf(l, l[0].origin.value), 0);
    }
  }

  /** A right neighbour below its left neighbour is its child. */
  lemma {:induction false} NeighbourIsChild(h: set<Item>, l: seq<Item>, i: nat)
    requires Replica(h, l) && i + 1 < |l| && IsOn(l[i], l[i + 1])
    ensures l[i + 1].origin == Some(l[i])
  {
    var y := l[i + 1];
    Asymmetric(l[i], y);
    var c, k := ChildOnPath(l[i], y);
    PathsStayInside(Elems(l), y);
    OriginIsBefore(c);
    AncestorBefore(y, k);
    var m := IndexOf(l, c);
    OrderGivesIndex(l, i, m);
    if c != y { OrderGivesIndex(l, m, i + 1); }
  }

  /** Below a proper ancestor, the path goes through one of its children. */
  lemma {:induction false} ChildOnPath(a: Item, y: Item) returns (c: Item, k: nat)
    requires IsOn(a, y) && a != y
    ensures k < |OriginPath(y)| && OriginPath(y)[k] == c && c in OriginPath(y) && c.origin == Some(a)
  {
    var p := OriginPath(y);
    var i :| 0 <= i < |p| && p[i] == a;
    assert p[|p| - 1] == y;
    OriginPathStep(y, i + 1);
    c, k := p[i + 1], i + 1;
  }

  lemma {:induction false} TwinIsToTheRight(h: set<Item>, l: seq<Item>, j: nat, x: Item, u: Item)
    requires Replica(h, l) && j <= |l| && x == NewItem(l, j, x.client, x.clock)
    requires u in l && u.origin == x.origin
    ensures RightSibling(x).Some? && (x.rightOrigin.value == u || SiblingBefore(x.rightOrigin.value, u))
  {
    var m := IndexOf(l, u);
    if j > 0 {
      OriginIsBefore(u);
      OrderGivesIndex(l, j - 1, m);
    }
    var r := l[j];
    if r != u {
      assert Before(r, u);
      if j == 0 {
        FirstHasNoOrigin(h, l);
      } else {
        SiblingIsBelow(u, u);
        if !Below(u, r) {
          CompareOutside(u, r, u);
          Asymmetric(r, u);
        }
        BelowIsOn(u, r);
        NeighbourIsChild(h, l, j - 1);
      }
      SiblingsCompare(r, u);
    }
  }

  /** Creating an item extends the history soundly, and the creator's own
      insertion at `j` is what integration would have done. */
  lemma {:induction false} CreateIsSound(h: set<Item>, l: seq<Item>, j: nat, client: int, clock: nat)
    requires Replica(h, l) && j <= |l| && NextClock(h, l, client, clock)
    ensures var x := NewItem(l, j, client, clock);
            && x !in h && ValidHistory(h + {x})
            && Replica(h + {x}, l) && Ready(h + {x}, l, x)
            && Integrate(l, x) == Insert(l, j, x)
  {
    var x := NewItem(l, j, client, clock);
    var h' := h + {x};
    assert x !in h;
    NewIsWellCreated(h, l, j, client, clock);
    HistoryGrows(h, x);
    assert x !in l;
    ListSurvives(h, l, x);
    assert RefsIn(Elems(l), x);
    forall u | u in h' && Earlier(u, x) ensures u in l { assert u in h; }
    StartBeforeEnd(h', l, x);
    SortedIndex(l, j);
    if j > 0 { SortedIndex(l, j - 1); }
  }

  lemma {:induction false} SortedIndex(l: seq<Item>, j: nat)
    requires Sorted(l)
    ensures j < |l| ==> IndexOf(l, l[j]) == j
  {
    if j < |l| && IndexOf(l, l[j]) != j {
      var k := IndexOf(l, l[j]);
      if k < j { Asymmetric(l[k], l[j]); } else { Asymmetric(l[j], l[k]); }
    }
  }

  lemma {:induction false} HistoryGrows(h: set<Item>, x: Item)
    requires ValidHistory(h) && RefsIn(h, x) && WellCreated(h, x)
    requires forall u {:trigger u in h} :: u in h && u.client == x.client ==> u.clock < x.clock
    ensures ValidHistory(h + {x})
  {
    var h' := h + {x};
    AddedStaysClosed(h, x);
    forall y, z | y in h' && z in h' && SameId(y, z) ensures y == z {
      assert (y in h && z in h) || y == x || z == x;
    }
    forall y | y in h' ensures WellCreated(h', y) {
      if y != x { assert y in h && WellCreated(h, y); }
      forall u | u in h' && EarlierTwin(u, y)
        ensures RightSibling(y).Some? && (y.rightOrigin.value == u || SiblingBefore(y.rightOrigin.value, u))
      {
        assert u in h;
      }
    }
  }

  /** A new item does not disturb a list that does not hold it. */
  lemma {:induction false} ListSurvives(h: set<Item>, l: seq<Item>, x: Item)
    requires Replica(h, l) && ValidHistory(h + {x}) && x !in h
    requires forall u {:trigger u in h} :: u in h && u.client == x.client ==> u.clock < x.clock
    ensures Replica(h + {x}, l)
  {
    forall u, y | u in h + {x} && y in l && Earlier(u, y) ensures u in l {
      assert y in h;
      assert u in h;
    }
  }

  // ---------------------------------------------------------------- the system

  /** Everything created so far, and the list of each replica by client id. */
  datatype System = System(history: set<Item>, lists: map<int, seq<Item>>)

  datatype Step =
    | Create(client: int, at: nat, clock: nat)
    | Deliver(client: int, item: Item)

  ghost predicate Init(s: System) {
    s.history == {} && forall c :: c in s.lists ==> s.lists[c] == []
  }

  ghost predicate Enabled(s: System, t: Step) {
    && t.client in s.lists
    && match t
       case Create(c, at, clock) =>
         at <= |s.lists[c]| && forall u {:trigger u in s.history} :: u in s.history && u.client == c ==> u.clock < clock
       case Deliver(c, x) => Ready(s.history, s.lists[c], x)
  }

  ghost function Apply(s: System, t: Step): System
    requires Enabled(s, t)
  {
    match t
    case Create(c, at, clock) =>
      var x := NewItem(s.lists[c], at, c, clock);
      System(s.history + {x}, s.lists[c := Insert(s.lists[c], at, x)])
    case Deliver(c, x) => s.(lists := s.lists[c := Integrate(s.lists[c], x)])
  }

  /** A run: the states after each of the steps. */
  ghost predicate Run(states: seq<System>, steps: seq<Step>) {
    && |states| == |steps| + 1
    && Init(states[0])
    && forall i :: 0 <= i < |steps| ==> Enabled(states[i], steps[i]) && states[i + 1] == Apply(states[i], steps[i])
  }

  /** Each replica's list is sorted and closed, and holds all it created itself. */
  ghost predicate Good(s: System) {
    && ValidHistory(s.history)
    && (forall c {:trigger Replica(s.history, s.lists[c])} :: c in s.lists ==> Replica(s.history, s.lists[c]))
    && (forall c, u {:trigger c in s.lists, u in s.history} ::
          c in s.lists && u in s.history && u.client == c ==> u in s.lists[c])
  }

  lemma {:induction false} DeliverKeepsGood(s: System, c: int, x: Item)
    requires Good(s) && Enabled(s, Deliver(c, x))
    ensures Good(Apply(s, Deliver(c, x)))
  {
    var s' := Apply(s, Deliver(c, x));
    assert Replica(s.history, s.lists[c]);
    IntegrateKeepsReplica(s.history, s.lists[c], x);
    forall d | d in s'.lists ensures Replica(s'.history, s'.lists[d]) {
      if d != c { assert Replica(s.history, s.lists[d]); }
    }
    forall d, u | d in s'.lists && u in s'.history && u.client == d ensures u in s'.lists[d] {
      assert u in s.lists[d];
      if d == c { assert u in Elems(s.lists[c]); }
    }
  }

  lemma {:induction false} CreateKeepsGood(s: System, c: int, at: nat, clock: nat)
    requires Good(s) && Enabled(s, Create(c, at, clock))
    ensures Good(Apply(s, Create(c, at, clock)))
  {
    var s' := Apply(s, Create(c, at, clock));
    var l := s.lists[c];
    var x := NewItem(l, at, c, clock);
    assert Replica(s.history, l);
    CreateIsSound(s.history, l, at, c, clock);
    IntegrateKeepsReplica(s'.history, l, x);
    forall d | d in s'.lists ensures Replica(s'.history, s'.lists[d]) {
      if d != c {
        assert Replica(s.history, s.lists[d]);
        ListSurvives(s.history, s.lists[d], x);
      }
    }
    forall d, u | d in s'.lists && u in s'.history && u.client == d ensures u in s'.lists[d] {
      if u != x {
        assert u in s.history && u in s.lists[d];
        if d == c { assert u in Elems(l); }
      } else {
        assert u in Elems(s'.lists[c]);
      }
    }
  }

  lemma {:induction false} RunIsGood(states: seq<System>, steps: seq<Step>, n: nat)
    requires Run(states, steps) && n < |states|
    ensures Good(states[n])
  {
    if n > 0 {
      RunIsGood(states, steps, n - 1);
      match steps[n - 1] {
        case Create(c, at, clock) => CreateKeepsGood(states[n - 1], c, at, clock);
        case Deliver(c, x) => DeliverKeepsGood(states[n - 1], c, x);
      }
    } else {
      forall c | c in states[0].lists ensures Replica(states[0].history, states[0].lists[c]) { }
    }
  }

  /** Convergence: after any run, replicas that hold the same items hold the same list. */
  lemma {:induction false} ReplicasConverge(states: seq<System>, steps: seq<Step>, n: nat, c: int, d: int)
    requires Run(states, steps) && n < |states|
    requires c in states[n].lists && d in states[n].lists
    requires Elems(states[n].lists[c]) == Elems(states[n].lists[d])
    ensures states[n].lists[c] == states[n].lists[d]
  {
    RunIsGood(states, steps, n);
    var s := states[n];
    assert Replica(s.history, s.lists[c]) && Replica(s.history, s.lists[d]);
    SortedUnique(s.lists[c], s.lists[d]);
  }

  /** Replicas never disagree on the order of two items they both hold. */
  lemma {:induction false} ReplicasAgreeOnOrder(states: seq<System>, steps: seq<Step>, n: nat, c: int, d: int, i: nat, j: nat, i': nat, j': nat)
    requires Run(states, steps) && n < |states|
    requires c in states[n].lists && d in states[n].lists
    requires i < |states[n].lists[c]| && j < |states[n].lists[c]|
    requires i' < |states[n].lists[d]| && j' < |states[n].lists[d]|
    requires states[n].lists[c][i] == states[n].lists[d][i'] && states[n].lists[c][j] == states[n].lists[d][j']
    ensures i < j <==> i' < j'
  {
    RunIsGood(states, steps, n);
    var s := states[n];
    assert Replica(s.history, s.lists[c]) && Replica(s.history, s.lists[d]);
    if i < j { OrderGivesIndex(s.lists[d], i', j'); }
    if i' < j' { OrderGivesIndex(s.lists[c], i, j); }
  }

  /** Every replica shows an item strictly between the neighbours it was typed between. */
  lemma {:induction false} IntentionIsKept(states: seq<System>, steps: seq<Step>, n: nat, c: int, k: nat)
    requires Run(states, steps) && n < |states| && c in states[n].lists && k < |states[n].lists[c]|
    ensures var l := states[n].lists[c]; var x := l[k];
            && (x.origin.Some? ==> exists i :: 0 <= i < k && l[i] == x.origin.value)
            && (x.rightOrigin.Some? ==> exists i :: k < i < |l| && l[i] == x.rightOrigin.value)
  {
    RunIsGood(states, steps, n);
    var s := states[n];
    var l := s.lists[c];
    var x := l[k];
    assert Replica(s.history, l);
    assert x in Elems(l) && RefsIn(Elems(l), x);
    if x.origin.Some? {
      OriginIsBefore(x);
      OrderGivesIndex(l, IndexOf(l, x.origin.value), k);
    }
    if x.rightOrigin.Some? {
      BeforeRightOrigin(s.history, x);
      OrderGivesIndex(l, k, IndexOf(l, x.rightOrigin.value));
    }
  }

  lemma {:induction false} BeforeRightOrigin(h: set<Item>, x: Item)
    requires ValidHistory(h) && x in h && x.rightOrigin.Some?
    ensures Before(x, x.rightOrigin.value)
  {
    assert WellCreated(h, x);
    var r := x.rightOrigin.value;
    if RightSibling(x).Some? {
      BeforeOwnRight(x);
      SiblingsCompare(x, r);
    } else {
      if Below(x, r) { BelowIsOn(x, r); }
      SiblingIsBelow(x, x);
      CompareOutside(x, r, x);
    }
  }
}

/** Integrating an item of several units in one go is integrating its units one
    after another: the code's items and the theory's units tell the same story. */
module RunDelivery {
  import opened ItemOrder
  import opened Integration
  import opened ConflictScan
  import opened Convergence
  import opened RunList

  lemma {:induction false} EarlierUnitBefore(first: Item, s: nat, t: nat)
    requires s < t
    ensures Before(Unit(first, s), Unit(first, t))
  {
    OriginIsBefore(Unit(first, t));
    if s < t - 1 {
      EarlierUnitBefore(first, s, t - 1);
      Transitive(Unit(first, s), Unit(first, t - 1), Unit(first, t));
    }
  }

  /** The list when `t` units have arrived. */
  function Partial(l: seq<Item>, first: Item, p: nat, t: nat): seq<Item>
    requires p <= |l|
  {
    l[..p] + Units(first, t) + l[p..]
  }

  /** The units belong to the history, and none of them is in the list. */
  ghost predicate AllNew(h: set<Item>, l: seq<Item>, first: Item, n: nat) {
    forall k {:trigger Unit(first, k)} :: 0 <= k < n ==> Unit(first, k) in h && Unit(first, k) !in l
  }

  /** The next unit belongs right behind the units that arrived before it. */
  lemma {:induction false} NextUnitPlace(h: set<Item>, l: seq<Item>, first: Item, n: nat, p: nat, t: nat)
    requires Replica(h, l) && IsPlace(l, first, p) && t < n
    requires forall k :: 0 <= k < n ==> Unit(first, k) !in l
    ensures IsPlace(Partial(l, first, p, t), Unit(first, t), p + t)
  {
    var m, x := Partial(l, first, p, t), Unit(first, t);
    UnitsShareThePlace(h, l, first, n, p, t);
    forall k | 0 <= k < |m|
      ensures k < p + t ==> Before(m[k], x)
      ensures k >= p + t ==> Before(x, m[k])
    {
      if k < p {
        assert m[k] == l[k];
      } else if k < p + t {
        UnitsAt(first, t, k - p);
        EarlierUnitBefore(first, k - p, t);
      } else {
        assert m[k] == l[k - t];
      }
    }
  }

  /** The units of an item that is ready become ready one after another. */
  lemma {:induction false} NextUnitReady(h: set<Item>, l: seq<Item>, first: Item, n: nat, p: nat, t: nat)
    requires Replica(h, l) && Ready(h, l, first) && p <= |l| && t < n
    requires AllNew(h, l, first, n)
    ensures Ready(h, Partial(l, first, p, t), Unit(first, t))
  {
    var m, x := Partial(l, first, p, t), Unit(first, t);
    assert m == l[..p] + Units(first, t) + l[p..] && l == l[..p] + l[p..];
    forall y | y in m ensures y != x {
      if y in Units(first, t) {
        var k :| 0 <= k < t && Units(first, t)[k] == y;
        UnitsAt(first, t, k);
      }
    }
    assert forall y :: y in l ==> y in m;
    if t > 0 {
      UnitsAt(first, t, t - 1);
      assert m[p + t - 1] == Unit(first, t - 1);
    }
    forall u | u in h && Earlier(u, x) ensures u in m {
      if u.clock < first.clock {
        assert Earlier(u, first);
      } else {
        var k := u.clock - first.clock;
        assert SameId(u, Unit(first, k));
        UnitsAt(first, t, k);
        assert m[p + k] == u;
      }
    }
  }

  /** Integrating the next unit extends what has arrived. */
  lemma {:induction false} NextUnitIntegrates(h: set<Item>, l: seq<Item>, first: Item, n: nat, p: nat, t: nat)
    requires Replica(h, l) && Ready(h, l, first) && IsPlace(l, first, p) && t < n
    requires AllNew(h, l, first, n)
    requires Replica(h, Partial(l, first, p, t))
    ensures Ready(h, Partial(l, first, p, t), Unit(first, t))
    ensures Integrate(Partial(l, first, p, t), Unit(first, t)) == Partial(l, first, p, t + 1)
  {
    var m, x := Partial(l, first, p, t), Unit(first, t);
    NextUnitReady(h, l, first, n, p, t);
    NextUnitPlace(h, l, first, n, p, t);
    IntegrateIs(h, m, x, p + t);
    NextPartial(l, first, p, t);
  }

  lemma {:induction false} NextPartial(l: seq<Item>, first: Item, p: nat, t: nat)
    requires p <= |l|
    ensures p + t <= |Partial(l, first, p, t)| && Insert(Partial(l, first, p, t), p + t, Unit(first, t)) == Partial(l, first, p, t + 1)
  {
  }

  lemma {:induction false} PartialIsReplica(h: set<Item>, l: seq<Item>, first: Item, n: nat, p: nat, t: nat)
    requires Replica(h, l) && Ready(h, l, first) && IsPlace(l, first, p) && t <= n && AllNew(h, l, first, n)
    ensures Replica(h, Partial(l, first, p, t))
  {
    if t == 0 {
      assert Partial(l, first, p, 0) == l;
    } else {
      PartialIsReplica(h, l, first, n, p, t - 1);
      NextUnitIntegrates(h, l, first, n, p, t - 1);
      IntegrateKeepsReplica(h, Partial(l, first, p, t - 1), Unit(first, t - 1));
    }
  }

  /** Integrating unit `t` leads to the next list. */
  ghost predicate Leads(h: set<Item>, l: seq<Item>, first: Item, p: nat, t: nat)
    requires p <= |l|
  {
    Ready(h, Partial(l, first, p, t), Unit(first, t)) && Integrate(Partial(l, first, p, t), Unit(first, t)) == Partial(l, first, p, t + 1)
  }

  lemma {:induction false} UnitLeads(h: set<Item>, l: seq<Item>, first: Item, n: nat, p: nat, t: nat)
    requires Replica(h, l) && Ready(h, l, first) && IsPlace(l, first, p) && t < n && AllNew(h, l, first, n)
    ensures Leads(h, l, first, p, t)
  {
    PartialIsReplica(h, l, first, n, p, t);
    NextUnitIntegrates(h, l, first, n, p, t);
  }

  lemma {:induction false} RestOfUnits(first: Item, n: nat, t: nat)
    requires t < n
    ensures Units(first, n)[t..][0] == Unit(first, t) && Units(first, n)[t..][1..] == Units(first, n)[t + 1..]
  {
    UnitsAt(first, n, t);
  }

  lemma {:induction false} DeliverFrom(h: set<Item>, l: seq<Item>, first: Item, n: nat, p: nat, t: nat)
    requires p <= |l| && t <= n && forall k: nat {:trigger Leads(h, l, first, p, k)} :: k < n ==> Leads(h, l, first, p, k)
    ensures Deliverable(h, Partial(l, first, p, t), Units(first, n)[t..])
    ensures DeliverAll(h, Partial(l, first, p, t), Units(first, n)[t..]) == Partial(l, first, p, n)
    decreases n - t
  {
    if t < n {
      assert Leads(h, l, first, p, t);
      RestOfUnits(first, n, t);
      DeliverFrom(h, l, first, n, p, t + 1);
    } else {
      assert Units(first, n)[t..] == [];
    }
  }

  /** Inserting a whole item at the place of its first unit is delivering its units. */
  lemma {:induction false} ItemIsItsUnits(h: set<Item>, l: seq<Item>, first: Item, n: nat, p: nat)
    requires Replica(h, l) && Ready(h, l, first) && IsPlace(l, first, p)
    requires forall k :: 0 <= k < n ==> Unit(first, k) in h
    ensures Deliverable(h, l, Units(first, n))
    ensures DeliverAll(h, l, Units(first, n)) == l[..p] + Units(first, n) + l[p..]
    ensures Replica(h, l[..p] + Units(first, n) + l[p..])
  {
    forall k | 0 <= k < n ensures Unit(first, k) !in l {
      assert k > 0 ==> Earlier(first, Unit(first, k));
    }
    forall t: nat | t < n ensures Leads(h, l, first, p, t) { UnitLeads(h, l, first, n, p, t); }
    DeliverFrom(h, l, first, n, p, 0);
    assert Partial(l, first, p, 0) == l && Units(first, n)[0..] == Units(first, n);
    PartialIsReplica(h, l, first, n, p, n);
  }

  /** So the list of runs that `ListType.Integrate` leaves holds exactly what
      delivering the item's units would have given. */
  lemma {:induction false} IntegratedRuns(h: set<Item>, runs: seq<Run>, r: Run, j: nat)
    requires Replica(h, Flat(runs)) && Ready(h, Flat(runs), r.first) && j <= |runs|
    requires forall k :: 0 <= k < r.len ==> Unit(r.first, k) in h
    requires Offset(runs, j) <= |Flat(runs)| && IsPlace(Flat(runs), r.first, Offset(runs, j))
    ensures Deliverable(h, Flat(runs), Units(r.first, r.len))
    ensures Flat(InsertRun(runs, j, r)) == DeliverAll(h, Flat(runs), Units(r.first, r.len))
    ensures Replica(h, Flat(InsertRun(runs, j, r)))
  {
    FlatInsert(runs, j, r);
    ItemIsItsUnits(h, Flat(runs), r.first, r.len, Offset(runs, j));
  }
}

/** When the pending structs are tried again: what a retry can integrate, and what the test
    of the missing clocks that triggers it can tell about that. */
module Retry {
  import opened Wrappers
  import opened Scheduler

  /** What the store has a unit of has what it depends on there, as everything that was
      integrated has. */
  ghost predicate Grounded(store: Store, u: Update) {
    forall c, k, d {:trigger Lacks(store, u[c][k], d)} :: c in u && 0 <= k < |u[c]| && u[c][k].clock < GetState(store, c) ==> !Lacks(store, u[c][k], d)
  }

  /** The first struct of a client that the store does not cover. */
  ghost predicate IsNext(store: Store, q: seq<Struct>, k: nat) {
    k < |q| && !Done(store, q[k]) && forall j {:trigger q[j]} :: 0 <= j < k ==> Done(store, q[j])
  }

  /** Every client's next struct has to wait. */
  ghost predicate AllStuck(store: Store, u: Update) {
    forall c, k: nat {:trigger IsNext(store, u[c], k)} :: c in u && IsNext(store, u[c], k) ==> Stuck(store, u[c][k])
  }

  lemma {:induction false} FirstOfLog(init: Store, log: seq<Struct>, store: Store)
    requires Logged(init, log, store) && log != []
    ensures log[0].clock == GetState(init, log[0].client) && log[0].len > 0 && forall d :: !Lacks(init, log[0], d)
    decreases |log|
  {
    var n := |log| - 1;
    var x := log[n];
    var before :| Logged(init, log[..n], before) && x.clock == GetState(before, x.client) && x.len > 0 &&
                  (forall d :: !Lacks(before, x, d)) && AddStruct(before, x) == Some(store);
    if n > 0 { FirstOfLog(init, log[..n], before); }
  }

  /** The first struct that is integrated was some client's next one, and did not have to wait. */
  lemma {:induction false} FirstWasNext(init: Store, u: Update, log: seq<Struct>, store: Store) returns (c: int, k: nat)
    requires WellFormed(u) && Logged(init, log, store) && Stems(u, log) && log != []
    ensures c in u && IsNext(init, u[c], k) && !Stuck(init, u[c][k])
  {
    FirstOfLog(init, log, store);
    var y := log[0];
    assert IsFrom(u, y);
    var x :| IsPart(u, x, y);
    c := y.client;
    k :| 0 <= k < |u[c]| && u[c][k] == x;
    forall d ensures !Lacks(init, x, d) { assert Lacks(init, x, d) ==> Lacks(init, y, d); }
    LacksIsRefs(init, x);
    forall j | 0 <= j < k ensures Done(init, u[c][j]) { assert u[c][j].clock + u[c][j].len <= u[c][k].clock; }
  }

  /** If nothing is integrated, every client's next struct had to wait. */
  lemma {:induction false} NothingMeansStuck(store: Store, u: Update, rest: Update, c: int, k: nat)
    requires WellFormed(u) && Grounded(store, u) && rest.Keys <= u.Keys && c in u && Settled(u, store, rest, c)
    requires (c in rest ==> rest[c] != [] && Stuck(store, rest[c][0])) && IsNext(store, u[c], k)
    ensures Stuck(store, u[c][k])
  {
    if c in rest {
      var m := |u[c]| - |rest[c]|;
      assert rest[c][0] == u[c][m];
      StuckIsNotDone(store, u, c, m);
      OneNext(store, u[c], m, k);
    }
  }

  lemma {:induction false} StuckIsNotDone(store: Store, u: Update, c: int, k: nat)
    requires WellFormed(u) && Grounded(store, u) && c in u && k < |u[c]| && Stuck(store, u[c][k])
    ensures !Done(store, u[c][k])
  {
    var x := u[c][k];
    LacksIsRefs(store, x);
    if d :| Lacks(store, x, d) { assert Lacks(store, u[c][k], d); }
  }

  lemma {:induction false} OneNext(store: Store, q: seq<Struct>, j: nat, k: nat)
    requires IsNext(store, q, j) && IsNext(store, q, k)
    ensures j == k
  {
  }

  /** A retry integrates nothing if and only if every client's next pending struct still has
      to wait. */
  lemma {:induction false} RetryIsFutile(store: Store, u: Update, log: seq<Struct>, store': Store, rest: Update)
    requires WellFormed(u) && Grounded(store, u) && Logged(store, log, store') && Stems(u, log) && rest.Keys <= u.Keys
    requires (forall c :: c in u ==> Settled(u, store', rest, c)) && forall c :: c in rest ==> rest[c] != [] && Stuck(store', rest[c][0])
    ensures log == [] <==> AllStuck(store, u)
  {
    if log == [] {
      forall c, k: nat | c in u && IsNext(store, u[c], k) ensures Stuck(store, u[c][k]) { NothingMeansStuck(store, u, rest, c, k); }
    } else {
      var c, k := FirstWasNext(store, u, log, store');
    }
  }

  // ---------------------------------------------------------------- the test of the missing clocks

  /** The test in `readUpdateV2` that triggers a retry fails: no client has passed its missing clock. */
  ghost predicate NonePassed(missing: map<int, int>, store: Store) {
    forall c {:trigger c in missing} :: c in missing ==> GetState(store, c) <= missing[c]
  }

  /** The store has grown. */
  ghost predicate Grown(store: Store, later: Store) {
    forall c {:trigger GetState(later, c)} :: GetState(store, c) <= GetState(later, c)
  }

  /** `d` is at or behind the first pending struct of another client. */
  predicate Behind(pending: Update, c: int, d: Id) {
    d.client != c && d.client in pending && pending[d.client] != [] && pending[d.client][0].clock <= d.clock
  }

  /** Queues that are not empty and do not begin with a Skip. */
  ghost predicate Tidy(pending: Update) {
    forall c {:trigger pending[c]} :: c in pending ==> pending[c] != [] && pending[c][0].client == c && !pending[c][0].kind.Skip?
  }

  /** The client's first pending struct waits for something that is noted as missing, or that
      cannot come before another pending struct does. */
  ghost predicate KeptBackBy(store: Store, pending: Update, missing: map<int, int>, c: int, d: Id)
    requires c in pending && pending[c] != []
  {
    HeldUp(store, pending[c][0], d) && (IsMissing(missing, d) || Behind(pending, c, d))
  }

  ghost predicate KeptBack(store: Store, pending: Update, missing: map<int, int>, c: int)
    requires c in pending && pending[c] != []
  {
    exists d :: KeptBackBy(store, pending, missing, c, d)
  }

  /** The store has not come to the client's first pending struct, and that has to wait. */
  ghost predicate Waiting(store: Store, pending: Update, c: int)
    requires c in pending && pending[c] != []
  {
    GetState(store, c) <= pending[c][0].clock && Stuck(store, pending[c][0])
  }

  /** What is missing is not there later, either. */
  lemma {:induction false} StillHeldUp(store: Store, later: Store, pending: Update, c: int, d: Id)
    requires c in pending && pending[c] != [] && pending[c][0].client == c && !pending[c][0].kind.Skip? && Grounded(later, pending)
    requires HeldUp(store, pending[c][0], d) && d.clock >= GetState(later, d.client)
    ensures Waiting(later, pending, c)
  {
    var x := pending[c][0];
    if Lacks(store, x, d) {
      assert Lacks(later, x, d);
      assert Lacks(later, pending[c][0], d);
    }
  }

  lemma {:induction false} ClientStillWaits(store: Store, later: Store, pending: Update, missing: map<int, int>, time: Id -> int, c: int, n: nat)
    requires WellFormed(pending) && Acyclic(pending, time) && Tidy(pending) && AllKeptBack(store, pending, missing)
    requires Grounded(later, pending) && NonePassed(missing, later)
    requires c in pending && n == |Earlier(pending, time, c)|
    ensures Waiting(later, pending, c)
    decreases n
  {
    assert KeptBack(store, pending, missing, c);
    var d :| KeptBackBy(store, pending, missing, c, d);
    if !IsMissing(missing, d) {
      var e := d.client;
      HeadIsEarlier(pending, time, c, e, d);
      ClientStillWaits(store, later, pending, missing, time, e, |Earlier(pending, time, e)|);
    }
    StillHeldUp(store, later, pending, c, d);
  }

  /** The clients whose first pending struct is earlier. */
  ghost function Earlier(pending: Update, time: Id -> int, c: int): set<int>
    requires c in pending && pending[c] != []
  {
    set e | e in pending && pending[e] != [] && Moment(time, pending[e][0]) < Moment(time, pending[c][0])
  }

  lemma {:induction false} HeadIsEarlier(pending: Update, time: Id -> int, c: int, e: int, d: Id)
    requires WellFormed(pending) && Acyclic(pending, time) && c in pending && pending[c] != [] && e in pending && pending[e] != []
    requires DependsOn(pending[c][0], d) && d.client == e != c && pending[e][0].clock <= d.clock
    ensures |Earlier(pending, time, e)| < |Earlier(pending, time, c)|
  {
    assert pending[c][0].client == c && pending[e][0].client == e;
    EarlierMoment(pending, time, c, 0, d, pending[e][0].clock);
    var a, b := Earlier(pending, time, e), Earlier(pending, time, c);
    assert e in b && e !in a && a <= b;
    SmallerSet(a, b);
  }

  lemma {:induction false} SmallerSet(a: set<int>, b: set<int>)
    requires a < b
    ensures |a| < |b|
  {
    assert b == a + (b - a);
    assert b - a != {};
    assert |b| == |a| + |b - a|;
  }

  ghost predicate AllKeptBack(store: Store, pending: Update, missing: map<int, int>)
    requires Tidy(pending)
  {
    forall c {:trigger KeptBack(store, pending, missing, c)} :: c in pending ==> KeptBack(store, pending, missing, c)
  }

  /** While no client has passed its missing clock, nothing of that can be integrated. */
  lemma {:induction false} KeptBackIsStuck(store: Store, later: Store, pending: Update, missing: map<int, int>, time: Id -> int)
    requires WellFormed(pending) && Acyclic(pending, time) && Tidy(pending) && AllKeptBack(store, pending, missing)
    requires Grounded(later, pending) && NonePassed(missing, later)
    ensures AllStuck(later, pending)
  {
    forall c, k: nat | c in pending && IsNext(later, pending[c], k) ensures Stuck(later, pending[c][k]) {
      ClientStillWaits(store, later, pending, missing, time, c, |Earlier(pending, time, c)|);
      var x := pending[c][0];
      assert x.client == c && x.len > 0 && !Done(later, x);
    }
  }

  // ---------------------------------------------------------------- and only while that is so

  /** The store with `d`, if `x` waits for it. */
  function With(store: Store, x: Struct, now: Store, d: Option<Id>): Store {
    if d.Some? && HeldUp(store, x, d.value) && GetState(now, d.value.client) <= d.value.clock then now[d.value.client := d.value.clock + 1] else now
  }

  /** The client's state is the old one, or it has just passed something that `x` waits for. */
  ghost predicate RaisedFor(store: Store, x: Struct, now: Store, c: int) {
    GetState(now, c) == GetState(store, c) || exists d :: HeldUp(store, x, d) && d.client == c && GetState(now, c) == d.clock + 1
  }

  ghost predicate Raised(store: Store, x: Struct, now: Store) {
    Grown(store, now) && forall c {:trigger GetState(now, c)} :: RaisedFor(store, x, now, c)
  }

  lemma {:induction false} WithRaises(store: Store, x: Struct, now: Store, d: Option<Id>)
    requires Raised(store, x, now)
    ensures Raised(store, x, With(store, x, now, d)) && Grown(now, With(store, x, now, d))
    ensures d.Some? && HeldUp(store, x, d.value) ==> d.value.clock < GetState(With(store, x, now, d), d.value.client)
  {
    var later := With(store, x, now, d);
    forall c ensures RaisedFor(store, x, later, c) && GetState(store, c) <= GetState(now, c) <= GetState(later, c) {
      assert RaisedFor(store, x, now, c);
    }
  }

  /** The unit before a struct. */
  function UnitBefore(x: Struct): Option<Id> {
    if x.clock > 0 then Some(Id(x.client, x.clock - 1)) else None
  }

  /** A store with all that `x` waits for, and nothing else. */
  lemma {:induction false} Supplied(store: Store, x: Struct) returns (later: Store)
    ensures Raised(store, x, later) && forall d :: HeldUp(store, x, d) ==> d.clock < GetState(later, d.client)
  {
    var a := With(store, x, store, UnitBefore(x));
    var b := With(store, x, a, x.origin);
    var c := With(store, x, b, x.rightOrigin);
    later := With(store, x, c, x.parent);
    forall e ensures RaisedFor(store, x, store, e) { }
    WithRaises(store, x, store, UnitBefore(x));
    WithRaises(store, x, a, x.origin);
    WithRaises(store, x, b, x.rightOrigin);
    WithRaises(store, x, c, x.parent);
    forall d | HeldUp(store, x, d) ensures d.clock < GetState(later, d.client) {
      OneOfFour(store, x, d);
      StaysCovered(a, b, d);
      StaysCovered(b, c, d);
      StaysCovered(c, later, d);
    }
  }

  lemma {:induction false} OneOfFour(store: Store, x: Struct, d: Id)
    requires HeldUp(store, x, d)
    ensures UnitBefore(x) == Some(d) || x.origin == Some(d) || x.rightOrigin == Some(d) || x.parent == Some(d)
  {
  }

  lemma {:induction false} StaysCovered(now: Store, later: Store, d: Id)
    requires Grown(now, later)
    ensures d.clock < GetState(now, d.client) ==> d.clock < GetState(later, d.client)
  {
    assert GetState(now, d.client) <= GetState(later, d.client);
  }

  /** If nothing keeps a client's first pending struct back, a store can come about in which it
      could be integrated, with no client past its missing clock. */
  lemma {:induction false} FreeCanBeMissed(store: Store, pending: Update, missing: map<int, int>, c: int) returns (later: Store)
    requires WellFormed(pending) && Tidy(pending) && Grounded(store, pending) && NonePassed(missing, store)
    requires c in pending && Waiting(store, pending, c) && !KeptBack(store, pending, missing, c)
    ensures Grown(store, later) && Grounded(later, pending) && NonePassed(missing, later) && !AllStuck(later, pending)
  {
    var x := pending[c][0];
    later := Supplied(store, x);
    forall e | e in missing ensures GetState(later, e) <= missing[e] {
      assert RaisedFor(store, x, later, e);
      if GetState(later, e) != GetState(store, e) {
        var d :| HeldUp(store, x, d) && d.client == e && GetState(later, e) == d.clock + 1;
        assert !KeptBackBy(store, pending, missing, c, d);
      }
    }
    forall e, k, d | e in pending && 0 <= k < |pending[e]| && pending[e][k].clock < GetState(later, e) ensures !Lacks(later, pending[e][k], d) {
      SupplyIsGrounded(store, later, pending, missing, c, e, k, d);
    }
    SuppliedIsNext(store, later, pending, c);
  }

  lemma {:induction false} SupplyIsGrounded(store: Store, later: Store, pending: Update, missing: map<int, int>, c: int, e: int, k: nat, d: Id)
    requires WellFormed(pending) && Tidy(pending) && Grounded(store, pending) && c in pending && !KeptBack(store, pending, missing, c)
    requires Raised(store, pending[c][0], later) && e in pending && k < |pending[e]| && pending[e][k].clock < GetState(later, e)
    ensures !Lacks(later, pending[e][k], d)
  {
    SupplyEndsBefore(store, later, pending, missing, c, e);
    HeadIsFirst(pending, e, k);
    assert !Lacks(store, pending[e][k], d);
    assert GetState(store, d.client) <= GetState(later, d.client);
  }

  lemma {:induction false} SupplyEndsBefore(store: Store, later: Store, pending: Update, missing: map<int, int>, c: int, e: int)
    requires Tidy(pending) && c in pending && !KeptBack(store, pending, missing, c) && Raised(store, pending[c][0], later) && e in pending
    ensures GetState(later, e) == GetState(store, e) || GetState(later, e) <= pending[e][0].clock
  {
    var x := pending[c][0];
    assert RaisedFor(store, x, later, e);
    if GetState(later, e) != GetState(store, e) {
      var r :| HeldUp(store, x, r) && r.client == e && GetState(later, e) == r.clock + 1;
      assert !KeptBackBy(store, pending, missing, c, r);
    }
  }

  lemma {:induction false} HeadIsFirst(pending: Update, c: int, k: nat)
    requires WellFormed(pending) && c in pending && k < |pending[c]|
    ensures pending[c][0].clock <= pending[c][k].clock
  {
  }

  lemma {:induction false} SuppliedIsNext(store: Store, later: Store, pending: Update, c: int)
    requires WellFormed(pending) && Tidy(pending) && c in pending && Waiting(store, pending, c) && Raised(store, pending[c][0], later)
    requires forall d :: HeldUp(store, pending[c][0], d) ==> d.clock < GetState(later, d.client)
    ensures !AllStuck(later, pending)
  {
    var x := pending[c][0];
    assert RaisedFor(store, x, later, c);
    assert GetState(later, c) == x.clock by {
      if GetState(store, c) < x.clock {
        assert HeldUp(store, x, Id(c, x.clock - 1));
      }
    }
    forall d ensures !Lacks(later, x, d) {
      assert GetState(store, d.client) <= GetState(later, d.client);
      if Lacks(later, x, d) { assert HeldUp(store, x, d); }
    }
    assert IsNext(later, pending[c], 0);
  }

  /** A later store for which the test does not trigger a retry. */
  ghost predicate Untriggered(store: Store, later: Store, pending: Update, missing: map<int, int>) {
    Grown(store, later) && Grounded(later, pending) && NonePassed(missing, later)
  }

  /** The test of the missing clocks misses no retry, whatever arrives, if and only if every
      client's first pending struct waits for something that is noted as missing, or for
      something at or behind another client's first pending struct. */
  lemma {:induction false} TestIsEnough(store: Store, pending: Update, missing: map<int, int>, time: Id -> int)
    requires WellFormed(pending) && Acyclic(pending, time) && Tidy(pending) && Grounded(store, pending) && NonePassed(missing, store)
    requires forall c :: c in pending ==> Waiting(store, pending, c)
    ensures AllKeptBack(store, pending, missing) <==>
            forall later {:trigger AllStuck(later, pending)} :: Untriggered(store, later, pending, missing) ==> AllStuck(later, pending)
  {
    if AllKeptBack(store, pending, missing) {
      forall later | Untriggered(store, later, pending, missing) ensures AllStuck(later, pending) {
        KeptBackIsStuck(store, later, pending, missing, time);
      }
    } else {
      var c :| c in pending && !KeptBack(store, pending, missing, c);
      var later := FreeCanBeMissed(store, pending, missing, c);
      assert Untriggered(store, later, pending, missing) && !AllStuck(later, pending);
    }
  }

  /** `integrateStructs` leaves its pending structs as the test needs them, with the one
      exception: a struct may wait for a unit before another client's first pending struct. */
  lemma {:induction false} LeftByIntegration(store: Store, rest: Update, missing: map<int, int>)
    requires WellFormed(rest) && Grounded(store, rest) && (forall c :: c in rest ==> OnRecord(store, rest, missing, c)) && forall c :: c in missing ==> missing[c] >= GetState(store, c)
    ensures Tidy(rest) && NonePassed(missing, store) && forall c :: c in rest ==> Waiting(store, rest, c)
    ensures (forall c, d {:trigger Lacks(store, rest[c][0], d)} :: c in rest && Lacks(store, rest[c][0], d) && d.client in rest ==> rest[d.client][0].clock <= d.clock) ==>
            AllKeptBack(store, rest, missing)
  {
    forall c | c in rest ensures rest[c] != [] && rest[c][0].client == c && Waiting(store, rest, c) {
      assert OnRecord(store, rest, missing, c);
      var d :| HeldUp(store, rest[c][0], d) && Noted(rest, missing, rest[c][0], d);
      StillHeldUp(store, store, rest, c, d);
    }
    if forall c, d {:trigger Lacks(store, rest[c][0], d)} :: c in rest && Lacks(store, rest[c][0], d) && d.client in rest ==> rest[d.client][0].clock <= d.clock {
      forall c | c in rest ensures KeptBack(store, rest, missing, c) {
        assert OnRecord(store, rest, missing, c);
        var d :| HeldUp(store, rest[c][0], d) && Noted(rest, missing, rest[c][0], d);
        assert KeptBackBy(store, rest, missing, c, d);
      }
    }
  }

  // ---------------------------------------------------------------- a retry that is missed

  /** Client 1's struct starts behind a gap. */
  const Late: Struct := Struct(Content, 1, 5, 1, None, None, None)

  /** Client 2's struct was typed behind client 1's first unit. */
  const Follower: Struct := Struct(Content, 2, 0, 1, Some(Id(1, 0)), None, None)

  const Example: Update := map[1 := [Late], 2 := [Follower]]

  function Took(): Sched {
    Sched(map[], map[1 := Queue(0, [Late]), 2 := Queue(1, [Follower])], [1, 2], Some(2), [], Some(Follower), map[], map[], [])
  }

  function Pushed(): Sched {
    Took().(refs := map[1 := Queue(1, [Late]), 2 := Queue(1, [Follower])], stack := [Follower], head := Some(Late))
  }

  function GaveUp(): Sched {
    Sched(map[], map[], [], Some(2), [], None, Example, map[1 := 4], [])
  }

  lemma {:induction false} ExampleStarts(s: Sched)
    requires s == Begin(map[], Example, [1, 2])
    ensures Step(s, Took())
  {
    var t := s.(cur := Some(2));
    assert t == s.(ids := t.ids, cur := t.cur);
    assert s.(ids := t.ids) == s;
    assert Remaining(t, 2) && NextOf(t, 2) == Follower;
    assert Bump(t, 2) == map[1 := Queue(0, [Late]), 2 := Queue(1, [Follower])];
    assert Took() == Take(t, 2);
  }

  lemma {:induction false} ExampleAwaits()
    ensures Step(Took(), Pushed())
  {
    var s := Took();
    assert LacksRef(s.store, Follower, Follower.origin);
    assert Remaining(s, 1) && NextOf(s, 1) == Late;
    assert Bump(s, 1) == map[1 := Queue(1, [Late]), 2 := Queue(1, [Follower])];
    assert Pushed() == Await(s, 1);
  }

  lemma {:induction false} ExampleGivesUp()
    ensures Step(Pushed(), GaveUp())
  {
    var s := Pushed();
    var p, d := Push(s), GaveUp().(missing := map[]);
    assert p.stack == [Follower, Late];
    assert Has(p.stack, 1) by { assert p.stack[1].client == 1; }
    assert Has(p.stack, 2) by { assert p.stack[0].client == 2; }
    forall c ensures Moved(p, p.stack, d.refs, d.rest, d.ids, c) { }
    assert Dumped(p, d);
    assert GaveUp() == d.(missing := UpdateMissing(d.missing, 1, 4));
    assert GivenUp(s, GaveUp(), 1, 4);
  }

  lemma {:induction false} ExampleEnds()
    ensures Step(GaveUp(), GaveUp().(cur := None)) && Exhausted(GaveUp().(cur := None))
  {
    var s := GaveUp();
    var t := s.(cur := None);
    assert t == s.(ids := t.ids, cur := t.cur) && s.(ids := t.ids) == s;
  }

  lemma {:induction false} ExampleRun() returns (trace: seq<Sched>)
    ensures Run(map[], Example, [1, 2], trace) && trace[|trace| - 1] == GaveUp().(cur := None)
  {
    var s := Begin(map[], Example, [1, 2]);
    trace := [s];
    ExampleStarts(s);
    RunGoesOn(map[], Example, [1, 2], trace, s, Took());
    trace := trace + [Took()];
    ExampleAwaits();
    RunGoesOn(map[], Example, [1, 2], trace, Took(), Pushed());
    trace := trace + [Pushed()];
    ExampleGivesUp();
    RunGoesOn(map[], Example, [1, 2], trace, Pushed(), GaveUp());
    trace := trace + [GaveUp()];
    ExampleEnds();
    RunGoesOn(map[], Example, [1, 2], trace, GaveUp(), GaveUp().(cur := None));
    trace := trace + [GaveUp().(cur := None)];
  }

  /** Client 2's struct comes after the unit it depends on. */
  lemma {:induction false} ExampleIsSound(time: Id -> int)
    requires forall id {:trigger time(id)} :: time(id) == 2 * id.clock + id.client
    ensures WellFormed(Example) && Acyclic(Example, time)
  {
  }

  lemma {:induction false} ExampleCouldGoOn(later: Store)
    requires later == map[1 := 3]
    ensures Grown(map[], later) && Grounded(later, Example) && NonePassed(map[1 := 4], later) && !AllStuck(later, Example)
  {
    assert IsNext(later, Example[2], 0) && !Stuck(later, Example[2][0]);
  }

  /** The test can miss a retry.  Client 2's struct waits for client 1's unit 0 when client 1's
      own struct, of clock 5, turns out to lie behind a gap: clock 4 is noted as missing, and
      nothing of unit 0.  When units 0 to 2 arrive, client 2's struct could be integrated,
      but client 1 has not passed clock 4. */
  lemma {:induction false} RetryIsMissed() returns (time: Id -> int, trace: seq<Sched>, later: Store)
    ensures WellFormed(Example) && Acyclic(Example, time) && Run(map[], Example, [1, 2], trace) && Exhausted(trace[|trace| - 1])
    ensures var s := trace[|trace| - 1]; Grown(s.store, later) && Grounded(later, s.rest) && NonePassed(s.missing, later) && !AllStuck(later, s.rest)
  {
    time := (id: Id) => 2 * id.clock + id.client;
    ExampleIsSound(time);
    trace := ExampleRun();
    ExampleEnds();
    later := map[1 := 3];
    ExampleCouldGoOn(later);
  }
}

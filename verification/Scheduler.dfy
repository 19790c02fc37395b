/** The causal scheduler: `integrateStructs` takes the structs of an update from
    one queue per client, waits on a stack for what a struct depends on, and moves
    what cannot be applied yet to a pending buffer. */
module Scheduler {
  import opened Wrappers

  datatype Kind = Gc | Skip | Content

  datatype Struct = Struct(kind: Kind, client: int, clock: nat, len: nat,
                           origin: Option<Id>, rightOrigin: Option<Id>, parent: Option<Id>)

  type Store = map<int, nat>
  type Update = map<int, seq<Struct>>

  /** Next expected clock of a client. */
  function GetState(store: Store, c: int): nat {
    if c in store then store[c] else 0
  }

  /** `addStruct`: a struct must continue its client's last one. */
  function AddStruct(store: Store, s: Struct): Option<Store> {
    if s.client in store && store[s.client] != s.clock then None else Some(store[s.client := s.clock + s.len])
  }

  // ---------------------------------------------------------------- dependencies

  predicate DependsOn(s: Struct, d: Id) {
    s.kind.Content? && (s.origin == Some(d) || s.rightOrigin == Some(d) || s.parent == Some(d))
  }

  /** `s` needs `d`, another client's unit that the store does not have. */
  predicate Lacks(store: Store, s: Struct, d: Id) {
    DependsOn(s, d) && d.client != s.client && d.clock >= GetState(store, d.client)
  }

  predicate LacksRef(store: Store, s: Struct, ref: Option<Id>) {
    s.kind.Content? && ref.Some? && ref.value.client != s.client && ref.value.clock >= GetState(store, ref.value.client)
  }

  /** `missingClient`: origin first, then right origin, then parent. */
  function MissingDep(store: Store, s: Struct): (d: Option<Id>)
    ensures d.Some? ==> Lacks(store, s, d.value)
    ensures d.None? ==> forall e :: !Lacks(store, s, e)
  {
    if LacksRef(store, s, s.origin) then s.origin
    else if LacksRef(store, s, s.rightOrigin) then s.rightOrigin
    else if LacksRef(store, s, s.parent) then s.parent
    else None
  }

  /** Nothing of `s` is left to apply. */
  predicate Done(store: Store, s: Struct) {
    s.kind.Skip? || s.clock + s.len <= GetState(store, s.client)
  }

  // ---------------------------------------------------------------- the machine

  /** A client's queue: its structs and how many were taken. */
  datatype Queue = Queue(i: nat, refs: seq<Struct>)

  /** The variables of `integrateStructs`; `head` is `stackHead`, absent between
      handling one struct and fetching the next.  `log` records what was integrated. */
  datatype Sched = Sched(store: Store, refs: map<int, Queue>, ids: seq<int>, cur: Option<int>,
                         stack: seq<Struct>, head: Option<Struct>,
                         rest: Update, missing: map<int, int>, log: seq<Struct>)

  function Remaining(s: Sched, c: int): bool {
    c in s.refs && s.refs[c].i < |s.refs[c].refs|
  }

  function NextOf(s: Sched, c: int): Struct
    requires Remaining(s, c)
  {
    s.refs[c].refs[s.refs[c].i]
  }

  function Bump(s: Sched, c: int): map<int, Queue>
    requires Remaining(s, c)
  {
    s.refs[c := Queue(s.refs[c].i + 1, s.refs[c].refs)]
  }

  /** What is being worked on: the stack and the head. */
  function Active(s: Sched): seq<Struct> {
    s.stack + if s.head.Some? then [s.head.value] else []
  }

  /** `head := queue.next` with nothing at hand. */
  function Take(s: Sched, c: int): Sched
    requires s.head.None? && Remaining(s, c)
  {
    s.(head := Some(NextOf(s, c)), refs := Bump(s, c))
  }

  /** Wait for client `c`: push the head and work on `c`'s next struct. */
  function Await(s: Sched, c: int): Sched
    requires s.head.Some? && Remaining(s, c)
  {
    s.(stack := s.stack + [s.head.value], head := Some(NextOf(s, c)), refs := Bump(s, c))
  }

  function Pop(s: Sched): Sched
    requires s.head.None? && s.stack != []
  {
    s.(stack := s.stack[..|s.stack| - 1], head := Some(s.stack[|s.stack| - 1]))
  }

  /** The part of a struct the store does not have. */
  function Piece(store: Store, x: Struct): Struct
    requires x.clock <= GetState(store, x.client) <= x.clock + x.len
  {
    x.(clock := GetState(store, x.client), len := x.clock + x.len - GetState(store, x.client))
  }

  /** `updateMissingSv` */
  function UpdateMissing(missing: map<int, int>, c: int, clock: int): map<int, int> {
    if c !in missing || missing[c] > clock then missing[c := clock] else missing
  }

  // ---------------------------------------------------------------- well-formed, acyclic updates

  ghost predicate Ascending(q: seq<Struct>) {
    forall a, b {:trigger q[a], q[b]} :: 0 <= a < b < |q| ==> q[a].clock + q[a].len <= q[b].clock
  }

  /** Each queue holds its client's structs, in clock order and not empty. */
  ghost predicate WellFormed(input: Update) {
    forall c :: c in input ==>
      Ascending(input[c]) && forall k :: 0 <= k < |input[c]| ==> input[c][k].client == c && input[c][k].len > 0
  }

  /** A moment for every unit such that a struct comes after what it depends on:
      the update stems from a real editing history. */
  ghost predicate Acyclic(input: Update, time: Id -> int) {
    && (forall c, a: nat, b: nat {:trigger time(Id(c, a)), time(Id(c, b))} :: a < b ==> time(Id(c, a)) < time(Id(c, b)))
    && (forall c, k, d {:trigger DependsOn(input[c][k], d)} ::
          c in input && 0 <= k < |input[c]| && DependsOn(input[c][k], d) && d.client != c ==>
            time(d) < time(Id(c, input[c][k].clock)))
  }

  function Moment(time: Id -> int, s: Struct): int {
    time(Id(s.client, s.clock))
  }

  // ---------------------------------------------------------------- the invariant

  ghost predicate IsActive(s: Sched, x: Struct) {
    x in s.stack || s.head == Some(x)
  }

  /** The queue of `c` is the input's, and what was taken is done or at hand. */
  ghost predicate QueueOk(input: Update, s: Sched, c: int)
    requires c in input
  {
    if c in s.refs then
      && c !in s.rest && s.refs[c].refs == input[c] && s.refs[c].i <= |input[c]|
      && (forall k :: 0 <= k < s.refs[c].i ==> Done(s.store, input[c][k]) || (IsActive(s, input[c][k]) && k == s.refs[c].i - 1))
    else
      && c in s.rest && 0 < |s.rest[c]| <= |input[c]|
      && s.rest[c] == input[c][|input[c]| - |s.rest[c]|..]
      && (forall k :: 0 <= k < |input[c]| - |s.rest[c]| ==> Done(s.store, input[c][k]))
  }

  /** Element `k` at hand is the last one taken from its client's queue. */
  ghost predicate ActiveOk(input: Update, s: Sched, k: nat)
    requires k < |Active(s)|
  {
    var x := Active(s)[k];
    x.client in input && x.client in s.refs && 0 < s.refs[x.client].i <= |input[x.client]| && input[x.client][s.refs[x.client].i - 1] == x
  }

  ghost predicate OneEach(a: seq<Struct>, j: nat, k: nat)
    requires j < |a| && k < |a|
  {
    a[j].client != a[k].client
  }

  ghost predicate Queues(input: Update, s: Sched) {
    && s.refs.Keys <= input.Keys && s.rest.Keys <= input.Keys
    && (forall c {:trigger QueueOk(input, s, c)} :: c in input ==> QueueOk(input, s, c))
    && (forall k {:trigger ActiveOk(input, s, k)} :: 0 <= k < |Active(s)| ==> ActiveOk(input, s, k))
    && (forall j, k {:trigger OneEach(Active(s), j, k)} :: 0 <= j < k < |Active(s)| ==> OneEach(Active(s), j, k))
  }

  /** `stack[k]` waits for the client of what was pushed on top of it. */
  ghost predicate Waits(store: Store, a: seq<Struct>, k: nat)
    requires k + 1 < |a|
  {
    exists d :: Lacks(store, a[k], d) && d.client == a[k + 1].client
  }

  ghost predicate Started(store: Store, x: Struct) {
    !x.kind.Skip? && x.clock <= GetState(store, x.client)
  }

  ghost predicate Stacked(s: Sched, time: Id -> int) {
    && (forall k :: 0 <= k < |s.stack| ==> Started(s.store, s.stack[k]))
    && (forall j, k {:trigger Moment(time, s.stack[j]), Moment(time, s.stack[k])} ::
          0 <= j < k < |s.stack| ==> Moment(time, s.stack[k]) < Moment(time, s.stack[j]))
    && (s.head.Some? && Started(s.store, s.head.value) ==>
          forall j {:trigger Moment(time, s.stack[j])} :: 0 <= j < |s.stack| ==> Moment(time, s.head.value) < Moment(time, s.stack[j]))
    && (forall k {:trigger Waits(s.store, Active(s), k)} :: 0 <= k < |Active(s)| - 1 ==> Waits(s.store, Active(s), k))
  }

  /** No struct of `c` will be integrated any more. */
  ghost predicate Closed(s: Sched, c: int) {
    !Remaining(s, c) && forall x :: IsActive(s, x) ==> x.client != c
  }

  /** `x` needs `d`, which the store does not have: the unit before it, or another client's. */
  predicate HeldUp(store: Store, x: Struct, d: Id) {
    (d.client == x.client && d.clock + 1 == x.clock > GetState(store, x.client)) || Lacks(store, x, d)
  }

  /** The state vector of what is missing lists `d`, or something before it. */
  predicate IsMissing(missing: map<int, int>, d: Id) {
    d.client in missing && missing[d.client] <= d.clock
  }

  /** It is on record that `x` waits for `d`, or it waits for another pending client. */
  predicate Noted(rest: Update, missing: map<int, int>, x: Struct, d: Id) {
    IsMissing(missing, d) || (d.client in rest && d.client != x.client)
  }

  /** `x` waits for `d`, which will not come. */
  ghost predicate BlockedBy(s: Sched, x: Struct, d: Id) {
    HeldUp(s.store, x, d) && Closed(s, d.client) && Noted(s.rest, s.missing, x, d)
  }

  /** `x` cannot be integrated, and will not become possible. */
  ghost predicate Blocked(s: Sched, x: Struct) {
    exists d :: BlockedBy(s, x, d)
  }

  /** Why `clock` of client `c` is noted: a struct of `c` lies behind that gap, or another one
      needs the next unit of `c`, or a later one. */
  predicate IsReason(store: Store, x: Struct, c: int, clock: int) {
    || (x.client == c && x.clock > GetState(store, c) && clock == x.clock - 1)
    || (LacksOf(store, x, x.origin, c) && clock == GetState(store, c))
    || (LacksOf(store, x, x.rightOrigin, c) && clock == GetState(store, c))
    || (LacksOf(store, x, x.parent, c) && clock == GetState(store, c))
  }

  predicate LacksOf(store: Store, x: Struct, ref: Option<Id>, c: int) {
    x.kind.Content? && x.client != c && ref.Some? && ref.value.client == c && ref.value.clock >= GetState(store, c)
  }

  /** A client's first pending struct is the reason. */
  ghost predicate HasReason(store: Store, rest: Update, c: int, clock: int) {
    exists e {:trigger rest[e]} :: e in rest && rest[e] != [] && IsReason(store, rest[e][0], c, clock)
  }

  ghost predicate Pending(s: Sched) {
    && (forall c {:trigger c in s.rest} :: c in s.rest ==>
          Closed(s, c) && s.rest[c] != [] && s.rest[c][0].client == c && !s.rest[c][0].kind.Skip? && Blocked(s, s.rest[c][0]))
    && (forall c {:trigger c in s.missing} :: c in s.missing ==> Closed(s, c) && s.missing[c] >= GetState(s.store, c) && HasReason(s.store, s.rest, c, s.missing[c]))
    && (s.rest.Keys != {} ==> s.missing.Keys != {})
  }

  ghost predicate Listed(s: Sched) {
    && (forall c :: c in s.ids ==> c in s.refs)
    && (forall c :: Remaining(s, c) ==> c in s.ids)
  }

  /** The log leads from `init` to `store`; every struct continued its client's
      clocks and had its dependencies when it was integrated. */
  ghost predicate Logged(init: Store, log: seq<Struct>, store: Store)
    decreases |log|
  {
    if log == [] then store == init
    else
      var x := log[|log| - 1];
      exists before :: Logged(init, log[..|log| - 1], before) &&
        x.clock == GetState(before, x.client) && x.len > 0 && (forall d :: !Lacks(before, x, d)) &&
        AddStruct(before, x) == Some(store)
  }

  /** `y` is a struct of the update, or the end of one. */
  ghost predicate IsFrom(input: Update, y: Struct) {
    exists x :: IsPart(input, x, y)
  }

  ghost predicate IsPart(input: Update, x: Struct, y: Struct) {
    && y.client in input && x in input[y.client] && !x.kind.Skip? && x.clock <= y.clock && y.clock + y.len == x.clock + x.len
    && y == x.(clock := y.clock, len := y.len)
  }

  /** Nothing is integrated that is not in the update. */
  ghost predicate Stems(input: Update, log: seq<Struct>) {
    forall k {:trigger IsFrom(input, log[k])} :: 0 <= k < |log| ==> IsFrom(input, log[k])
  }

  ghost predicate Inv(input: Update, init: Store, time: Id -> int, s: Sched) {
    Queues(input, s) && Stacked(s, time) && Pending(s) && Listed(s) && Logged(init, s.log, s.store) && Stems(input, s.log)
  }

  // ---------------------------------------------------------------- one client, one struct at hand

  lemma {:induction false} ActiveMember(s: Sched, k: nat)
    requires k < |Active(s)|
    ensures IsActive(s, Active(s)[k])
    ensures k < |s.stack| ==> Active(s)[k] == s.stack[k]
    ensures k == |s.stack| ==> s.head == Some(Active(s)[k])
  {
  }

  lemma {:induction false} ActiveIndex(s: Sched, x: Struct) returns (k: nat)
    requires IsActive(s, x)
    ensures k < |Active(s)| && Active(s)[k] == x
  {
    if x in s.stack {
      k :| 0 <= k < |s.stack| && s.stack[k] == x;
    } else {
      k := |s.stack|;
    }
  }

  lemma {:induction false} ActiveFromInput(input: Update, s: Sched, x: Struct)
    requires Queues(input, s) && IsActive(s, x)
    ensures x.client in s.refs && x.client in input && 0 < s.refs[x.client].i <= |input[x.client]|
    ensures input[x.client][s.refs[x.client].i - 1] == x
  {
    var k := ActiveIndex(s, x);
    assert ActiveOk(input, s, k);
  }

  /** A started head that lacks something of client `c` cannot have a struct of `c`
      below it on the stack: that struct would have to come after itself. */
  lemma {:induction false} AwaitedIsNotActive(input: Update, s: Sched, time: Id -> int, d: Id, x: Struct)
    requires WellFormed(input) && Acyclic(input, time) && Queues(input, s) && Stacked(s, time)
    requires s.head.Some? && Started(s.store, s.head.value) && Lacks(s.store, s.head.value, d)
    requires IsActive(s, x)
    ensures x.client != d.client
  {
    var h := s.head.value;
    ActiveFromInput(input, s, h);
    var q := s.refs[h.client].i - 1;
    assert DependsOn(input[h.client][q], d);
    if x in s.stack {
      var k :| 0 <= k < |s.stack| && s.stack[k] == x;
      assert Started(s.store, s.stack[k]);
      assert Moment(time, h) < Moment(time, s.stack[k]);
      assert time(d) < time(Id(x.client, x.clock));
      assert d == Id(d.client, d.clock);
      assert x.client == d.client && x.clock < d.clock ==> time(Id(x.client, x.clock)) < time(Id(x.client, d.clock));
    }
  }

  // ---------------------------------------------------------------- Take

  lemma {:induction false} TakeQueues(input: Update, s: Sched, c: int)
    requires WellFormed(input) && Queues(input, s) && s.head.None? && s.stack == [] && Remaining(s, c)
    ensures Queues(input, Take(s, c))
  {
    var s' := Take(s, c);
    assert QueueOk(input, s, c);
    forall e | e in input ensures QueueOk(input, s', e) {
      assert QueueOk(input, s, e);
    }
    forall k | 0 <= k < |Active(s')| ensures ActiveOk(input, s', k) {
      assert Active(s')[k] == input[c][s.refs[c].i];
    }
  }

  lemma {:induction false} TakePending(s: Sched, c: int)
    requires Pending(s) && s.head.None? && Remaining(s, c) && NextOf(s, c).client == c
    ensures Pending(Take(s, c))
  {
    var s' := Take(s, c);
    forall e | Closed(s, e) ensures Closed(s', e) {
      assert e != c;
      forall x | IsActive(s', x) ensures x.client != e { if x in s.stack { assert IsActive(s, x); } }
    }
    StillPending(s, s');
  }

  /** Closed clients stay closed, and nothing else matters to what is pending. */
  lemma {:induction false} StillPending(s: Sched, s': Sched)
    requires Pending(s) && s'.rest == s.rest && s'.missing == s.missing
    requires forall e {:trigger Closed(s', e)} :: Closed(s, e) ==> Closed(s', e) && GetState(s'.store, e) == GetState(s.store, e)
    ensures Pending(s')
  {
    forall c | c in s'.rest ensures Closed(s', c) && Blocked(s', s'.rest[c][0]) {
      assert Closed(s, c) && Closed(s', c);
      var x := s.rest[c][0];
      assert Blocked(s, x);
      var d :| BlockedBy(s, x, d);
      assert Closed(s', d.client);
      assert BlockedBy(s', x, d);
    }
    forall c | c in s'.missing ensures Closed(s', c) && s'.missing[c] >= GetState(s'.store, c) {
      assert Closed(s, c) && Closed(s', c);
    }
  }

  lemma {:induction false} NextClient(input: Update, s: Sched, c: int)
    requires WellFormed(input) && Queues(input, s) && Remaining(s, c)
    ensures c in input && NextOf(s, c).client == c && s.refs[c].refs == input[c]
  {
    assert QueueOk(input, s, c);
  }

  lemma {:induction false} TakeKeeps(input: Update, init: Store, time: Id -> int, s: Sched, c: int)
    requires WellFormed(input) && Inv(input, init, time, s) && s.head.None? && s.stack == [] && Remaining(s, c)
    ensures Inv(input, init, time, Take(s, c))
  {
    NextClient(input, s, c);
    TakeQueues(input, s, c);
    TakePending(s, c);
    var s' := Take(s, c);
    forall e | Remaining(s', e) ensures e in s'.ids { assert Remaining(s, e); }
  }

  // ---------------------------------------------------------------- Await

  lemma {:induction false} AwaitQueues(input: Update, s: Sched, c: int)
    requires WellFormed(input) && Queues(input, s) && s.head.Some? && Remaining(s, c)
    requires forall x :: IsActive(s, x) ==> x.client != c
    ensures Queues(input, Await(s, c))
  {
    var s' := Await(s, c);
    NextClient(input, s, c);
    assert QueueOk(input, s, c);
    forall e | e in input ensures QueueOk(input, s', e) {
      assert QueueOk(input, s, e);
      forall x | IsActive(s, x) ensures IsActive(s', x) { }
    }
    var n := |Active(s)|;
    assert Active(s') == Active(s) + [NextOf(s, c)];
    forall k | 0 <= k < |Active(s')| ensures ActiveOk(input, s', k) {
      if k < n {
        assert ActiveOk(input, s, k);
        ActiveMember(s, k);
      }
    }
    forall j, k | 0 <= j < k < |Active(s')| ensures OneEach(Active(s'), j, k) {
      ActiveMember(s, j);
      if k < n { assert OneEach(Active(s), j, k); }
    }
  }

  lemma {:induction false} AwaitStacked(input: Update, s: Sched, time: Id -> int, d: Id)
    requires WellFormed(input) && Acyclic(input, time) && Queues(input, s) && Stacked(s, time)
    requires s.head.Some? && Started(s.store, s.head.value) && Lacks(s.store, s.head.value, d) && Remaining(s, d.client)
    ensures Stacked(Await(s, d.client), time)
  {
    var s', h := Await(s, d.client), s.head.value;
    NextClient(input, s, d.client);
    var x := NextOf(s, d.client);
    assert Active(s') == Active(s) + [x];
    ActiveFromInput(input, s, h);
    assert DependsOn(input[h.client][s.refs[h.client].i - 1], d);
    forall j, k | 0 <= j < k < |s'.stack| ensures Moment(time, s'.stack[k]) < Moment(time, s'.stack[j]) {
      assert Moment(time, s.stack[j]) == Moment(time, s'.stack[j]);
      if k < |s.stack| { assert Moment(time, s.stack[k]) == Moment(time, s'.stack[k]); }
    }
    if Started(s.store, x) {
      assert d == Id(d.client, d.clock);
      if x.clock < d.clock { assert time(Id(d.client, x.clock)) < time(Id(d.client, d.clock)); }
      assert Moment(time, x) <= time(d) < Moment(time, h);
      forall j | 0 <= j < |s'.stack| ensures Moment(time, x) < Moment(time, s'.stack[j]) {
        if j < |s.stack| { assert Moment(time, h) < Moment(time, s.stack[j]); }
      }
    }
    forall k | 0 <= k < |Active(s')| - 1 ensures Waits(s'.store, Active(s'), k) {
      if k < |s.stack| {
        assert Waits(s.store, Active(s), k);
      } else {
        assert Active(s')[k] == h && Active(s')[k + 1] == x;
      }
    }
  }

  lemma {:induction false} AwaitPending(input: Update, s: Sched, c: int)
    requires Pending(s) && s.head.Some? && Remaining(s, c) && NextOf(s, c).client == c
    ensures Pending(Await(s, c))
  {
    var s' := Await(s, c);
    forall e | Closed(s, e) ensures Closed(s', e) {
      assert e != c;
      forall x | IsActive(s', x) ensures x.client != e { if x != NextOf(s, c) { assert IsActive(s, x); } }
    }
    StillPending(s, s');
  }

  lemma {:induction false} AwaitKeeps(input: Update, init: Store, time: Id -> int, s: Sched, d: Id)
    requires WellFormed(input) && Acyclic(input, time) && Inv(input, init, time, s)
    requires s.head.Some? && Started(s.store, s.head.value) && Lacks(s.store, s.head.value, d) && Remaining(s, d.client)
    ensures Inv(input, init, time, Await(s, d.client))
  {
    NextClient(input, s, d.client);
    forall x | IsActive(s, x) ensures x.client != d.client { AwaitedIsNotActive(input, s, time, d, x); }
    AwaitQueues(input, s, d.client);
    AwaitStacked(input, s, time, d);
    AwaitPending(input, s, d.client);
    var s' := Await(s, d.client);
    forall e | Remaining(s', e) ensures e in s'.ids { assert Remaining(s, e); }
  }

  // ---------------------------------------------------------------- Pop

  lemma {:induction false} PopKeeps(input: Update, init: Store, time: Id -> int, s: Sched)
    requires Inv(input, init, time, s) && s.head.None? && s.stack != []
    ensures Inv(input, init, time, Pop(s))
  {
    var s' := Pop(s);
    var n := |s.stack| - 1;
    assert Active(s') == Active(s) == s.stack;
    forall x ensures IsActive(s, x) <==> IsActive(s', x) {
      assert s.stack == s'.stack + [s.stack[n]];
    }
    forall e | e in input ensures QueueOk(input, s', e) { assert QueueOk(input, s, e); }
    forall k | 0 <= k < |Active(s')| ensures ActiveOk(input, s', k) { assert ActiveOk(input, s, k); }
    forall j, k | 0 <= j < k < |Active(s')| ensures OneEach(Active(s'), j, k) { assert OneEach(Active(s), j, k); }
    forall j | 0 <= j < n ensures Moment(time, s'.head.value) < Moment(time, s'.stack[j]) {
      assert Moment(time, s.stack[n]) < Moment(time, s.stack[j]);
    }
    forall j, k | 0 <= j < k < n ensures Moment(time, s'.stack[k]) < Moment(time, s'.stack[j]) {
      assert Moment(time, s.stack[k]) < Moment(time, s.stack[j]);
    }
    forall k | 0 <= k < |Active(s')| - 1 ensures Waits(s'.store, Active(s'), k) { assert Waits(s.store, Active(s), k); }
    forall e | Closed(s, e) ensures Closed(s', e) { }
    StillPending(s, s');
    forall e | Remaining(s', e) ensures e in s'.ids { assert Remaining(s, e); }
  }

  // ---------------------------------------------------------------- Drop

  /** The head needs no more work: it was a Skip, or the store has it all. */
  function Drop(s: Sched): Sched {
    s.(head := None)
  }

  lemma {:induction false} DropQueues(input: Update, s: Sched)
    requires Queues(input, s) && s.head.Some? && Done(s.store, s.head.value)
    ensures Queues(input, Drop(s))
  {
    var s' := Drop(s);
    assert Active(s) == Active(s') + [s.head.value];
    forall e | e in input ensures QueueOk(input, s', e) { assert QueueOk(input, s, e); }
    forall k | 0 <= k < |Active(s')| ensures ActiveOk(input, s', k) { assert ActiveOk(input, s, k); }
    forall j, k | 0 <= j < k < |Active(s')| ensures OneEach(Active(s'), j, k) { assert OneEach(Active(s), j, k); }
  }

  lemma {:induction false} DropKeeps(input: Update, init: Store, time: Id -> int, s: Sched)
    requires Inv(input, init, time, s) && s.head.Some? && Done(s.store, s.head.value)
    ensures Inv(input, init, time, Drop(s))
  {
    var s' := Drop(s);
    DropQueues(input, s);
    assert Active(s) == Active(s') + [s.head.value];
    forall k | 0 <= k < |Active(s')| - 1 ensures Waits(s'.store, Active(s'), k) { assert Waits(s.store, Active(s), k); }
    forall e | Closed(s, e) ensures Closed(s', e) {
      forall x | IsActive(s', x) ensures x.client != e { assert IsActive(s, x); }
    }
    StillPending(s, s');
    forall e | Remaining(s', e) ensures e in s'.ids { assert Remaining(s, e); }
  }

  // ---------------------------------------------------------------- Integrate

  /** Integrate what the store does not have of the head; the head stays at hand. */
  function Applied(s: Sched): Sched
    requires s.head.Some? && s.head.value.clock <= GetState(s.store, s.head.value.client) <= s.head.value.clock + s.head.value.len
  {
    var x := s.head.value;
    s.(store := s.store[x.client := x.clock + x.len], log := s.log + [Piece(s.store, x)])
  }

  ghost predicate Ripe(s: Sched) {
    && s.head.Some? && Started(s.store, s.head.value) && !Done(s.store, s.head.value)
    && MissingDep(s.store, s.head.value).None?
  }

  lemma {:induction false} AppliedQueues(input: Update, s: Sched)
    requires Queues(input, s) && Ripe(s)
    ensures Queues(input, Applied(s))
  {
    var s' := Applied(s);
    assert Active(s') == Active(s);
    forall e | e in input ensures QueueOk(input, s', e) {
      assert QueueOk(input, s, e);
      forall x | Done(s.store, x) ensures Done(s'.store, x) { }
      forall x ensures IsActive(s, x) == IsActive(s', x) { }
    }
    forall k | 0 <= k < |Active(s')| ensures ActiveOk(input, s', k) { assert ActiveOk(input, s, k); }
    forall j, k | 0 <= j < k < |Active(s')| ensures OneEach(Active(s'), j, k) { assert OneEach(Active(s), j, k); }
  }

  /** Integrating the head feeds only what waits for the head itself. */
  lemma {:induction false} AppliedDropStacked(input: Update, s: Sched, time: Id -> int)
    requires Queues(input, s) && Stacked(s, time) && Ripe(s)
    ensures Stacked(Drop(Applied(s)), time)
  {
    var s', h := Drop(Applied(s)), s.head.value;
    assert Active(s) == Active(s') + [h];
    forall k | 0 <= k < |s'.stack| ensures Started(s'.store, s'.stack[k]) { assert Started(s.store, s.stack[k]); }
    forall k | 0 <= k < |Active(s')| - 1 ensures Waits(s'.store, Active(s'), k) {
      assert Waits(s.store, Active(s), k);
      var d :| Lacks(s.store, Active(s)[k], d) && d.client == Active(s)[k + 1].client;
      assert OneEach(Active(s), k + 1, |s.stack|);
      assert Lacks(s'.store, Active(s')[k], d);
    }
  }

  lemma {:induction false} ApplyKeeps(input: Update, init: Store, time: Id -> int, s: Sched)
    requires WellFormed(input) && Inv(input, init, time, s) && Ripe(s)
    ensures Inv(input, init, time, Drop(Applied(s)))
    ensures AddStruct(s.store, Piece(s.store, s.head.value)) == Some(Applied(s).store)
  {
    var s', h := Drop(Applied(s)), s.head.value;
    AppliedQueues(input, s);
    DropQueues(input, Applied(s));
    AppliedDropStacked(input, s, time);
    forall e | Closed(s, e) ensures Closed(s', e) && GetState(s'.store, e) == GetState(s.store, e) {
      assert IsActive(s, h);
      forall x | IsActive(s', x) ensures x.client != e { assert IsActive(s, x); }
    }
    StillPending(s, s');
    forall e | Remaining(s', e) ensures e in s'.ids { assert Remaining(s, e); }
    AppliedLog(input, init, s);
  }

  /** What is integrated is in the update, continues its client's clocks and has what it needs. */
  lemma {:induction false} AppliedLog(input: Update, init: Store, s: Sched)
    requires Queues(input, s) && Logged(init, s.log, s.store) && Stems(input, s.log) && Ripe(s)
    ensures Logged(init, Applied(s).log, Applied(s).store) && Stems(input, Applied(s).log)
    ensures AddStruct(s.store, Piece(s.store, s.head.value)) == Some(Applied(s).store)
  {
    var h, p, log := s.head.value, Piece(s.store, s.head.value), Applied(s).log;
    assert log[..|log| - 1] == s.log && log[|log| - 1] == p;
    forall d ensures !Lacks(s.store, p, d) { assert Lacks(s.store, p, d) ==> Lacks(s.store, h, d); }
    ActiveFromInput(input, s, h);
    assert IsPart(input, h, p);
    forall k | 0 <= k < |log| ensures IsFrom(input, log[k]) { if k < |s.log| { assert IsFrom(input, s.log[k]); } }
  }

  // ---------------------------------------------------------------- Dump

  predicate Has(a: seq<Struct>, c: int) {
    exists k :: 0 <= k < |a| && a[k].client == c
  }

  function Filter(ids: seq<int>, c: int): (r: seq<int>)
    ensures forall e :: e in r <==> e in ids && e != c
  {
    if ids == [] then [] else (if ids[0] == c then [] else [ids[0]]) + Filter(ids[1..], c)
  }

  /** The head joins the stack before the stack is given up. */
  function Push(s: Sched): Sched
    requires s.head.Some?
  {
    s.(stack := s.stack + [s.head.value], head := None)
  }

  /** What giving up the structs `a` does to client `c`: its queue moves to the rest,
      from the struct that was taken last on. */
  ghost predicate Moved(s: Sched, a: seq<Struct>, refs: map<int, Queue>, rest: Update, ids: seq<int>, c: int) {
    if Has(a, c) then
      && c !in refs && c !in ids && c in rest
      && c in s.refs && 0 < s.refs[c].i <= |s.refs[c].refs| && rest[c] == s.refs[c].refs[s.refs[c].i - 1..]
    else
      && (c in refs <==> c in s.refs) && (c in refs ==> refs[c] == s.refs[c])
      && (c in rest <==> c in s.rest) && (c in rest ==> rest[c] == s.rest[c])
      && (c in ids <==> c in s.ids)
  }

  /** What `addStackToRestSS` leaves. */
  ghost predicate Dumped(s: Sched, s': Sched) {
    && s' == s.(stack := [], refs := s'.refs, rest := s'.rest, ids := s'.ids)
    && forall c {:trigger Moved(s, s.stack, s'.refs, s'.rest, s'.ids, c)} :: Moved(s, s.stack, s'.refs, s'.rest, s'.ids, c)
  }

  /** `appendClientStruct`, for several structs. */
  function Append(rest: Update, c: int, xs: seq<Struct>): Update {
    rest[c := (if c in rest then rest[c] else []) + xs]
  }

  lemma {:induction false} StackHas(a: seq<Struct>)
    ensures forall x {:trigger x in a} :: x in a ==> Has(a, x.client)
  {
  }

  /** `addStackToRestSS` */
  method AddStackToRest(s: Sched) returns (s': Sched)
    requires s.head.None?
    requires forall k {:trigger s.stack[k]} :: 0 <= k < |s.stack| ==>
               var c := s.stack[k].client; c in s.refs && 0 < s.refs[c].i <= |s.refs[c].refs| && c !in s.rest
    requires forall j, k {:trigger OneEach(s.stack, j, k)} :: 0 <= j < k < |s.stack| ==> OneEach(s.stack, j, k)
    ensures Dumped(s, s')
  {
    var refs, rest, ids := s.refs, s.rest, s.ids;
    for n := 0 to |s.stack|
      invariant forall c {:trigger Moved(s, s.stack[..n], refs, rest, ids, c)} :: Moved(s, s.stack[..n], refs, rest, ids, c)
    {
      var x := s.stack[n];
      var c := x.client;
      HasOneMore(s.stack, n);
      assert Moved(s, s.stack[..n], refs, rest, ids, c);
      ghost var refs0, rest0, ids0 := refs, rest, ids;
      if c in refs {
        // the struct could not be applied: it and all after it wait
        rest := Append(rest, c, refs[c].refs[refs[c].i - 1..]);
        refs := refs - {c};
      } else {
        rest := Append(rest, c, [x]);
      }
      ids := Filter(ids, c);
      ghost var a := s.stack[..n + 1];
      forall e ensures Moved(s, a, refs, rest, ids, e) {
        assert Moved(s, s.stack[..n], refs0, rest0, ids0, e);
        assert Has(a, e) <==> Has(s.stack[..n], e) || e == c;
      }
    }
    assert s.stack[..|s.stack|] == s.stack;
    s' := s.(stack := [], refs := refs, rest := rest, ids := ids);
  }

  lemma {:induction false} HasOneMore(a: seq<Struct>, n: nat)
    requires n < |a|
    requires forall j, k {:trigger OneEach(a, j, k)} :: 0 <= j < k < |a| ==> OneEach(a, j, k)
    ensures !Has(a[..n], a[n].client)
    ensures forall c {:trigger Has(a[..n + 1], c)} :: Has(a[..n + 1], c) <==> Has(a[..n], c) || c == a[n].client
  {
    forall j | 0 <= j < n ensures a[..n][j].client != a[n].client { assert OneEach(a, j, n); }
    forall c ensures Has(a[..n + 1], c) <==> Has(a[..n], c) || c == a[n].client {
      if Has(a[..n], c) {
        var k :| 0 <= k < n && a[..n][k].client == c;
        assert a[..n + 1][k].client == c;
      }
      if c == a[n].client { assert a[..n + 1][n].client == c; }
      if Has(a[..n + 1], c) && c != a[n].client {
        var k :| 0 <= k < n + 1 && a[..n + 1][k].client == c;
        assert a[..n][k].client == c;
      }
    }
  }

  lemma {:induction false} PushQueues(input: Update, s: Sched)
    requires Queues(input, s) && s.head.Some?
    ensures Queues(input, Push(s)) && Active(Push(s)) == Active(s) == Push(s).stack
  {
    var s' := Push(s);
    assert Active(s') == Active(s);
    forall x ensures IsActive(s, x) <==> IsActive(s', x) { }
    forall e | e in input ensures QueueOk(input, s', e) { assert QueueOk(input, s, e); }
    forall k | 0 <= k < |Active(s')| ensures ActiveOk(input, s', k) { assert ActiveOk(input, s, k); }
    forall j, k | 0 <= j < k < |Active(s')| ensures OneEach(Active(s'), j, k) { assert OneEach(Active(s), j, k); }
  }

  /** The stack may be given up: every client on it has its queue, with the struct just taken. */
  lemma {:induction false} StackIsDumpable(input: Update, s: Sched, k: nat)
    requires Queues(input, s) && s.head.None? && k < |s.stack|
    ensures var c := s.stack[k].client; c in s.refs && 0 < s.refs[c].i <= |s.refs[c].refs| && c !in s.rest
  {
    assert ActiveOk(input, s, k);
    assert QueueOk(input, s, s.stack[k].client);
  }

  lemma {:induction false} DumpQueue(input: Update, s: Sched, s': Sched, c: int)
    requires WellFormed(input) && Queues(input, s) && s.head.None? && Dumped(s, s') && c in input
    ensures QueueOk(input, s', c)
  {
    assert QueueOk(input, s, c);
    assert Moved(s, s.stack, s'.refs, s'.rest, s'.ids, c);
    if Has(s.stack, c) {
      var k :| 0 <= k < |s.stack| && s.stack[k].client == c;
      assert ActiveOk(input, s, k);
    } else if c in s.refs {
      StackHas(s.stack);
      forall q | 0 <= q < s.refs[c].i ensures Done(s'.store, input[c][q]) {
        assert input[c][q].client == c;
      }
    }
  }

  lemma {:induction false} DumpQueues(input: Update, s: Sched, s': Sched)
    requires WellFormed(input) && Queues(input, s) && s.head.None? && Dumped(s, s')
    ensures Queues(input, s')
  {
    forall c | c in input ensures QueueOk(input, s', c) { DumpQueue(input, s, s', c); }
    assert Active(s') == [];
    forall c | c in s'.refs || c in s'.rest ensures c in input {
      assert Moved(s, s.stack, s'.refs, s'.rest, s'.ids, c);
    }
  }

  /** Why the top of the stack is given up, and what is recorded as missing. */
  ghost predicate DeadWall(s: Sched, c: int, clock: int) {
    && s.stack != []
    && var top := s.stack[|s.stack| - 1];
       && !top.kind.Skip?
       && ((top.clock > GetState(s.store, top.client) && c == top.client && clock == top.clock - 1) ||
           (exists d :: Lacks(s.store, top, d) && d.client == c && !Remaining(s, c) && clock == GetState(s.store, c)))
  }

  lemma {:induction false} DumpedIsClosed(s: Sched, s': Sched, c: int)
    requires Dumped(s, s') && s.head.None? && (Has(s.stack, c) || !Remaining(s, c))
    ensures Closed(s', c)
  {
    assert Moved(s, s.stack, s'.refs, s'.rest, s'.ids, c);
  }

  lemma {:induction false} DumpedIsBlocked(s: Sched, s': Sched, t: Sched, c: int, clock: int, k: nat)
    requires Dumped(s, s') && s.head.None? && DeadWall(s, c, clock) && k < |s.stack| && t == s'.(missing := UpdateMissing(s'.missing, c, clock))
    requires forall i {:trigger Waits(s.store, s.stack, i)} :: 0 <= i < |s.stack| - 1 ==> Waits(s.store, s.stack, i)
    ensures Blocked(t, s.stack[k])
  {
    var x := s.stack[k];
    var d: Id;
    if k < |s.stack| - 1 {
      assert Waits(s.store, s.stack, k);
      d :| Lacks(s.store, x, d) && d.client == s.stack[k + 1].client;
      assert Has(s.stack, d.client);
      assert Moved(s, s.stack, s'.refs, s'.rest, s'.ids, d.client);
    } else if x.clock > GetState(s.store, x.client) && c == x.client && clock == x.clock - 1 {
      d := Id(x.client, x.clock - 1);
      assert Has(s.stack, d.client);
    } else {
      d :| Lacks(s.store, x, d) && d.client == c && !Remaining(s, c) && clock == GetState(s.store, c);
    }
    DumpedIsClosed(s, s', d.client);
    SameClosed(s', t, d.client);
    assert BlockedBy(t, x, d);
  }

  lemma {:induction false} SameClosed(s: Sched, t: Sched, c: int)
    requires Closed(s, c) && t == s.(missing := t.missing)
    ensures Closed(t, c)
  {
  }

  /** What was noted stays noted. */
  lemma {:induction false} StillBlocked(s: Sched, t: Sched, x: Struct, c: int, clock: int)
    requires Blocked(s, x) && t.store == s.store && t.missing == UpdateMissing(s.missing, c, clock) && s.rest.Keys <= t.rest.Keys
    requires forall e {:trigger Closed(t, e)} :: Closed(s, e) ==> Closed(t, e)
    ensures Blocked(t, x)
  {
    var d :| BlockedBy(s, x, d);
    assert Closed(t, d.client);
    assert BlockedBy(t, x, d);
  }

  lemma {:induction false} DumpPending(input: Update, s: Sched, s': Sched, c: int, clock: int)
    requires Queues(input, s) && Pending(s) && s.head.None? && Dumped(s, s') && DeadWall(s, c, clock)
    requires forall k :: 0 <= k < |s.stack| ==> !s.stack[k].kind.Skip?
    requires forall i {:trigger Waits(s.store, s.stack, i)} :: 0 <= i < |s.stack| - 1 ==> Waits(s.store, s.stack, i)
    ensures Pending(s'.(missing := UpdateMissing(s'.missing, c, clock)))
  {
    var t := s'.(missing := UpdateMissing(s'.missing, c, clock));
    forall e | Closed(s', e) ensures Closed(t, e) { }
    forall e | Closed(s, e) ensures Closed(t, e) { DumpedIsClosed(s, s', e); }
    forall e | e in s.rest ensures e in t.rest { assert Moved(s, s.stack, s'.refs, s'.rest, s'.ids, e); }
    forall e | e in t.rest
      ensures Closed(t, e) && t.rest[e] != [] && t.rest[e][0].client == e && !t.rest[e][0].kind.Skip? && Blocked(t, t.rest[e][0])
    {
      assert Moved(s, s.stack, s'.refs, s'.rest, s'.ids, e);
      if Has(s.stack, e) {
        var k :| 0 <= k < |s.stack| && s.stack[k].client == e;
        assert ActiveOk(input, s, k);
        assert QueueOk(input, s, e);
        DumpedIsClosed(s, s', e);
        DumpedIsBlocked(s, s', t, c, clock, k);
        assert t.rest[e][0] == s.stack[k];
      } else {
        assert Closed(s, e) && Blocked(s, s.rest[e][0]);
        StillBlocked(s, t, s.rest[e][0], c, clock);
      }
    }
    if !Has(s.stack, c) { DumpedIsClosed(s, s', c); } else { DumpedIsClosed(s, s', c); }
    TopIsReason(input, s, s', c, clock);
    forall e | e in t.missing ensures Closed(t, e) && t.missing[e] >= GetState(t.store, e) && HasReason(t.store, t.rest, e, t.missing[e]) {
      if e in s.missing {
        assert Closed(s, e);
        ReasonStays(s, s', e, s.missing[e]);
      }
    }
  }

  /** What the struct on top waits for is noted, and the struct heads its client's rest. */
  lemma {:induction false} TopIsReason(input: Update, s: Sched, s': Sched, c: int, clock: int)
    requires Queues(input, s) && s.head.None? && Dumped(s, s') && DeadWall(s, c, clock)
    ensures HasReason(s'.store, s'.rest, c, clock)
  {
    var k := |s.stack| - 1;
    var x := s.stack[k];
    assert ActiveOk(input, s, k);
    assert QueueOk(input, s, x.client);
    assert Has(s.stack, x.client);
    assert Moved(s, s.stack, s'.refs, s'.rest, s'.ids, x.client);
    assert s'.rest[x.client][0] == x;
    assert IsReason(s.store, x, c, clock);
  }

  lemma {:induction false} ReasonStays(s: Sched, s': Sched, c: int, clock: int)
    requires Pending(s) && s.head.None? && Dumped(s, s') && HasReason(s.store, s.rest, c, clock)
    ensures HasReason(s'.store, s'.rest, c, clock)
  {
    var e :| e in s.rest && s.rest[e] != [] && IsReason(s.store, s.rest[e][0], c, clock);
    assert Closed(s, e);
    assert !Has(s.stack, e) by { forall k | 0 <= k < |s.stack| ensures s.stack[k].client != e { assert IsActive(s, s.stack[k]); } }
    assert Moved(s, s.stack, s'.refs, s'.rest, s'.ids, e);
    assert s'.rest[e] == s.rest[e];
  }

  lemma {:induction false} DumpKeeps(input: Update, init: Store, time: Id -> int, s: Sched, s': Sched, c: int, clock: int)
    requires WellFormed(input) && Inv(input, init, time, s) && s.head.Some? && !s.head.value.kind.Skip?
    requires DeadWall(Push(s), c, clock) && Dumped(Push(s), s')
    ensures Inv(input, init, time, s'.(missing := UpdateMissing(s'.missing, c, clock)))
  {
    var p := Push(s);
    var t := s'.(missing := UpdateMissing(s'.missing, c, clock));
    PushQueues(input, s);
    DumpQueues(input, p, s');
    forall e | e in input ensures QueueOk(input, t, e) { assert QueueOk(input, s', e); }
    PushPending(s);
    forall k | 0 <= k < |p.stack| ensures !p.stack[k].kind.Skip? {
      if k < |s.stack| { assert Started(s.store, s.stack[k]); }
    }
    forall i | 0 <= i < |p.stack| - 1 ensures Waits(p.store, p.stack, i) { assert Waits(s.store, Active(s), i); }
    DumpPending(input, p, s', c, clock);
    forall e | e in t.ids ensures e in t.refs { assert Moved(p, p.stack, s'.refs, s'.rest, s'.ids, e); }
    forall e | Remaining(t, e) ensures e in t.ids {
      assert Moved(p, p.stack, s'.refs, s'.rest, s'.ids, e);
      assert Remaining(s, e);
    }
  }

  lemma {:induction false} PushPending(s: Sched)
    requires Pending(s) && s.head.Some?
    ensures Pending(Push(s))
  {
    var p := Push(s);
    forall e | Closed(s, e) ensures Closed(p, e) {
      forall x | IsActive(p, x) ensures x.client != e { assert IsActive(s, x); }
    }
    StillPending(s, p);
  }

  // ---------------------------------------------------------------- steps and runs

  /** The stack, with the head on top, is given up; `clock` of client `c` is missing. */
  ghost predicate GivenUp(s: Sched, s': Sched, c: int, clock: int)
    requires s.head.Some?
  {
    exists d :: Dumped(Push(s), d) && s' == d.(missing := UpdateMissing(d.missing, c, clock))
  }

  /** What one pass does with the head. */
  ghost predicate HandleStep(s: Sched, s': Sched)
    requires s.head.Some?
  {
    var h := s.head.value;
    var local, missing := GetState(s.store, h.client), MissingDep(s.store, h);
    if h.kind.Skip? then s' == Drop(s)
    else if local < h.clock then GivenUp(s, s', h.client, h.clock - 1)
    else if missing.Some? then
      var c := missing.value.client;
      if Remaining(s, c) then s' == Await(s, c) else GivenUp(s, s', c, GetState(s.store, c))
    else if local < h.clock + h.len then s' == Drop(Applied(s))
    else s' == Drop(s)
  }

  /** Where the next head comes from. */
  ghost predicate FetchStep(s: Sched, s': Sched)
    requires s.head.None?
  {
    if s.stack != [] then s' == Pop(s)
    else
      exists t: Sched :: t == s.(ids := t.ids, cur := t.cur) && Listed(s.(ids := t.ids)) &&
        if t.cur.Some? && Remaining(t, t.cur.value) then s' == Take(t, t.cur.value) else s' == t && Exhausted(t)
  }

  ghost predicate Step(s: Sched, s': Sched) {
    if s.head.Some? then HandleStep(s, s') else FetchStep(s, s')
  }

  function Begin(store: Store, input: Update, ids: seq<int>): Sched {
    Sched(store, map c | c in input :: Queue(0, input[c]), ids, None, [], None, map[], map[], [])
  }

  ghost predicate StepAt(trace: seq<Sched>, n: nat)
    requires n + 1 < |trace|
  {
    Step(trace[n], trace[n + 1])
  }

  /** The states `integrateStructs` goes through. */
  ghost predicate Run(store: Store, input: Update, ids: seq<int>, trace: seq<Sched>) {
    && trace != [] && trace[0] == Begin(store, input, ids)
    && forall n: nat :: n + 1 < |trace| ==> StepAt(trace, n)
  }

  lemma {:induction false} GiveUpKeeps(input: Update, init: Store, time: Id -> int, s: Sched, s': Sched, c: int, clock: int)
    requires WellFormed(input) && Inv(input, init, time, s) && s.head.Some? && !s.head.value.kind.Skip?
    requires DeadWall(Push(s), c, clock) && GivenUp(s, s', c, clock)
    ensures Inv(input, init, time, s')
  {
    var d :| Dumped(Push(s), d) && s' == d.(missing := UpdateMissing(d.missing, c, clock));
    DumpKeeps(input, init, time, s, d, c, clock);
  }

  lemma {:induction false} HandleKeeps(input: Update, init: Store, time: Id -> int, s: Sched, s': Sched)
    requires WellFormed(input) && Acyclic(input, time) && Inv(input, init, time, s) && s.head.Some? && HandleStep(s, s')
    ensures Inv(input, init, time, s')
  {
    var h := s.head.value;
    if h.kind.Skip? {
      DropKeeps(input, init, time, s);
    } else if GetState(s.store, h.client) < h.clock {
      ActiveFromInput(input, s, h);
      GiveUpKeeps(input, init, time, s, s', h.client, h.clock - 1);
    } else if MissingDep(s.store, h).Some? {
      MissingKeeps(input, init, time, s, s');
    } else {
      ReadyKeeps(input, init, time, s, s');
    }
  }

  lemma {:induction false} MissingKeeps(input: Update, init: Store, time: Id -> int, s: Sched, s': Sched)
    requires WellFormed(input) && Acyclic(input, time) && Inv(input, init, time, s) && s.head.Some? && HandleStep(s, s')
    requires Started(s.store, s.head.value) && MissingDep(s.store, s.head.value).Some?
    ensures Inv(input, init, time, s')
  {
    var d := MissingDep(s.store, s.head.value).value;
    ActiveFromInput(input, s, s.head.value);
    if Remaining(s, d.client) { AwaitKeeps(input, init, time, s, d); } else { GiveUpKeeps(input, init, time, s, s', d.client, GetState(s.store, d.client)); }
  }

  lemma {:induction false} ReadyKeeps(input: Update, init: Store, time: Id -> int, s: Sched, s': Sched)
    requires WellFormed(input) && Inv(input, init, time, s) && s.head.Some? && HandleStep(s, s')
    requires Started(s.store, s.head.value) && MissingDep(s.store, s.head.value).None?
    ensures Inv(input, init, time, s')
  {
    if Done(s.store, s.head.value) { DropKeeps(input, init, time, s); } else { ApplyKeeps(input, init, time, s); }
  }

  lemma {:induction false} FetchKeeps(input: Update, init: Store, time: Id -> int, s: Sched, s': Sched)
    requires WellFormed(input) && Inv(input, init, time, s) && s.head.None? && FetchStep(s, s')
    ensures Inv(input, init, time, s')
  {
    if s.stack != [] {
      PopKeeps(input, init, time, s);
    } else {
      var t: Sched :| t == s.(ids := t.ids, cur := t.cur) && Listed(s.(ids := t.ids)) &&
               if t.cur.Some? && Remaining(t, t.cur.value) then s' == Take(t, t.cur.value) else s' == t && Exhausted(t);
      IdsKeep(input, init, time, s, t);
      if t.cur.Some? && Remaining(t, t.cur.value) { TakeKeeps(input, init, time, t, t.cur.value); }
    }
  }

  /** The invariant holds in every state of every run. */
  lemma {:induction false} RunKeepsInv(input: Update, init: Store, ids: seq<int>, time: Id -> int, trace: seq<Sched>, n: nat)
    requires WellFormed(input) && Acyclic(input, time) && (forall c :: c in ids <==> c in input) && Run(init, input, ids, trace) && n < |trace|
    ensures Inv(input, init, time, trace[n])
  {
    if n == 0 {
      InitHolds(init, input, ids, time, trace[0]);
    } else {
      RunKeepsInv(input, init, ids, time, trace, n - 1);
      assert StepAt(trace, n - 1);
      if trace[n - 1].head.Some? { HandleKeeps(input, init, time, trace[n - 1], trace[n]); } else { FetchKeeps(input, init, time, trace[n - 1], trace[n]); }
    }
  }

  /** In no state of a run are two structs of one client at hand. */
  lemma {:induction false} NeverTwoOfOneClient(input: Update, init: Store, ids: seq<int>, time: Id -> int, trace: seq<Sched>, n: nat, j: nat, k: nat)
    requires WellFormed(input) && Acyclic(input, time) && (forall c :: c in ids <==> c in input) && Run(init, input, ids, trace) && n < |trace|
    requires j < k < |Active(trace[n])|
    ensures Active(trace[n])[j].client != Active(trace[n])[k].client
  {
    RunKeepsInv(input, init, ids, time, trace, n);
    assert OneEach(Active(trace[n]), j, k);
  }

  // ---------------------------------------------------------------- the loop

  /** Structs not taken yet; the loop's first measure. */
  ghost function Untaken(s: Sched): set<(int, int)> {
    set c, k | c in s.refs && s.refs[c].i <= k < |s.refs[c].refs| :: (c, k)
  }

  lemma {:induction false} BumpTakes(s: Sched, c: int, s': Sched)
    requires Remaining(s, c) && s'.refs == Bump(s, c)
    ensures Untaken(s') < Untaken(s)
  {
    assert (c, s.refs[c].i) in Untaken(s) && (c, s.refs[c].i) !in Untaken(s');
  }

  lemma {:induction false} DumpTakes(s: Sched, s': Sched)
    requires Dumped(s, s')
    ensures Untaken(s') <= Untaken(s)
  {
    forall c, k | (c, k) in Untaken(s') ensures (c, k) in Untaken(s) {
      assert Moved(s, s.stack, s'.refs, s'.rest, s'.ids, c);
    }
  }

  /** `getNextStructTarget`: drop exhausted queues from the end of the id list. */
  method NextTarget(s: Sched) returns (ids: seq<int>, target: Option<int>)
    requires Listed(s)
    ensures Listed(s.(ids := ids))
    ensures target.Some? ==> Remaining(s, target.value)
    ensures target.None? ==> forall c :: !Remaining(s, c)
  {
    ids := s.ids;
    while ids != [] && !Remaining(s, ids[|ids| - 1])
      invariant Listed(s.(ids := ids))
    {
      ghost var before := ids;
      ids := ids[..|ids| - 1];
      forall c | Remaining(s.(ids := ids), c) ensures c in ids {
        assert Remaining(s.(ids := before), c);
        assert before == ids + [before[|before| - 1]];
      }
    }
    if ids == [] {
      target := None;
      forall c ensures !Remaining(s, c) { assert Remaining(s, c) ==> Remaining(s.(ids := ids), c); }
    } else {
      target := Some(ids[|ids| - 1]);
    }
  }

  /** Handle the head: skip it, integrate it, wait for another client, or give up. */
  method Handle(input: Update, ghost init: Store, ghost time: Id -> int, s: Sched) returns (s': Sched)
    requires WellFormed(input) && Acyclic(input, time) && Inv(input, init, time, s) && s.head.Some?
    ensures HandleStep(s, s') && Inv(input, init, time, s')
    ensures if s'.head.Some? then Untaken(s') < Untaken(s) else Untaken(s') <= Untaken(s) && |s'.stack| <= |s.stack|
  {
    var h := s.head.value;
    ActiveFromInput(input, s, h);
    var local, missing := GetState(s.store, h.client), MissingDep(s.store, h);
    if h.kind.Skip? {
      s' := Drop(s);
    } else if local < h.clock {
      s' := GiveUp(input, init, time, s, h.client, h.clock - 1);
    } else if missing.Some? {
      var c := missing.value.client;
      if !Remaining(s, c) {
        s' := GiveUp(input, init, time, s, c, GetState(s.store, c));
      } else {
        s' := Await(s, c);
        BumpTakes(s, c, s');
      }
    } else if local < h.clock + h.len {
      s' := Drop(Applied(s));
    } else {
      s' := Drop(s);
    }
    HandleKeeps(input, init, time, s, s');
  }

  method GiveUp(input: Update, ghost init: Store, ghost time: Id -> int, s: Sched, c: int, clock: int) returns (s': Sched)
    requires WellFormed(input) && Inv(input, init, time, s) && s.head.Some? && !s.head.value.kind.Skip? && DeadWall(Push(s), c, clock)
    ensures GivenUp(s, s', c, clock) && s'.head.None? && s'.stack == [] && Untaken(s') <= Untaken(s)
  {
    var p := Push(s);
    PushQueues(input, s);
    forall k | 0 <= k < |p.stack|
      ensures var e := p.stack[k].client; e in p.refs && 0 < p.refs[e].i <= |p.refs[e].refs| && e !in p.rest
    {
      StackIsDumpable(input, p, k);
    }
    s' := AddStackToRest(p);
    DumpTakes(p, s');
    assert Dumped(Push(s), s');
    s' := s'.(missing := UpdateMissing(s'.missing, c, clock));
  }

  ghost predicate Exhausted(s: Sched) {
    s.stack == [] && forall c :: !Remaining(s, c)
  }

  /** Fetch the next struct: from the stack, the current queue, or the next queue. */
  method Fetch(input: Update, ghost init: Store, ghost time: Id -> int, s: Sched) returns (s': Sched)
    requires WellFormed(input) && Inv(input, init, time, s) && s.head.None?
    ensures FetchStep(s, s') && Inv(input, init, time, s')
    ensures s'.head.Some? ==> Untaken(s') < Untaken(s) || (Untaken(s') == Untaken(s) && |s'.stack| < |s.stack|)
    ensures s'.head.None? ==> Exhausted(s')
  {
    if s.stack != [] {
      PopKeeps(input, init, time, s);
      return Pop(s);
    }
    var t := s;
    if !(s.cur.Some? && Remaining(s, s.cur.value)) {
      var ids, target := NextTarget(s);
      t := s.(ids := ids, cur := target);
      IdsKeep(input, init, time, s, t);
      if target.None? { return t; }
    }
    var c := t.cur.value;
    TakeKeeps(input, init, time, t, c);
    s' := Take(t, c);
    BumpTakes(t, c, s');
  }

  lemma {:induction false} IdsKeep(input: Update, init: Store, time: Id -> int, s: Sched, t: Sched)
    requires Inv(input, init, time, s) && t == s.(ids := t.ids, cur := t.cur) && Listed(s.(ids := t.ids))
    ensures Inv(input, init, time, t) && Untaken(t) == Untaken(s)
    ensures forall c {:trigger Remaining(t, c)} :: Remaining(t, c) == Remaining(s, c)
  {
    forall c ensures Remaining(t, c) == Remaining(s, c) == Remaining(s.(ids := t.ids), c) { }
    assert Active(t) == Active(s);
    forall x ensures IsActive(s, x) == IsActive(t, x) { }
    forall e | e in input ensures QueueOk(input, t, e) { assert QueueOk(input, s, e); }
    forall k | 0 <= k < |Active(t)| ensures ActiveOk(input, t, k) { assert ActiveOk(input, s, k); }
    forall j, k | 0 <= j < k < |Active(t)| ensures OneEach(Active(t), j, k) { assert OneEach(Active(s), j, k); }
    forall k | 0 <= k < |Active(t)| - 1 ensures Waits(t.store, Active(t), k) { assert Waits(s.store, Active(s), k); }
    forall e | Closed(s, e) ensures Closed(t, e) { }
    StillPending(s, t);
  }

  lemma {:induction false} RunGoesOn(store: Store, input: Update, ids: seq<int>, trace: seq<Sched>, s: Sched, s': Sched)
    requires Run(store, input, ids, trace) && trace[|trace| - 1] == s && Step(s, s')
    ensures Run(store, input, ids, trace + [s'])
  {
    var all := trace + [s'];
    forall n: nat | n + 1 < |all| ensures StepAt(all, n) {
      if n + 1 < |trace| { assert StepAt(trace, n); }
    }
  }

  /** A run that has come to `s`. */
  ghost predicate Reaches(store: Store, input: Update, ids: seq<int>, trace: seq<Sched>, s: Sched) {
    Run(store, input, ids, trace) && trace[|trace| - 1] == s
  }

  method FetchNext(input: Update, ghost init: Store, ids: seq<int>, ghost time: Id -> int, s: Sched, ghost trace: seq<Sched>) returns (s': Sched, ghost trace': seq<Sched>)
    requires WellFormed(input) && Inv(input, init, time, s) && s.head.None? && Reaches(init, input, ids, trace, s)
    ensures Inv(input, init, time, s') && Reaches(init, input, ids, trace', s')
    ensures s'.head.Some? ==> Untaken(s') < Untaken(s) || (Untaken(s') == Untaken(s) && |s'.stack| < |s.stack|)
    ensures s'.head.None? ==> Exhausted(s')
  {
    s' := Fetch(input, init, time, s);
    RunGoesOn(init, input, ids, trace, s, s');
    trace' := trace + [s'];
  }

  /** One pass through the merge loop. */
  method Turn(input: Update, ghost init: Store, ids: seq<int>, ghost time: Id -> int, s: Sched, ghost trace: seq<Sched>) returns (s': Sched, ghost trace': seq<Sched>)
    requires WellFormed(input) && Acyclic(input, time) && Inv(input, init, time, s) && s.head.Some? && Reaches(init, input, ids, trace, s)
    ensures Inv(input, init, time, s') && (s'.head.None? ==> Exhausted(s')) && Reaches(init, input, ids, trace', s')
    ensures s'.head.Some? ==> Untaken(s') < Untaken(s) || (Untaken(s') == Untaken(s) && |s'.stack| < |s.stack|)
  {
    s' := Handle(input, init, time, s);
    RunGoesOn(init, input, ids, trace, s, s');
    trace' := trace + [s'];
    if s'.head.None? {
      s', trace' := FetchNext(input, init, ids, time, s', trace');
    }
  }

  // ---------------------------------------------------------------- the result

  /** The queue of `c` fell in two: what the store now covers, then what is pending. */
  ghost predicate Settled(input: Update, store: Store, rest: Update, c: int)
    requires c in input
  {
    var n := if c in rest then |rest[c]| else 0;
    && n <= |input[c]|
    && (c in rest ==> n > 0 && rest[c] == input[c][|input[c]| - n..])
    && (forall k :: 0 <= k < |input[c]| - n ==> Done(store, input[c][k]))
  }

  /** A struct the store is not ready for: its client's clocks have a gap, or
      another client's unit it depends on is not there. */
  ghost predicate Stuck(store: Store, x: Struct) {
    !x.kind.Skip? && (x.clock > GetState(store, x.client) || (x.kind.Content? && !RefsThere(store, x)))
  }

  /** The unit is the struct's own client's, or in the store. */
  predicate RefThere(store: Store, x: Struct, ref: Option<Id>) {
    ref.Some? && ref.value.client != x.client ==> ref.value.clock < GetState(store, ref.value.client)
  }

  /** Origin, right origin and parent. */
  predicate RefsThere(store: Store, x: Struct) {
    RefThere(store, x, x.origin) && RefThere(store, x, x.rightOrigin) && RefThere(store, x, x.parent)
  }

  /** What a struct waits for is its origin, its right origin and its parent. */
  lemma {:induction false} LacksIsRefs(store: Store, x: Struct)
    ensures (exists d :: Lacks(store, x, d)) <==> x.kind.Content? && !RefsThere(store, x)
  {
    if x.kind.Content? && !RefsThere(store, x) {
      var d := if !RefThere(store, x, x.origin) then x.origin.value else if !RefThere(store, x, x.rightOrigin) then x.rightOrigin.value else x.parent.value;
      assert Lacks(store, x, d);
    }
  }

  /** What keeps a client's first pending struct back is on record: it is listed as missing,
      or it is another pending client's. */
  ghost predicate OnRecord(store: Store, rest: Update, missing: map<int, int>, c: int)
    requires c in rest
  {
    rest[c] != [] && rest[c][0].client == c && !rest[c][0].kind.Skip? && exists d :: HeldUp(store, rest[c][0], d) && Noted(rest, missing, rest[c][0], d)
  }

  /** `integrateStructs`, for an update without dependency cycles; `ids` are the
      clients in the order in which the queues are served, last first. */
  method IntegrateStructs(store: Store, input: Update, ids: seq<int>, ghost time: Id -> int)
    returns (store': Store, rest: Update, missing: map<int, int>, ghost log: seq<Struct>, ghost trace: seq<Sched>)
    requires WellFormed(input) && Acyclic(input, time) && forall c :: c in ids <==> c in input
    ensures Run(store, input, ids, trace) && trace[|trace| - 1].store == store' && trace[|trace| - 1].rest == rest
    ensures forall n, j, k {:trigger Active(trace[n])[j], Active(trace[n])[k]} :: 0 <= n < |trace| && 0 <= j < k < |Active(trace[n])| ==>
              Active(trace[n])[j].client != Active(trace[n])[k].client
    ensures Logged(store, log, store') && Stems(input, log) && forall k :: 0 <= k < |log| && log[k].kind.Content? ==> RefsThere(store', log[k])
    ensures rest.Keys <= input.Keys && forall c :: c in input ==> Settled(input, store', rest, c)
    ensures forall c :: c in rest ==> rest[c] != [] && Stuck(store', rest[c][0])
    ensures forall c :: c in rest ==> OnRecord(store', rest, missing, c)
    ensures forall c :: c in missing ==> missing[c] >= GetState(store', c) && HasReason(store', rest, c, missing[c])
    ensures rest.Keys != {} ==> missing.Keys != {}
  {
    var s := Begin(store, input, ids);
    InitHolds(store, input, ids, time, s);
    s, trace := FetchNext(input, store, ids, time, s, [s]);
    while s.head.Some?
      invariant Inv(input, store, time, s)
      invariant s.head.None? ==> Exhausted(s)
      invariant Reaches(store, input, ids, trace, s)
      decreases s.head.Some?, Untaken(s), |s.stack|
    {
      s, trace := Turn(input, store, ids, time, s, trace);
    }
    forall n, j, k | 0 <= n < |trace| && 0 <= j < k < |Active(trace[n])| ensures Active(trace[n])[j].client != Active(trace[n])[k].client {
      NeverTwoOfOneClient(input, store, ids, time, trace, n, j, k);
    }
    EndIsSettled(input, store, time, s);
    forall k | 0 <= k < |s.log| && s.log[k].kind.Content? ensures RefsThere(s.store, s.log[k]) { DependenciesAreThere(store, s.log, s.store, k); }
    store', rest, missing, log := s.store, s.rest, s.missing, s.log;
  }

  lemma {:induction false} EndIsSettled(input: Update, init: Store, time: Id -> int, s: Sched)
    requires Inv(input, init, time, s) && s.head.None? && Exhausted(s)
    ensures forall c :: c in input ==> Settled(input, s.store, s.rest, c)
    ensures forall c :: c in s.rest ==> s.rest[c] != [] && Stuck(s.store, s.rest[c][0])
    ensures forall c :: c in s.rest ==> OnRecord(s.store, s.rest, s.missing, c)
    ensures forall c :: c in s.missing ==> s.missing[c] >= GetState(s.store, c) && HasReason(s.store, s.rest, c, s.missing[c])
  {
    forall c | c in input ensures Settled(input, s.store, s.rest, c) {
      assert QueueOk(input, s, c);
      assert !Remaining(s, c);
    }
    forall c | c in s.rest ensures Stuck(s.store, s.rest[c][0]) && OnRecord(s.store, s.rest, s.missing, c) {
      assert Blocked(s, s.rest[c][0]);
      var d :| BlockedBy(s, s.rest[c][0], d);
      LacksIsRefs(s.store, s.rest[c][0]);
    }
  }

  lemma {:induction false} InitHolds(store: Store, input: Update, ids: seq<int>, time: Id -> int, s: Sched)
    requires forall c :: c in ids <==> c in input
    requires s == Begin(store, input, ids)
    ensures Inv(input, store, time, s)
  {
    assert Active(s) == [];
    forall c | c in input ensures QueueOk(input, s, c) { }
  }

  // ---------------------------------------------------------------- what the log means

  lemma {:induction false} AddedStore(before: Store, x: Struct, store: Store)
    requires x.clock == GetState(before, x.client) && AddStruct(before, x) == Some(store)
    ensures store == before[x.client := x.clock + x.len]
  {
    var added := AddStruct(before, x);
    assert added.value == before[x.client := x.clock + x.len];
  }

  lemma {:induction false} StoreGrows(init: Store, log: seq<Struct>, store: Store, c: int)
    requires Logged(init, log, store)
    ensures GetState(init, c) <= GetState(store, c)
    decreases |log|
  {
    if log != [] {
      var x := log[|log| - 1];
      var before :| Logged(init, log[..|log| - 1], before) && x.clock == GetState(before, x.client) && x.len > 0 && AddStruct(before, x) == Some(store);
      StoreGrows(init, log[..|log| - 1], before, c);
      AddedStore(before, x, store);
    }
  }

  /** Whatever was integrated has the origin, the right origin and the parent that other
      clients made in the final store. */
  lemma {:induction false} DependenciesAreThere(init: Store, log: seq<Struct>, store: Store, k: nat)
    requires Logged(init, log, store) && k < |log| && log[k].kind.Content?
    ensures var x := log[k];
            && (x.origin.Some? && x.origin.value.client != x.client ==> x.origin.value.clock < GetState(store, x.origin.value.client))
            && (x.rightOrigin.Some? && x.rightOrigin.value.client != x.client ==> x.rightOrigin.value.clock < GetState(store, x.rightOrigin.value.client))
            && (x.parent.Some? && x.parent.value.client != x.client ==> x.parent.value.clock < GetState(store, x.parent.value.client))
    decreases |log|
  {
    var n := |log| - 1;
    var x := log[n];
    var before :| Logged(init, log[..n], before) && x.clock == GetState(before, x.client) && x.len > 0 &&
                  (forall e :: !Lacks(before, x, e)) && AddStruct(before, x) == Some(store);
    if k == n {
      LacksIsRefs(before, x);
      MoreRefs(before, store, x);
    } else {
      assert log[..n][k] == log[k];
      DependenciesAreThere(init, log[..n], before, k);
      AddedStore(before, x, store);
      MoreRefs(before, store, log[k]);
    }
  }

  lemma {:induction false} MoreRefs(store: Store, store': Store, x: Struct)
    requires RefsThere(store, x) && forall c {:trigger GetState(store', c)} :: GetState(store, c) <= GetState(store', c)
    ensures RefsThere(store', x)
  {
  }

  /** Each client's integrated structs follow each other without gap or overlap. */
  lemma {:induction false} ClocksAreContiguous(init: Store, log: seq<Struct>, store: Store, c: int, clock: nat)
    requires Logged(init, log, store)
    ensures GetState(init, c) <= clock < GetState(store, c) <==>
            exists k :: 0 <= k < |log| && log[k].client == c && log[k].clock <= clock < log[k].clock + log[k].len
    decreases |log|
  {
    if log != [] {
      var n := |log| - 1;
      var x := log[n];
      var before :| Logged(init, log[..n], before) && x.clock == GetState(before, x.client) && x.len > 0 && AddStruct(before, x) == Some(store);
      ClocksAreContiguous(init, log[..n], before, c, clock);
      StoreGrows(init, log[..n], before, c);
      AddedStore(before, x, store);
      assert forall k {:trigger log[k]} :: 0 <= k < n ==> log[k] == log[..n][k];
      if k :| 0 <= k < n && log[..n][k].client == c && log[..n][k].clock <= clock < log[..n][k].clock + log[..n][k].len {
        assert log[k] == log[..n][k];
      }
      assert log[n] == x;
    }
  }

  // ---------------------------------------------------------------- when everything has arrived

  ghost predicate Brings(q: seq<Struct>, k: nat, clock: nat) {
    k < |q| && !q[k].kind.Skip? && q[k].clock <= clock < q[k].clock + q[k].len
  }

  /** The store has the unit, or the update brings it. */
  ghost predicate Available(input: Update, init: Store, d: Id) {
    d.clock < GetState(init, d.client) || (d.client in input && exists k: nat :: Brings(input[d.client], k, d.clock))
  }

  /** The unit before `x` is available, and whatever else it depends on. */
  ghost predicate Ready(input: Update, init: Store, x: Struct) {
    && (x.clock > 0 ==> Available(input, init, Id(x.client, x.clock - 1)))
    && RefAvailable(input, init, x, x.origin) && RefAvailable(input, init, x, x.rightOrigin) && RefAvailable(input, init, x, x.parent)
  }

  ghost predicate RefAvailable(input: Update, init: Store, x: Struct, ref: Option<Id>) {
    ref.Some? && ref.value.client != x.client ==> Available(input, init, ref.value)
  }

  ghost predicate AllReady(input: Update, init: Store) {
    forall c, k {:trigger Ready(input, init, input[c][k])} :: c in input && 0 <= k < |input[c]| && !input[c][k].kind.Skip? ==> Ready(input, init, input[c][k])
  }

  /** What the store lacks of what is available is pending. */
  lemma {:induction false} LackedIsPending(input: Update, init: Store, store: Store, rest: Update, d: Id)
    requires WellFormed(input) && rest.Keys <= input.Keys && (forall c :: c in input ==> Settled(input, store, rest, c)) && GetState(init, d.client) <= GetState(store, d.client)
    requires Available(input, init, d) && d.clock >= GetState(store, d.client)
    ensures d.client in rest && rest[d.client] != [] && rest[d.client][0].client == d.client && rest[d.client][0].clock <= d.clock
  {
    var c := d.client;
    var k: nat :| Brings(input[c], k, d.clock);
    assert Settled(input, store, rest, c) && !Done(store, input[c][k]);
    var m := |input[c]| - |rest[c]|;
    assert rest[c][0] == input[c][m] && m <= k;
    assert m < k ==> input[c][m].clock + input[c][m].len <= input[c][k].clock;
  }

  /** The pending struct that is the earliest of all. */
  lemma {:induction false} Earliest(rest: Update, clients: set<int>, time: Id -> int, some: int) returns (c: int)
    requires some in clients && clients <= rest.Keys && forall e :: e in rest ==> rest[e] != []
    ensures c in clients && forall e {:trigger rest[e][0]} :: e in clients ==> Moment(time, rest[c][0]) <= Moment(time, rest[e][0])
    decreases clients
  {
    c := some;
    if other :| other in clients && other != some {
      var d := Earliest(rest, clients - {some}, time, other);
      if Moment(time, rest[d][0]) < Moment(time, rest[c][0]) { c := d; }
    }
  }

  /** Once everything has arrived, in the store or in this update, nothing stays pending. */
  lemma {:induction false} NothingStaysPending(input: Update, init: Store, time: Id -> int, log: seq<Struct>, store: Store, rest: Update)
    requires WellFormed(input) && Acyclic(input, time) && AllReady(input, init) && Logged(init, log, store)
    requires rest.Keys <= input.Keys && (forall c :: c in input ==> Settled(input, store, rest, c)) && forall c :: c in rest ==> rest[c] != [] && Stuck(store, rest[c][0])
    ensures rest == map[]
  {
    if some :| some in rest {
      var c := Earliest(rest, rest.Keys, time, some);
      var e := EarlierPending(input, init, time, log, store, rest, c);
      assert false;
    } else {
      assert forall f :: f !in rest.Keys;
      assert rest.Keys == {};
    }
  }

  /** A pending struct waits for another client's, which is earlier. */
  lemma {:induction false} EarlierPending(input: Update, init: Store, time: Id -> int, log: seq<Struct>, store: Store, rest: Update, c: int) returns (e: int)
    requires WellFormed(input) && Acyclic(input, time) && AllReady(input, init) && Logged(init, log, store)
    requires rest.Keys <= input.Keys && (forall f :: f in input ==> Settled(input, store, rest, f)) && c in rest && rest[c] != [] && Stuck(store, rest[c][0])
    ensures e in rest && rest[e] != [] && Moment(time, rest[e][0]) < Moment(time, rest[c][0])
  {
    var k, d := AwaitedUnit(input, init, store, rest, c);
    StoreGrows(init, log, store, d.client);
    LackedIsPending(input, init, store, rest, d);
    e := d.client;
    EarlierMoment(input, time, c, k, d, rest[e][0].clock);
    HeadsClient(input, store, rest, c);
  }

  lemma {:induction false} HeadsClient(input: Update, store: Store, rest: Update, c: int)
    requires WellFormed(input) && c in input && c in rest && rest[c] != [] && Settled(input, store, rest, c)
    ensures var k := |input[c]| - |rest[c]|; 0 <= k < |input[c]| && rest[c][0] == input[c][k] && rest[c][0].client == c
  {
  }

  /** The unit a client's first pending struct waits for is available, but not in the store. */
  lemma {:induction false} AwaitedUnit(input: Update, init: Store, store: Store, rest: Update, c: int) returns (k: nat, d: Id)
    requires WellFormed(input) && AllReady(input, init) && c in input && c in rest && rest[c] != [] && Settled(input, store, rest, c) && Stuck(store, rest[c][0])
    ensures k < |input[c]| && rest[c][0] == input[c][k] && Available(input, init, d) && d.clock >= GetState(store, d.client)
    ensures (d.client == c && d.clock + 1 == input[c][k].clock) || (d.client != c && DependsOn(input[c][k], d))
  {
    HeadsClient(input, store, rest, c);
    k := |input[c]| - |rest[c]|;
    assert Ready(input, init, input[c][k]);
    d := Awaited(store, input[c][k]);
  }

  /** A struct comes after what it depends on, and a client's unit not before its earlier ones. */
  lemma {:induction false} EarlierMoment(input: Update, time: Id -> int, c: int, k: nat, d: Id, clock: nat)
    requires Acyclic(input, time) && c in input && k < |input[c]| && clock <= d.clock
    requires (d.client == c && d.clock + 1 == input[c][k].clock) || (d.client != c && DependsOn(input[c][k], d))
    ensures time(Id(d.client, clock)) < time(Id(c, input[c][k].clock))
  {
    assert clock < d.clock ==> time(Id(d.client, clock)) < time(Id(d.client, d.clock));
  }

  /** The unit a stuck struct waits for. */
  lemma {:induction false} Awaited(store: Store, x: Struct) returns (d: Id)
    requires Stuck(store, x)
    ensures d.clock >= GetState(store, d.client)
    ensures (d.client == x.client && d.clock + 1 == x.clock) || (d.client != x.client && DependsOn(x, d))
  {
    if x.clock > GetState(store, x.client) {
      d := Id(x.client, x.clock - 1);
    } else {
      LacksIsRefs(store, x);
      d :| Lacks(store, x, d);
    }
  }
}

/** Merging awareness updates: per client the highest clock wins, and at the same clock
    a removal beats a state. */
module Awareness {
  import opened Wrappers

  /** A client's state is opaque; no state is a removal. */
  datatype Entry = Entry(client: int, clock: nat, state: Option<int>)

  ghost predicate NoneAbove(seen: iset<Entry>, c: int, n: nat) {
    forall e {:trigger e in seen} :: e in seen && e.client == c ==> e.clock <= n
  }

  /** Of client `c` nothing above clock `n` has been seen, and something at `n` unless `n` is 0. */
  ghost predicate Newest(seen: iset<Entry>, c: int, n: nat) {
    NoneAbove(seen, c, n) && (n > 0 ==> exists s :: Entry(c, n, s) in seen)
  }

  /** What a client's clock and state must be, given the entries that have been seen. */
  ghost predicate Winner(seen: iset<Entry>, c: int, clock: nat, state: Option<int>) {
    && Newest(seen, c, clock)
    && (state.Some? ==> Entry(c, clock, state) in seen && Entry(c, clock, None) !in seen)
    && (state.None? ==> clock == 0 || Entry(c, clock, None) in seen)
  }

  /** A clock carries one state at most, and clocks begin at 1. */
  ghost predicate Consistent(seen: iset<Entry>) {
    && (forall e {:trigger e in seen} :: e in seen ==> e.clock > 0)
    && (forall e, f {:trigger e in seen, f in seen} :: e in seen && f in seen && e.client == f.client && e.clock == f.clock && e.state.Some? && f.state.Some? ==> e == f)
  }

  /** The entries alone decide. */
  lemma {:induction false} WinnerIsUnique(seen: iset<Entry>, c: int, m: nat, s: Option<int>, n: nat, t: Option<int>)
    requires Consistent(seen) && Winner(seen, c, m, s) && Winner(seen, c, n, t)
    ensures m == n && s == t
  {
    if m > 0 {
      var u :| Entry(c, m, u) in seen;
      assert Entry(c, m, u).clock <= n;
    }
    if n > 0 {
      var u :| Entry(c, n, u) in seen;
      assert Entry(c, n, u).clock <= m;
    }
    assert s.Some? ==> Entry(c, m, s) in seen && m > 0;
    assert t.Some? ==> Entry(c, n, t) in seen && n > 0;
  }

  /** Clock and state of a client after an entry about a remote client. */
  function Merge(clock: nat, state: Option<int>, e: Entry): (nat, Option<int>) {
    if clock < e.clock || (clock == e.clock && e.state.None? && state.Some?) then (e.clock, e.state) else (clock, state)
  }

  lemma {:induction false} MergeKeepsWinner(seen: iset<Entry>, clock: nat, state: Option<int>, e: Entry)
    requires Consistent(seen + iset{e}) && Winner(seen, e.client, clock, state)
    ensures Winner(seen + iset{e}, e.client, Merge(clock, state, e).0, Merge(clock, state, e).1)
  {
    var all := seen + iset{e};
    var (n, s) := Merge(clock, state, e);
    assert n > 0 ==> exists u :: Entry(e.client, n, u) in all by {
      if n == e.clock { assert Entry(e.client, n, e.state) in all; }
      else if n > 0 { var u :| Entry(e.client, clock, u) in seen; assert Entry(e.client, n, u) in all; }
    }
  }

  lemma {:induction false} OthersKeepWinner(seen: iset<Entry>, e: Entry, c: int, clock: nat, state: Option<int>)
    requires Winner(seen, c, clock, state) && c != e.client
    ensures Winner(seen + iset{e}, c, clock, state)
  {
    if clock > 0 { var u :| Entry(c, clock, u) in seen; assert Entry(c, clock, u) in seen + iset{e}; }
  }

  /** While there is a local state, its clock is above that of every removal of it. */
  ghost predicate Outlives(seen: iset<Entry>, c: int, clock: nat, state: Option<int>) {
    forall e {:trigger e in seen} :: e in seen && e.client == c && e.state.None? ==> if state.Some? then e.clock < clock else e.clock <= clock
  }

  /** The local client after an entry about it that is not outdated. */
  lemma {:induction false} OutlivesMore(seen: iset<Entry>, e: Entry, clock: nat, state: Option<int>, n: nat, s: Option<int>)
    requires Outlives(seen, e.client, clock, state) && clock <= n && (e.clock < n || (e.clock == n && (s.None? || e.state.Some?)))
    requires s.Some? ==> clock < n || state.Some?
    ensures Outlives(seen + iset{e}, e.client, n, s)
  {
  }

  /** A client's clock in the metadata. */
  function ClockIn(meta: map<int, nat>, c: int): nat { if c in meta then meta[c] else 0 }

  function StateIn(states: map<int, int>, c: int): Option<int> { if c in states then Some(states[c]) else None }

  ghost predicate RightAbout(seen: iset<Entry>, states: map<int, int>, meta: map<int, nat>, c: int) {
    Winner(seen, c, ClockIn(meta, c), StateIn(states, c))
  }

  /** Every client but `self` is as the entries seen say. */
  ghost predicate AllRight(seen: iset<Entry>, self: int, states: map<int, int>, meta: map<int, nat>) {
    forall c {:trigger RightAbout(seen, states, meta, c)} :: c != self ==> RightAbout(seen, states, meta, c)
  }

  ghost predicate Unchanged(states: map<int, int>, meta: map<int, nat>, states': map<int, int>, meta': map<int, nat>, c: int) {
    ClockIn(meta', c) == ClockIn(meta, c) && StateIn(states', c) == StateIn(states, c)
  }

  ghost predicate OnlyChanges(e: Entry, states: map<int, int>, meta: map<int, nat>, states': map<int, int>, meta': map<int, nat>) {
    forall c {:trigger Unchanged(states, meta, states', meta', c)} :: c != e.client ==> Unchanged(states, meta, states', meta', c)
  }

  lemma {:induction false} StaysRight(seen: iset<Entry>, e: Entry, self: int, states: map<int, int>, meta: map<int, nat>, states': map<int, int>, meta': map<int, nat>)
    requires Consistent(seen + iset{e}) && AllRight(seen, self, states, meta) && OnlyChanges(e, states, meta, states', meta')
    requires e.client != self ==> (ClockIn(meta', e.client), StateIn(states', e.client)) == Merge(ClockIn(meta, e.client), StateIn(states, e.client), e)
    ensures AllRight(seen + iset{e}, self, states', meta')
  {
    forall c | c != self ensures RightAbout(seen + iset{e}, states', meta', c) {
      assert RightAbout(seen, states, meta, c);
      if c == e.client {
        MergeKeepsWinner(seen, ClockIn(meta, c), StateIn(states, c), e);
      } else {
        assert Unchanged(states, meta, states', meta', c);
        OthersKeepWinner(seen, e, c, ClockIn(meta, c), StateIn(states, c));
      }
    }
  }

  class Awareness {
    const clientID: int
    var states: map<int, int>
    var meta: map<int, nat>
    var destroyed: bool
    ghost var seen: iset<Entry>

    function Clock(c: int): nat
      reads this
    {
      ClockIn(meta, c)
    }

    function State(c: int): Option<int>
      reads this
    {
      StateIn(states, c)
    }

    /** Every remote client is as the entries seen say, and the local state outlives its removals. */
    ghost predicate Valid()
      reads this
    {
      Consistent(seen) && Outlives(seen, clientID, Clock(clientID), State(clientID)) && AllRight(seen, clientID, states, meta)
    }

    constructor (clientID: int)
      ensures Valid() && seen == iset{} && this.clientID == clientID && !destroyed
    {
      this.clientID := clientID;
      states, meta, destroyed, seen := map[], map[], false, iset{};
      new;
      forall c ensures RightAbout(seen, states, meta, c) { assert NoneAbove(seen, c, 0); }
    }

    /** One entry of an update. */
    method ApplyEntry(e: Entry)
      requires Valid() && Consistent(seen + iset{e})
      modifies `states, `meta, `seen
      ensures Valid() && seen == old(seen) + iset{e}
      ensures forall c {:trigger Clock(c)} :: Clock(c) >= old(Clock(c))
      ensures old(State(clientID)).Some? ==> State(clientID).Some?
      ensures e.client == clientID && e.state.None? && old(State(clientID)).Some? && old(Clock(clientID)) <= e.clock ==> State(clientID) == old(State(clientID)) && Clock(clientID) == e.clock + 1
      ensures e.client == clientID && e.state.Some? && old(Clock(clientID)) < e.clock ==> State(clientID) == e.state && Clock(clientID) == e.clock
      ensures e.clock < old(Clock(e.client)) ==> State(e.client) == old(State(e.client)) && Clock(e.client) == old(Clock(e.client))
      ensures forall c {:trigger Clock(c)} {:trigger State(c)} :: c != e.client ==> Clock(c) == old(Clock(c)) && State(c) == old(State(c))
    {
      var clock, c := e.clock, e.client;
      ghost var was, stood := Clock(c), State(c);
      if Clock(c) < clock || (Clock(c) == clock && e.state.None? && c in states) {
        if e.state.None? {
          // never let a remote client remove this local state
          if c == clientID && c in states {
            clock := clock + 1;
          } else {
            states := states - {c};
          }
        } else {
          states := states[c := e.state.value];
        }
        meta := meta[c := clock];
      }
      seen := seen + iset{e};
      assert Outlives(seen, clientID, Clock(clientID), State(clientID)) by {
        if c == clientID { OutlivesMore(old(seen), e, was, stood, Clock(c), State(c)); }
      }
      assert OnlyChanges(e, old(states), old(meta), states, meta);
      StaysRight(old(seen), e, clientID, old(states), old(meta), states, meta);
    }

    /** `applyAwarenessEntries` */
    method Apply(entries: seq<Entry>)
      requires Valid() && Consistent(seen + iset e | e in entries)
      modifies `states, `meta, `seen
      ensures Valid() && seen == if destroyed then old(seen) else old(seen) + iset e | e in entries
      ensures destroyed ==> states == old(states) && meta == old(meta)
      ensures forall c {:trigger Clock(c)} :: Clock(c) >= old(Clock(c))
      ensures old(State(clientID)).Some? ==> State(clientID).Some?
    {
      if destroyed {
        return;
      }
      for i := 0 to |entries|
        invariant Valid() && seen == old(seen) + iset e | e in entries[..i]
        invariant forall c {:trigger Clock(c)} :: Clock(c) >= old(Clock(c))
        invariant old(State(clientID)).Some? ==> State(clientID).Some?
      {
        assert entries[..i + 1] == entries[..i] + [entries[i]];
        assert Consistent(seen + iset{entries[i]}) by { assert seen + iset{entries[i]} <= old(seen) + iset e | e in entries; }
        ApplyEntry(entries[i]);
      }
      assert entries[..|entries|] == entries;
    }
  }

  /** Two replicas that have seen the same entries, in whatever order and however often,
      agree about every client that is remote to both. */
  lemma {:induction false} SameEntriesSameStates(a: Awareness, b: Awareness, c: int)
    requires a.Valid() && b.Valid() && a.seen == b.seen && c != a.clientID && c != b.clientID
    ensures a.Clock(c) == b.Clock(c) && a.State(c) == b.State(c)
  {
    assert RightAbout(a.seen, a.states, a.meta, c) && RightAbout(b.seen, b.states, b.meta, c);
    WinnerIsUnique(a.seen, c, a.Clock(c), a.State(c), b.Clock(c), b.State(c));
  }
}

/** Deleting an item with everything inside of it. */
module Cascade {
  import opened Wrappers
  import opened Doom
  import opened PieceList

  type Clients = map<int, seq<Piece>>

  function GetState(clients: Clients, c: int): nat {
    if c in clients then State(clients[c]) else 0
  }

  predicate GoneIn(clients: Clients, c: int, x: nat) {
    c in clients && Gone(clients[c], x)
  }

  /** The units that exist. */
  ghost function There(clients: Clients): iset<Id> {
    iset id: Id | id.clock < GetState(clients, id.client)
  }

  /** The units that are deleted. */
  ghost function Deleted(clients: Clients): iset<Id> {
    iset id: Id | GoneIn(clients, id.client, id.clock)
  }

  ghost predicate GoodClient(h: History, c: int, ps: seq<Piece>) {
    Contiguous(ps) && AllAgree(h, c, ps)
  }

  ghost predicate Stored(h: History, clients: Clients) {
    && (forall c {:trigger GoodClient(h, c, clients[c])} :: c in clients ==> GoodClient(h, c, clients[c]))
    && Rooted(h, There(clients))
  }

  lemma {:induction false} DeletedIsThere(h: History, clients: Clients)
    requires Stored(h, clients)
    ensures Deleted(clients) <= There(clients)
  {
    forall id | id in Deleted(clients) ensures id in There(clients) {
      var ps := clients[id.client];
      assert GoodClient(h, id.client, ps);
      var k :| 0 <= k < |ps| && Holds(ps[k], id.clock) && ps[k].deleted;
      HeldIsBelow(ps, k, id.clock);
    }
  }

  // ---------------------------------------------------------------- marking

  predicate MarkedAt(p: Piece, q: Piece) {
    q == p.(deleted := q.deleted) && (p.deleted ==> q.deleted)
  }

  ghost predicate MarkedIn(ps: seq<Piece>, qs: seq<Piece>) {
    |ps| == |qs| && forall k {:trigger MarkedAt(ps[k], qs[k])} :: 0 <= k < |ps| ==> MarkedAt(ps[k], qs[k])
  }

  /** Nothing but some structs marked as deleted. */
  ghost predicate Marked(a: Clients, b: Clients) {
    a.Keys == b.Keys && forall c {:trigger MarkedIn(a[c], b[c])} :: c in a ==> MarkedIn(a[c], b[c])
  }

  lemma {:induction false} MarkedTwice(a: Clients, b: Clients, c: Clients)
    requires Marked(a, b) && Marked(b, c)
    ensures Marked(a, c)
  {
    forall e | e in a ensures MarkedIn(a[e], c[e]) {
      assert MarkedIn(a[e], b[e]) && MarkedIn(b[e], c[e]);
      forall k | 0 <= k < |a[e]| ensures MarkedAt(a[e][k], c[e][k]) {
        assert MarkedAt(a[e][k], b[e][k]) && MarkedAt(b[e][k], c[e][k]);
      }
    }
  }

  lemma {:induction false} MarkedNothing(a: Clients)
    ensures Marked(a, a)
  {
    forall c | c in a ensures MarkedIn(a[c], a[c]) {
      forall k | 0 <= k < |a[c]| ensures MarkedAt(a[c][k], a[c][k]) { }
    }
  }

  lemma {:induction false} MarkedClient(h: History, c: int, ps: seq<Piece>, qs: seq<Piece>)
    requires GoodClient(h, c, ps) && MarkedIn(ps, qs)
    ensures GoodClient(h, c, qs) && State(qs) == State(ps) && forall x: nat {:trigger Gone(qs, x)} :: Gone(ps, x) ==> Gone(qs, x)
  {
    forall k | 0 <= k < |qs| ensures PieceOk(qs[k]) && Agrees(h, c, qs[k]) {
      assert MarkedAt(ps[k], qs[k]) && PieceOk(ps[k]) && Agrees(h, c, ps[k]);
      forall x: nat | Holds(qs[k], x) ensures SlotOf(h, Id(c, x)) == qs[k].slot { assert Holds(ps[k], x); }
    }
    assert forall k :: 0 <= k < |qs| ==> MarkedAt(ps[k], qs[k]);
    forall k | 0 <= k < |qs| - 1 ensures Adjoins(qs, k) {
      assert MarkedAt(ps[k], qs[k]) && MarkedAt(ps[k + 1], qs[k + 1]) && Adjoins(ps, k);
    }
    forall x: nat | Gone(ps, x) ensures Gone(qs, x) {
      var k :| 0 <= k < |ps| && Holds(ps[k], x) && ps[k].deleted;
      assert MarkedAt(ps[k], qs[k]);
      assert Holds(qs[k], x) && qs[k].deleted;
    }
  }

  lemma {:induction false} MarkedKeeps(h: History, a: Clients, b: Clients)
    requires Stored(h, a) && Marked(a, b)
    ensures Stored(h, b) && There(b) == There(a) && Deleted(a) <= Deleted(b)
    ensures forall c {:trigger GetState(b, c)} :: GetState(b, c) == GetState(a, c)
  {
    forall c | c in a ensures GoodClient(h, c, b[c]) && State(b[c]) == State(a[c]) {
      assert GoodClient(h, c, a[c]) && MarkedIn(a[c], b[c]);
      MarkedClient(h, c, a[c], b[c]);
    }
    assert There(b) == There(a);
    forall id | id in Deleted(a) ensures id in Deleted(b) {
      assert GoodClient(h, id.client, a[id.client]) && MarkedIn(a[id.client], b[id.client]);
      MarkedClient(h, id.client, a[id.client], b[id.client]);
      assert Gone(b[id.client], id.clock);
    }
  }

  /** The units of a struct. */
  ghost function UnitsOf(c: int, p: Piece): iset<Id> {
    iset id: Id | id.client == c && Holds(p, id.clock)
  }

  function Mark(clients: Clients, c: int, k: nat): Clients
    requires c in clients && k < |clients[c]|
  {
    clients[c := DeleteAt(clients[c], k)]
  }

  lemma {:induction false} MarkOne(h: History, clients: Clients, c: int, k: nat)
    requires Stored(h, clients) && c in clients && k < |clients[c]|
    ensures Marked(clients, Mark(clients, c, k)) && Deleted(Mark(clients, c, k)) == Deleted(clients) + UnitsOf(c, clients[c][k])
  {
    var m := Mark(clients, c, k);
    forall e | e in clients ensures MarkedIn(clients[e], m[e]) {
      forall i | 0 <= i < |clients[e]| ensures MarkedAt(clients[e][i], m[e][i]) { }
    }
    assert GoodClient(h, c, clients[c]);
    DeleteKeeps(clients[c], k);
    forall id ensures id in Deleted(m) <==> id in Deleted(clients) || id in UnitsOf(c, clients[c][k]) {
      assert Gone(DeleteAt(clients[c], k), id.clock) <==> Gone(clients[c], id.clock) || Holds(clients[c][k], id.clock);
    }
  }

  // ---------------------------------------------------------------- the structs still alive

  ghost function Live(clients: Clients): set<(int, int)> {
    set c, k | c in clients && 0 <= k < |clients[c]| && !clients[c][k].deleted :: (c, k)
  }

  lemma {:induction false} FewerLive(a: Clients, b: Clients)
    requires Marked(a, b)
    ensures Live(b) <= Live(a)
  {
    forall c, k | (c, k) in Live(b) ensures (c, k) in Live(a) {
      assert MarkedIn(a[c], b[c]);
      assert MarkedAt(a[c][k], b[c][k]);
    }
  }

  /** Struct `j` of client `d` is alive and lies in struct `p` of client `c`. */
  predicate LiveChild(clients: Clients, d: int, j: int, c: int, p: Piece) {
    && d in clients && 0 <= j < |clients[d]| && !clients[d][j].deleted
    && var slot := clients[d][j].slot; slot.Some? && slot.value.parent.Type? && slot.value.parent.id.client == c && Holds(p, slot.value.parent.id.clock)
  }

  /** The units of a child are doomed with their parent. */
  lemma {:induction false} ChildIsDoomed(h: History, clients: Clients, d: int, j: nat, c: int, p: Piece, roots: iset<Id>)
    requires Stored(h, clients) && LiveChild(clients, d, j, c, p) && forall id {:trigger Doomed(h, roots, id)} :: id in UnitsOf(c, p) ==> Doomed(h, roots, id)
    ensures forall id {:trigger Doomed(h, roots, id)} :: id in UnitsOf(d, clients[d][j]) ==> Doomed(h, roots, id)
  {
    assert GoodClient(h, d, clients[d]) && Agrees(h, d, clients[d][j]);
    var parent := clients[d][j].slot.value.parent.id;
    assert parent in UnitsOf(c, p) && Doomed(h, roots, parent);
    forall id | id in UnitsOf(d, clients[d][j]) ensures Doomed(h, roots, id) {
      assert SlotOf(h, Id(d, id.clock)) == clients[d][j].slot;
      DoomedStep(h, roots, id);
    }
  }

  /** Without a live child, nothing in the struct is alive. */
  lemma {:induction false} NoLiveChild(h: History, clients: Clients, c: int, p: Piece, open: iset<Id>)
    requires Stored(h, clients) && Shut(h, There(clients), Deleted(clients), open + UnitsOf(c, p))
    requires forall d, j {:trigger LiveChild(clients, d, j, c, p)} :: !LiveChild(clients, d, j, c, p)
    ensures Shut(h, There(clients), Deleted(clients), open)
  {
    forall id | id in There(clients) ensures ShutAt(h, Deleted(clients), open, id) {
      assert ShutAt(h, Deleted(clients), open + UnitsOf(c, p), id);
      var up := ParentOf(h, id);
      if up.Some? && up.value in UnitsOf(c, p) {
        var ps := clients[id.client];
        assert GoodClient(h, id.client, ps);
        var k := Holder(ps, id.clock);
        assert Agrees(h, id.client, ps[k]);
        assert !LiveChild(clients, id.client, k, c, p);
      }
    }
  }

  lemma {:induction false} MarkStaysShut(h: History, there: iset<Id>, gone: iset<Id>, open: iset<Id>, ids: iset<Id>)
    requires Shut(h, there, gone, open)
    ensures Shut(h, there, gone + ids, open + ids)
  {
    forall id | id in there ensures ShutAt(h, gone + ids, open + ids, id) { assert ShutAt(h, gone, open, id); }
  }

  /** `deleteItemStruct` and `deleteContent`: an item that is alive is marked, and then what is
      alive in the type it holds is deleted in the same way.  In `open` are the items whose
      contents are being worked on. */
  method DeleteTree(clients: Clients, c: int, k: nat, ghost h: History, ghost open: iset<Id>, ghost roots: iset<Id>) returns (clients': Clients)
    requires Stored(h, clients) && c in clients && k < |clients[c]| && !clients[c][k].deleted
    requires Shut(h, There(clients), Deleted(clients), open) && Justified(h, Deleted(clients), roots)
    requires forall id {:trigger Doomed(h, roots, id)} :: id in UnitsOf(c, clients[c][k]) ==> Doomed(h, roots, id)
    ensures Marked(clients, clients') && Stored(h, clients') && Live(clients') < Live(clients)
    ensures Shut(h, There(clients'), Deleted(clients'), open) && Justified(h, Deleted(clients'), roots)
    ensures Deleted(clients) + UnitsOf(c, clients[c][k]) <= Deleted(clients')
    decreases Live(clients)
  {
    var item := clients[c][k];
    ghost var ids := UnitsOf(c, item);
    clients' := Mark(clients, c, k);
    MarkOne(h, clients, c, k);
    MarkedKeeps(h, clients, clients');
    MarkStaysShut(h, There(clients), Deleted(clients), open, ids);
    FewerLive(clients, clients');
    assert (c, k) in Live(clients) && (c, k) !in Live(clients');
    ghost var marked := clients';
    while exists d, j :: d in clients' && 0 <= j < |clients'[d]| && LiveChild(clients', d, j, c, item)
      invariant Marked(clients, clients') && Stored(h, clients') && Live(clients') < Live(clients)
      invariant Shut(h, There(clients'), Deleted(clients'), open + ids) && Justified(h, Deleted(clients'), roots)
      invariant Deleted(clients) + ids <= Deleted(clients')
      decreases Live(clients')
    {
      var d, j :| d in clients' && 0 <= j < |clients'[d]| && LiveChild(clients', d, j, c, item);
      ghost var before := clients';
      ChildIsDoomed(h, clients', d, j, c, item, roots);
      clients' := DeleteTree(clients', d, j, h, open + ids, roots);
      MarkedTwice(clients, before, clients');
    }
    NoLiveChild(h, clients', c, item, open);
  }

  /** Exactly the doomed units of the store are deleted. */
  ghost predicate ExactIn(h: History, clients: Clients, roots: iset<Id>) {
    Stored(h, clients) && Exact(h, There(clients), Deleted(clients), roots)
  }

  /** Deleting a struct dooms its units: nothing less and nothing more is deleted. */
  method DeletePiece(clients: Clients, c: int, k: nat, ghost h: History, ghost roots: iset<Id>) returns (clients': Clients)
    requires ExactIn(h, clients, roots) && c in clients && k < |clients[c]|
    ensures Marked(clients, clients') && ExactIn(h, clients', roots + UnitsOf(c, clients[c][k]))
    ensures There(clients') == There(clients)
  {
    ghost var ids := UnitsOf(c, clients[c][k]);
    ExactIsShut(h, There(clients), Deleted(clients), roots);
    if clients[c][k].deleted {
      clients' := clients;
      MarkedNothing(clients);
      forall id | id in ids ensures id in Deleted(clients) { assert Holds(clients[c][k], id.clock); }
      OtherRoots(h, There(clients), Deleted(clients), roots, roots + ids);
      return;
    }
    StillJustified(h, Deleted(clients), roots, ids);
    UnitsExist(h, clients, c, k);
    clients' := DeleteTree(clients, c, k, h, iset{}, roots + ids);
    MarkedKeeps(h, clients, clients');
    DeletedIsThere(h, clients');
    ShutIsExact(h, There(clients'), Deleted(clients'), roots + ids);
  }

  lemma {:induction false} StillJustified(h: History, gone: iset<Id>, roots: iset<Id>, ids: iset<Id>)
    requires Justified(h, gone, roots)
    ensures Justified(h, gone, roots + ids)
    ensures forall id {:trigger Doomed(h, roots + ids, id)} :: id in ids ==> Doomed(h, roots + ids, id)
  {
    forall id | id in gone ensures Doomed(h, roots + ids, id) { MoreDoomed(h, roots, roots + ids, id); }
    forall id | id in ids ensures Doomed(h, roots + ids, id) { DoomedStep(h, roots + ids, id); }
  }

  lemma {:induction false} UnitsExist(h: History, clients: Clients, c: int, k: nat)
    requires Stored(h, clients) && c in clients && k < |clients[c]|
    ensures UnitsOf(c, clients[c][k]) <= There(clients)
  {
    assert GoodClient(h, c, clients[c]);
    forall id | id in UnitsOf(c, clients[c][k]) ensures id in There(clients) { HeldIsBelow(clients[c], k, id.clock); }
  }

  /** A split changes nothing about what exists and what is deleted. */
  lemma {:induction false} SplitIsNothing(h: History, clients: Clients, c: int, k: nat, at: nat)
    requires Stored(h, clients) && c in clients && k < |clients[c]| && clients[c][k].clock < at < PieceEnd(clients[c][k])
    ensures var clients' := clients[c := SplitAt(clients[c], k, at)]; Stored(h, clients') && There(clients') == There(clients) && Deleted(clients') == Deleted(clients)
  {
    var ps, qs := clients[c], SplitAt(clients[c], k, at);
    var clients' := clients[c := qs];
    assert GoodClient(h, c, ps);
    SplitKeeps(ps, k, at);
    SplitAgrees(h, c, ps, k, at);
    forall e | e in clients' ensures GoodClient(h, e, clients'[e]) { assert e != c ==> GoodClient(h, e, clients[e]); }
    assert There(clients') == There(clients);
    forall id ensures id in Deleted(clients') <==> id in Deleted(clients) { assert Gone(qs, id.clock) <==> Gone(ps, id.clock); }
  }

  // ---------------------------------------------------------------- one range

  /** The units `from..to` of a client. */
  ghost function RangeOf(c: int, from: nat, to: nat): iset<Id> {
    iset id: Id | id.client == c && from <= id.clock < to
  }

  function Max(a: nat, b: nat): nat { if a < b then b else a }

  function Min(a: nat, b: nat): nat { if a < b then a else b }

  /** Up to where the range has been worked off. */
  function Reached(ps: seq<Piece>, index: nat, clock: nat): nat
    requires index <= |ps|
  {
    if index < |ps| then Max(clock, ps[index].clock) else Max(clock, State(ps))
  }

  /** Compared with `ps`, structs were split at the two ends of the range only. */
  ghost predicate SplitAtEnds(a: Clients, b: Clients, c: int, from: nat, to: nat) {
    && a.Keys == b.Keys && c in a && SplitOnlyAt(a[c], b[c], from, to)
    && forall e {:trigger MarkedIn(a[e], b[e])} :: e in a && e != c ==> MarkedIn(a[e], b[e])
  }

  lemma {:induction false} MarkedBorders(ps: seq<Piece>, qs: seq<Piece>)
    requires MarkedIn(ps, qs)
    ensures forall x: nat {:trigger Border(qs, x)} :: Border(qs, x) ==> Border(ps, x)
  {
    forall x: nat | Border(qs, x) ensures Border(ps, x) {
      var k :| 0 <= k < |qs| && qs[k].clock == x;
      assert MarkedAt(ps[k], qs[k]);
      assert ps[k].clock == x;
    }
  }

  lemma {:induction false} StillSplitAtEnds(a: Clients, b: Clients, b': Clients, c: int, from: nat, to: nat)
    requires SplitAtEnds(a, b, c, from, to) && Marked(b, b')
    ensures SplitAtEnds(a, b', c, from, to)
  {
    assert MarkedIn(b[c], b'[c]);
    MarkedBorders(b[c], b'[c]);
    forall e | e in a && e != c ensures MarkedIn(a[e], b'[e]) {
      assert MarkedIn(a[e], b[e]) && MarkedIn(b[e], b'[e]);
      forall k | 0 <= k < |a[e]| ensures MarkedAt(a[e][k], b'[e][k]) {
        assert MarkedAt(a[e][k], b[e][k]) && MarkedAt(b[e][k], b'[e][k]);
      }
    }
  }

  lemma {:induction false} SplitAgain(a: Clients, b: Clients, c: int, k: nat, at: nat, from: nat, to: nat)
    requires SplitAtEnds(a, b, c, from, to) && k < |b[c]| && b[c][k].clock < at < PieceEnd(b[c][k]) && (at == from || at == to)
    ensures SplitAtEnds(a, b[c := SplitAt(b[c], k, at)], c, from, to)
  {
    SplitBorders(b[c], k, at);
  }

  /** A deleted struct of the range is passed over. */
  lemma {:induction false} PassedOver(h: History, clients: Clients, c: int, index: nat, clock: nat, at: nat, to: nat, roots: iset<Id>)
    requires c in clients && index < |clients[c]| && clients[c][index].deleted && clients[c][index].clock <= at <= to <= PieceEnd(clients[c][index])
    requires ExactIn(h, clients, roots + RangeOf(c, clock, at))
    ensures ExactIn(h, clients, roots + RangeOf(c, clock, to))
  {
    var a, b := roots + RangeOf(c, clock, at), roots + RangeOf(c, clock, to);
    ExactIsShut(h, There(clients), Deleted(clients), a);
    forall r | r in b && r in There(clients) ensures r in Deleted(clients) {
      assert r !in a ==> Holds(clients[c][index], r.clock);
    }
    OtherRoots(h, There(clients), Deleted(clients), a, b);
  }

  /** One struct of the range: a deleted one is passed over; another one is split where the
      range ends, and deleted. */
  method DeleteNext(clients: Clients, c: int, index: nat, clock: nat, clockEnd: nat, ghost h: History, ghost roots: iset<Id>, ghost was: Clients)
    returns (clients': Clients, more: bool)
    requires c in clients && index < |clients[c]| && clock < clockEnd && SplitAtEnds(was, clients, c, clock, clockEnd)
    requires var p := clients[c][index]; p.clock < clockEnd && clock < PieceEnd(p) && (p.clock < clock ==> p.deleted)
    requires ExactIn(h, clients, roots + RangeOf(c, clock, Max(clock, clients[c][index].clock)))
    ensures There(clients') == There(clients) && SplitAtEnds(was, clients', c, clock, clockEnd)
    ensures ExactIn(h, clients', roots + RangeOf(c, clock, Min(clockEnd, PieceEnd(clients[c][index]))))
    ensures if more then MarkedIn(clients[c], clients'[c]) else clockEnd <= PieceEnd(clients[c][index])
  {
    var p := clients[c][index];
    ghost var at, to := Max(clock, p.clock), Min(clockEnd, PieceEnd(p));
    clients', more := clients, true;
    MarkedNothing(clients);
    if p.deleted {
      PassedOver(h, clients, c, index, clock, at, to, roots);
      return;
    }
    if clockEnd < PieceEnd(p) {
      SplitIsNothing(h, clients, c, index, clockEnd);
      SplitAgain(was, clients, c, index, clockEnd, clock, clockEnd);
      clients', more := clients[c := SplitAt(clients[c], index, clockEnd)], false;
    }
    ghost var before := clients';
    assert UnitsOf(c, before[c][index]) == RangeOf(c, p.clock, to);
    clients' := DeletePiece(clients', c, index, h, roots + RangeOf(c, clock, at));
    StillSplitAtEnds(was, before, clients', c, clock, clockEnd);
    assert roots + RangeOf(c, clock, at) + RangeOf(c, p.clock, to) == roots + RangeOf(c, clock, to);
    assert MarkedIn(before[c], clients'[c]);
  }

  /** The first struct of the range starts at its begin: split it if it must be deleted. */
  method CleanStart(clients: Clients, c: int, clock: nat, ghost clockEnd: nat, pivot: nat, ghost h: History) returns (clients': Clients, index: nat)
    requires Stored(h, clients) && c in clients && clock < State(clients[c]) && pivot < |clients[c]|
    ensures Stored(h, clients') && There(clients') == There(clients) && Deleted(clients') == Deleted(clients) && SplitAtEnds(clients, clients', c, clock, clockEnd)
    ensures index < |clients'[c]| && Holds(clients'[c][index], clock) && (clients'[c][index].deleted || clients'[c][index].clock == clock)
  {
    assert GoodClient(h, c, clients[c]);
    var found;
    found, index := FindStruct(clients[c], clock, pivot);
    var first := clients[c][index];
    clients' := clients;
    MarkedNothing(clients);
    assert SplitAtEnds(clients, clients', c, clock, clockEnd);
    if !first.deleted && first.clock < clock {
      SplitIsNothing(h, clients, c, index, clock);
      SplitAgain(clients, clients, c, index, clock, clock, clockEnd);
      clients' := clients[c := SplitAt(clients[c], index, clock)];
      index := index + 1;
    }
  }

  lemma {:induction false} OneFurther(h: History, now: Clients, clients: Clients, c: int, index: nat, clock: nat)
    requires Stored(h, now) && c in now && c in clients && MarkedIn(now[c], clients[c]) && index < |now[c]| && clock < PieceEnd(now[c][index])
    ensures Reached(clients[c], index + 1, clock) == PieceEnd(now[c][index])
    ensures index + 1 < |clients[c]| ==> var p := clients[c][index + 1]; clock < PieceEnd(p) && clock <= p.clock
  {
    assert GoodClient(h, c, now[c]);
    assert MarkedAt(now[c][index], clients[c][index]);
    if index + 1 < |clients[c]| {
      assert MarkedAt(now[c][index + 1], clients[c][index + 1]) && Adjoins(now[c], index);
    }
  }

  lemma {:induction false} RestIsNotThere(h: History, clients: Clients, c: int, from: nat, to: nat, m: nat, roots: iset<Id>)
    requires ExactIn(h, clients, roots + RangeOf(c, from, m)) && m <= to && (m < to ==> GetState(clients, c) <= m)
    ensures ExactIn(h, clients, roots + RangeOf(c, from, to))
  {
    var a, b := roots + RangeOf(c, from, m), roots + RangeOf(c, from, to);
    ExactIsShut(h, There(clients), Deleted(clients), a);
    OtherRoots(h, There(clients), Deleted(clients), a, b);
  }

  /** `applyDeleteRangeFlat` for `clock..clockEnd`: the units of the range that exist are
      deleted with all that lies in them, and structs are split at its two ends only. */
  method ApplyDeleteRange(clients: Clients, c: int, clock: nat, clockEnd: nat, pivot: nat, ghost h: History, ghost roots: iset<Id>) returns (clients': Clients)
    requires ExactIn(h, clients, roots) && c in clients && clock < State(clients[c]) && clock < clockEnd && pivot < |clients[c]|
    ensures ExactIn(h, clients', roots + RangeOf(c, clock, clockEnd)) && There(clients') == There(clients)
    ensures SplitAtEnds(clients, clients', c, clock, clockEnd)
  {
    var index: nat;
    clients', index := CleanStart(clients, c, clock, clockEnd, pivot, h);
    assert RangeOf(c, clock, clock) == iset{} && roots + iset{} == roots;
    ghost var at := clock;
    var more := true;
    while more && index < |clients'[c]| && clients'[c][index].clock < clockEnd
      invariant c in clients' && There(clients') == There(clients) && SplitAtEnds(clients, clients', c, clock, clockEnd)
      invariant ExactIn(h, clients', roots + RangeOf(c, clock, Min(clockEnd, at)))
      invariant more ==> index <= |clients'[c]| && at == Reached(clients'[c], index, clock)
      invariant more && index < |clients'[c]| ==> var p := clients'[c][index]; clock < PieceEnd(p) && (p.clock < clock ==> p.deleted)
      invariant !more ==> clockEnd <= at
      decreases more, |clients'[c]| - index
    {
      ghost var now := clients';
      at := PieceEnd(clients'[c][index]);
      clients', more := DeleteNext(clients', c, index, clock, clockEnd, h, roots, clients);
      if more { OneFurther(h, now, clients', c, index, clock); }
      index := if more then index + 1 else index;
    }
    RestIsNotThere(h, clients', c, clock, clockEnd, Min(clockEnd, at), roots);
  }
}

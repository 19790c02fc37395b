/** The structs and deletes of updates, in whatever order they arrive: what exists is
    listed and deleted as the whole of them demands, and the rest of the deletes waits. */
module ApplyDeletes {
  import opened Wrappers
  import opened ItemOrder
  import opened Doom
  import opened PieceList
  import opened Cascade
  import opened DeleteSets
  import ConflictScan
  import Convergence
  import RunList
  import RunDelivery

  /** `addToDeleteSet` */
  function AddRange(ds: DeleteSet, c: int, clock: nat, length: nat): DeleteSet {
    ds[c := (if c in ds then ds[c] else []) + [Range(clock, length)]]
  }

  lemma {:induction false} AddRangeDeletes(ds: DeleteSet, c: int, clock: nat, length: nat, e: int, x: nat)
    ensures Deletes(AddRange(ds, c, clock, length), e, x) <==> Deletes(ds, e, x) || (e == c && clock <= x < clock + length)
  {
    if e == c {
      var r := Range(clock, length);
      CoversConcat(if c in ds then ds[c] else [], [r], x);
      assert Covers([r], x) <==> Within(r, x) by { assert [r][0] == r; }
      assert !Covers([], x);
    }
  }

  /** A client's ranges of a delete set, in stream order. */
  datatype Block = Block(client: int, ranges: seq<Range>)

  predicate Names(blocks: seq<Block>, c: int, x: nat) {
    exists i :: 0 <= i < |blocks| && blocks[i].client == c && Covers(blocks[i].ranges, x)
  }

  ghost predicate GoodBlocks(blocks: seq<Block>) {
    forall i :: 0 <= i < |blocks| ==> Positive(blocks[i].ranges)
  }

  lemma {:induction false} CoversOneMore(rs: seq<Range>, n: nat, x: nat)
    requires n < |rs|
    ensures Covers(rs[..n + 1], x) <==> Covers(rs[..n], x) || Within(rs[n], x)
  {
    assert rs[..n + 1] == rs[..n] + [rs[n]];
    CoversConcat(rs[..n], [rs[n]], x);
    assert Covers([rs[n]], x) <==> Within(rs[n], x) by { assert [rs[n]][0] == rs[n]; }
  }

  lemma {:induction false} NamesOneMore(blocks: seq<Block>, n: nat, c: int, x: nat)
    requires n < |blocks|
    ensures Names(blocks[..n + 1], c, x) <==> Names(blocks[..n], c, x) || (blocks[n].client == c && Covers(blocks[n].ranges, x))
  {
    if Names(blocks[..n], c, x) {
      var i :| 0 <= i < n && blocks[..n][i].client == c && Covers(blocks[..n][i].ranges, x);
      assert blocks[..n + 1][i] == blocks[i];
    }
    if Names(blocks[..n + 1], c, x) && !(blocks[n].client == c && Covers(blocks[n].ranges, x)) {
      var i :| 0 <= i < n + 1 && blocks[..n + 1][i].client == c && Covers(blocks[..n + 1][i].ranges, x);
      assert blocks[..n][i] == blocks[i];
    }
    if blocks[n].client == c && Covers(blocks[n].ranges, x) { assert blocks[..n + 1][n] == blocks[n]; }
  }

  /** A pending set is written out and read back block by block. */
  method ToBlocks(ds: DeleteSet) returns (blocks: seq<Block>)
    requires WellFormed(ds)
    ensures GoodBlocks(blocks)
    ensures forall c, x: nat {:trigger Deletes(ds, c, x)} :: Names(blocks, c, x) <==> Deletes(ds, c, x)
  {
    blocks := [];
    var todo := ds.Keys;
    while true
      invariant todo <= ds.Keys && GoodBlocks(blocks)
      invariant forall c, x: nat {:trigger Names(blocks, c, x)} :: Names(blocks, c, x) <==> c !in todo && Deletes(ds, c, x)
      decreases todo
    {
      if c :| c in todo {
        ghost var before := blocks;
        blocks := blocks + [Block(c, ds[c])];
        todo := todo - {c};
        forall e, x: nat ensures Names(blocks, e, x) <==> e !in todo && Deletes(ds, e, x) {
          NamesOneMore(blocks, |before|, e, x);
          assert blocks[..|before| + 1] == blocks && blocks[..|before|] == before;
        }
      } else {
        break;
      }
    }
  }

  // ---------------------------------------------------------------- a struct arrives

  /** A struct the scheduler integrates: a GC, or an item with its place; the units of the
      item are a run that starts with `first`. */
  datatype Arrival =
    | Gc(client: int, clock: nat, len: nat)
    | Insertion(first: Item, len: nat, deleted: bool, slot: Slot)

  function FirstId(a: Arrival): Id {
    if a.Gc? then Id(a.client, a.clock) else ItemId(a.first)
  }

  function PieceOf(a: Arrival): Piece {
    if a.Gc? then Piece(a.clock, a.len, true, None) else Piece(a.first.clock, a.len, a.deleted, Some(a.slot))
  }

  /** The units of a struct. */
  ghost function NewOf(a: Arrival): iset<Id> {
    RangeOf(FirstId(a).client, FirstId(a).clock, FirstId(a).clock + a.len)
  }

  /** The units a struct brings along already deleted. */
  ghost function BornOf(a: Arrival): iset<Id> {
    if a.Gc? || a.deleted then NewOf(a) else iset{}
  }

  /** The client's units end before `clock`. */
  ghost predicate EndsAt(there: iset<Id>, c: int, clock: nat) {
    forall x: nat {:trigger Id(c, x)} :: Id(c, x) in there <==> x < clock
  }

  ghost predicate UnitIs(h: History, a: Arrival, k: nat)
    requires a.Insertion?
  {
    h.of(Id(a.first.client, a.first.clock + k)) == Some(Spot(a.slot, RunList.Unit(a.first, k)))
  }

  ghost predicate Known(there: iset<Id>, x: Option<Item>) {
    x.Some? ==> ItemId(x.value) in there
  }

  /** What the scheduler waits for: the struct continues its client's clocks, and its origins
      and its parent are there.  A key has one-unit values. */
  ghost predicate Arrives(h: History, there: iset<Id>, a: Arrival) {
    && a.len > 0 && EndsAt(there, FirstId(a).client, FirstId(a).clock)
    && if a.Gc? then forall id {:trigger h.of(id)} :: id in NewOf(a) ==> h.of(id).None?
       else
         && (forall k: nat {:trigger UnitIs(h, a, k)} :: k < a.len ==> UnitIs(h, a, k))
         && Known(there, a.first.origin) && Known(there, a.first.rightOrigin)
         && (a.slot.parent.Type? ==> a.slot.parent.id in there)
         && (a.slot.key.Some? ==> a.len == 1)
  }

  function ListOf(lists: map<Slot, seq<Item>>, s: Slot): seq<Item> {
    if s in lists then lists[s] else []
  }

  ghost predicate ListedAt(h: History, there: iset<Id>, lists: map<Slot, seq<Item>>, s: Slot) {
    Lists(h, there, s, ListOf(lists, s))
  }

  /** Every slot has its list: what is there of it, in the document order. */
  ghost predicate Listed(h: History, there: iset<Id>, lists: map<Slot, seq<Item>>) {
    forall s {:trigger ListedAt(h, there, lists, s)} :: ListedAt(h, there, lists, s)
  }

  /** `addStruct` */
  function Appended(clients: Clients, c: int, p: Piece): Clients {
    clients[c := (if c in clients then clients[c] else []) + [p]]
  }

  lemma {:induction false} AppendedIs(h: History, clients: Clients, c: int, p: Piece, up: Option<Id>)
    requires Stored(h, clients) && PieceOk(p) && Agrees(h, c, p) && p.clock == GetState(clients, c)
    requires AllIn(h, UnitsOf(c, p), up) && (up.Some? ==> up.value in There(clients))
    ensures There(Appended(clients, c, p)) == There(clients) + UnitsOf(c, p)
    ensures Deleted(Appended(clients, c, p)) == Deleted(clients) + if p.deleted then UnitsOf(c, p) else iset{}
    ensures Stored(h, Appended(clients, c, p))
  {
    var ps := if c in clients then clients[c] else [];
    var qs, clients' := ps + [p], Appended(clients, c, p);
    assert c in clients ==> GoodClient(h, c, ps);
    forall k | 0 <= k < |qs| ensures PieceOk(qs[k]) && Agrees(h, c, qs[k]) { if k < |ps| { assert PieceOk(ps[k]) && Agrees(h, c, ps[k]); } }
    forall k | 0 <= k < |qs| - 1 ensures Adjoins(qs, k) { if k < |ps| - 1 { assert Adjoins(ps, k); } }
    forall x: nat ensures Gone(qs, x) <==> Gone(ps, x) || (p.deleted && Holds(p, x)) {
      if Gone(ps, x) {
        var k :| 0 <= k < |ps| && Holds(ps[k], x) && ps[k].deleted;
        assert qs[k] == ps[k];
      }
      if p.deleted && Holds(p, x) { assert qs[|ps|] == p; }
    }
    forall e | e in clients' ensures GoodClient(h, e, clients'[e]) { assert e != c ==> GoodClient(h, e, clients[e]); }
    assert There(clients') == There(clients) + UnitsOf(c, p);
    forall id ensures id in Deleted(clients') <==> id in Deleted(clients) || (p.deleted && id in UnitsOf(c, p)) {
      assert id.client == c ==> (Gone(qs, id.clock) <==> Gone(ps, id.clock) || (p.deleted && Holds(p, id.clock)));
      assert c in clients || !Gone(ps, id.clock);
    }
    NewIsRooted(h, There(clients), UnitsOf(c, p), up);
  }

  /** The item a struct lies in. */
  function UpOf(a: Arrival): Option<Id> {
    if a.Insertion? && a.slot.parent.Type? then Some(a.slot.parent.id) else None
  }

  lemma {:induction false} NewUnit(h: History, there: iset<Id>, a: Arrival, id: Id)
    requires Arrives(h, there, a) && id in NewOf(a)
    ensures id !in there && (a.Gc? ==> h.of(id).None?) && (a.Insertion? ==> h.of(id) == Some(Spot(a.slot, RunList.Unit(a.first, id.clock - a.first.clock))))
  {
    assert Id(FirstId(a).client, id.clock) == id;
    if a.Insertion? { assert UnitIs(h, a, id.clock - a.first.clock); }
  }

  lemma {:induction false} ArrivalFits(h: History, there: iset<Id>, a: Arrival)
    requires Arrives(h, there, a)
    ensures PieceOk(PieceOf(a)) && Agrees(h, FirstId(a).client, PieceOf(a)) && AllIn(h, NewOf(a), UpOf(a)) && NewOf(a) !! there
    ensures UpOf(a).Some? ==> UpOf(a).value in there
  {
    forall id | id in NewOf(a) ensures id !in there && ParentOf(h, id) == UpOf(a) && SlotOf(h, id) == PieceOf(a).slot { NewUnit(h, there, a, id); }
    var c := FirstId(a).client;
    forall x: nat | Holds(PieceOf(a), x) ensures SlotOf(h, Id(c, x)) == PieceOf(a).slot { assert Id(c, x) in NewOf(a); }
  }

  // ---------------------------------------------------------------- its list

  /** Where the conflict scan puts an item. */
  function PlaceIn(l: seq<Item>, x: Item): nat
    requires x.origin.Some? ==> x.origin.value in l
    requires x.rightOrigin.Some? ==> x.rightOrigin.value in l
  {
    var b := Convergence.Start(l, x);
    ConflictScan.Scan(l, x, b, Convergence.End(l, x), b, b)
  }

  function Inserted(l: seq<Item>, a: Arrival, p: nat): seq<Item>
    requires a.Insertion? && p <= |l|
  {
    l[..p] + RunList.Units(a.first, a.len) + l[p..]
  }

  lemma {:induction false} ItemIsReady(h: History, there: iset<Id>, l: seq<Item>, a: Arrival)
    requires GoodHistory(h) && a.Insertion? && Arrives(h, there, a) && Lists(h, there, a.slot, l)
    ensures ConflictScan.Ready(h.values(a.slot), l, a.first)
    ensures forall k: nat {:trigger RunList.Unit(a.first, k)} :: k < a.len ==> RunList.Unit(a.first, k) in h.values(a.slot)
  {
    var x, hs := a.first, h.values(a.slot);
    assert Sound(h, a.slot);
    forall k: nat | k < a.len ensures RunList.Unit(x, k) in hs {
      assert UnitIs(h, a, k);
      assert ItemId(RunList.Unit(x, k)) == Id(x.client, x.clock + k);
    }
    assert RunList.Unit(x, 0) == x && RefsIn(hs, x);
    assert Id(x.client, x.clock) == ItemId(x);
    forall u | u in hs && ConflictScan.Earlier(u, x) ensures u in l {
      assert Id(x.client, u.clock) == ItemId(u);
    }
  }

  lemma {:induction false} PlaceInIsPlace(h: set<Item>, l: seq<Item>, x: Item)
    requires ConflictScan.Replica(h, l) && ConflictScan.Ready(h, l, x)
    ensures ConflictScan.IsPlace(l, x, PlaceIn(l, x))
  {
    Convergence.StartBeforeEnd(h, l, x);
    var b := Convergence.Start(l, x);
    ConflictScan.ScanIsPlace(h, l, x, b, Convergence.End(l, x), b, b);
  }

  lemma {:induction false} InUnits(first: Item, n: nat, y: Item)
    ensures y in RunList.Units(first, n) <==> exists k: nat :: k < n && y == RunList.Unit(first, k)
  {
    if y in RunList.Units(first, n) {
      var k :| 0 <= k < n && RunList.Units(first, n)[k] == y;
      RunList.UnitsAt(first, n, k);
    }
    if k: nat :| k < n && y == RunList.Unit(first, k) {
      RunList.UnitsAt(first, n, k);
    }
  }

  /** The item's own list gets its units, at their place. */
  lemma {:induction false} OwnListGrows(h: History, there: iset<Id>, l: seq<Item>, a: Arrival, p: nat)
    requires GoodHistory(h) && a.Insertion? && Arrives(h, there, a) && Lists(h, there, a.slot, l) && ConflictScan.IsPlace(l, a.first, p)
    ensures Lists(h, there + NewOf(a), a.slot, Inserted(l, a, p))
  {
    ItemIsReady(h, there, l, a);
    RunDelivery.ItemIsItsUnits(h.values(a.slot), l, a.first, a.len, p);
    assert Sound(h, a.slot);
    var l', us := Inserted(l, a, p), RunList.Units(a.first, a.len);
    forall y ensures y in l' <==> y in h.values(a.slot) && ItemId(y) in there + NewOf(a) {
      assert y in l' <==> y in l || y in us by { assert l == l[..p] + l[p..]; }
      InUnits(a.first, a.len, y);
      if y in h.values(a.slot) && ItemId(y) in NewOf(a) { NewUnit(h, there, a, ItemId(y)); }
      if k: nat :| k < a.len && y == RunList.Unit(a.first, k) { assert ItemId(y) in NewOf(a); }
    }
  }

  lemma {:induction false} OtherListStays(h: History, there: iset<Id>, s: Slot, l: seq<Item>, a: Arrival)
    requires GoodHistory(h) && Arrives(h, there, a) && Lists(h, there, s, l) && (a.Insertion? ==> s != a.slot)
    ensures Lists(h, there + NewOf(a), s, l)
  {
    assert Sound(h, s);
    forall y ensures y in l <==> y in h.values(s) && ItemId(y) in there + NewOf(a) {
      if y in h.values(s) && ItemId(y) in NewOf(a) { NewUnit(h, there, a, ItemId(y)); }
    }
  }

  lemma {:induction false} ListsGrow(h: History, there: iset<Id>, lists: map<Slot, seq<Item>>, a: Arrival, p: nat)
    requires GoodHistory(h) && Arrives(h, there, a) && Listed(h, there, lists) && (a.Insertion? ==> ConflictScan.IsPlace(ListOf(lists, a.slot), a.first, p))
    ensures Listed(h, there + NewOf(a), if a.Gc? then lists else lists[a.slot := Inserted(ListOf(lists, a.slot), a, p)])
  {
    var lists' := if a.Gc? then lists else lists[a.slot := Inserted(ListOf(lists, a.slot), a, p)];
    forall s ensures ListedAt(h, there + NewOf(a), lists', s) {
      assert ListedAt(h, there, lists, s);
      if a.Insertion? && s == a.slot { OwnListGrows(h, there, ListOf(lists, s), a, p); } else { OtherListStays(h, there, s, ListOf(lists, s), a); }
    }
  }

  // ---------------------------------------------------------------- what is deleted with it

  lemma {:induction false} StateIs(clients: Clients, c: int, clock: nat)
    requires EndsAt(There(clients), c, clock)
    ensures GetState(clients, c) == clock
  {
    assert Id(c, clock) !in There(clients);
    assert clock > 0 ==> Id(c, clock - 1) in There(clients);
  }

  function Added(clients: Clients, a: Arrival, goes: bool): Clients {
    var c := FirstId(a).client;
    var more := Appended(clients, c, PieceOf(a));
    if goes then Mark(more, c, |more[c]| - 1) else more
  }

  /** The parent of an item is deleted. */
  predicate ParentGone(clients: Clients, a: Arrival) {
    UpOf(a).Some? && GoneIn(clients, UpOf(a).value.client, UpOf(a).value.clock)
  }

  /** An item deletes itself if its parent is deleted, or if it is a value that is not the last. */
  lemma {:induction false} AddedIsExact(h: History, clients: Clients, a: Arrival, roots: iset<Id>, beaten: bool)
    requires ExactIn(h, clients, roots) && roots <= There(clients) && Arrives(h, There(clients), a)
    ensures var clients' := Added(clients, a, beaten || ParentGone(clients, a));
            There(clients') == There(clients) + NewOf(a) && ExactIn(h, clients', if beaten || PieceOf(a).deleted then roots + NewOf(a) else roots)
  {
    var up, must := UpOf(a), beaten || PieceOf(a).deleted;
    ArrivalFits(h, There(clients), a);
    AddedIs(h, clients, a, beaten || ParentGone(clients, a));
    NewIsExact(h, There(clients), Deleted(clients), roots, NewOf(a), up, must);
    assert ParentGone(clients, a) <==> up.Some? && up.value in Deleted(clients);
  }

  /** What exists and what is deleted after a struct was added. */
  lemma {:induction false} AddedIs(h: History, clients: Clients, a: Arrival, goes: bool)
    requires Stored(h, clients) && Arrives(h, There(clients), a)
    ensures var clients' := Added(clients, a, goes);
            && Stored(h, clients') && There(clients') == There(clients) + NewOf(a)
            && Deleted(clients') == if goes || PieceOf(a).deleted then Deleted(clients) + NewOf(a) else Deleted(clients)
  {
    var c, p := FirstId(a).client, PieceOf(a);
    StateIs(clients, c, FirstId(a).clock);
    ArrivalFits(h, There(clients), a);
    AppendedIs(h, clients, c, p, UpOf(a));
    var more := Appended(clients, c, p);
    if goes {
      MarkOne(h, more, c, |more[c]| - 1);
      MarkedKeeps(h, more, Mark(more, c, |more[c]| - 1));
    }
  }

  /** The value a key had is deleted, with everything in it. */
  method DeleteValue(clients: Clients, id: Id, ghost h: History, ghost roots: iset<Id>) returns (clients': Clients)
    requires ExactIn(h, clients, roots) && id in There(clients) && h.of(id).Some? && h.of(id).value.slot.key.Some?
    ensures Marked(clients, clients') && There(clients') == There(clients) && ExactIn(h, clients', roots + iset{id})
  {
    var c := id.client;
    assert GoodClient(h, c, clients[c]);
    var found, k := FindStruct(clients[c], id.clock, 0);
    assert Agrees(h, c, clients[c][k]) && PieceOk(clients[c][k]);
    assert Id(c, id.clock) == id;
    assert UnitsOf(c, clients[c][k]) == iset{id};
    clients' := DeletePiece(clients, c, k, h, roots);
  }

  /** What a store demands of its deletions: what was given, and what the values demand. */
  ghost function RootsOf(h: History, there: iset<Id>, given: iset<Id>): iset<Id> {
    given + Superseded(h, there)
  }

  /** Lists and deletions are as the units that are there demand. */
  ghost predicate Kept(h: History, clients: Clients, lists: map<Slot, seq<Item>>, given: iset<Id>) {
    && GoodHistory(h) && Listed(h, There(clients), lists)
    && given <= There(clients) && ExactIn(h, clients, RootsOf(h, There(clients), given))
  }

  /** What an item supersedes, and whether it is superseded itself. */
  lemma {:induction false} SupersededBy(h: History, there: iset<Id>, l: seq<Item>, a: Arrival, p: nat)
    requires GoodHistory(h) && Arrives(h, there, a) && (a.Insertion? ==> Lists(h, there, a.slot, l) && ConflictScan.IsPlace(l, a.first, p))
    ensures var s := Superseded(h, there); var s' := Superseded(h, there + NewOf(a));
            if a.Gc? || a.slot.key.None? then s' == s
            else if p < |l| then s' == s + NewOf(a)
            else if l == [] then s' == s
            else ItemId(l[|l| - 1]) in there && h.of(ItemId(l[|l| - 1])) == Some(Spot(a.slot, l[|l| - 1])) && s' == s + iset{ItemId(l[|l| - 1])}
  {
    if a.Gc? || a.slot.key.None? {
      forall id | id in there + NewOf(a) && id !in there ensures h.of(id).None? || h.of(id).value.slot.key.None? { NewUnit(h, there, a, id); }
      NothingSuperseded(h, there, there + NewOf(a));
    } else {
      ItemIsReady(h, there, l, a);
      ArrivalFits(h, there, a);
      assert NewOf(a) == iset{ItemId(a.first)};
      assert RunList.Unit(a.first, 0) == a.first;
      if p < |l| { SelfSuperseded(h, there, a.slot, l, a.first, p); } else { LastSuperseded(h, there, a.slot, l, a.first); }
    }
  }

  /** The value that was last, if the item comes behind it. */
  ghost function Beaten(l: seq<Item>, a: Arrival, p: nat): iset<Id> {
    if a.Insertion? && a.slot.key.Some? && p >= |l| > 0 then iset{ItemId(l[|l| - 1])} else iset{}
  }

  lemma {:induction false} RootsBy(h: History, there: iset<Id>, given: iset<Id>, l: seq<Item>, a: Arrival, p: nat)
    requires GoodHistory(h) && a.Insertion? && Arrives(h, there, a) && Lists(h, there, a.slot, l) && ConflictScan.IsPlace(l, a.first, p) && given <= there
    ensures var roots := RootsOf(h, there, given) + Beaten(l, a, p);
            && roots <= there && roots + (if a.slot.key.Some? && p < |l| then NewOf(a) else iset{}) == given + Superseded(h, there + NewOf(a))
            && (Beaten(l, a, p) != iset{} ==> var id := ItemId(l[|l| - 1]); id in there && h.of(id).Some? && h.of(id).value.slot.key.Some?)
  {
    SupersededExist(h, there);
    SupersededBy(h, there, l, a, p);
  }

  lemma {:induction false} SupersededExist(h: History, there: iset<Id>)
    ensures Superseded(h, there) <= there
  {
  }

  lemma {:induction false} RootsGrow(h: History, there: iset<Id>, there': iset<Id>, given: iset<Id>, a: Arrival, roots: iset<Id>, beaten: bool)
    requires there' == there + NewOf(a) && given <= there && roots + (if beaten then NewOf(a) else iset{}) == given + Superseded(h, there')
    ensures RootsOf(h, there', given + BornOf(a)) == if beaten || PieceOf(a).deleted then roots + NewOf(a) else roots
    ensures given + BornOf(a) <= there'
  {
  }

  /** A struct is added to a store whose lists have already taken it in. */
  lemma {:induction false} AddedIsKept(h: History, clients: Clients, lists: map<Slot, seq<Item>>, given: iset<Id>, a: Arrival, roots: iset<Id>, beaten: bool)
    requires GoodHistory(h) && Arrives(h, There(clients), a) && ExactIn(h, clients, roots) && roots <= There(clients) && given <= There(clients)
    requires Listed(h, There(clients) + NewOf(a), lists)
    requires roots + (if beaten then NewOf(a) else iset{}) == given + Superseded(h, There(clients) + NewOf(a))
    ensures var clients' := Added(clients, a, beaten || ParentGone(clients, a));
            Kept(h, clients', lists, given + BornOf(a)) && There(clients') == There(clients) + NewOf(a)
  {
    AddedIsExact(h, clients, a, roots, beaten);
    RootsGrow(h, There(clients), There(clients) + NewOf(a), given, a, roots, beaten);
  }

  lemma {:induction false} ItemFits(h: History, there: iset<Id>, lists: map<Slot, seq<Item>>, l: seq<Item>, a: Arrival)
    requires a.Insertion? && GoodHistory(h) && Listed(h, there, lists) && Arrives(h, there, a) && l == ListOf(lists, a.slot)
    ensures (a.first.origin.Some? ==> a.first.origin.value in l) && (a.first.rightOrigin.Some? ==> a.first.rightOrigin.value in l)
    ensures Lists(h, there, a.slot, l) && ConflictScan.IsPlace(l, a.first, PlaceIn(l, a.first))
    ensures Listed(h, there + NewOf(a), lists[a.slot := Inserted(l, a, PlaceIn(l, a.first))])
  {
    assert ListedAt(h, there, lists, a.slot);
    ItemIsReady(h, there, l, a);
    PlaceInIsPlace(h.values(a.slot), l, a.first);
    ListsGrow(h, there, lists, a, PlaceIn(l, a.first));
  }

  method AddGc(clients: Clients, lists: map<Slot, seq<Item>>, a: Arrival, ghost h: History, ghost given: iset<Id>) returns (clients': Clients)
    requires a.Gc? && Kept(h, clients, lists, given) && Arrives(h, There(clients), a)
    ensures Kept(h, clients', lists, given + BornOf(a)) && There(clients') == There(clients) + NewOf(a)
  {
    SupersededExist(h, There(clients));
    SupersededBy(h, There(clients), [], a, 0);
    ListsGrow(h, There(clients), lists, a, 0);
    AddedIsKept(h, clients, lists, given, a, RootsOf(h, There(clients), given), false);
    clients' := Added(clients, a, false);
  }

  /** `integrateWithScratch`: an item takes its place in its list.  A value that comes last
      deletes the one before it; one that does not, or whose parent is deleted, deletes itself. */
  method AddItem(clients: Clients, lists: map<Slot, seq<Item>>, a: Arrival, ghost h: History, ghost given: iset<Id>)
    returns (clients': Clients, lists': map<Slot, seq<Item>>)
    requires a.Insertion? && Kept(h, clients, lists, given) && Arrives(h, There(clients), a)
    ensures Kept(h, clients', lists', given + BornOf(a)) && There(clients') == There(clients) + NewOf(a)
  {
    ghost var there := There(clients);
    ghost var roots := RootsOf(h, there, given);
    var l := ListOf(lists, a.slot);
    ItemFits(h, there, lists, l, a);
    var p := PlaceIn(l, a.first);
    lists' := lists[a.slot := Inserted(l, a, p)];
    RootsBy(h, there, given, l, a, p);
    clients' := clients;
    var beaten := a.slot.key.Some? && p < |l|;
    if a.slot.key.Some? && !beaten && l != [] {
      clients' := DeleteValue(clients, ItemId(l[|l| - 1]), h, roots);
      roots := roots + iset{ItemId(l[|l| - 1])};
    }
    AddedIsKept(h, clients', lists', given, a, roots, beaten);
    clients' := Added(clients', a, beaten || ParentGone(clients', a));
  }

  method AddStruct(clients: Clients, lists: map<Slot, seq<Item>>, a: Arrival, ghost h: History, ghost given: iset<Id>)
    returns (clients': Clients, lists': map<Slot, seq<Item>>)
    requires Kept(h, clients, lists, given) && Arrives(h, There(clients), a)
    ensures Kept(h, clients', lists', given + BornOf(a)) && There(clients') == There(clients) + NewOf(a)
  {
    if a.Gc? {
      clients' := AddGc(clients, lists, a, h, given);
      lists' := lists;
    } else {
      clients', lists' := AddItem(clients, lists, a, h, given);
    }
  }

  /** Two pending sets become one. */
  method MergePending(a: DeleteSet, b: DeleteSet) returns (m: DeleteSet)
    requires WellFormed(a) && WellFormed(b)
    ensures WellFormed(m) && forall c, x: nat {:trigger Deletes(m, c, x)} :: Deletes(m, c, x) <==> Deletes(a, c, x) || Deletes(b, c, x)
  {
    if a != map[] && b != map[] {
      m := MergeDeleteSets([a, b]);
      forall c, x: nat ensures Deletes(m, c, x) <==> Deletes(a, c, x) || Deletes(b, c, x) {
        var dss := [a, b];
        assert SomeDeletes(dss, 2, c, x) <==> Deletes(dss[0], c, x) || Deletes(dss[1], c, x);
      }
    } else if a != map[] {
      m := a;
    } else {
      m := b;
    }
  }


  // ---------------------------------------------------------------- deletes

  ghost function NamedBy(blocks: seq<Block>): iset<Id> {
    iset id: Id | Names(blocks, id.client, id.clock)
  }

  ghost function CoveredBy(c: int, ranges: seq<Range>): iset<Id> {
    iset id: Id | id.client == c && Covers(ranges, id.clock)
  }

  ghost function DeletesOf(ds: DeleteSet): iset<Id> {
    iset id: Id | Deletes(ds, id.client, id.clock)
  }

  lemma {:induction false} RangeByRange(c: int, ranges: seq<Range>, n: nat)
    requires n < |ranges|
    ensures CoveredBy(c, ranges[..n + 1]) == CoveredBy(c, ranges[..n]) + RangeOf(c, ranges[n].clock, End(ranges[n]))
  {
    var more := ranges[..n + 1];
    forall id ensures id in CoveredBy(c, more) <==> id in CoveredBy(c, ranges[..n]) || id in RangeOf(c, ranges[n].clock, End(ranges[n])) {
      CoversOneMore(ranges, n, id.clock);
    }
  }

  lemma {:induction false} BlockByBlock(blocks: seq<Block>, n: nat)
    requires n < |blocks|
    ensures NamedBy(blocks[..n + 1]) == NamedBy(blocks[..n]) + CoveredBy(blocks[n].client, blocks[n].ranges)
  {
    var more := blocks[..n + 1];
    forall id ensures id in NamedBy(more) <==> id in NamedBy(blocks[..n]) || id in CoveredBy(blocks[n].client, blocks[n].ranges) {
      NamesOneMore(blocks, n, id.client, id.clock);
    }
  }

  /** What could not be applied: it does not exist. */
  ghost function NotThere(there: iset<Id>, ids: iset<Id>): iset<Id> {
    ids - there
  }

  lemma {:induction false} AddRangeIs(ds: DeleteSet, c: int, clock: nat, length: nat)
    ensures DeletesOf(AddRange(ds, c, clock, length)) == DeletesOf(ds) + RangeOf(c, clock, clock + length)
  {
    forall id ensures id in DeletesOf(AddRange(ds, c, clock, length)) <==> id in DeletesOf(ds) || id in RangeOf(c, clock, clock + length) {
      AddRangeDeletes(ds, c, clock, length, id.client, id.clock);
    }
  }

  // ---------------------------------------------------------------- the store

  ghost function NewTo(arrivals: seq<Arrival>, n: nat): iset<Id>
    requires n <= |arrivals|
  {
    if n == 0 then iset{} else NewTo(arrivals, n - 1) + NewOf(arrivals[n - 1])
  }

  ghost function BornTo(arrivals: seq<Arrival>, n: nat): iset<Id>
    requires n <= |arrivals|
  {
    if n == 0 then iset{} else BornTo(arrivals, n - 1) + BornOf(arrivals[n - 1])
  }

  ghost predicate InTurn(h: History, there: iset<Id>, arrivals: seq<Arrival>, n: nat)
    requires n < |arrivals|
  {
    Arrives(h, there + NewTo(arrivals, n), arrivals[n])
  }

  /** Each struct has what it waits for when its turn comes. */
  ghost predicate Delivered(h: History, there: iset<Id>, arrivals: seq<Arrival>) {
    forall n {:trigger InTurn(h, there, arrivals, n)} :: 0 <= n < |arrivals| ==> InTurn(h, there, arrivals, n)
  }

  /** Every slot has its list.  A unit that exists is deleted exactly if a delete for it
      arrived, it came deleted, it is a value that is not the last of its key, or it lies in
      an item that is.  A delete is pending exactly if its unit does not exist yet. */
  ghost predicate Settled(h: History, clients: Clients, lists: map<Slot, seq<Item>>, pending: DeleteSet, asked: iset<Id>, born: iset<Id>) {
    && GoodHistory(h) && Listed(h, There(clients), lists) && born <= There(clients)
    && ExactIn(h, clients, RootsOf(h, There(clients), asked + born))
    && WellFormed(pending) && DeletesOf(pending) == NotThere(There(clients), asked)
  }

  /** What a replica has: its structs, its lists, the deletes that wait, all deletes that ever
      arrived, and what was deleted when it arrived. */
  datatype Document = Document(clients: Clients, lists: map<Slot, seq<Item>>, pending: DeleteSet, asked: iset<Id>, born: iset<Id>)

  ghost predicate IsSettled(h: History, d: Document) {
    Settled(h, d.clients, d.lists, d.pending, d.asked, d.born)
  }

  /** What reading the structs and the deletes of an update makes of a document. */
  ghost predicate Reads(h: History, d: Document, arrivals: seq<Arrival>, blocks: seq<Block>, d': Document) {
    && IsSettled(h, d') && There(d'.clients) == There(d.clients) + NewTo(arrivals, |arrivals|)
    && d'.asked == d.asked + NamedBy(blocks) && d'.born == d.born + BornTo(arrivals, |arrivals|)
  }

  /** A struct that has arrived: its units exist; those of an item stand in its list, one
      behind the other in the document order, and what came deleted is deleted. */
  ghost predicate Shows(d: Document, a: Arrival) {
    && NewOf(a) <= There(d.clients) && (a.Gc? || a.deleted ==> NewOf(a) <= Deleted(d.clients))
    && (a.Insertion? ==> forall x: nat {:trigger RunList.Unit(a.first, x)} :: x < a.len ==> RunList.Unit(a.first, x) in ListOf(d.lists, a.slot))
  }

  /** What was asked for or came deleted is deleted, if it exists. */
  lemma {:induction false} RootsAreGone(h: History, d: Document)
    requires IsSettled(h, d)
    ensures forall id {:trigger id in d.asked} {:trigger id in d.born} :: id in There(d.clients) && (id in d.asked || id in d.born) ==> id in Deleted(d.clients)
    ensures forall id {:trigger id in d.asked} :: id in d.asked && id !in There(d.clients) ==> id in DeletesOf(d.pending)
  {
    ExactIsShut(h, There(d.clients), Deleted(d.clients), RootsOf(h, There(d.clients), d.asked + d.born));
    forall id | id in There(d.clients) && (id in d.asked || id in d.born) ensures id in Deleted(d.clients) {
      assert id in RootsOf(h, There(d.clients), d.asked + d.born);
    }
  }

  lemma {:induction false} ArrivedIsNew(arrivals: seq<Arrival>, i: nat, n: nat)
    requires i < n <= |arrivals|
    ensures NewOf(arrivals[i]) <= NewTo(arrivals, n) && BornOf(arrivals[i]) <= BornTo(arrivals, n)
  {
    if i < n - 1 { ArrivedIsNew(arrivals, i, n - 1); }
  }

  lemma {:induction false} ArrivalShows(h: History, there: iset<Id>, d: Document, arrivals: seq<Arrival>, i: nat)
    requires IsSettled(h, d) && Delivered(h, there, arrivals) && i < |arrivals|
    requires There(d.clients) == there + NewTo(arrivals, |arrivals|) && BornTo(arrivals, |arrivals|) <= d.born
    ensures Shows(d, arrivals[i])
  {
    var a := arrivals[i];
    ArrivedIsNew(arrivals, i, |arrivals|);
    RootsAreGone(h, d);
    assert InTurn(h, there, arrivals, i);
    if a.Insertion? { ArrivalIsListed(h, there + NewTo(arrivals, i), d, a); }
  }

  lemma {:induction false} ArrivalIsListed(h: History, there: iset<Id>, d: Document, a: Arrival)
    requires IsSettled(h, d) && a.Insertion? && Arrives(h, there, a) && NewOf(a) <= There(d.clients)
    ensures forall x: nat {:trigger RunList.Unit(a.first, x)} :: x < a.len ==> RunList.Unit(a.first, x) in ListOf(d.lists, a.slot)
  {
    assert Sound(h, a.slot) && ListedAt(h, There(d.clients), d.lists, a.slot);
    forall x: nat | x < a.len ensures RunList.Unit(a.first, x) in ListOf(d.lists, a.slot) {
      assert UnitIs(h, a, x);
      var u := RunList.Unit(a.first, x);
      assert ItemId(u) == Id(a.first.client, a.first.clock + x);
      assert ItemId(u) in NewOf(a) && u in h.values(a.slot);
    }
  }

  /** An existing unit is deleted if and only if a delete for it arrived, it came deleted, it
      is the value of a key and a later one is in the key's list, or the item that holds the
      type it is in is deleted. */
  lemma {:induction false} DeletedIff(h: History, d: Document, id: Id)
    requires IsSettled(h, d) && id in There(d.clients)
    ensures id in Deleted(d.clients) <==>
            || id in d.asked || id in d.born
            || (h.of(id).Some? && var spot := h.of(id).value; spot.slot.key.Some? && exists y :: y in ListOf(d.lists, spot.slot) && Before(spot.item, y))
            || (h.of(id).Some? && var up := h.of(id).value.slot.parent; up.Type? && up.id in Deleted(d.clients))
  {
    var there, roots := There(d.clients), RootsOf(h, There(d.clients), d.asked + d.born);
    DoomedStep(h, roots, id);
    assert RootedAt(h, there, id);
    if ParentOf(h, id).Some? { assert Doomed(h, roots, ParentOf(h, id).value) <==> ParentOf(h, id).value in Deleted(d.clients); }
    if h.of(id).Some? {
      var spot := h.of(id).value;
      assert Sound(h, spot.slot) && ListedAt(h, there, d.lists, spot.slot);
      if y :| y in ListOf(d.lists, spot.slot) && Before(spot.item, y) { assert Follows(h, there, spot.slot, spot.item, y); }
      if IsSuperseded(h, there, id) {
        var y :| Follows(h, there, spot.slot, spot.item, y);
        assert y in ListOf(d.lists, spot.slot);
      }
    }
  }

  /** The structs of an update, one after the other. */
  method AddStructs(clients: Clients, lists: map<Slot, seq<Item>>, arrivals: seq<Arrival>, ghost h: History, ghost given: iset<Id>)
    returns (clients': Clients, lists': map<Slot, seq<Item>>)
    requires Kept(h, clients, lists, given) && Delivered(h, There(clients), arrivals)
    ensures Kept(h, clients', lists', given + BornTo(arrivals, |arrivals|)) && There(clients') == There(clients) + NewTo(arrivals, |arrivals|)
  {
    ghost var there := There(clients);
    assert given + BornTo(arrivals, 0) == given && there + NewTo(arrivals, 0) == there;
    clients', lists' := clients, lists;
    for n := 0 to |arrivals|
      invariant Kept(h, clients', lists', given + BornTo(arrivals, n)) && There(clients') == there + NewTo(arrivals, n)
    {
      assert InTurn(h, there, arrivals, n);
      clients', lists' := AddStruct(clients', lists', arrivals[n], h, given + BornTo(arrivals, n));
      NextArrival(given, there, arrivals, n);
    }
  }

  class StructStore {
    ghost const h: History
    var clients: Clients
    var lists: map<Slot, seq<Item>>
    var pending: DeleteSet
    /** All deletes that ever arrived, and what was deleted when it arrived. */
    ghost var asked: iset<Id>
    ghost var born: iset<Id>

    ghost function View(): Document
      reads this
    {
      Document(clients, lists, pending, asked, born)
    }

    ghost predicate Valid()
      reads this
    {
      IsSettled(h, View())
    }

    constructor (ghost h: History)
      requires GoodHistory(h)
      ensures Valid() && this.h == h && clients == map[] && asked == iset{} && born == iset{}
    {
      this.h := h;
      clients, lists, pending, asked, born := map[], map[], map[], iset{}, iset{};
      EmptyIsSettled(h);
    }

    /** One range: delete what exists, and say what does not exist yet. */
    method ApplyRange(c: int, r: Range, unapplied: DeleteSet, ghost roots: iset<Id>) returns (rest: DeleteSet)
      requires ExactIn(h, clients, roots) && r.length > 0 && WellFormed(unapplied)
      modifies `clients
      ensures There(clients) == old(There(clients)) && ExactIn(h, clients, roots + RangeOf(c, r.clock, End(r)))
      ensures WellFormed(rest) && DeletesOf(rest) == DeletesOf(unapplied) + NotThere(There(clients), RangeOf(c, r.clock, End(r)))
    {
      var state := GetState(clients, c);
      if c in clients && r.clock < state {
        rest := unapplied;
        if state < End(r) {
          rest := AddRange(unapplied, c, state, End(r) - state);
        }
        AddRangeIs(unapplied, c, state, if state < End(r) then End(r) - state else 0);
        // the first pivot of the search is a guess; any index will do
        assert 0 < |clients[c]|;
        var pivot :| 0 <= pivot < |clients[c]|;
        clients := ApplyDeleteRange(clients, c, r.clock, End(r), pivot, h, roots);
      } else {
        rest := AddRange(unapplied, c, r.clock, r.length);
        AddRangeIs(unapplied, c, r.clock, r.length);
        assert RangeOf(c, r.clock, r.clock) == iset{} && roots + iset{} == roots;
        RestIsNotThere(h, clients, c, r.clock, End(r), r.clock, roots);
      }
    }

    /** One client's ranges. */
    method ApplyBlock(b: Block, unapplied: DeleteSet, ghost roots: iset<Id>) returns (rest: DeleteSet)
      requires ExactIn(h, clients, roots) && Positive(b.ranges) && WellFormed(unapplied)
      modifies `clients
      ensures There(clients) == old(There(clients)) && ExactIn(h, clients, roots + CoveredBy(b.client, b.ranges))
      ensures WellFormed(rest) && DeletesOf(rest) == DeletesOf(unapplied) + NotThere(There(clients), CoveredBy(b.client, b.ranges))
    {
      rest := unapplied;
      ghost var there, done := There(clients), CoveredBy(b.client, b.ranges[..0]);
      assert done == iset{} && roots + done == roots && DeletesOf(unapplied) + NotThere(there, done) == DeletesOf(unapplied);
      for n := 0 to |b.ranges|
        invariant There(clients) == there && done == CoveredBy(b.client, b.ranges[..n]) && ExactIn(h, clients, roots + done)
        invariant WellFormed(rest) && DeletesOf(rest) == DeletesOf(unapplied) + NotThere(there, done)
      {
        ghost var more := RangeOf(b.client, b.ranges[n].clock, End(b.ranges[n]));
        rest := ApplyRange(b.client, b.ranges[n], rest, roots + done);
        RangeByRange(b.client, b.ranges, n);
        OneMore(roots, done, more, there, DeletesOf(unapplied));
        done := done + more;
      }
      assert b.ranges[..|b.ranges|] == b.ranges;
    }

    /** `readAndApplyDeleteSet`: delete what exists and return the rest. */
    method ApplyDeleteSet(blocks: seq<Block>, ghost roots: iset<Id>) returns (rest: DeleteSet)
      requires ExactIn(h, clients, roots) && GoodBlocks(blocks)
      modifies `clients
      ensures There(clients) == old(There(clients)) && ExactIn(h, clients, roots + NamedBy(blocks))
      ensures WellFormed(rest) && DeletesOf(rest) == NotThere(There(clients), NamedBy(blocks))
    {
      rest := map[];
      ghost var there, done := There(clients), NamedBy(blocks[..0]);
      assert done == iset{} && roots + done == roots && DeletesOf(map[]) + NotThere(there, done) == DeletesOf(map[]) == iset{};
      for n := 0 to |blocks|
        invariant There(clients) == there && done == NamedBy(blocks[..n]) && ExactIn(h, clients, roots + done)
        invariant WellFormed(rest) && DeletesOf(rest) == NotThere(there, done)
      {
        ghost var more := CoveredBy(blocks[n].client, blocks[n].ranges);
        rest := ApplyBlock(blocks[n], rest, roots + done);
        BlockByBlock(blocks, n);
        OneMore(roots, done, more, there, iset{});
        done := done + more;
      }
      assert blocks[..|blocks|] == blocks;
    }

    /** The update's deletes, then the pending deletes again; what neither could
        apply is pending afterwards. */
    method ApplyAndRetry(blocks: seq<Block>, ghost roots: iset<Id>)
      requires ExactIn(h, clients, roots) && GoodBlocks(blocks) && WellFormed(pending)
      modifies `clients, `pending
      ensures There(clients) == old(There(clients)) && ExactIn(h, clients, roots + NamedBy(blocks) + DeletesOf(old(pending)))
      ensures WellFormed(pending) && DeletesOf(pending) == NotThere(There(clients), NamedBy(blocks) + DeletesOf(old(pending)))
    {
      var rest := ApplyDeleteSet(blocks, roots);
      if pending != map[] {
        var again := ToBlocks(pending);
        assert NamedBy(again) == DeletesOf(pending);
        var rest2 := ApplyDeleteSet(again, roots + NamedBy(blocks));
        ghost var waited := DeletesOf(pending);
        pending := MergePending(rest, rest2);
        assert DeletesOf(pending) == DeletesOf(rest) + DeletesOf(rest2) == NotThere(There(clients), NamedBy(blocks) + waited);
      } else {
        assert DeletesOf(pending) == iset{} && roots + NamedBy(blocks) + iset{} == roots + NamedBy(blocks);
        pending := rest;
      }
    }

    /** `readUpdateV2`: structs, then the update's deletes, then the pending deletes again. */
    method ReadUpdate(arrivals: seq<Arrival>, blocks: seq<Block>)
      requires Valid() && GoodBlocks(blocks) && Delivered(h, There(clients), arrivals)
      modifies this
      ensures Valid() && Reads(h, old(View()), arrivals, blocks, View())
      ensures forall i {:trigger arrivals[i]} :: 0 <= i < |arrivals| ==> Shows(View(), arrivals[i])
      ensures forall id {:trigger id in NamedBy(blocks)} :: id in NamedBy(blocks) ==> if id in There(clients) then id in Deleted(clients) else id in DeletesOf(pending)
    {
      ghost var there, named, more := There(clients), NamedBy(blocks), BornTo(arrivals, |arrivals|);
      ghost var given := asked * there + born;
      SettledIsKept(h, clients, lists, pending, asked, born);
      clients, lists := AddStructs(clients, lists, arrivals, h, given);
      ApplyAndRetry(blocks, RootsOf(h, There(clients), given + more));
      ReadIsSettled(h, clients, lists, there, pending, old(pending), asked, born, named, more);
      asked, born := asked + named, born + more;
      forall i | 0 <= i < |arrivals| ensures Shows(View(), arrivals[i]) { ArrivalShows(h, there, View(), arrivals, i); }
      RootsAreGone(h, View());
    }
  }

  lemma {:induction false} NextArrival(given: iset<Id>, there: iset<Id>, arrivals: seq<Arrival>, n: nat)
    requires n < |arrivals|
    ensures given + BornTo(arrivals, n) + BornOf(arrivals[n]) == given + BornTo(arrivals, n + 1)
    ensures there + NewTo(arrivals, n) + NewOf(arrivals[n]) == there + NewTo(arrivals, n + 1)
  {
  }

  lemma {:induction false} OneMore(roots: iset<Id>, done: iset<Id>, more: iset<Id>, there: iset<Id>, rest: iset<Id>)
    ensures roots + done + more == roots + (done + more)
    ensures rest + NotThere(there, done) + NotThere(there, more) == rest + NotThere(there, done + more)
  {
  }

  lemma {:induction false} EmptyIsSettled(h: History)
    requires GoodHistory(h)
    ensures Settled(h, map[], map[], map[], iset{}, iset{})
  {
    assert There(map[]) == iset{} && Deleted(map[]) == iset{} && DeletesOf(map[]) == iset{};
    forall s ensures ListedAt(h, iset{}, map[], s) { assert Sound(h, s); }
    assert Superseded(h, iset{}) == iset{};
  }

  /** Deletes whose units do not exist play no part. */
  lemma {:induction false} SettledIsKept(h: History, clients: Clients, lists: map<Slot, seq<Item>>, pending: DeleteSet, asked: iset<Id>, born: iset<Id>)
    requires Settled(h, clients, lists, pending, asked, born)
    ensures Kept(h, clients, lists, asked * There(clients) + born)
  {
    var there := There(clients);
    var a, b := RootsOf(h, there, asked + born), RootsOf(h, there, asked * there + born);
    ExactIsShut(h, there, Deleted(clients), a);
    OtherRoots(h, there, Deleted(clients), a, b);
  }

  /** Every delete that ever arrived has now been applied, or its unit does not exist. */
  lemma {:induction false} ReadIsSettled(h: History, clients: Clients, lists: map<Slot, seq<Item>>, was: iset<Id>, pending: DeleteSet, waited: DeleteSet,
                                         asked: iset<Id>, born: iset<Id>, named: iset<Id>, more: iset<Id>)
    requires GoodHistory(h) && Listed(h, There(clients), lists) && was <= There(clients) && born + more <= There(clients)
    requires DeletesOf(waited) == NotThere(was, asked)
    requires ExactIn(h, clients, RootsOf(h, There(clients), asked * was + born + more) + named + DeletesOf(waited))
    requires WellFormed(pending) && DeletesOf(pending) == NotThere(There(clients), named + DeletesOf(waited))
    ensures Settled(h, clients, lists, pending, asked + named, born + more)
  {
    var there := There(clients);
    var a := RootsOf(h, there, asked * was + born + more) + named + DeletesOf(waited);
    var b := RootsOf(h, there, asked + named + (born + more));
    ExactIsShut(h, there, Deleted(clients), a);
    forall r | r in b && r in there ensures r in a { assert r in asked ==> r in was || r in NotThere(was, asked); }
    OtherRoots(h, there, Deleted(clients), a, b);
    assert NotThere(there, named + DeletesOf(waited)) == NotThere(there, asked + named);
  }

  // ---------------------------------------------------------------- any order of arrival

  /** Two documents of one history have got the same: the same units, and the same deletes, be
      they for units that came alive or for units that came deleted. */
  ghost predicate SameReceived(s: Document, t: Document) {
    && There(s.clients) == There(t.clients) && NotThere(There(s.clients), s.asked) == NotThere(There(t.clients), t.asked)
    && (s.asked + s.born) * There(s.clients) == (t.asked + t.born) * There(t.clients)
  }

  /** Whatever order structs and deletes came in: every list has the same items in the same
      order, the same of them are deleted, and the same deletes are pending. */
  lemma {:induction false} ArrivalOrderIsIrrelevant(h: History, s: Document, t: Document)
    requires IsSettled(h, s) && IsSettled(h, t) && SameReceived(s, t)
    ensures forall slot {:trigger ListOf(s.lists, slot)} :: ListOf(s.lists, slot) == ListOf(t.lists, slot)
    ensures Deleted(s.clients) == Deleted(t.clients)
    ensures DeletesOf(s.pending) == DeletesOf(t.pending)
  {
    var there := There(s.clients);
    forall slot ensures ListOf(s.lists, slot) == ListOf(t.lists, slot) {
      assert ListedAt(h, there, s.lists, slot) && ListedAt(h, there, t.lists, slot);
      SameList(h, there, slot, ListOf(s.lists, slot), ListOf(t.lists, slot));
    }
    var a, b := RootsOf(h, there, s.asked + s.born), RootsOf(h, there, t.asked + t.born);
    ExactIsShut(h, there, Deleted(t.clients), b);
    forall r | r in a && r in there ensures r in b { assert r in s.asked + s.born ==> r in (s.asked + s.born) * there; }
    forall r | r in b && r in there ensures r in a { assert r in t.asked + t.born ==> r in (t.asked + t.born) * there; }
    OtherRoots(h, there, Deleted(t.clients), b, a);
    SameDeleted(h, there, Deleted(s.clients), Deleted(t.clients), a);
  }

  lemma {:induction false} SameDeleted(h: History, there: iset<Id>, a: iset<Id>, b: iset<Id>, roots: iset<Id>)
    requires Exact(h, there, a, roots) && Exact(h, there, b, roots)
    ensures a == b
  {
    forall id | id in there ensures id in a <==> id in b { assert Doomed(h, roots, id) || !Doomed(h, roots, id); }
  }

  lemma {:induction false} SameList(h: History, there: iset<Id>, s: Slot, a: seq<Item>, b: seq<Item>)
    requires Lists(h, there, s, a) && Lists(h, there, s, b)
    ensures a == b
  {
    forall y ensures y in ConflictScan.Elems(a) <==> y in ConflictScan.Elems(b) { assert y in a <==> y in b; }
    Convergence.SortedUnique(a, b);
  }
}

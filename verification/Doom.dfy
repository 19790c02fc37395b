/** What must be deleted: everything a delete was asked for, everything that came deleted,
    every value of a key that another one follows, and whatever lies inside of these. */
module Doom {
  import opened Wrappers
  import opened ItemOrder
  import ConflictScan

  /** A top-level type, or the type an item holds. */
  datatype Parent = Root(name: string) | Type(id: Id)

  /** A list of a type, or the values of one of its keys. */
  datatype Slot = Slot(parent: Parent, key: Option<string>)

  datatype Spot = Spot(slot: Slot, item: Item)

  /** All that was ever written: where each unit belongs, and what each slot has had.  A unit
      that belongs nowhere is that of a GC. */
  datatype History = History(of: Id -> Option<Spot>, values: Slot -> set<Item>)

  function ItemId(x: Item): Id { Id(x.client, x.clock) }

  ghost predicate Sound(h: History, s: Slot) {
    && ValidHistory(h.values(s))
    && forall y {:trigger y in h.values(s)} {:trigger h.of(ItemId(y))} :: y in h.values(s) <==> h.of(ItemId(y)) == Some(Spot(s, y))
  }

  ghost predicate Identified(h: History, id: Id) {
    h.of(id).Some? ==> ItemId(h.of(id).value.item) == id
  }

  ghost predicate GoodHistory(h: History) {
    && (forall s {:trigger Sound(h, s)} :: Sound(h, s))
    && (forall id {:trigger Identified(h, id)} :: Identified(h, id))
  }

  // ---------------------------------------------------------------- inside of deleted types

  /** The item that holds the type `id` is in. */
  function ParentOf(h: History, id: Id): Option<Id> {
    if h.of(id).Some? && h.of(id).value.slot.parent.Type? then Some(h.of(id).value.slot.parent.id) else None
  }

  function Up(h: History, id: Id, n: nat): Option<Id>
    decreases n
  {
    if n == 0 then Some(id)
    else if ParentOf(h, id).Some? then Up(h, ParentOf(h, id).value, n - 1)
    else None
  }

  ghost predicate Hit(h: History, roots: iset<Id>, id: Id, n: nat) {
    Up(h, id, n).Some? && Up(h, id, n).value in roots
  }

  /** The unit, or an item it lies in, is among the roots. */
  ghost predicate Doomed(h: History, roots: iset<Id>, id: Id) {
    exists n: nat :: Hit(h, roots, id, n)
  }

  lemma {:induction false} DoomedStep(h: History, roots: iset<Id>, id: Id)
    ensures Doomed(h, roots, id) <==> id in roots || (ParentOf(h, id).Some? && Doomed(h, roots, ParentOf(h, id).value))
  {
    var p := ParentOf(h, id);
    if Doomed(h, roots, id) {
      var n: nat :| Hit(h, roots, id, n);
      if n > 0 { assert Hit(h, roots, p.value, n - 1); }
    }
    if id in roots { assert Hit(h, roots, id, 0); }
    if p.Some? && Doomed(h, roots, p.value) {
      var n: nat :| Hit(h, roots, p.value, n);
      assert Hit(h, roots, id, n + 1);
    }
  }

  lemma {:induction false} MoreDoomed(h: History, a: iset<Id>, b: iset<Id>, id: Id)
    requires Doomed(h, a, id) && a <= b
    ensures Doomed(h, b, id)
  {
    var n: nat :| Hit(h, a, id, n);
    assert Hit(h, b, id, n);
  }

  // ---------------------------------------------------------------- exactly what is doomed

  ghost predicate RootedAt(h: History, there: iset<Id>, id: Id) {
    ParentOf(h, id).Some? ==> ParentOf(h, id).value in there
  }

  /** What is there lies in what is there. */
  ghost predicate Rooted(h: History, there: iset<Id>) {
    forall id {:trigger RootedAt(h, there, id)} :: id in there ==> RootedAt(h, there, id)
  }

  ghost predicate ShutAt(h: History, gone: iset<Id>, open: iset<Id>, id: Id) {
    ParentOf(h, id).Some? && ParentOf(h, id).value in gone && ParentOf(h, id).value !in open ==> id in gone
  }

  /** What lies in a deleted item is deleted, except perhaps in those of `open`. */
  ghost predicate Shut(h: History, there: iset<Id>, gone: iset<Id>, open: iset<Id>) {
    forall id {:trigger ShutAt(h, gone, open, id)} :: id in there ==> ShutAt(h, gone, open, id)
  }

  /** Nothing is deleted without a reason. */
  ghost predicate Justified(h: History, gone: iset<Id>, roots: iset<Id>) {
    forall id {:trigger Doomed(h, roots, id)} {:trigger id in gone} :: id in gone ==> Doomed(h, roots, id)
  }

  /** Of what is there, exactly the doomed is deleted. */
  ghost predicate Exact(h: History, there: iset<Id>, gone: iset<Id>, roots: iset<Id>) {
    gone <= there && forall id {:trigger Doomed(h, roots, id)} {:trigger id in gone} :: id in there ==> (id in gone <==> Doomed(h, roots, id))
  }

  lemma {:induction false} HitIsGone(h: History, there: iset<Id>, gone: iset<Id>, roots: iset<Id>, id: Id, n: nat)
    requires Rooted(h, there) && Shut(h, there, gone, iset{}) && (forall r {:trigger r in roots} :: r in roots && r in there ==> r in gone)
    requires id in there && Hit(h, roots, id, n)
    ensures id in gone
    decreases n
  {
    if n > 0 {
      assert RootedAt(h, there, id) && ShutAt(h, gone, iset{}, id);
      HitIsGone(h, there, gone, roots, ParentOf(h, id).value, n - 1);
    }
  }

  /** Deleted with a reason, with all that lies inside, and no root left out: that is exact. */
  lemma {:induction false} ShutIsExact(h: History, there: iset<Id>, gone: iset<Id>, roots: iset<Id>)
    requires Rooted(h, there) && gone <= there && Justified(h, gone, roots) && Shut(h, there, gone, iset{})
    requires forall r {:trigger r in roots} :: r in roots && r in there ==> r in gone
    ensures Exact(h, there, gone, roots)
  {
    forall id | id in there && Doomed(h, roots, id) ensures id in gone {
      var n: nat :| Hit(h, roots, id, n);
      HitIsGone(h, there, gone, roots, id, n);
    }
  }

  lemma {:induction false} ExactIsShut(h: History, there: iset<Id>, gone: iset<Id>, roots: iset<Id>)
    requires Exact(h, there, gone, roots)
    ensures Justified(h, gone, roots) && Shut(h, there, gone, iset{}) && forall r {:trigger r in roots} :: r in roots && r in there ==> r in gone
  {
    forall id | id in there ensures ShutAt(h, gone, iset{}, id) {
      DoomedStep(h, roots, id);
      if ParentOf(h, id).Some? && ParentOf(h, id).value in gone { assert Doomed(h, roots, ParentOf(h, id).value); }
    }
    forall r | r in roots && r in there ensures r in gone { DoomedStep(h, roots, r); }
  }

  /** Roots that do not matter: those that are gone anyway, and those that are not there. */
  lemma {:induction false} OtherRoots(h: History, there: iset<Id>, gone: iset<Id>, a: iset<Id>, b: iset<Id>)
    requires Rooted(h, there) && Exact(h, there, gone, a)
    requires forall r {:trigger r in a} :: r in a && r in there ==> r in b
    requires forall r {:trigger r in b} :: r in b && r in there ==> r in gone
    ensures Exact(h, there, gone, b)
  {
    ExactIsShut(h, there, gone, a);
    forall id | id in gone ensures Doomed(h, b, id) {
      assert Doomed(h, a, id);
      var n: nat :| Hit(h, a, id, n);
      HitThere(h, there, a, b, id, n);
    }
    ShutIsExact(h, there, gone, b);
  }

  lemma {:induction false} HitThere(h: History, there: iset<Id>, a: iset<Id>, b: iset<Id>, id: Id, n: nat)
    requires Rooted(h, there) && id in there && Hit(h, a, id, n) && forall r {:trigger r in a} :: r in a && r in there ==> r in b
    ensures Doomed(h, b, id)
    decreases n
  {
    DoomedStep(h, b, id);
    if n > 0 {
      assert RootedAt(h, there, id);
      HitThere(h, there, a, b, ParentOf(h, id).value, n - 1);
    }
  }

  // ---------------------------------------------------------------- values that are not the last

  ghost predicate Follows(h: History, there: iset<Id>, s: Slot, x: Item, y: Item) {
    y in h.values(s) && ItemId(y) in there && Before(x, y)
  }

  /** A value of a key that another one follows. */
  ghost predicate IsSuperseded(h: History, there: iset<Id>, id: Id) {
    && id in there && h.of(id).Some? && h.of(id).value.slot.key.Some?
    && exists y :: Follows(h, there, h.of(id).value.slot, h.of(id).value.item, y)
  }

  ghost function Superseded(h: History, there: iset<Id>): iset<Id> {
    iset id: Id | IsSuperseded(h, there, id)
  }

  /** The list of a slot at one replica. */
  ghost predicate Lists(h: History, there: iset<Id>, s: Slot, l: seq<Item>) {
    && ConflictScan.Replica(h.values(s), l)
    && forall y {:trigger y in l} :: y in l <==> y in h.values(s) && ItemId(y) in there
  }

  lemma {:induction false} StaysSuperseded(h: History, there: iset<Id>, there': iset<Id>, id: Id)
    requires IsSuperseded(h, there, id) && there <= there'
    ensures IsSuperseded(h, there', id)
  {
    var s, x := h.of(id).value.slot, h.of(id).value.item;
    var y :| Follows(h, there, s, x, y);
    assert Follows(h, there', s, x, y);
  }

  /** What belongs to no key supersedes nothing. */
  lemma {:induction false} NothingSuperseded(h: History, there: iset<Id>, there': iset<Id>)
    requires GoodHistory(h) && there <= there'
    requires forall id {:trigger id in there'} :: id in there' && id !in there ==> h.of(id).None? || h.of(id).value.slot.key.None?
    ensures Superseded(h, there') == Superseded(h, there)
  {
    forall id ensures IsSuperseded(h, there', id) <==> IsSuperseded(h, there, id) {
      if IsSuperseded(h, there, id) { StaysSuperseded(h, there, there', id); }
      if IsSuperseded(h, there', id) {
        var s, x := h.of(id).value.slot, h.of(id).value.item;
        var y :| Follows(h, there', s, x, y);
        assert Sound(h, s);
        assert Follows(h, there, s, x, y);
      }
    }
  }

  /** A value that comes last supersedes the last one. */
  lemma {:induction false} LastSuperseded(h: History, there: iset<Id>, s: Slot, l: seq<Item>, x: Item)
    requires GoodHistory(h) && Lists(h, there, s, l) && s.key.Some? && x in h.values(s) && ItemId(x) !in there && ConflictScan.IsPlace(l, x, |l|)
    ensures l != [] ==> ItemId(l[|l| - 1]) in there && h.of(ItemId(l[|l| - 1])) == Some(Spot(s, l[|l| - 1]))
    ensures Superseded(h, there + iset{ItemId(x)}) == Superseded(h, there) + if l == [] then iset{} else iset{ItemId(l[|l| - 1])}
  {
    var there' := there + iset{ItemId(x)};
    assert Sound(h, s);
    assert l != [] ==> l[|l| - 1] in l;
    forall id ensures IsSuperseded(h, there', id) <==> IsSuperseded(h, there, id) || (l != [] && id == ItemId(l[|l| - 1])) {
      if IsSuperseded(h, there, id) { StaysSuperseded(h, there, there', id); }
      if l != [] && id == ItemId(l[|l| - 1]) { assert Follows(h, there', s, l[|l| - 1], x); }
      if IsSuperseded(h, there', id) { WasSuperseded(h, there, s, l, x, id); }
    }
  }

  lemma {:induction false} NoneBehind(l: seq<Item>, x: Item, y: Item)
    requires ConflictScan.IsPlace(l, x, |l|) && y in l
    ensures !Before(x, y)
  {
    Asymmetric(y, x);
  }

  lemma {:induction false} WasSuperseded(h: History, there: iset<Id>, s: Slot, l: seq<Item>, x: Item, id: Id)
    requires GoodHistory(h) && Lists(h, there, s, l) && s.key.Some? && x in h.values(s) && ItemId(x) !in there && ConflictScan.IsPlace(l, x, |l|)
    requires IsSuperseded(h, there + iset{ItemId(x)}, id)
    ensures IsSuperseded(h, there, id) || (l != [] && id == ItemId(l[|l| - 1]))
  {
    var there' := there + iset{ItemId(x)};
    var t, z := h.of(id).value.slot, h.of(id).value.item;
    var y :| Follows(h, there', t, z, y);
    assert Sound(h, s) && Sound(h, t) && Identified(h, id);
    if id == ItemId(x) {
      if y in l { NoneBehind(l, x, y); } else { Asymmetric(x, y); }
    } else if y != x {
      assert Follows(h, there, t, z, y);
    } else {
      assert z in l;
      var k :| 0 <= k < |l| && l[k] == z;
      var last := l[|l| - 1];
      assert last in l;
      if k < |l| - 1 { assert Follows(h, there, s, z, last); }
    }
  }

  /** A value that does not come last is superseded itself. */
  lemma {:induction false} SelfSuperseded(h: History, there: iset<Id>, s: Slot, l: seq<Item>, x: Item, p: nat)
    requires GoodHistory(h) && Lists(h, there, s, l) && s.key.Some? && x in h.values(s) && ItemId(x) !in there && ConflictScan.IsPlace(l, x, p) && p < |l|
    ensures Superseded(h, there + iset{ItemId(x)}) == Superseded(h, there) + iset{ItemId(x)}
  {
    var there' := there + iset{ItemId(x)};
    var last := l[|l| - 1];
    assert Sound(h, s) && last in l;
    forall id ensures IsSuperseded(h, there', id) <==> IsSuperseded(h, there, id) || id == ItemId(x) {
      if IsSuperseded(h, there, id) { StaysSuperseded(h, there, there', id); }
      if id == ItemId(x) { assert Follows(h, there', s, x, last); }
      if IsSuperseded(h, there', id) && id != ItemId(x) { WasSupersededBefore(h, there, s, l, x, p, id); }
    }
  }

  lemma {:induction false} WasSupersededBefore(h: History, there: iset<Id>, s: Slot, l: seq<Item>, x: Item, p: nat, id: Id)
    requires GoodHistory(h) && Lists(h, there, s, l) && s.key.Some? && x in h.values(s) && ItemId(x) !in there && ConflictScan.IsPlace(l, x, p) && p < |l|
    requires IsSuperseded(h, there + iset{ItemId(x)}, id) && id != ItemId(x)
    ensures IsSuperseded(h, there, id)
  {
    var t, z := h.of(id).value.slot, h.of(id).value.item;
    var y :| Follows(h, there + iset{ItemId(x)}, t, z, y);
    assert Sound(h, s) && Sound(h, t) && Identified(h, id);
    if y != x {
      assert Follows(h, there, t, z, y);
    } else {
      assert z in l;
      var k :| 0 <= k < |l| && l[k] == z;
      if k >= p { Asymmetric(x, z); }
      var last := l[|l| - 1];
      assert last in l;
      assert Follows(h, there, s, z, last);
    }
  }

  // ---------------------------------------------------------------- new units

  /** All of `ids` lie in the same item, if in any. */
  ghost predicate AllIn(h: History, ids: iset<Id>, up: Option<Id>) {
    forall id {:trigger ParentOf(h, id)} :: id in ids ==> ParentOf(h, id) == up
  }

  lemma {:induction false} NewIsRooted(h: History, there: iset<Id>, news: iset<Id>, up: Option<Id>)
    requires Rooted(h, there) && AllIn(h, news, up) && (up.Some? ==> up.value in there)
    ensures Rooted(h, there + news)
  {
    forall id | id in there + news ensures RootedAt(h, there + news, id) { assert id in there ==> RootedAt(h, there, id); }
  }

  /** New units are deleted if they are roots, or lie in a deleted item; nothing lies in them. */
  lemma {:induction false} NewIsExact(h: History, there: iset<Id>, gone: iset<Id>, roots: iset<Id>, news: iset<Id>, up: Option<Id>, must: bool)
    requires Rooted(h, there) && Exact(h, there, gone, roots) && roots <= there && news !! there
    requires AllIn(h, news, up) && (up.Some? ==> up.value in there)
    ensures var goes := must || (up.Some? && up.value in gone);
            Rooted(h, there + news) && Exact(h, there + news, if goes then gone + news else gone, if must then roots + news else roots)
  {
    var goes := must || (up.Some? && up.value in gone);
    var there', gone', roots' := there + news, if goes then gone + news else gone, if must then roots + news else roots;
    NewIsRooted(h, there, news, up);
    ExactIsShut(h, there, gone, roots);
    forall id | id in gone' ensures Doomed(h, roots', id) {
      if id in gone { MoreDoomed(h, roots, roots', id); } else {
        DoomedStep(h, roots', id);
        if !must { assert ParentOf(h, id) == up; MoreDoomed(h, roots, roots', up.value); }
      }
    }
    forall id | id in there' ensures ShutAt(h, gone', iset{}, id) {
      if id in there {
        assert ShutAt(h, gone, iset{}, id) && RootedAt(h, there, id);
      } else {
        assert ParentOf(h, id) == up;
      }
    }
    ShutIsExact(h, there', gone', roots');
  }
}

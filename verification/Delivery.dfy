/** What the scheduler integrates arrives at the store in an order the store can take. */
module Delivery {
  import opened Wrappers
  import opened ItemOrder
  import opened Doom
  import opened Cascade
  import opened ApplyDeletes
  import Scheduler
  import ConflictScan

  /** The units a state vector covers. */
  ghost function Below(store: Scheduler.Store): iset<Id> {
    iset id: Id | id.clock < Scheduler.GetState(store, id.client)
  }

  /** `d` is an earlier unit of the same client, or what the struct is written with as `ref`. */
  predicate Refers(x: Scheduler.Struct, ref: Option<Id>, d: Id) {
    if d.client == x.client then d.clock < x.clock else x.kind.Content? && ref == Some(d)
  }

  ghost predicate RefersToItem(x: Scheduler.Struct, ref: Option<Id>, r: Option<Item>) {
    r.Some? ==> Refers(x, ref, ItemId(r.value))
  }

  /** The parent an item is written with, or that of an origin in the same list. */
  ghost predicate HasParent(x: Scheduler.Struct, a: Arrival)
    requires a.Insertion?
  {
    a.slot.parent.Type? ==> Refers(x, x.parent, a.slot.parent.id) || a.first.origin.Some? || a.first.rightOrigin.Some?
  }

  /** The struct the scheduler handled is the one that arrives: its units belong where the
      history says, and it is written with its origin, its right origin and, unless an origin
      tells, its parent. */
  ghost predicate Carries(h: History, x: Scheduler.Struct, a: Arrival) {
    && FirstId(a) == Id(x.client, x.clock) && a.len == x.len
    && if a.Gc? then forall id {:trigger h.of(id)} :: id in NewOf(a) ==> h.of(id).None?
       else
         && (forall k: nat {:trigger UnitIs(h, a, k)} :: k < a.len ==> UnitIs(h, a, k)) && (a.slot.key.Some? ==> a.len == 1)
         && RefersToItem(x, x.origin, a.first.origin) && RefersToItem(x, x.rightOrigin, a.first.rightOrigin) && HasParent(x, a)
  }

  ghost predicate CarriesAll(h: History, log: seq<Scheduler.Struct>, arrivals: seq<Arrival>) {
    |log| == |arrivals| && forall k {:trigger Carries(h, log[k], arrivals[k])} :: 0 <= k < |log| ==> Carries(h, log[k], arrivals[k])
  }

  lemma {:induction false} ReferredIsThere(store: Scheduler.Store, x: Scheduler.Struct, ref: Option<Id>, d: Id)
    requires x.clock == Scheduler.GetState(store, x.client) && (forall e :: !Scheduler.Lacks(store, x, e)) && Refers(x, ref, d)
    requires ref == x.origin || ref == x.rightOrigin || ref == x.parent
    ensures d in Below(store)
  {
    Scheduler.LacksIsRefs(store, x);
  }

  /** An item of a list shares its parent with its origins. */
  lemma {:induction false} SameParent(h: History, there: iset<Id>, a: Arrival, o: Item)
    requires GoodHistory(h) && Rooted(h, there) && a.Insertion? && a.len > 0 && UnitIs(h, a, 0)
    requires (a.first.origin == Some(o) || a.first.rightOrigin == Some(o)) && ItemId(o) in there && a.slot.parent.Type?
    ensures a.slot.parent.id in there
  {
    assert Sound(h, a.slot);
    assert h.of(ItemId(a.first)) == Some(Spot(a.slot, a.first));
    assert a.first in h.values(a.slot) && RefsIn(h.values(a.slot), a.first);
    assert RootedAt(h, there, ItemId(o));
  }

  lemma {:induction false} IntegratedArrives(h: History, store: Scheduler.Store, x: Scheduler.Struct, a: Arrival)
    requires GoodHistory(h) && Rooted(h, Below(store)) && Carries(h, x, a)
    requires x.clock == Scheduler.GetState(store, x.client) && x.len > 0 && forall d :: !Scheduler.Lacks(store, x, d)
    ensures Arrives(h, Below(store), a)
  {
    var there := Below(store);
    if a.Insertion? {
      assert UnitIs(h, a, 0);
      var o, r := a.first.origin, a.first.rightOrigin;
      if o.Some? { ReferredIsThere(store, x, x.origin, ItemId(o.value)); }
      if r.Some? { ReferredIsThere(store, x, x.rightOrigin, ItemId(r.value)); }
      if a.slot.parent.Type? {
        if Refers(x, x.parent, a.slot.parent.id) { ReferredIsThere(store, x, x.parent, a.slot.parent.id); }
        else if o.Some? { SameParent(h, there, a, o.value); }
        else { SameParent(h, there, a, r.value); }
      }
    }
  }

  /** After a struct, the store covers its units as well. */
  lemma {:induction false} CoversMore(store: Scheduler.Store, x: Scheduler.Struct, store': Scheduler.Store, a: Arrival)
    requires x.clock == Scheduler.GetState(store, x.client) && Scheduler.AddStruct(store, x) == Some(store') && FirstId(a) == Id(x.client, x.clock) && a.len == x.len
    ensures Below(store') == Below(store) + NewOf(a)
  {
  }

  /** What the scheduler integrates, in the order of its log, arrives as the store demands. */
  lemma {:induction false} LogIsDelivered(h: History, init: Scheduler.Store, log: seq<Scheduler.Struct>, store: Scheduler.Store, arrivals: seq<Arrival>)
    requires GoodHistory(h) && Rooted(h, Below(init)) && Scheduler.Logged(init, log, store) && CarriesAll(h, log, arrivals)
    ensures Delivered(h, Below(init), arrivals) && Below(store) == Below(init) + NewTo(arrivals, |arrivals|) && Rooted(h, Below(store))
    decreases |log|
  {
    if log == [] {
      assert Below(init) + NewTo(arrivals, 0) == Below(init);
    } else {
      var n := |log| - 1;
      var x, a := log[n], arrivals[n];
      var before :| Scheduler.Logged(init, log[..n], before) && x.clock == Scheduler.GetState(before, x.client) && x.len > 0 &&
                    (forall d :: !Scheduler.Lacks(before, x, d)) && Scheduler.AddStruct(before, x) == Some(store);
      forall k | 0 <= k < n ensures Carries(h, log[..n][k], arrivals[..n][k]) { assert Carries(h, log[k], arrivals[k]); }
      LogIsDelivered(h, init, log[..n], before, arrivals[..n]);
      assert Carries(h, log[n], arrivals[n]);
      IntegratedArrives(h, before, x, a);
      CoversMore(before, x, store, a);
      OneMoreDelivered(h, Below(init), Below(before), arrivals);
      ArrivalFits(h, Below(before), a);
      NewIsRooted(h, Below(before), NewOf(a), UpOf(a));
    }
  }

  lemma {:induction false} NewOfPrefix(arrivals: seq<Arrival>, n: nat, m: nat)
    requires m <= n <= |arrivals|
    ensures NewTo(arrivals[..n], m) == NewTo(arrivals, m)
  {
    if m > 0 { NewOfPrefix(arrivals, n, m - 1); }
  }

  lemma {:induction false} OneMoreDelivered(h: History, init: iset<Id>, there: iset<Id>, arrivals: seq<Arrival>)
    requires arrivals != [] && Delivered(h, init, arrivals[..|arrivals| - 1])
    requires there == init + NewTo(arrivals[..|arrivals| - 1], |arrivals| - 1) && Arrives(h, there, arrivals[|arrivals| - 1])
    ensures Delivered(h, init, arrivals)
    ensures there + NewOf(arrivals[|arrivals| - 1]) == init + NewTo(arrivals, |arrivals|)
  {
    var n := |arrivals| - 1;
    forall m | 0 <= m < |arrivals| ensures InTurn(h, init, arrivals, m) {
      NewOfPrefix(arrivals, n, m);
      if m < n { assert InTurn(h, init, arrivals[..n], m); }
    }
    NewOfPrefix(arrivals, n, n);
  }

  // ---------------------------------------------------------------- nothing is lost

  ghost predicate SaidIn(q: seq<Scheduler.Struct>, clock: nat) {
    exists k: nat :: Scheduler.Brings(q, k, clock)
  }

  /** The units an update brings. */
  ghost function Said(u: Scheduler.Update): iset<Id> {
    iset id: Id | id.client in u && SaidIn(u[id.client], id.clock)
  }

  /** What `integrateStructs` promises of its results. */
  ghost predicate Integrated(init: Scheduler.Store, input: Scheduler.Update, log: seq<Scheduler.Struct>, store: Scheduler.Store, rest: Scheduler.Update) {
    && Scheduler.Logged(init, log, store) && Scheduler.Stems(input, log)
    && rest.Keys <= input.Keys && forall c {:trigger Scheduler.Settled(input, store, rest, c)} :: c in input ==> Scheduler.Settled(input, store, rest, c)
  }

  lemma {:induction false} RestIsSaid(input: Scheduler.Update, store: Scheduler.Store, rest: Scheduler.Update, id: Id)
    requires rest.Keys <= input.Keys && (id.client in input ==> Scheduler.Settled(input, store, rest, id.client)) && id in Said(rest)
    ensures id in Said(input)
  {
    var c := id.client;
    var k: nat :| Scheduler.Brings(rest[c], k, id.clock);
    assert Scheduler.Brings(input[c], |input[c]| - |rest[c]| + k, id.clock);
  }

  lemma {:induction false} SaidIsKept(input: Scheduler.Update, store: Scheduler.Store, rest: Scheduler.Update, id: Id)
    requires Scheduler.WellFormed(input) && id in Said(input) && Scheduler.Settled(input, store, rest, id.client)
    ensures id in Below(store) || id in Said(rest)
  {
    var c := id.client;
    var k: nat :| Scheduler.Brings(input[c], k, id.clock);
    var n := if c in rest then |input[c]| - |rest[c]| else |input[c]|;
    if k < n { assert Scheduler.Done(store, input[c][k]); } else { assert Scheduler.Brings(rest[c], k - n, id.clock); }
  }

  lemma {:induction false} StoredWasSaid(init: Scheduler.Store, input: Scheduler.Update, log: seq<Scheduler.Struct>, store: Scheduler.Store, id: Id)
    requires Scheduler.Logged(init, log, store) && Scheduler.Stems(input, log) && id in Below(store) && id !in Below(init)
    ensures id in Said(input)
  {
    Scheduler.ClocksAreContiguous(init, log, store, id.client, id.clock);
    var k :| 0 <= k < |log| && log[k].client == id.client && log[k].clock <= id.clock < log[k].clock + log[k].len;
    assert Scheduler.IsFrom(input, log[k]);
    var x :| Scheduler.IsPart(input, x, log[k]);
    var m: nat :| m < |input[id.client]| && input[id.client][m] == x;
    assert Scheduler.Brings(input[id.client], m, id.clock);
  }

  /** The store and what stays pending hold what the store had and the update brought. */
  lemma {:induction false} NothingIsLost(init: Scheduler.Store, input: Scheduler.Update, log: seq<Scheduler.Struct>, store: Scheduler.Store, rest: Scheduler.Update)
    requires Scheduler.WellFormed(input) && Integrated(init, input, log, store, rest)
    ensures Below(store) + Said(rest) == Below(init) + Said(input)
  {
    forall id ensures id in Below(store) + Said(rest) <==> id in Below(init) + Said(input) {
      assert id.client in input ==> Scheduler.Settled(input, store, rest, id.client);
      if id in Said(rest) { RestIsSaid(input, store, rest, id); }
      if id in Below(store) && id !in Below(init) { StoredWasSaid(init, input, log, store, id); }
      if id in Below(init) { Scheduler.StoreGrows(init, log, store, id.client); }
      if id in Said(input) { SaidIsKept(input, store, rest, id); }
    }
  }

  // ---------------------------------------------------------------- runs of a replica

  /** An update as it is sent. */
  datatype Message = Message(structs: Scheduler.Update, deletes: seq<Block>)

  /** One call of `readUpdateV2`, for a message or for the structs that were pending: what the
      scheduler made of it, what arrived at the store, and the document afterwards. */
  datatype Reading = Reading(message: Option<Message>, input: Scheduler.Update, log: seq<Scheduler.Struct>, store: Scheduler.Store, rest: Scheduler.Update,
                             arrivals: seq<Arrival>, document: Document)

  const Blank: Document := Document(map[], map[], map[], iset{}, iset{})

  function DeletesIn(r: Reading): seq<Block> {
    if r.message.Some? then r.message.value.deletes else []
  }

  ghost function StoreAfter(rs: seq<Reading>): Scheduler.Store {
    if rs == [] then map[] else rs[|rs| - 1].store
  }

  ghost function DocumentAfter(rs: seq<Reading>): Document {
    if rs == [] then Blank else rs[|rs| - 1].document
  }

  ghost function PendingAfter(rs: seq<Reading>): iset<Id> {
    if rs == [] then iset{}
    else
      var r := rs[|rs| - 1];
      Said(r.rest) + if r.message.None? then iset{} else PendingAfter(rs[..|rs| - 1])
  }

  /** The messages that were received. */
  ghost function Messages(rs: seq<Reading>): set<Message> {
    if rs == [] then {}
    else
      var r := rs[|rs| - 1];
      Messages(rs[..|rs| - 1]) + if r.message.Some? then {r.message.value} else {}
  }

  ghost predicate IsSaid(ms: set<Message>, id: Id) {
    exists m :: m in ms && id in Said(m.structs)
  }

  ghost predicate IsAsked(ms: set<Message>, id: Id) {
    exists m :: m in ms && id in NamedBy(m.deletes)
  }

  /** The units the messages bring. */
  ghost function SaidBy(ms: set<Message>): iset<Id> {
    iset id: Id | IsSaid(ms, id)
  }

  /** The units the messages delete. */
  ghost function AskedBy(ms: set<Message>): iset<Id> {
    iset id: Id | IsAsked(ms, id)
  }

  /** One reading, after those in `before`. */
  ghost predicate Follows(h: History, before: seq<Reading>, r: Reading) {
    && Scheduler.WellFormed(r.input) && Integrated(StoreAfter(before), r.input, r.log, r.store, r.rest)
    && (if r.message.Some? then r.input == r.message.value.structs else Said(r.input) == PendingAfter(before))
    && CarriesAll(h, r.log, r.arrivals) && ApplyDeletes.Reads(h, DocumentAfter(before), r.arrivals, DeletesIn(r), r.document)
  }

  /** A replica that starts empty, receives messages and retries what is pending. */
  ghost predicate Run(h: History, rs: seq<Reading>) {
    rs == [] || (Run(h, rs[..|rs| - 1]) && Follows(h, rs[..|rs| - 1], rs[|rs| - 1]))
  }

  lemma {:induction false} OneMoreMessage(ms: set<Message>, m: Message)
    ensures SaidBy(ms + {m}) == SaidBy(ms) + Said(m.structs)
    ensures AskedBy(ms + {m}) == AskedBy(ms) + NamedBy(m.deletes)
  {
    forall id ensures id in SaidBy(ms + {m}) <==> id in SaidBy(ms) || id in Said(m.structs) {
      if id in Said(m.structs) { assert m in ms + {m}; }
      if n :| n in ms && id in Said(n.structs) { assert n in ms + {m}; }
    }
    forall id ensures id in AskedBy(ms + {m}) <==> id in AskedBy(ms) || id in NamedBy(m.deletes) {
      if id in NamedBy(m.deletes) { assert m in ms + {m}; }
      if n :| n in ms && id in NamedBy(n.deletes) { assert n in ms + {m}; }
    }
  }

  /** What was received is in the store or pending, and nothing else is. */
  lemma {:induction false} ReceivedIsKept(h: History, rs: seq<Reading>)
    requires Run(h, rs)
    ensures Below(StoreAfter(rs)) + PendingAfter(rs) == SaidBy(Messages(rs))
    decreases |rs|
  {
    if rs == [] {
      assert Below(map[]) == iset{} && SaidBy({}) == iset{};
    } else {
      var before, r := rs[..|rs| - 1], rs[|rs| - 1];
      ReceivedIsKept(h, before);
      NothingIsLost(StoreAfter(before), r.input, r.log, r.store, r.rest);
      Regrouped(Below(StoreAfter(before)), PendingAfter(before), Below(r.store), Said(r.rest), Said(r.input));
      if r.message.Some? { OneMoreMessage(Messages(before), r.message.value); } else { assert Messages(rs) == Messages(before); }
    }
  }

  lemma {:induction false} Regrouped(store: iset<Id>, pending: iset<Id>, store': iset<Id>, rest: iset<Id>, input: iset<Id>)
    requires store' + rest == store + input
    ensures store' + (rest + pending) == store + pending + input
    ensures input == pending ==> store' + (rest + iset{}) == store + pending
  {
    assert store' + (rest + pending) == (store' + rest) + pending;
    assert rest + iset{} == rest;
  }

  /** All through a run the document has exactly the units the scheduler integrated and knows
      exactly the deletes received, and the structs come as `ReadUpdate` demands. */
  lemma {:induction false} RunIsSettled(h: History, rs: seq<Reading>)
    requires GoodHistory(h) && Run(h, rs)
    ensures IsSettled(h, DocumentAfter(rs)) && Rooted(h, Below(StoreAfter(rs)))
    ensures There(DocumentAfter(rs).clients) == Below(StoreAfter(rs)) && DocumentAfter(rs).asked == AskedBy(Messages(rs))
    ensures rs != [] ==> Delivered(h, There(DocumentAfter(rs[..|rs| - 1]).clients), rs[|rs| - 1].arrivals)
    decreases |rs|
  {
    if rs == [] {
      EmptyIsSettled(h);
      assert Below(map[]) == iset{} && There(map[]) == iset{} && AskedBy({}) == iset{};
    } else {
      var before, r := rs[..|rs| - 1], rs[|rs| - 1];
      RunIsSettled(h, before);
      LogIsDelivered(h, StoreAfter(before), r.log, r.store, r.arrivals);
      AskedGrows(rs);
    }
  }

  lemma {:induction false} AskedGrows(rs: seq<Reading>)
    requires rs != []
    ensures AskedBy(Messages(rs)) == AskedBy(Messages(rs[..|rs| - 1])) + NamedBy(DeletesIn(rs[|rs| - 1]))
  {
    var before, r := rs[..|rs| - 1], rs[|rs| - 1];
    if r.message.Some? { OneMoreMessage(Messages(before), r.message.value); } else {
      assert Messages(rs) == Messages(before);
      assert NamedBy([]) == iset{};
    }
  }

  /** What arrives deleted arrives with the delete for it, or after it. */
  ghost predicate Announced(rs: seq<Reading>) {
    rs == [] || (Announced(rs[..|rs| - 1]) && BornTo(rs[|rs| - 1].arrivals, |rs[|rs| - 1].arrivals|) <= AskedBy(Messages(rs)))
  }

  lemma {:induction false} BornIsAsked(h: History, rs: seq<Reading>)
    requires Run(h, rs) && Announced(rs)
    ensures DocumentAfter(rs).born <= AskedBy(Messages(rs))
    decreases |rs|
  {
    if rs != [] {
      BornIsAsked(h, rs[..|rs| - 1]);
      AskedGrows(rs);
    }
  }

  /** Two replicas that have received the same messages, in whatever order, however often and
      with whatever retries, and have nothing pending that they do not have, hold the same
      document: every list has the same items in the same order, the same of them are deleted,
      and the same deletes wait. */
  lemma {:induction false} SameUpdatesSameDocument(h: History, rs: seq<Reading>, qs: seq<Reading>)
    requires GoodHistory(h) && Run(h, rs) && Run(h, qs) && Announced(rs) && Announced(qs) && Messages(rs) == Messages(qs)
    requires PendingAfter(rs) <= Below(StoreAfter(rs)) && PendingAfter(qs) <= Below(StoreAfter(qs))
    ensures var s, t := DocumentAfter(rs), DocumentAfter(qs);
            && (forall slot {:trigger ListOf(s.lists, slot)} :: ListOf(s.lists, slot) == ListOf(t.lists, slot))
            && Deleted(s.clients) == Deleted(t.clients) && DeletesOf(s.pending) == DeletesOf(t.pending)
  {
    var s, t := DocumentAfter(rs), DocumentAfter(qs);
    RunIsSettled(h, rs);
    RunIsSettled(h, qs);
    ReceivedIsKept(h, rs);
    ReceivedIsKept(h, qs);
    BornIsAsked(h, rs);
    BornIsAsked(h, qs);
    SameWhenAnnounced(s, t);
    ArrivalOrderIsIrrelevant(h, s, t);
  }

  lemma {:induction false} SameWhenAnnounced(s: Document, t: Document)
    requires There(s.clients) == There(t.clients) && s.asked == t.asked && s.born <= s.asked && t.born <= t.asked
    ensures SameReceived(s, t)
  {
    assert s.asked + s.born == s.asked && t.asked + t.born == t.asked;
  }
}

/** The structs of one client, in the order of their clocks. */
module PieceList {
  import opened Wrappers
  import opened Doom

  /** A struct of one client: an item of a slot, or a GC, which is always deleted. */
  datatype Piece = Piece(clock: nat, len: nat, deleted: bool, slot: Option<Slot>)

  function PieceEnd(p: Piece): nat {
    p.clock + p.len
  }

  predicate Adjoins(ps: seq<Piece>, k: nat)
    requires k + 1 < |ps|
  {
    PieceEnd(ps[k]) == ps[k + 1].clock
  }

  ghost predicate PieceOk(p: Piece) {
    p.len > 0 && (p.slot.None? ==> p.deleted) && (p.slot.Some? && p.slot.value.key.Some? ==> p.len == 1)
  }

  /** A client's structs cover its clocks from 0 without gap or overlap. */
  ghost predicate Contiguous(ps: seq<Piece>) {
    && (ps != [] ==> ps[0].clock == 0)
    && (forall k {:trigger PieceOk(ps[k])} :: 0 <= k < |ps| ==> PieceOk(ps[k]))
    && (forall k {:trigger Adjoins(ps, k)} :: 0 <= k < |ps| - 1 ==> Adjoins(ps, k))
  }

  function State(ps: seq<Piece>): nat {
    if ps == [] then 0 else PieceEnd(ps[|ps| - 1])
  }

  predicate Holds(p: Piece, x: nat) {
    p.clock <= x < PieceEnd(p)
  }

  /** The struct that holds clock `x` is deleted. */
  predicate Gone(ps: seq<Piece>, x: nat) {
    exists k :: 0 <= k < |ps| && Holds(ps[k], x) && ps[k].deleted
  }

  // ---------------------------------------------------------------- order of the clocks

  lemma {:induction false} InOrder(ps: seq<Piece>, i: nat, j: nat)
    requires Contiguous(ps) && i < j < |ps|
    ensures PieceEnd(ps[i]) <= ps[j].clock
    decreases j
  {
    assert Adjoins(ps, j - 1);
    if i < j - 1 {
      InOrder(ps, i, j - 1);
      assert PieceOk(ps[j - 1]);
    }
  }

  lemma {:induction false} NoGap(ps: seq<Piece>, k: nat)
    requires Contiguous(ps) && 0 < k < |ps|
    ensures PieceEnd(ps[k - 1]) == ps[k].clock
  {
    assert Adjoins(ps, k - 1);
  }

  // ---------------------------------------------------------------- lookup

  /** `binarySearch` over a whole list; interpolation only chooses the first pivot,
      which may be any index. */
  method FindStruct(ps: seq<Piece>, clock: nat, pivot: nat) returns (found: bool, index: nat)
    requires Contiguous(ps) && (ps != [] ==> pivot < |ps|)
    ensures found <==> clock < State(ps)
    ensures found ==> index < |ps| && Holds(ps[index], clock)
  {
    if ps == [] { return false, 0; }
    assert PieceOk(ps[|ps| - 1]);
    if ps[|ps| - 1].clock == clock { return true, |ps| - 1; }
    var left, right, mid := 0, |ps| - 1, pivot;
    while left <= right
      invariant 0 <= left <= right + 1 <= |ps|
      invariant left <= right ==> left <= mid <= right
      invariant left == 0 || PieceEnd(ps[left - 1]) <= clock
      invariant right == |ps| - 1 || clock < ps[right + 1].clock
      decreases right - left
    {
      if ps[mid].clock <= clock {
        if clock < PieceEnd(ps[mid]) {
          if mid < |ps| - 1 { InOrder(ps, mid, |ps| - 1); }
          return true, mid;
        }
        left := mid + 1;
      } else {
        right := mid - 1;
      }
      mid := (left + right) / 2;
    }
    if 0 < left < |ps| { NoGap(ps, left); }
    return false, 0;
  }

  // ---------------------------------------------------------------- splitting and deleting

  function SplitAt(ps: seq<Piece>, k: nat, at: nat): seq<Piece>
    requires k < |ps| && ps[k].clock < at < PieceEnd(ps[k])
  {
    var p := ps[k];
    ps[..k] + [p.(len := at - p.clock), p.(clock := at, len := PieceEnd(p) - at)] + ps[k + 1..]
  }

  lemma {:induction false} SplitKeeps(ps: seq<Piece>, k: nat, at: nat)
    requires Contiguous(ps) && k < |ps| && ps[k].clock < at < PieceEnd(ps[k])
    ensures Contiguous(SplitAt(ps, k, at)) && State(SplitAt(ps, k, at)) == State(ps)
    ensures forall x: nat {:trigger Gone(SplitAt(ps, k, at), x)} :: Gone(SplitAt(ps, k, at), x) <==> Gone(ps, x)
  {
    var qs := SplitAt(ps, k, at);
    forall i | 0 <= i < |qs| ensures PieceOk(qs[i]) {
      assert PieceOk(ps[if i <= k then i else i - 1]);
    }
    forall i | 0 <= i < |qs| - 1 ensures Adjoins(qs, i) {
      if i < k { assert Adjoins(ps, i); } else if i > k { assert Adjoins(ps, i - 1); }
    }
    forall x: nat ensures Gone(qs, x) <==> Gone(ps, x) {
      if Gone(qs, x) {
        var i :| 0 <= i < |qs| && Holds(qs[i], x) && qs[i].deleted;
        var o := if i <= k then i else i - 1;
        assert Holds(ps[o], x) && ps[o].deleted;
      }
      if Gone(ps, x) {
        var i :| 0 <= i < |ps| && Holds(ps[i], x) && ps[i].deleted;
        var o := if i < k || (i == k && x < at) then i else i + 1;
        assert Holds(qs[o], x) && qs[o].deleted;
      }
    }
  }

  function DeleteAt(ps: seq<Piece>, k: nat): seq<Piece>
    requires k < |ps|
  {
    ps[k := ps[k].(deleted := true)]
  }

  lemma {:induction false} DeleteKeeps(ps: seq<Piece>, k: nat)
    requires Contiguous(ps) && k < |ps|
    ensures Contiguous(DeleteAt(ps, k)) && State(DeleteAt(ps, k)) == State(ps)
    ensures forall x: nat {:trigger Gone(DeleteAt(ps, k), x)} :: Gone(DeleteAt(ps, k), x) <==> Gone(ps, x) || Holds(ps[k], x)
  {
    var qs := DeleteAt(ps, k);
    forall i | 0 <= i < |qs| ensures PieceOk(qs[i]) { assert PieceOk(ps[i]); }
    forall i | 0 <= i < |qs| - 1 ensures Adjoins(qs, i) { assert Adjoins(ps, i); }
    forall x: nat ensures Gone(qs, x) <==> Gone(ps, x) || Holds(ps[k], x) {
      if Gone(qs, x) {
        var i :| 0 <= i < |qs| && Holds(qs[i], x) && qs[i].deleted;
        assert Holds(ps[i], x);
      }
      if Gone(ps, x) {
        var i :| 0 <= i < |ps| && Holds(ps[i], x) && ps[i].deleted;
        assert Holds(qs[i], x) && qs[i].deleted;
      }
      if Holds(ps[k], x) { assert Holds(qs[k], x) && qs[k].deleted; }
    }
  }

  /** Every border of `qs` was one before, or is one of the two ends of the range. */
  ghost predicate Border(ps: seq<Piece>, x: nat) {
    exists k :: 0 <= k < |ps| && ps[k].clock == x
  }

  ghost predicate SplitOnlyAt(ps: seq<Piece>, qs: seq<Piece>, from: nat, to: nat) {
    forall x: nat {:trigger Border(qs, x)} :: Border(qs, x) ==> Border(ps, x) || x == from || x == to
  }

  lemma {:induction false} SplitBorders(ps: seq<Piece>, k: nat, at: nat)
    requires k < |ps| && ps[k].clock < at < PieceEnd(ps[k])
    ensures forall x: nat {:trigger Border(SplitAt(ps, k, at), x)} :: Border(SplitAt(ps, k, at), x) ==> Border(ps, x) || x == at
  {
    var qs := SplitAt(ps, k, at);
    forall x: nat | Border(qs, x) && x != at ensures Border(ps, x) {
      var i :| 0 <= i < |qs| && qs[i].clock == x;
      assert ps[if i <= k then i else i - 1].clock == x;
    }
  }

  // ---------------------------------------------------------------- where the structs belong

  function SlotOf(h: History, id: Id): Option<Slot> {
    if h.of(id).Some? then Some(h.of(id).value.slot) else None
  }

  ghost predicate Agrees(h: History, c: int, p: Piece) {
    forall x: nat {:trigger Holds(p, x)} :: Holds(p, x) ==> SlotOf(h, Id(c, x)) == p.slot
  }

  /** Each struct is of the slot its units belong to. */
  ghost predicate AllAgree(h: History, c: int, ps: seq<Piece>) {
    forall k {:trigger Agrees(h, c, ps[k])} :: 0 <= k < |ps| ==> Agrees(h, c, ps[k])
  }

  lemma {:induction false} SplitAgrees(h: History, c: int, ps: seq<Piece>, k: nat, at: nat)
    requires AllAgree(h, c, ps) && k < |ps| && ps[k].clock < at < PieceEnd(ps[k])
    ensures AllAgree(h, c, SplitAt(ps, k, at))
  {
    var qs := SplitAt(ps, k, at);
    forall i | 0 <= i < |qs| ensures Agrees(h, c, qs[i]) {
      var o := if i <= k then i else i - 1;
      assert Agrees(h, c, ps[o]);
      forall x: nat | Holds(qs[i], x) ensures SlotOf(h, Id(c, x)) == qs[i].slot { assert Holds(ps[o], x); }
    }
  }

  lemma {:induction false} Holder(ps: seq<Piece>, x: nat) returns (k: nat)
    requires Contiguous(ps) && x < State(ps)
    ensures k < |ps| && Holds(ps[k], x)
    decreases |ps|
  {
    k := |ps| - 1;
    if x < ps[k].clock {
      assert Adjoins(ps, k - 1);
      var front := ps[..k];
      forall i | 0 <= i < |front| ensures PieceOk(front[i]) { assert PieceOk(ps[i]); }
      forall i | 0 <= i < |front| - 1 ensures Adjoins(front, i) { assert Adjoins(ps, i); }
      k := Holder(front, x);
    }
  }

  lemma {:induction false} HeldIsBelow(ps: seq<Piece>, k: nat, x: nat)
    requires Contiguous(ps) && k < |ps| && Holds(ps[k], x)
    ensures x < State(ps)
  {
    if k < |ps| - 1 {
      InOrder(ps, k, |ps| - 1);
      assert PieceOk(ps[|ps| - 1]);
    }
  }
}

/** The structs of an update and what they say about each clock.  An update lists its
    structs by descending client; within a client each struct starts where the one
    before it ends, and a Skip stands for clocks the update says nothing about. */
module UpdateStructs {
  import opened Wrappers
  import ItemOrder
  import ConflictScan
  import Runs = RunList

  /** Content and parents are opaque here. */
  type Token = int

  datatype Struct =
    | Gc(client: int, clock: nat, length: nat)
    | Skip(client: int, clock: nat, length: nat)
    | Item(client: int, clock: nat, content: seq<Token>, origin: Option<Id>, rightOrigin: Option<Id>, parent: Token)

  /** What an update says about one clock. */
  datatype Unit =
    | Collected
    | Element(token: Token, origin: Option<Id>, rightOrigin: Option<Id>, parent: Token)

  function Len(s: Struct): nat {
    if s.Item? then |s.content| else s.length
  }

  function End(s: Struct): nat {
    s.clock + Len(s)
  }

  predicate Covers(s: Struct, c: int, x: nat) {
    s.client == c && s.clock <= x < End(s) && !s.Skip?
  }

  /** Inside an item each element has the one before it as its origin. */
  function UnitAt(s: Struct, x: nat): Unit
    requires Covers(s, s.client, x)
  {
    if s.Gc? then Collected
    else Element(s.content[x - s.clock], if x == s.clock then s.origin else Some(Id(s.client, x - 1)), s.rightOrigin, s.parent)
  }

  /** These are the units of the item as it is integrated: a run that starts with `first`. */
  lemma {:induction false} UnitIsRunUnit(s: Struct, first: ItemOrder.Item, x: nat)
    requires s.Item? && Covers(s, s.client, x) && first.client == s.client && first.clock == s.clock
    requires ConflictScan.IdOf(first.origin) == s.origin && ConflictScan.IdOf(first.rightOrigin) == s.rightOrigin
    ensures var u := Runs.Unit(first, x - s.clock);
            u.client == s.client && u.clock == x && UnitAt(s, x) == Element(s.content[x - s.clock], ConflictScan.IdOf(u.origin), ConflictScan.IdOf(u.rightOrigin), s.parent)
  {
  }

  /** `s` is the item `t`, or what is left of it when its front is cut off: then its origin is
      the unit just before it. */
  predicate IsEndOf(t: Struct, s: Struct) {
    && t.Item? && s.Item? && s.client == t.client && t.clock <= s.clock < End(t)
    && s.content == t.content[s.clock - t.clock..] && s.rightOrigin == t.rightOrigin && s.parent == t.parent
    && s.origin == if s.clock == t.clock then t.origin else Some(Id(s.client, s.clock - 1))
  }

  ghost predicate EndsIn(u: seq<Struct>, s: Struct) {
    exists k :: 0 <= k < |u| && IsEndOf(u[k], s)
  }

  predicate Covered(u: seq<Struct>, c: int, x: nat) {
    exists i :: 0 <= i < |u| && Covers(u[i], c, x)
  }

  predicate Says(u: seq<Struct>, c: int, x: nat, v: Unit) {
    exists i :: 0 <= i < |u| && Covers(u[i], c, x) && UnitAt(u[i], x) == v
  }

  // ---------------------------------------------------------------- well-formed updates

  predicate Continues(a: Struct, b: Struct) {
    (b.client == a.client && b.clock == End(a)) || b.client < a.client
  }

  predicate Tile(u: seq<Struct>, i: nat)
    requires i < |u|
  {
    Len(u[i]) > 0 && (i + 1 < |u| ==> Continues(u[i], u[i + 1]))
  }

  ghost predicate Tiled(u: seq<Struct>) {
    forall i {:trigger Tile(u, i)} :: 0 <= i < |u| ==> Tile(u, i)
  }

  /** The structs of a tiled update are in order. */
  predicate Ordered(a: Struct, b: Struct) {
    b.client < a.client || (b.client == a.client && End(a) <= b.clock)
  }

  lemma {:induction false} TiledOrdered(u: seq<Struct>, i: nat, j: nat)
    requires Tiled(u) && i < j < |u|
    ensures Ordered(u[i], u[j])
    decreases j
  {
    assert Tile(u, j - 1);
    if i < j - 1 { TiledOrdered(u, i, j - 1); }
  }

  lemma {:induction false} CoveredSays(u: seq<Struct>, c: int, x: nat)
    ensures Covered(u, c, x) <==> exists v :: Says(u, c, x, v)
  {
    if Covered(u, c, x) {
      var i :| 0 <= i < |u| && Covers(u[i], c, x);
      assert Says(u, c, x, UnitAt(u[i], x));
    }
  }

  /** The last struct's client goes no further than the last struct. */
  lemma {:induction false} LastIsLast(u: seq<Struct>, c: int, x: nat)
    requires Tiled(u) && u != [] && Covered(u, c, x)
    ensures u[|u| - 1].client <= c && (c == u[|u| - 1].client ==> x < End(u[|u| - 1]))
  {
    var i :| 0 <= i < |u| && Covers(u[i], c, x);
    if i < |u| - 1 { TiledOrdered(u, i, |u| - 1); }
  }

  // ---------------------------------------------------------------- slicing

  /** `sliceStruct`: drop the first `diff` clocks. */
  function Slice(s: Struct, diff: nat): Struct
    requires 0 < diff < Len(s)
  {
    match s
    case Gc(c, k, n) => Gc(c, k + diff, n - diff)
    case Skip(c, k, n) => Skip(c, k + diff, n - diff)
    case Item(c, k, content, _, ro, p) => Item(c, k + diff, content[diff..], Some(Id(c, k + diff - 1)), ro, p)
  }

  /** Slicing says the same about the clocks it keeps. */
  lemma {:induction false} SliceSays(s: Struct, diff: nat)
    requires 0 < diff < Len(s)
    ensures Slice(s, diff).client == s.client && Slice(s, diff).clock == s.clock + diff && End(Slice(s, diff)) == End(s)
    ensures Slice(s, diff).Skip? == s.Skip? && Slice(s, diff).Gc? == s.Gc? && (s.Item? ==> IsEndOf(s, Slice(s, diff)))
    ensures forall c, x: nat :: Covers(Slice(s, diff), c, x) <==> Covers(s, c, x) && x >= s.clock + diff
    ensures forall x: nat :: Covers(Slice(s, diff), s.client, x) ==> UnitAt(Slice(s, diff), x) == UnitAt(s, x)
  {
  }

  /** What is left of an item's end is an end of the item. */
  lemma {:induction false} SliceEnds(t: Struct, s: Struct, diff: nat)
    requires IsEndOf(t, s) && 0 < diff < Len(s)
    ensures IsEndOf(t, Slice(s, diff))
  {
  }

  // ---------------------------------------------------------------- adding at the end

  lemma {:induction false} AppendTiled(u: seq<Struct>, s: Struct)
    requires Tiled(u) && Len(s) > 0 && (u != [] ==> Continues(u[|u| - 1], s))
    ensures Tiled(u + [s])
  {
    forall i | 0 <= i < |u| + 1 ensures Tile(u + [s], i) {
      if i < |u| { assert Tile(u, i); }
    }
  }

  lemma {:induction false} AppendCovered(u: seq<Struct>, s: Struct, c: int, x: nat)
    ensures Covered(u + [s], c, x) <==> Covered(u, c, x) || Covers(s, c, x)
  {
    if Covered(u, c, x) {
      var i :| 0 <= i < |u| && Covers(u[i], c, x);
      assert Covers((u + [s])[i], c, x);
    }
    if Covers(s, c, x) { assert Covers((u + [s])[|u|], c, x); }
    if Covered(u + [s], c, x) && !Covers(s, c, x) {
      var i :| 0 <= i < |u| + 1 && Covers((u + [s])[i], c, x);
      assert Covers(u[i], c, x);
    }
  }

  lemma {:induction false} AppendSays(u: seq<Struct>, s: Struct, c: int, x: nat, v: Unit)
    ensures Says(u + [s], c, x, v) <==> Says(u, c, x, v) || (Covers(s, c, x) && UnitAt(s, x) == v)
  {
    if Says(u, c, x, v) {
      var i :| 0 <= i < |u| && Covers(u[i], c, x) && UnitAt(u[i], x) == v;
      assert Covers((u + [s])[i], c, x);
    }
    if Covers(s, c, x) && UnitAt(s, x) == v { assert Covers((u + [s])[|u|], c, x); }
    if Says(u + [s], c, x, v) && !(Covers(s, c, x) && UnitAt(s, x) == v) {
      var i :| 0 <= i < |u| + 1 && Covers((u + [s])[i], c, x) && UnitAt((u + [s])[i], x) == v;
      assert Covers(u[i], c, x);
    }
  }
}

/** `mergeUpdatesCore`: several updates are merged by always reading from the reader
    whose next struct comes first, dropping what is written already, slicing what is
    written in part, and filling gaps with Skips. */
module UpdateMerge {
  import opened Wrappers
  import opened UpdateStructs

  ghost predicate WellFormed(us: seq<seq<Struct>>) {
    forall r {:trigger us[r]} :: 0 <= r < |us| ==> Tiled(us[r])
  }

  predicate CoveredBy(us: seq<seq<Struct>>, c: int, x: nat) {
    exists r :: 0 <= r < |us| && Covered(us[r], c, x)
  }

  predicate SomeSays(us: seq<seq<Struct>>, c: int, x: nat, v: Unit) {
    exists r :: 0 <= r < |us| && Says(us[r], c, x, v)
  }

  // ---------------------------------------------------------------- the written structs

  /** The item stands in one of the updates, or is the end of an item that does. */
  ghost predicate Comes(us: seq<seq<Struct>>, s: Struct) {
    exists r {:trigger us[r]} :: 0 <= r < |us| && EndsIn(us[r], s)
  }

  /** Whatever `s` says, one of the updates says; an item is one of theirs, or the end of one. */
  ghost predicate Drawn(us: seq<seq<Struct>>, s: Struct) {
    && (s.Item? ==> Comes(us, s))
    && forall x: nat {:trigger Covers(s, s.client, x)} :: Covers(s, s.client, x) ==> SomeSays(us, s.client, x, UnitAt(s, x))
  }

  /** No update knows a clock of `s`. */
  ghost predicate Gap(us: seq<seq<Struct>>, s: Struct) {
    forall x: nat {:trigger CoveredBy(us, s.client, x)} :: s.clock <= x < End(s) ==> !CoveredBy(us, s.client, x)
  }

  /** A Skip stands in a gap between two structs of its client. */
  ghost predicate Placed(us: seq<seq<Struct>>, w: seq<Struct>, i: nat)
    requires i < |w|
  {
    if w[i].Skip? then
      && Gap(us, w[i]) && 0 < i < |w| - 1
      && w[i - 1].client == w[i].client == w[i + 1].client && !w[i - 1].Skip? && !w[i + 1].Skip?
    else
      Drawn(us, w[i])
  }

  ghost predicate Written(us: seq<seq<Struct>>, w: seq<Struct>) {
    Tiled(w) && forall i {:trigger Placed(us, w, i)} :: 0 <= i < |w| ==> Placed(us, w, i)
  }

  /** What merging `us` promises of its result. */
  ghost predicate Merged(us: seq<seq<Struct>>, w: seq<Struct>) {
    && Written(us, w)
    && forall c, x: nat {:trigger Covered(w, c, x)} :: Covered(w, c, x) <==> CoveredBy(us, c, x)
  }

  function Last(w: seq<Struct>): Struct
    requires w != []
  {
    w[|w| - 1]
  }

  lemma {:induction false} AppendWritten(us: seq<seq<Struct>>, w: seq<Struct>, s: Struct)
    requires Written(us, w) && Len(s) > 0 && !s.Skip? && Drawn(us, s) && (w != [] ==> Continues(Last(w), s))
    ensures Written(us, w + [s])
  {
    AppendTiled(w, s);
    forall i | 0 <= i < |w| + 1 ensures Placed(us, w + [s], i) {
      if i < |w| { assert Placed(us, w, i); }
    }
  }

  lemma {:induction false} AppendGapWritten(us: seq<seq<Struct>>, w: seq<Struct>, gap: Struct, s: Struct)
    requires Written(us, w) && w != [] && gap.Skip? && Len(gap) > 0 && Continues(Last(w), gap) && Last(w).client == gap.client == s.client
    requires Gap(us, gap) && Len(s) > 0 && !s.Skip? && Drawn(us, s) && Continues(gap, s)
    ensures Written(us, w + [gap] + [s])
  {
    AppendTiled(w, gap);
    AppendTiled(w + [gap], s);
    assert Placed(us, w, |w| - 1);
    forall i | 0 <= i < |w| + 2 ensures Placed(us, w + [gap] + [s], i) {
      if i < |w| { assert Placed(us, w, i); }
    }
  }

  /** A GC takes in the GC that follows it. */
  function Extended(w: seq<Struct>, s: Struct): seq<Struct>
    requires w != [] && Last(w).Gc? && s.Gc?
  {
    w[..|w| - 1] + [Last(w).(length := Last(w).length + s.length)]
  }

  lemma {:induction false} ExtendWritten(us: seq<seq<Struct>>, w: seq<Struct>, s: Struct)
    requires Written(us, w) && w != [] && Last(w).Gc? && s.Gc? && Drawn(us, s) && s.client == Last(w).client && s.clock == End(Last(w))
    ensures Written(us, Extended(w, s))
  {
    var v, a := Extended(w, s), Last(w);
    var b := Last(v);
    forall i | 0 <= i < |v| ensures Tile(v, i) { assert Tile(w, i); }
    assert Placed(us, w, |w| - 1);
    forall x: nat | Covers(b, b.client, x) ensures SomeSays(us, b.client, x, UnitAt(b, x)) {
      assert Covers(a, a.client, x) || Covers(s, s.client, x);
    }
    forall i | 0 <= i < |v| ensures Placed(us, v, i) { assert Placed(us, w, i); }
  }

  lemma {:induction false} ExtendCovered(w: seq<Struct>, s: Struct, c: int, x: nat)
    requires w != [] && Last(w).Gc? && s.Gc? && s.client == Last(w).client && s.clock == End(Last(w))
    ensures Covered(Extended(w, s), c, x) <==> Covered(w, c, x) || Covers(s, c, x)
  {
    var front := w[..|w| - 1];
    AppendCovered(front, Last(w), c, x);
    AppendCovered(front, Last(Extended(w, s)), c, x);
    assert front + [Last(w)] == w;
  }

  // ---------------------------------------------------------------- the readers

  /** A reader stands on a struct that is not a Skip, or at its end. */
  ghost predicate OnStruct(us: seq<seq<Struct>>, pos: seq<nat>, r: nat)
    requires r < |us| == |pos|
  {
    pos[r] <= |us[r]| && (pos[r] < |us[r]| ==> !us[r][pos[r]].Skip?)
  }

  ghost predicate Positions(us: seq<seq<Struct>>, pos: seq<nat>) {
    |pos| == |us| && forall r {:trigger OnStruct(us, pos, r)} :: 0 <= r < |us| ==> OnStruct(us, pos, r)
  }

  predicate More(us: seq<seq<Struct>>, pos: seq<nat>, r: nat) {
    r < |us| == |pos| && pos[r] < |us[r]|
  }

  function Head(us: seq<seq<Struct>>, pos: seq<nat>, r: nat): Struct
    requires More(us, pos, r)
  {
    us[r][pos[r]]
  }

  /** From `p` the reader goes to `q`, over Skips only. */
  ghost predicate Passes(u: seq<Struct>, p: nat, q: nat) {
    && p < q <= |u| && (q < |u| ==> !u[q].Skip?)
    && forall k :: p < k < q ==> u[k].Skip?
  }

  ghost predicate Swallowed(w: seq<Struct>, s: Struct) {
    forall x: nat {:trigger Covered(w, s.client, x)} :: Covers(s, s.client, x) ==> Covered(w, s.client, x)
  }

  ghost predicate DoneIn(u: seq<Struct>, p: nat, w: seq<Struct>) {
    p <= |u| && forall k {:trigger Swallowed(w, u[k])} :: 0 <= k < p ==> Swallowed(w, u[k])
  }

  /** Everything that has been read is written. */
  ghost predicate Done(us: seq<seq<Struct>>, pos: seq<nat>, w: seq<Struct>)
    requires |us| == |pos|
  {
    forall r {:trigger DoneIn(us[r], pos[r], w)} :: 0 <= r < |us| ==> DoneIn(us[r], pos[r], w)
  }

  ghost predicate HeadAhead(us: seq<seq<Struct>>, pos: seq<nat>, r: nat, s: Struct, base: nat) {
    More(us, pos, r) ==> Head(us, pos, r).client < s.client || (Head(us, pos, r).client == s.client && base <= Head(us, pos, r).clock)
  }

  /** No reader is behind `base` of the last client. */
  ghost predicate Ahead(us: seq<seq<Struct>>, pos: seq<nat>, s: Struct, base: nat) {
    forall r {:trigger HeadAhead(us, pos, r, s, base)} :: 0 <= r < |us| ==> HeadAhead(us, pos, r, s, base)
  }

  /** From `base` on the last client is written without a gap. */
  ghost predicate Solid(w: seq<Struct>, base: nat)
    requires w != []
  {
    forall x: nat {:trigger Covered(w, Last(w).client, x)} :: base <= x < End(Last(w)) ==> Covered(w, Last(w).client, x)
  }

  /** What holds between two rounds; `w` ends with the current write. */
  ghost predicate Good(us: seq<seq<Struct>>, pos: seq<nat>, w: seq<Struct>, base: nat) {
    && WellFormed(us) && Positions(us, pos) && w != []
    && Written(us, w) && !Last(w).Skip? && Done(us, pos, w) && Solid(w, base) && Ahead(us, pos, Last(w), base)
  }

  predicate Earlier(a: Struct, b: Struct) {
    b.client < a.client || (b.client == a.client && a.clock < b.clock)
  }

  ghost predicate NotBefore(us: seq<seq<Struct>>, pos: seq<nat>, r: nat, s: Struct) {
    More(us, pos, r) ==> !Earlier(Head(us, pos, r), s)
  }

  /** Reader `r` has the first of all heads. */
  ghost predicate Least(us: seq<seq<Struct>>, pos: seq<nat>, r: nat) {
    More(us, pos, r) && forall q {:trigger NotBefore(us, pos, q, Head(us, pos, r))} :: 0 <= q < |us| ==> NotBefore(us, pos, q, Head(us, pos, r))
  }

  // ---------------------------------------------------------------- the steps

  lemma {:induction false} HeadIsDrawn(us: seq<seq<Struct>>, r: nat, k: nat)
    requires r < |us| && k < |us[r]| && Len(us[r][k]) > 0
    ensures Drawn(us, us[r][k])
  {
    var s := us[r][k];
    if s.Item? { assert IsEndOf(us[r][k], s); }
    forall x: nat | Covers(s, s.client, x) ensures SomeSays(us, s.client, x, UnitAt(s, x)) {
      assert Says(us[r], s.client, x, UnitAt(s, x));
    }
  }

  lemma {:induction false} SliceIsDrawn(us: seq<seq<Struct>>, s: Struct, diff: nat)
    requires 0 < diff < Len(s) && Drawn(us, s)
    ensures Drawn(us, Slice(s, diff))
  {
    SliceSays(s, diff);
    var t := Slice(s, diff);
    if s.Item? {
      var r :| 0 <= r < |us| && EndsIn(us[r], s);
      var k :| 0 <= k < |us[r]| && IsEndOf(us[r][k], s);
      SliceEnds(us[r][k], s, diff);
      assert EndsIn(us[r], t);
    }
    forall x: nat | Covers(t, t.client, x) ensures SomeSays(us, t.client, x, UnitAt(t, x)) {
      assert Covers(s, s.client, x);
    }
  }

  /** Reading on: what was under the reader is written. */
  lemma {:induction false} Advance(us: seq<seq<Struct>>, pos: seq<nat>, r: nat, q: nat, w: seq<Struct>, base: nat)
    requires Good(us, pos, w, base) && More(us, pos, r) && Passes(us[r], pos[r], q) && Swallowed(w, Head(us, pos, r))
    ensures Good(us, pos[r := q], w, base)
  {
    var pos' := pos[r := q];
    forall i | 0 <= i < |us| ensures OnStruct(us, pos', i) { assert OnStruct(us, pos, i); }
    assert DoneIn(us[r], pos[r], w);
    forall i | 0 <= i < |us| ensures DoneIn(us[i], pos'[i], w) { assert DoneIn(us[i], pos[i], w); }
    forall i | 0 <= i < |us| ensures HeadAhead(us, pos', i, Last(w), base) {
      assert HeadAhead(us, pos, i, Last(w), base);
      if i == r && q < |us[r]| { TiledOrdered(us[r], pos[r], q); }
    }
  }

  /** A struct that ends within the current write is written already. */
  lemma {:induction false} WrittenAlready(us: seq<seq<Struct>>, pos: seq<nat>, r: nat, w: seq<Struct>, base: nat)
    requires Good(us, pos, w, base) && More(us, pos, r)
    requires End(Head(us, pos, r)) <= End(Last(w)) && Head(us, pos, r).client >= Last(w).client
    ensures Swallowed(w, Head(us, pos, r))
  {
    assert HeadAhead(us, pos, r, Last(w), base);
  }

  lemma {:induction false} MoreIsDone(us: seq<seq<Struct>>, pos: seq<nat>, w: seq<Struct>, w': seq<Struct>)
    requires |us| == |pos| && Done(us, pos, w) && forall c, x: nat {:trigger Covered(w', c, x)} :: Covered(w, c, x) ==> Covered(w', c, x)
    ensures Done(us, pos, w')
  {
    forall r | 0 <= r < |us| ensures DoneIn(us[r], pos[r], w') {
      assert DoneIn(us[r], pos[r], w);
      forall k | 0 <= k < pos[r] ensures Swallowed(w', us[r][k]) { assert Swallowed(w, us[r][k]); }
    }
  }

  /** The next struct of the same client, right behind the current write. */
  lemma {:induction false} WriteNext(us: seq<seq<Struct>>, pos: seq<nat>, w: seq<Struct>, base: nat, s: Struct)
    requires Good(us, pos, w, base) && Len(s) > 0 && !s.Skip? && Drawn(us, s)
    requires s.client == Last(w).client && s.clock == End(Last(w))
    ensures Good(us, pos, w + [s], base)
    ensures forall c, x: nat {:trigger Covered(w + [s], c, x)} :: Covered(w + [s], c, x) <==> Covered(w, c, x) || Covers(s, c, x)
  {
    AppendWritten(us, w, s);
    var w' := w + [s];
    forall c, x: nat ensures Covered(w', c, x) <==> Covered(w, c, x) || Covers(s, c, x) { AppendCovered(w, s, c, x); }
    MoreIsDone(us, pos, w, w');
    forall i | 0 <= i < |us| ensures HeadAhead(us, pos, i, s, base) { assert HeadAhead(us, pos, i, Last(w), base); }
  }

  /** A GC that extends the current write. */
  lemma {:induction false} WriteExtended(us: seq<seq<Struct>>, pos: seq<nat>, w: seq<Struct>, base: nat, s: Struct)
    requires Good(us, pos, w, base) && Drawn(us, s) && Last(w).Gc? && s.Gc?
    requires s.client == Last(w).client && s.clock == End(Last(w))
    ensures Good(us, pos, Extended(w, s), base)
  {
    ExtendWritten(us, w, s);
    var w' := Extended(w, s);
    forall c, x: nat ensures Covered(w', c, x) <==> Covered(w, c, x) || Covers(s, c, x) { ExtendCovered(w, s, c, x); }
    MoreIsDone(us, pos, w, w');
    forall i | 0 <= i < |us| ensures HeadAhead(us, pos, i, Last(w'), base) { assert HeadAhead(us, pos, i, Last(w), base); }
  }

  /** The first struct of the next client. */
  lemma {:induction false} WriteClient(us: seq<seq<Struct>>, pos: seq<nat>, w: seq<Struct>, base: nat, r: nat)
    requires Good(us, pos, w, base) && Least(us, pos, r) && Head(us, pos, r).client < Last(w).client
    ensures Good(us, pos, w + [Head(us, pos, r)], Head(us, pos, r).clock)
    ensures Swallowed(w + [Head(us, pos, r)], Head(us, pos, r))
  {
    var s := Head(us, pos, r);
    assert OnStruct(us, pos, r) && Tile(us[r], pos[r]);
    HeadIsDrawn(us, r, pos[r]);
    AppendWritten(us, w, s);
    var w' := w + [s];
    forall c, x: nat ensures Covered(w', c, x) <==> Covered(w, c, x) || Covers(s, c, x) { AppendCovered(w, s, c, x); }
    MoreIsDone(us, pos, w, w');
    forall i | 0 <= i < |us| ensures HeadAhead(us, pos, i, s, s.clock) { assert NotBefore(us, pos, i, s); }
  }

  /** Between the current write and the first head no update knows anything. */
  lemma {:induction false} GapIsUnknown(us: seq<seq<Struct>>, pos: seq<nat>, w: seq<Struct>, base: nat, r: nat, x: nat)
    requires Good(us, pos, w, base) && Least(us, pos, r) && Head(us, pos, r).client == Last(w).client
    requires End(Last(w)) <= x < Head(us, pos, r).clock
    ensures !CoveredBy(us, Last(w).client, x)
  {
    var c, s := Last(w).client, Head(us, pos, r);
    if CoveredBy(us, c, x) {
      var q :| 0 <= q < |us| && Covered(us[q], c, x);
      var k :| 0 <= k < |us[q]| && Covers(us[q][k], c, x);
      assert DoneIn(us[q], pos[q], w) && OnStruct(us, pos, q);
      if k < pos[q] {
        assert Swallowed(w, us[q][k]);
        LastIsLast(w, c, x);
      } else {
        assert NotBefore(us, pos, q, s);
        if pos[q] < k { TiledOrdered(us[q], pos[q], k); }
      }
    }
  }

  function GapBefore(s: Struct, from: nat): Struct
    requires from < s.clock
  {
    Skip(s.client, from, s.clock - from)
  }

  /** A gap is filled with a Skip, and the struct behind it follows. */
  lemma {:induction false} WriteGap(us: seq<seq<Struct>>, pos: seq<nat>, w: seq<Struct>, base: nat, r: nat)
    requires Good(us, pos, w, base) && Least(us, pos, r) && Head(us, pos, r).client == Last(w).client && End(Last(w)) < Head(us, pos, r).clock
    ensures var s := Head(us, pos, r);
            var w' := w + [GapBefore(s, End(Last(w)))] + [s];
            Good(us, pos, w', s.clock) && Swallowed(w', s)
  {
    var s := Head(us, pos, r);
    var gap := GapBefore(s, End(Last(w)));
    var w' := w + [gap] + [s];
    assert OnStruct(us, pos, r) && Tile(us[r], pos[r]);
    HeadIsDrawn(us, r, pos[r]);
    forall x: nat | gap.clock <= x < End(gap) ensures !CoveredBy(us, gap.client, x) { GapIsUnknown(us, pos, w, base, r, x); }
    AppendGapWritten(us, w, gap, s);
    forall c, x: nat ensures Covered(w', c, x) <==> Covered(w, c, x) || Covers(s, c, x) {
      AppendCovered(w, gap, c, x);
      AppendCovered(w + [gap], s, c, x);
    }
    MoreIsDone(us, pos, w, w');
    forall i | 0 <= i < |us| ensures HeadAhead(us, pos, i, s, s.clock) { assert NotBefore(us, pos, i, s); }
  }

  /** Nothing is written yet, and the readers have passed Skips only. */
  ghost predicate Fresh(us: seq<seq<Struct>>, pos: seq<nat>) {
    WellFormed(us) && Positions(us, pos) && Done(us, pos, [])
  }

  lemma {:induction false} WriteFirst(us: seq<seq<Struct>>, pos: seq<nat>, r: nat)
    requires Fresh(us, pos) && Least(us, pos, r)
    ensures Good(us, pos, [Head(us, pos, r)], Head(us, pos, r).clock)
    ensures Swallowed([Head(us, pos, r)], Head(us, pos, r))
  {
    var s := Head(us, pos, r);
    var w' := [] + [s];
    assert w' == [s];
    assert OnStruct(us, pos, r) && Tile(us[r], pos[r]);
    HeadIsDrawn(us, r, pos[r]);
    AppendWritten(us, [], s);
    forall c, x: nat ensures Covered(w', c, x) <==> Covered([], c, x) || Covers(s, c, x) { AppendCovered([], s, c, x); }
    MoreIsDone(us, pos, [], w');
    forall i | 0 <= i < |us| ensures HeadAhead(us, pos, i, s, s.clock) { assert NotBefore(us, pos, i, s); }
  }

  /** When all is read, the result is the merge. */
  lemma {:induction false} AllRead(us: seq<seq<Struct>>, pos: seq<nat>, w: seq<Struct>)
    requires |us| == |pos| && Written(us, w) && Done(us, pos, w) && forall r :: 0 <= r < |us| ==> pos[r] == |us[r]|
    ensures Merged(us, w)
  {
    forall c, x: nat ensures Covered(w, c, x) <==> CoveredBy(us, c, x) {
      if Covered(w, c, x) {
        var i :| 0 <= i < |w| && Covers(w[i], c, x);
        assert Placed(us, w, i) && SomeSays(us, c, x, UnitAt(w[i], x));
        var r :| 0 <= r < |us| && Says(us[r], c, x, UnitAt(w[i], x));
        CoveredSays(us[r], c, x);
      }
      if CoveredBy(us, c, x) {
        var r :| 0 <= r < |us| && Covered(us[r], c, x);
        var k :| 0 <= k < |us[r]| && Covers(us[r][k], c, x);
        assert DoneIn(us[r], pos[r], w) && Swallowed(w, us[r][k]);
      }
    }
  }

  // ---------------------------------------------------------------- the readers' methods

  /** `nextStruct`: on from `from`, over Skips. */
  method Seek(u: seq<Struct>, from: nat) returns (q: nat)
    requires from <= |u|
    ensures from <= q <= |u| && (q < |u| ==> !u[q].Skip?) && forall k :: from <= k < q ==> u[k].Skip?
  {
    q := from;
    while q < |u| && u[q].Skip?
      invariant from <= q <= |u| && forall k :: from <= k < q ==> u[k].Skip?
    {
      q := q + 1;
    }
  }

  datatype Entry = Entry(reader: nat, tie: int)

  /** The order of the heap. */
  predicate Less(us: seq<seq<Struct>>, pos: seq<nat>, a: Entry, b: Entry)
    requires More(us, pos, a.reader) && More(us, pos, b.reader)
  {
    var s, t := Head(us, pos, a.reader), Head(us, pos, b.reader);
    if s.client != t.client then s.client > t.client
    else if s.clock != t.clock then s.clock < t.clock
    else if s.Skip? != t.Skip? then !s.Skip?
    else a.tie < b.tie
  }

  ghost predicate Queued(queue: seq<Entry>, r: nat) {
    exists i :: 0 <= i < |queue| && queue[i].reader == r
  }

  /** The queue holds each reader that has more, except reader `out`, once. */
  ghost predicate QueueOk(us: seq<seq<Struct>>, pos: seq<nat>, queue: seq<Entry>, out: int) {
    && (forall i {:trigger queue[i]} :: 0 <= i < |queue| ==> More(us, pos, queue[i].reader) && queue[i].reader != out)
    && (forall i, j {:trigger queue[i].reader, queue[j].reader} :: 0 <= i < j < |queue| ==> queue[i].reader != queue[j].reader)
    && (forall r: nat {:trigger Queued(queue, r)} :: More(us, pos, r) && r != out ==> Queued(queue, r))
  }

  /** No two entries tie, and a tie of `next` comes before all of them. */
  ghost predicate Ties(queue: seq<Entry>, next: int) {
    && (forall i {:trigger queue[i]} :: 0 <= i < |queue| ==> next < queue[i].tie)
    && (forall i, j {:trigger queue[i].tie, queue[j].tie} :: 0 <= i < j < |queue| ==> queue[i].tie != queue[j].tie)
  }

  /** The ties are below `n`. */
  ghost predicate TiesBelow(queue: seq<Entry>, n: int) {
    forall i {:trigger queue[i]} :: 0 <= i < |queue| ==> queue[i].tie < n
  }

  lemma {:induction false} TieBehind(queue: seq<Entry>, n: nat, r: nat)
    requires Ties(queue, -1) && TiesBelow(queue, n)
    ensures Ties(queue + [Entry(r, n)], -1) && TiesBelow(queue + [Entry(r, n)], n + 1)
  {
  }

  function Without(queue: seq<Entry>, k: nat): seq<Entry>
    requires k < |queue|
  {
    queue[..k] + queue[k + 1..]
  }

  lemma {:induction false} TiesWithout(queue: seq<Entry>, k: nat, next: int)
    requires k < |queue| && Ties(queue, next)
    ensures Ties(Without(queue, k), next)
  {
    var rest := Without(queue, k);
    forall i, j | 0 <= i < j < |rest| ensures rest[i].tie != rest[j].tie {
      assert queue[if i < k then i else i + 1].tie != queue[if j < k then j else j + 1].tie;
    }
  }

  /** A larger client, or a smaller clock of the same one, or there not a Skip, or at last a smaller tie. */
  ghost predicate Foremost(us: seq<seq<Struct>>, pos: seq<nat>, e: Entry, d: Entry) {
    && More(us, pos, e.reader) && More(us, pos, d.reader)
    && var s, t := Head(us, pos, e.reader), Head(us, pos, d.reader);
       && s.client >= t.client && (s.client == t.client ==> s.clock <= t.clock)
       && (s.client == t.client && s.clock == t.clock ==> (s.Skip? ==> t.Skip?) && ((s.Skip? <==> t.Skip?) ==> e.tie < d.tie))
  }

  /** No entry is less than entry `k`, so it is less than all others. */
  lemma {:induction false} LessThanRest(us: seq<seq<Struct>>, pos: seq<nat>, queue: seq<Entry>, k: nat, next: int)
    requires k < |queue| && QueueOk(us, pos, queue, -1) && Ties(queue, next) && forall j :: 0 <= j < |queue| ==> !Less(us, pos, queue[j], queue[k])
    ensures forall d {:trigger d in Without(queue, k)} :: d in Without(queue, k) ==> Foremost(us, pos, queue[k], d)
  {
    var rest := Without(queue, k);
    forall d | d in rest ensures Foremost(us, pos, queue[k], d) {
      var i :| 0 <= i < |rest| && rest[i] == d;
      var j := if i < k then i else i + 1;
      assert queue[j] == d && !Less(us, pos, queue[j], queue[k]) && queue[j].tie != queue[k].tie;
    }
  }

  lemma {:induction false} RestIsOk(us: seq<seq<Struct>>, pos: seq<nat>, queue: seq<Entry>, k: nat)
    requires k < |queue| && QueueOk(us, pos, queue, -1) && forall j :: 0 <= j < |queue| ==> !Less(us, pos, queue[j], queue[k])
    ensures Least(us, pos, queue[k].reader) && QueueOk(us, pos, Without(queue, k), queue[k].reader)
  {
    var e, rest := queue[k], Without(queue, k);
    forall r: nat | More(us, pos, r) ensures NotBefore(us, pos, r, Head(us, pos, e.reader)) && (r != e.reader ==> Queued(rest, r)) {
      assert Queued(queue, r);
      var i :| 0 <= i < |queue| && queue[i].reader == r;
      assert !Less(us, pos, queue[i], e);
      if i < k { assert rest[i].reader == r; } else if i > k { assert rest[i - 1].reader == r; }
    }
  }

  /** Taking the least entry off the heap: the largest client, the smallest clock, rather
      not a Skip, and the smallest tie. */
  method Pop(us: seq<seq<Struct>>, pos: seq<nat>, queue: seq<Entry>, ghost next: int) returns (e: Entry, rest: seq<Entry>)
    requires queue != [] && QueueOk(us, pos, queue, -1) && Ties(queue, next)
    ensures Least(us, pos, e.reader) && QueueOk(us, pos, rest, e.reader) && Ties(rest, next)
    ensures forall d {:trigger d in rest} :: d in rest ==> Foremost(us, pos, e, d)
  {
    var best := 0;
    for i := 1 to |queue|
      invariant 0 <= best < |queue|
      invariant forall j :: 0 <= j < i ==> !Less(us, pos, queue[j], queue[best])
    {
      if Less(us, pos, queue[i], queue[best]) { best := i; }
    }
    e, rest := queue[best], Without(queue, best);
    RestIsOk(us, pos, queue, best);
    TiesWithout(queue, best, next);
    LessThanRest(us, pos, queue, best, next);
  }

  /** Putting a reader back, with a new tie break, if it has more. */
  method Requeue(us: seq<seq<Struct>>, pos: seq<nat>, queue: seq<Entry>, r: nat, nextTie: int) returns (queue': seq<Entry>, nextTie': int)
    requires r < |us| == |pos| && QueueOk(us, pos, queue, r) && Ties(queue, nextTie)
    ensures QueueOk(us, pos, queue', -1) && Ties(queue', nextTie')
    ensures More(us, pos, r) ==> exists e :: e in queue' && e.reader == r && forall d :: d in queue ==> e.tie < d.tie
  {
    queue', nextTie' := queue, nextTie;
    if pos[r] < |us[r]| {
      queue', nextTie' := queue + [Entry(r, nextTie)], nextTie - 1;
      assert queue'[|queue|] in queue';
    }
    forall q: nat | More(us, pos, q) ensures Queued(queue', q) {
      if q == r {
        assert queue'[|queue|].reader == r;
      } else {
        assert Queued(queue, q);
        var i :| 0 <= i < |queue| && queue[i].reader == q;
        assert queue'[i].reader == q;
      }
    }
  }

  // ---------------------------------------------------------------- termination

  function Left(us: seq<seq<Struct>>, pos: seq<nat>, n: nat): int
    requires n <= |us| == |pos|
  {
    if n == 0 then 0 else Left(us, pos, n - 1) + |us[n - 1]| - pos[n - 1]
  }

  lemma {:induction false} LeftAfter(us: seq<seq<Struct>>, pos: seq<nat>, r: nat, q: nat, n: nat)
    requires n <= |us| == |pos| && r < |us|
    ensures Left(us, pos[r := q], n) == Left(us, pos, n) - if r < n then q - pos[r] else 0
  {
    if n > 0 { LeftAfter(us, pos, r, q, n - 1); }
  }

  lemma {:induction false} LeftNat(us: seq<seq<Struct>>, pos: seq<nat>, n: nat)
    requires n <= |us| && Positions(us, pos)
    ensures Left(us, pos, n) >= 0
  {
    if n > 0 {
      LeftNat(us, pos, n - 1);
      assert OnStruct(us, pos, n - 1);
    }
  }

  predicate Within(s: Struct, w: Struct) {
    s.client == w.client && End(s) <= End(w)
  }

  /** The readers whose heads are not written yet. */
  ghost function Unwritten(us: seq<seq<Struct>>, pos: seq<nat>, w: Struct): set<nat> {
    set r: nat | r < |us| && More(us, pos, r) && !Within(Head(us, pos, r), w)
  }

  // ---------------------------------------------------------------- one round

  /** Read over what is written already. */
  method SkipWritten(us: seq<seq<Struct>>, pos: seq<nat>, r: nat, ghost w: seq<Struct>, ghost base: nat, curr: Struct) returns (pos': seq<nat>, iterated: bool)
    requires Good(us, pos, w, base) && curr == Last(w) && More(us, pos, r)
    ensures Good(us, pos', w, base) && Elsewhere(us, pos, pos', r)
    ensures if iterated then Left(us, pos', |us|) < Left(us, pos, |us|) && Head(us, pos, r).client == curr.client else pos' == pos
    ensures More(us, pos', r) ==> !(End(Head(us, pos', r)) <= End(curr) && Head(us, pos', r).client >= curr.client)
  {
    pos', iterated := pos, false;
    while pos'[r] < |us[r]| && End(us[r][pos'[r]]) <= End(curr) && us[r][pos'[r]].client >= curr.client
      invariant Good(us, pos', w, base) && Elsewhere(us, pos, pos', r)
      invariant if iterated then Left(us, pos', |us|) < Left(us, pos, |us|) && Head(us, pos, r).client == curr.client else pos' == pos
      decreases |us[r]| - pos'[r]
    {
      var q := Seek(us[r], pos'[r] + 1);
      WrittenAlready(us, pos', r, w, base);
      assert HeadAhead(us, pos', r, curr, base);
      Advance(us, pos', r, q, w, base);
      LeftAfter(us, pos', r, q, |us|);
      pos', iterated := pos'[r := q], true;
    }
    assert OnStruct(us, pos', r);
  }

  /** Only reader `r` has moved. */
  ghost predicate Elsewhere(us: seq<seq<Struct>>, pos: seq<nat>, pos': seq<nat>, r: nat) {
    |pos| == |pos'| == |us| && r < |us| && (forall i :: 0 <= i < |us| && i != r ==> pos'[i] == pos[i])
  }

  lemma {:induction false} QueueElsewhere(us: seq<seq<Struct>>, pos: seq<nat>, pos': seq<nat>, queue: seq<Entry>, r: nat)
    requires QueueOk(us, pos, queue, r) && Elsewhere(us, pos, pos', r)
    ensures QueueOk(us, pos', queue, r)
  {
    forall q: nat | More(us, pos', q) && q != r ensures Queued(queue, q) { assert More(us, pos, q); }
  }

  /** A Skip has been started before reader `r`'s next struct. */
  ghost predicate HalfGap(us: seq<seq<Struct>>, pos: seq<nat>, r: nat, out: seq<Struct>, curr: Struct, base: nat) {
    && Good(us, pos, out, base) && Least(us, pos, r) && Head(us, pos, r).client == Last(out).client
    && End(Last(out)) < Head(us, pos, r).clock && curr == GapBefore(Head(us, pos, r), End(Last(out)))
  }

  /** Write on from reader `r` as long as its structs follow without a gap. */
  method Follow(us: seq<seq<Struct>>, pos: seq<nat>, r: nat, out: seq<Struct>, curr: Struct, client: int, ghost base: nat)
    returns (pos': seq<nat>, out': seq<Struct>, curr': Struct, ghost base': nat)
    requires client == curr.client && r < |us|
    requires Good(us, pos, out + [curr], base) || HalfGap(us, pos, r, out, curr, base)
    ensures Good(us, pos', out' + [curr'], base') && Elsewhere(us, pos, pos', r)
    ensures (pos', curr') == (pos, curr) || Left(us, pos', |us|) < Left(us, pos, |us|)
    ensures HalfGap(us, pos, r, out, curr, base) ==> Left(us, pos', |us|) < Left(us, pos, |us|)
  {
    pos', out', curr', base' := pos, out, curr, base;
    ghost var half := HalfGap(us, pos, r, out, curr, base);
    while pos'[r] < |us[r]| && us[r][pos'[r]].client == client && us[r][pos'[r]].clock == End(curr') && !us[r][pos'[r]].Skip?
      invariant Elsewhere(us, pos, pos', r) && Positions(us, pos') && curr'.client == client
      invariant if half then pos' == pos && HalfGap(us, pos', r, out', curr', base') else Good(us, pos', out' + [curr'], base')
      invariant half ==> HalfGap(us, pos, r, out, curr, base)
      invariant half || !HalfGap(us, pos, r, out, curr, base) || Left(us, pos', |us|) < Left(us, pos, |us|)
      invariant (pos', curr') == (pos, curr) || Left(us, pos', |us|) < Left(us, pos, |us|)
      decreases |us[r]| - pos'[r]
    {
      var next := us[r][pos'[r]];
      if half {
        WriteGap(us, pos', out', base', r);
        base' := next.clock;
      } else {
        assert WellFormed(us) && Tile(us[r], pos'[r]);
        HeadIsDrawn(us, r, pos'[r]);
        WriteNext(us, pos', out' + [curr'], base', next);
        assert Swallowed(out' + [curr'] + [next], next);
      }
      out', curr', half := out' + [curr'], next, false;
      var q := Seek(us[r], pos'[r] + 1);
      Advance(us, pos', r, q, out' + [curr'], base');
      LeftAfter(us, pos', r, q, |us|);
      pos' := pos'[r := q];
    }
    assert OnStruct(us, pos', r);
    assert !half;
  }

  /** What is left of a struct behind the current write. */
  function Rest(s: Struct, from: nat): Struct
    requires s.clock <= from < End(s)
  {
    if s.clock == from then s else Slice(s, from - s.clock)
  }

  lemma {:induction false} RestIsDrawn(us: seq<seq<Struct>>, s: Struct, from: nat)
    requires Drawn(us, s) && s.clock <= from < End(s)
    ensures var t := Rest(s, from); Drawn(us, t) && t.client == s.client && t.clock == from && End(t) == End(s) && t.Skip? == s.Skip? && Len(t) > 0
    ensures forall x: nat {:trigger Covers(s, s.client, x)} :: Covers(s, s.client, x) && from <= x ==> Covers(Rest(s, from), s.client, x)
  {
    if s.clock < from {
      SliceSays(s, from - s.clock);
      SliceIsDrawn(us, s, from - s.clock);
    }
  }

  /** Reader `r`'s struct goes on where the current write ends, or overlaps it. */
  ghost predicate Overlaps(us: seq<seq<Struct>>, pos: seq<nat>, r: nat, curr: Struct) {
    More(us, pos, r) && Head(us, pos, r).client == curr.client && Head(us, pos, r).clock <= End(curr) < End(Head(us, pos, r))
  }

  lemma {:induction false} RestIsWritten(us: seq<seq<Struct>>, pos: seq<nat>, r: nat, w: seq<Struct>, base: nat)
    requires Good(us, pos, w, base) && Overlaps(us, pos, r, Last(w))
    ensures var t := Rest(Head(us, pos, r), End(Last(w)));
            Drawn(us, t) && Good(us, pos, w + [t], base) && Swallowed(w + [t], Head(us, pos, r))
  {
    var s := Head(us, pos, r);
    var t := Rest(s, End(Last(w)));
    assert OnStruct(us, pos, r) && HeadAhead(us, pos, r, Last(w), base);
    HeadIsDrawn(us, r, pos[r]);
    RestIsDrawn(us, s, End(Last(w)));
    WriteNext(us, pos, w, base, t);
  }

  /** The overlapping case: slice, then merge into the current write or write it. */
  method Overlap(us: seq<seq<Struct>>, pos: seq<nat>, r: nat, out: seq<Struct>, curr: Struct, ghost base: nat)
    returns (pos': seq<nat>, out': seq<Struct>, curr': Struct)
    requires Good(us, pos, out + [curr], base) && Overlaps(us, pos, r, curr)
    ensures Good(us, pos', out' + [curr'], base) && Elsewhere(us, pos, pos', r)
    ensures curr'.client == curr.client && End(curr') == End(Head(us, pos, r))
    ensures pos' == pos || Left(us, pos', |us|) < Left(us, pos, |us|)
  {
    ghost var w := out + [curr];
    var s := us[r][pos[r]];
    var diff := End(curr) - s.clock;
    if diff > 0 {
      s := Slice(s, diff);
    }
    assert s == Rest(Head(us, pos, r), End(curr));
    RestIsWritten(us, pos, r, w, base);
    RestIsDrawn(us, Head(us, pos, r), End(curr)) by { HeadIsDrawn(us, r, pos[r]); }
    if curr.Gc? && s.Gc? {
      WriteExtended(us, pos, w, base, s);
      pos', out', curr' := pos, out, curr.(length := curr.length + s.length);
      assert out' + [curr'] == Extended(w, s);
    } else {
      out', curr' := out + [curr], s;
      var q := Seek(us[r], pos[r] + 1);
      Advance(us, pos, r, q, out' + [curr'], base);
      LeftAfter(us, pos, r, q, |us|);
      pos' := pos[r := q];
    }
  }

  lemma {:induction false} UnwrittenShrinks(us: seq<seq<Struct>>, pos: seq<nat>, r: nat, curr: Struct, curr': Struct)
    requires Overlaps(us, pos, r, curr) && curr'.client == curr.client && End(curr') == End(Head(us, pos, r))
    ensures Unwritten(us, pos, curr') < Unwritten(us, pos, curr)
  {
    assert r in Unwritten(us, pos, curr) && r !in Unwritten(us, pos, curr');
  }

  /** One turn of the merge loop with reader `r`, once something has been written. */
  method Round(us: seq<seq<Struct>>, pos: seq<nat>, r: nat, out: seq<Struct>, curr: Struct, ghost base: nat)
    returns (pos': seq<nat>, out': seq<Struct>, curr': Struct, ghost base': nat)
    requires Good(us, pos, out + [curr], base) && Least(us, pos, r)
    ensures Good(us, pos', out' + [curr'], base') && Elsewhere(us, pos, pos', r)
    ensures Left(us, pos', |us|) < Left(us, pos, |us|) || (pos' == pos && Unwritten(us, pos', curr') < Unwritten(us, pos, curr))
  {
    ghost var w := out + [curr];
    var firstClient := us[r][pos[r]].client;
    assert HeadAhead(us, pos, r, curr, base);
    var iterated;
    pos', iterated := SkipWritten(us, pos, r, w, base, curr);
    out', curr', base' := out, curr, base;
    assert OnStruct(us, pos', r);
    // the reader is exhausted, or another reader may come first now
    if pos'[r] == |us[r]| || us[r][pos'[r]].client != firstClient || (iterated && us[r][pos'[r]].clock > End(curr)) {
      return;
    }
    var s := us[r][pos'[r]];
    if firstClient != curr.client {
      WriteClient(us, pos', w, base, r);
      out', curr', base' := out + [curr], s, s.clock;
      var q := Seek(us[r], pos'[r] + 1);
      Advance(us, pos', r, q, out' + [curr'], base');
      LeftAfter(us, pos', r, q, |us|);
      pos' := pos'[r := q];
    } else if End(curr) < s.clock {
      // the current write is never a Skip here, so a new one is started
      assert !curr.Skip?;
      out', curr' := out + [curr], Skip(firstClient, End(curr), s.clock - End(curr));
      assert HalfGap(us, pos', r, out', curr', base');
    } else {
      ghost var before := pos';
      pos', out', curr' := Overlap(us, pos', r, out, curr, base);
      UnwrittenShrinks(us, before, r, curr, curr');
    }
    pos', out', curr', base' := Follow(us, pos', r, out', curr', firstClient, base');
  }

  /** The first turn. */
  method FirstRound(us: seq<seq<Struct>>, pos: seq<nat>, r: nat)
    returns (pos': seq<nat>, out': seq<Struct>, curr': Struct, ghost base': nat)
    requires Fresh(us, pos) && Least(us, pos, r)
    ensures Good(us, pos', out' + [curr'], base') && Elsewhere(us, pos, pos', r)
    ensures Left(us, pos', |us|) < Left(us, pos, |us|)
  {
    out', curr' := [], us[r][pos[r]];
    base' := curr'.clock;
    WriteFirst(us, pos, r);
    assert out' + [curr'] == [curr'];
    var q := Seek(us[r], pos[r] + 1);
    Advance(us, pos, r, q, out' + [curr'], base');
    LeftAfter(us, pos, r, q, |us|);
    pos' := pos[r := q];
    pos', out', curr', base' := Follow(us, pos', r, out', curr', curr'.client, base');
  }

  lemma {:induction false} StillQueued(queue: seq<Entry>, e: Entry)
    ensures forall r: nat {:trigger Queued(queue + [e], r)} :: Queued(queue, r) || r == e.reader ==> Queued(queue + [e], r)
  {
    forall r: nat | Queued(queue, r) || r == e.reader ensures Queued(queue + [e], r) {
      if r == e.reader {
        assert (queue + [e])[|queue|].reader == r;
      } else {
        var k :| 0 <= k < |queue| && queue[k].reader == r;
        assert (queue + [e])[k].reader == r;
      }
    }
  }

  /** The queue of the readers that are open already. */
  ghost predicate Opened(us: seq<seq<Struct>>, pos: seq<nat>, queue: seq<Entry>) {
    && |pos| <= |us| && Ties(queue, -1) && TiesBelow(queue, |pos|)
    && (forall k {:trigger queue[k]} :: 0 <= k < |queue| ==> queue[k].reader < |pos| && pos[queue[k].reader] < |us[queue[k].reader]|)
    && (forall k, l {:trigger queue[k].reader, queue[l].reader} :: 0 <= k < l < |queue| ==> queue[k].reader != queue[l].reader)
    && (forall r: nat {:trigger Queued(queue, r)} :: r < |pos| && pos[r] < |us[r]| ==> Queued(queue, r))
  }

  lemma {:induction false} OpenNext(us: seq<seq<Struct>>, pos: seq<nat>, queue: seq<Entry>, q: nat)
    requires Opened(us, pos, queue) && |pos| < |us|
    ensures Opened(us, pos + [q], if q < |us[|pos|]| then queue + [Entry(|pos|, |pos|)] else queue)
  {
    if q < |us[|pos|]| {
      TieBehind(queue, |pos|, |pos|);
      StillQueued(queue, Entry(|pos|, |pos|));
    }
  }

  /** The reader stands on its first struct that is not a Skip. */
  ghost predicate Sought(u: seq<Struct>, p: nat) {
    p <= |u| && (p < |u| ==> !u[p].Skip?) && DoneIn(u, p, [])
  }

  ghost predicate AllSought(us: seq<seq<Struct>>, pos: seq<nat>) {
    |pos| <= |us| && forall r {:trigger Sought(us[r], pos[r])} :: 0 <= r < |pos| ==> Sought(us[r], pos[r])
  }

  lemma {:induction false} SoughtNext(us: seq<seq<Struct>>, pos: seq<nat>, q: nat)
    requires AllSought(us, pos) && |pos| < |us| && Sought(us[|pos|], q)
    ensures AllSought(us, pos + [q])
  {
    forall r | 0 <= r <= |pos| ensures Sought(us[r], (pos + [q])[r]) { if r < |pos| { assert Sought(us[r], pos[r]); } }
  }

  lemma {:induction false} AllOpen(us: seq<seq<Struct>>, pos: seq<nat>, queue: seq<Entry>)
    requires WellFormed(us) && |pos| == |us| && AllSought(us, pos) && Opened(us, pos, queue)
    ensures Fresh(us, pos) && QueueOk(us, pos, queue, -1)
  {
    forall r | 0 <= r < |us| ensures Sought(us[r], pos[r]) { }
  }

  /** The readers before the first turn. */
  method Open(us: seq<seq<Struct>>) returns (pos: seq<nat>, queue: seq<Entry>)
    requires WellFormed(us)
    ensures Fresh(us, pos) && QueueOk(us, pos, queue, -1) && Ties(queue, -1)
  {
    pos, queue := [], [];
    for i := 0 to |us|
      invariant |pos| == i && Opened(us, pos, queue) && AllSought(us, pos)
    {
      var q := Seek(us[i], 0);
      OpenNext(us, pos, queue, q);
      SoughtNext(us, pos, q);
      pos := pos + [q];
      if q < |us[i]| {
        queue := queue + [Entry(i, i)];
      }
    }
    AllOpen(us, pos, queue);
  }

  /** `mergeUpdatesCore`: the merged update says about every clock what one of the
      updates says, and covers exactly their union. */
  method MergeUpdates(us: seq<seq<Struct>>) returns (out: seq<Struct>)
    requires WellFormed(us)
    ensures Merged(us, out)
    ensures forall i :: 0 <= i < |out| && out[i].Item? ==> Comes(us, out[i])
  {
    var pos, queue := Open(us);
    var currWrite: Option<Struct> := None;
    var nextTie := -1;
    ghost var base := 0;
    out := [];
    LeftNat(us, pos, |us|);
    while queue != []
      invariant QueueOk(us, pos, queue, -1) && Ties(queue, nextTie) && Positions(us, pos)
      invariant if currWrite.Some? then Good(us, pos, out + [currWrite.value], base) else out == [] && Fresh(us, pos)
      invariant Left(us, pos, |us|) >= 0
      decreases Left(us, pos, |us|), if currWrite.Some? then Unwritten(us, pos, currWrite.value) else {}
    {
      var entry;
      entry, queue := Pop(us, pos, queue, nextTie);
      ghost var before := pos;
      var curr;
      if currWrite.Some? {
        pos, out, curr, base := Round(us, pos, entry.reader, out, currWrite.value, base);
      } else {
        pos, out, curr, base := FirstRound(us, pos, entry.reader);
      }
      currWrite := Some(curr);
      QueueElsewhere(us, before, pos, queue, entry.reader);
      queue, nextTie := Requeue(us, pos, queue, entry.reader, nextTie);
      LeftNat(us, pos, |us|);
    }
    if currWrite.Some? {
      out := out + [currWrite.value];
    }
    forall r | 0 <= r < |us| ensures pos[r] == |us[r]| {
      assert OnStruct(us, pos, r);
      assert More(us, pos, r) ==> Queued(queue, r);
    }
    AllRead(us, pos, out);
    forall i | 0 <= i < |out| && out[i].Item? ensures Comes(us, out[i]) { assert Placed(us, out, i); }
  }

  // ---------------------------------------------------------------- the algebra of merging

  /** The updates come from one history: they do not contradict each other. */
  ghost predicate Agree(us: seq<seq<Struct>>) {
    forall c, x: nat, v, w {:trigger SomeSays(us, c, x, v), SomeSays(us, c, x, w)} :: SomeSays(us, c, x, v) && SomeSays(us, c, x, w) ==> v == w
  }

  /** The merge of agreeing updates says exactly what they say together. */
  lemma {:induction false} MergeIsUnion(us: seq<seq<Struct>>, m: seq<Struct>, c: int, x: nat, v: Unit)
    requires Merged(us, m) && Agree(us)
    ensures Says(m, c, x, v) <==> SomeSays(us, c, x, v)
  {
    if Says(m, c, x, v) {
      var i :| 0 <= i < |m| && Covers(m[i], c, x) && UnitAt(m[i], x) == v;
      assert Placed(us, m, i);
    }
    if SomeSays(us, c, x, v) {
      var r :| 0 <= r < |us| && Says(us[r], c, x, v);
      CoveredSays(us[r], c, x);
      assert Covered(m, c, x);
      var i :| 0 <= i < |m| && Covers(m[i], c, x);
      assert Placed(us, m, i) && SomeSays(us, c, x, UnitAt(m[i], x));
    }
  }

  ghost predicate SameMeaning(a: seq<Struct>, b: seq<Struct>) {
    forall c, x: nat, v {:trigger Says(a, c, x, v)} {:trigger Says(b, c, x, v)} :: Says(a, c, x, v) <==> Says(b, c, x, v)
  }

  /** Neither the order of the updates nor repeating one matters. */
  lemma {:induction false} MergeOrderIsIrrelevant(us: seq<seq<Struct>>, vs: seq<seq<Struct>>, a: seq<Struct>, b: seq<Struct>)
    requires Merged(us, a) && Merged(vs, b) && Agree(us)
    requires (forall r :: 0 <= r < |us| ==> us[r] in vs) && (forall r :: 0 <= r < |vs| ==> vs[r] in us)
    ensures SameMeaning(a, b)
  {
    forall c, x: nat, v ensures SomeSays(us, c, x, v) <==> SomeSays(vs, c, x, v) {
      if SomeSays(us, c, x, v) {
        var r :| 0 <= r < |us| && Says(us[r], c, x, v);
        assert us[r] in vs;
      }
      if SomeSays(vs, c, x, v) {
        var r :| 0 <= r < |vs| && Says(vs[r], c, x, v);
        assert vs[r] in us;
      }
    }
    assert Agree(vs);
    forall c, x: nat, v ensures Says(a, c, x, v) <==> Says(b, c, x, v) {
      MergeIsUnion(us, a, c, x, v);
      MergeIsUnion(vs, b, c, x, v);
    }
  }

  lemma {:induction false} SomeSaysConcat(us: seq<seq<Struct>>, vs: seq<seq<Struct>>, c: int, x: nat, v: Unit)
    ensures SomeSays(us + vs, c, x, v) <==> SomeSays(us, c, x, v) || SomeSays(vs, c, x, v)
  {
    if SomeSays(us, c, x, v) {
      var r :| 0 <= r < |us| && Says(us[r], c, x, v);
      assert Says((us + vs)[r], c, x, v);
    }
    if SomeSays(vs, c, x, v) {
      var r :| 0 <= r < |vs| && Says(vs[r], c, x, v);
      assert Says((us + vs)[|us| + r], c, x, v);
    }
    if SomeSays(us + vs, c, x, v) {
      var r :| 0 <= r < |us + vs| && Says((us + vs)[r], c, x, v);
      assert if r < |us| then Says(us[r], c, x, v) else Says(vs[r - |us|], c, x, v);
    }
  }

  /** Merging in steps gives what merging at once gives. */
  lemma {:induction false} MergeInSteps(us: seq<seq<Struct>>, vs: seq<seq<Struct>>, part: seq<Struct>, a: seq<Struct>, b: seq<Struct>)
    requires Agree(us + vs) && Merged(us, part) && Merged([part] + vs, a) && Merged(us + vs, b)
    ensures SameMeaning(a, b)
  {
    forall c, x: nat, v ensures SomeSays([part] + vs, c, x, v) <==> SomeSays(us + vs, c, x, v) {
      SomeSaysConcat([part], vs, c, x, v);
      SomeSaysConcat(us, vs, c, x, v);
      assert Agree(us) by {
        forall c, x: nat, v, w | SomeSays(us, c, x, v) && SomeSays(us, c, x, w) ensures v == w {
          SomeSaysConcat(us, vs, c, x, v);
          SomeSaysConcat(us, vs, c, x, w);
        }
      }
      MergeIsUnion(us, part, c, x, v);
      assert SomeSays([part], c, x, v) <==> Says(part, c, x, v) by { assert [part][0] == part; }
    }
    assert Agree([part] + vs);
    forall c, x: nat, v ensures Says(a, c, x, v) <==> Says(b, c, x, v) {
      MergeIsUnion([part] + vs, a, c, x, v);
      MergeIsUnion(us + vs, b, c, x, v);
    }
  }
}

/** `diffUpdateWith` and `encodeStateVectorFromUpdateWith`: the part of an update that a
    state vector does not know, and the state vector of an update. */
module UpdateDiff {
  import opened UpdateStructs
  import opened UpdateMerge

  type StateVector = map<int, nat>

  function Known(sv: StateVector, c: int): nat {
    if c in sv then sv[c] else 0
  }

  // ---------------------------------------------------------------- diff

  /** A struct written from `offset` on. */
  function FromOffset(s: Struct, offset: nat): Struct
    requires offset < Len(s)
  {
    if offset == 0 then s else Slice(s, offset)
  }

  /** The first struct of each client is not a Skip. */
  predicate Starts(d: seq<Struct>, i: nat)
    requires i < |d|
  {
    d[i].Skip? ==> i > 0 && d[i - 1].client == d[i].client
  }

  ghost predicate NoLeadingSkip(d: seq<Struct>) {
    forall i {:trigger Starts(d, i)} :: 0 <= i < |d| ==> Starts(d, i)
  }

  /** `d` says what the structs of `u` say from `sv` on. */
  ghost predicate Above(d: seq<Struct>, u: seq<Struct>, sv: StateVector) {
    forall c, x: nat, v {:trigger Says(d, c, x, v)} :: Says(d, c, x, v) <==> Says(u, c, x, v) && x >= Known(sv, c)
  }

  ghost predicate ItemEnds(d: seq<Struct>, u: seq<Struct>, i: nat)
    requires i < |d|
  {
    d[i].Item? ==> EndsIn(u, d[i])
  }

  /** Every item is one of the update, or the end of one. */
  ghost predicate AllEnds(d: seq<Struct>, u: seq<Struct>) {
    forall i {:trigger ItemEnds(d, u, i)} :: 0 <= i < |d| ==> ItemEnds(d, u, i)
  }

  lemma {:induction false} EndsInMore(d: seq<Struct>, u: seq<Struct>, n: nat)
    requires n < |u| && AllEnds(d, u[..n])
    ensures AllEnds(d, u[..n + 1])
  {
    var v := u[..n + 1];
    forall i | 0 <= i < |d| ensures ItemEnds(d, v, i) {
      assert ItemEnds(d, u[..n], i);
      if d[i].Item? {
        var k :| 0 <= k < n && IsEndOf(u[..n][k], d[i]);
        assert IsEndOf(v[k], d[i]);
      }
    }
  }

  ghost predicate DiffSoFar(d: seq<Struct>, u: seq<Struct>, sv: StateVector) {
    Tiled(d) && NoLeadingSkip(d) && Above(d, u, sv) && AllEnds(d, u)
  }

  /** A struct that is known already adds nothing. */
  lemma {:induction false} KnownAdds(d: seq<Struct>, u: seq<Struct>, sv: StateVector, n: nat)
    requires n < |u| && DiffSoFar(d, u[..n], sv) && (u[n].Skip? || End(u[n]) <= Known(sv, u[n].client))
    ensures DiffSoFar(d, u[..n + 1], sv)
  {
    EndsInMore(d, u, n);
    forall c, x: nat, v ensures Says(d, c, x, v) <==> Says(u[..n + 1], c, x, v) && x >= Known(sv, c) {
      assert u[..n + 1] == u[..n] + [u[n]];
      AppendSays(u[..n], u[n], c, x, v);
    }
  }

  lemma {:induction false} AddedEnds(d: seq<Struct>, u: seq<Struct>, n: nat, offset: nat)
    requires n < |u| && AllEnds(d, u[..n + 1]) && offset < Len(u[n])
    ensures AllEnds(d + [FromOffset(u[n], offset)], u[..n + 1])
  {
    var t, v := FromOffset(u[n], offset), u[..n + 1];
    forall i | 0 <= i < |d| + 1 ensures ItemEnds(d + [t], v, i) {
      if i < |d| {
        assert ItemEnds(d, v, i);
      } else if t.Item? {
        assert IsEndOf(u[n], u[n]);
        if offset > 0 { SliceEnds(u[n], u[n], offset); }
        assert IsEndOf(v[n], t);
      }
    }
  }

  /** A struct that is written from `offset` on. */
  lemma {:induction false} WrittenAdds(d: seq<Struct>, u: seq<Struct>, sv: StateVector, n: nat, offset: nat)
    requires n < |u| && DiffSoFar(d, u[..n], sv) && offset < Len(u[n])
    requires offset == if Known(sv, u[n].client) > u[n].clock then Known(sv, u[n].client) - u[n].clock else 0
    requires d != [] ==> Continues(Last(d), FromOffset(u[n], offset))
    requires u[n].Skip? ==> d != [] && Last(d).client == u[n].client
    ensures DiffSoFar(d + [FromOffset(u[n], offset)], u[..n + 1], sv)
  {
    var s, t := u[n], FromOffset(u[n], offset);
    if offset > 0 { SliceSays(s, offset); }
    EndsInMore(d, u, n);
    AddedEnds(d, u, n, offset);
    AppendTiled(d, t);
    forall i | 0 <= i < |d| + 1 ensures Starts(d + [t], i) { if i < |d| { assert Starts(d, i); } }
    forall c, x: nat, v ensures Says(d + [t], c, x, v) <==> Says(u[..n + 1], c, x, v) && x >= Known(sv, c) {
      assert u[..n + 1] == u[..n] + [s];
      AppendSays(u[..n], s, c, x, v);
      AppendSays(d, t, c, x, v);
    }
  }

  /** Nothing written so far is of a client below `c`'s. */
  predicate ClientsAbove(d: seq<Struct>, c: int) {
    d != [] ==> Last(d).client > c
  }

  /** `diffUpdateWith`: exactly what `u` says from the state vector on. */
  method Diff(u: seq<Struct>, sv: StateVector) returns (d: seq<Struct>)
    requires Tiled(u)
    ensures DiffSoFar(d, u, sv)
    ensures forall i :: 0 <= i < |d| && d[i].Item? ==> EndsIn(u, d[i])
  {
    d := [];
    var n := 0;
    while n < |u|
      invariant 0 <= n <= |u| && DiffSoFar(d, u[..n], sv)
      invariant n < |u| ==> ClientsAbove(d, u[n].client)
    {
      var curr := u[n];
      var known := Known(sv, curr.client);
      assert Tile(u, n);
      if curr.Skip? {
        KnownAdds(d, u, sv, n);
        n := n + 1;
        continue;
      }
      if End(curr) > known {
        var offset := if known > curr.clock then known - curr.clock else 0;
        if offset > 0 { SliceSays(curr, offset); }
        WrittenAdds(d, u, sv, n, offset);
        d, n := d + [FromOffset(curr, offset)], n + 1;
        while n < |u| && u[n].client == curr.client
          invariant 0 < n <= |u| && DiffSoFar(d, u[..n], sv) && d != [] && known < End(u[n - 1]) == End(Last(d))
          invariant Last(d).client == u[n - 1].client == curr.client
        {
          assert Tile(u, n - 1);
          assert Tile(u, n);
          WrittenAdds(d, u, sv, n, 0);
          d, n := d + [u[n]], n + 1;
        }
        assert Tile(u, n - 1);
      } else {
        while n < |u| && u[n].client == curr.client && End(u[n]) <= known
          invariant 0 <= n <= |u| && DiffSoFar(d, u[..n], sv) && ClientsAbove(d, curr.client)
          invariant n < |u| ==> u[n].client <= curr.client && (u[n] == curr || n > 0)
          decreases |u| - n
        {
          assert Tile(u, n);
          KnownAdds(d, u, sv, n);
          n := n + 1;
        }
      }
    }
    assert u[..|u|] == u;
    forall i | 0 <= i < |d| && d[i].Item? ensures EndsIn(u, d[i]) { assert ItemEnds(d, u, i); }
  }

  // ---------------------------------------------------------------- state vectors

  /** The clocks below `n`, and not `n` itself: the longest gap-free prefix. */
  ghost predicate IsPrefix(u: seq<Struct>, c: int, n: nat) {
    (forall x: nat {:trigger Covered(u, c, x)} :: x < n ==> Covered(u, c, x)) && !Covered(u, c, n)
  }

  lemma {:induction false} PrefixUnique(u: seq<Struct>, c: int, m: nat, n: nat)
    ensures IsPrefix(u, c, m) && IsPrefix(u, c, n) ==> m == n
  {
    assert Covered(u, c, m) ==> m < n || m >= n;
  }

  ghost predicate RightAt(u: seq<Struct>, sv: StateVector, c: int) {
    IsPrefix(u, c, Known(sv, c)) && (c in sv ==> sv[c] > 0)
  }

  /** `sv` gives each client's longest gap-free prefix. */
  ghost predicate Right(u: seq<Struct>, sv: StateVector) {
    forall c {:trigger RightAt(u, sv, c)} :: RightAt(u, sv, c)
  }

  /** The update begins with a Skip of clock 0. */
  predicate LeadingSkip(u: seq<Struct>) {
    u != [] && u[0].Skip? && u[0].clock == 0
  }

  /** Where a clock of an update can be, seen from its struct `i`. */
  lemma {:induction false} Where(u: seq<Struct>, i: nat, c: int, x: nat)
    requires Tiled(u) && i < |u| && Covered(u, c, x)
    ensures Covers(u[i], c, x)
         || (i > 0 && (c > u[i - 1].client || (c == u[i - 1].client && x < End(u[i - 1]))))
         || c < u[i].client || (c == u[i].client && x >= End(u[i]))
    ensures i == 0 ==> c < u[i].client || (c == u[i].client && x >= u[i].clock)
  {
    var k :| 0 <= k < |u| && Covers(u[k], c, x);
    if k < i - 1 { TiledOrdered(u, k, i - 1); }
    if k > i { TiledOrdered(u, i, k); }
  }

  /** What is known of the client being counted, when `i` structs have been read. */
  ghost predicate Counted(u: seq<Struct>, i: nat, client: int, clock: nat, stop: bool)
    requires 0 < i <= |u|
  {
    && client == u[i - 1].client
    && (forall x: nat {:trigger Covered(u, client, x)} :: x < clock ==> Covered(u, client, x))
    && (if stop then !Covered(u, client, clock) else clock == End(u[i - 1]))
  }

  /** The clients above `client` are finished; a leading Skip spoils the first. */
  ghost predicate Finished(u: seq<Struct>, sv: StateVector, client: int) {
    && (forall c {:trigger RightAt(u, sv, c)} :: c > client && !(LeadingSkip(u) && c == u[0].client) ==> RightAt(u, sv, c))
    && (forall c :: c in sv ==> c > client)
    && (LeadingSkip(u) && u[0].client > client ==> u[0].client in sv && sv[u[0].client] == End(u[0]))
  }

  /** One more struct of the client that is being counted. */
  lemma {:induction false} CountSame(u: seq<Struct>, i: nat, client: int, clock: nat, stop: bool)
    requires Tiled(u) && 0 < i < |u| && u[i].client == client && Counted(u, i, client, clock, stop)
    ensures if stop then Counted(u, i + 1, client, clock, true)
            else if u[i].Skip? then Counted(u, i + 1, client, clock, true)
            else Counted(u, i + 1, client, End(u[i]), false)
  {
    assert Tile(u, i - 1) && Tile(u, i);
    if !stop && u[i].Skip? && Covered(u, client, clock) {
      Where(u, i, client, clock);
    }
    if !stop && !u[i].Skip? {
      forall x: nat | x < End(u[i]) ensures Covered(u, client, x) {
        assert x >= clock ==> Covers(u[i], client, x);
      }
    }
  }

  /** The first struct of a client. */
  lemma {:induction false} CountFirst(u: seq<Struct>, i: nat)
    requires Tiled(u) && i < |u| && (i > 0 ==> u[i].client < u[i - 1].client)
    ensures if u[i].clock != 0 || u[i].Skip? then Counted(u, i + 1, u[i].client, 0, true)
            else Counted(u, i + 1, u[i].client, End(u[i]), false)
  {
    assert Tile(u, i);
    if (u[i].clock != 0 || u[i].Skip?) && Covered(u, u[i].client, 0) {
      Where(u, i, u[i].client, 0);
    }
    if !(u[i].clock != 0 || u[i].Skip?) {
      forall x: nat | x < End(u[i]) ensures Covered(u, u[i].client, x) { assert Covers(u[i], u[i].client, x); }
    }
  }

  function Noted(sv: StateVector, client: int, clock: nat): StateVector {
    if clock != 0 then sv[client := clock] else sv
  }

  /** When the next client begins, or nothing is left, the last one is finished. */
  lemma {:induction false} FinishClient(u: seq<Struct>, i: nat, sv: StateVector, client: int, clock: nat, stop: bool, next: int)
    requires Tiled(u) && 0 < i <= |u| && client == u[i - 1].client && Finished(u, sv, client) && next < client
    requires i < |u| ==> u[i].client == next
    requires Counted(u, i, client, clock, stop) || (LeadingSkip(u) && client == u[0].client && clock == End(u[0]))
    requires LeadingSkip(u) && client == u[0].client ==> clock == End(u[0])
    ensures Finished(u, Noted(sv, client, clock), next)
  {
    var sv' := Noted(sv, client, clock);
    if LeadingSkip(u) {
      assert Tile(u, 0);
      if i > 1 { TiledOrdered(u, 0, i - 1); }
    }
    forall c | c > next && !(LeadingSkip(u) && c == u[0].client) ensures RightAt(u, sv', c) {
      if c > client {
        assert RightAt(u, sv, c);
      } else if c == client {
        if !stop && Covered(u, c, clock) { AfterEnd(u, i, c, clock); }
      } else if Covered(u, c, 0) {
        AfterEnd(u, i, c, 0);
      }
    }
  }

  lemma {:induction false} AfterEnd(u: seq<Struct>, i: nat, c: int, x: nat)
    requires Tiled(u) && 0 < i <= |u| && Covered(u, c, x)
    ensures c > u[i - 1].client || (c == u[i - 1].client && x < End(u[i - 1])) || (i < |u| && (c < u[i].client || (c == u[i].client && u[i].clock <= x)))
  {
    var k :| 0 <= k < |u| && Covers(u[k], c, x);
    if k < i - 1 { TiledOrdered(u, k, i - 1); }
    if k > i { TiledOrdered(u, i, k); }
  }

  lemma {:induction false} AllFinished(u: seq<Struct>, sv: StateVector)
    requires Tiled(u) && u != [] && Finished(u, sv, Last(u).client - 1)
    ensures Right(u, sv) <==> !LeadingSkip(u)
    ensures LeadingSkip(u) ==> Known(sv, u[0].client) == Len(u[0]) && IsPrefix(u, u[0].client, 0)
    ensures forall c {:trigger RightAt(u, sv, c)} :: !(LeadingSkip(u) && c == u[0].client) ==> RightAt(u, sv, c)
  {
    forall c | !(LeadingSkip(u) && c == u[0].client) ensures RightAt(u, sv, c) {
      if c < Last(u).client && Covered(u, c, 0) { AfterEnd(u, |u|, c, 0); }
    }
    if LeadingSkip(u) {
      if |u| > 1 { TiledOrdered(u, 0, |u| - 1); }
      assert Tile(u, 0);
      CountFirst(u, 0);
      assert !RightAt(u, sv, u[0].client) by {
        PrefixUnique(u, u[0].client, 0, Known(sv, u[0].client));
      }
    }
  }

  /** `encodeStateVectorFromUpdateWith`.  The first struct's end is taken over before it
      is known whether it is a Skip; apart from that the vector is right. */
  method StateVectorOf(u: seq<Struct>) returns (sv: StateVector)
    requires Tiled(u)
    ensures Right(u, sv) <==> !LeadingSkip(u)
    ensures LeadingSkip(u) ==> Known(sv, u[0].client) == Len(u[0]) && IsPrefix(u, u[0].client, 0)
    ensures forall c {:trigger RightAt(u, sv, c)} :: !(LeadingSkip(u) && c == u[0].client) ==> RightAt(u, sv, c)
  {
    sv := map[];
    if u == [] {
      return;
    }
    var currClient := u[0].client;
    var stopCounting := u[0].clock != 0;
    var currClock := 0;
    if !stopCounting {
      currClock := End(u[0]);
    }
    CountFirst(u, 0);
    assert Finished(u, sv, currClient) by {
      forall c | c > currClient ensures RightAt(u, sv, c) { if Covered(u, c, 0) { Where(u, 0, c, 0); } }
    }
    var i := 0;
    while i < |u|
      invariant 0 <= i <= |u| && currClient == u[if i == 0 then 0 else i - 1].client && Finished(u, sv, currClient)
      invariant i == 0 ==> stopCounting == (u[0].clock != 0) && currClock == if stopCounting then 0 else End(u[0])
      invariant i > 0 && !(LeadingSkip(u) && currClient == u[0].client) ==> Counted(u, i, currClient, currClock, stopCounting)
      invariant i > 0 && LeadingSkip(u) && currClient == u[0].client ==> stopCounting && currClock == End(u[0])
    {
      var curr := u[i];
      if currClient != curr.client {
        assert Tile(u, i - 1);
        FinishClient(u, i, sv, currClient, currClock, stopCounting, curr.client);
        CountFirst(u, i);
        if currClock != 0 {
          sv := sv[currClient := currClock];
        }
        currClient := curr.client;
        currClock := 0;
        stopCounting := curr.clock != 0;
        if i > 1 { TiledOrdered(u, 0, i - 1); }
      } else if i > 0 && !(LeadingSkip(u) && currClient == u[0].client) {
        CountSame(u, i, currClient, currClock, stopCounting);
      }
      if curr.Skip? {
        stopCounting := true;
      }
      if !stopCounting {
        currClock := End(curr);
      }
      i := i + 1;
    }
    FinishClient(u, |u|, sv, currClient, currClock, stopCounting, currClient - 1);
    if currClock != 0 {
      sv := sv[currClient := currClock];
    }
    AllFinished(u, sv);
  }

  /** An update for which the extracted vector promises three clocks it does not have. */
  lemma {:induction false} LeadingSkipExample(sv: StateVector)
    requires Known(sv, 7) == 3
    ensures var u := [Skip(7, 0, 3), Gc(7, 3, 1)];
            Tiled(u) && LeadingSkip(u) && !Right(u, sv) && !Covered(u, 7, 0)
  {
    var u := [Skip(7, 0, 3), Gc(7, 3, 1)];
    assert Tile(u, 0) && Tile(u, 1);
    assert !Covered(u, 7, 0);
    assert !RightAt(u, sv, 7);
  }

  // ---------------------------------------------------------------- synchronisation

  /** `have` covers everything that `sv` claims. */
  ghost predicate Backs(have: seq<Struct>, sv: StateVector) {
    forall c, x: nat {:trigger Covered(have, c, x)} :: x < Known(sv, c) ==> Covered(have, c, x)
  }

  /** Whoever has what the state vector claims gets the whole update by merging in the diff. */
  lemma {:induction false} DiffRestores(u: seq<Struct>, sv: StateVector, d: seq<Struct>, have: seq<Struct>, m: seq<Struct>, c: int, x: nat, v: Unit)
    requires DiffSoFar(d, u, sv) && Backs(have, sv) && Agree([have, u]) && Merged([have, d], m)
    ensures Says(m, c, x, v) <==> Says(have, c, x, v) || Says(u, c, x, v)
  {
    SaysEither(have, d);
    SaysEither(have, u);
    forall c, x: nat, v, w | SomeSays([have, d], c, x, v) && SomeSays([have, d], c, x, w) ensures v == w {
      assert SomeSays([have, u], c, x, v) && SomeSays([have, u], c, x, w);
    }
    MergeIsUnion([have, d], m, c, x, v);
    if Says(u, c, x, v) && x < Known(sv, c) {
      CoveredSays(have, c, x);
      var w :| Says(have, c, x, w);
      assert SomeSays([have, u], c, x, v) && SomeSays([have, u], c, x, w);
    }
  }

  lemma {:induction false} SaysEither(a: seq<Struct>, b: seq<Struct>)
    ensures forall c, x: nat, v {:trigger SomeSays([a, b], c, x, v)} :: SomeSays([a, b], c, x, v) <==> Says(a, c, x, v) || Says(b, c, x, v)
  {
    forall c, x: nat, v ensures SomeSays([a, b], c, x, v) <==> Says(a, c, x, v) || Says(b, c, x, v) {
      var us := [a, b];
      assert us[0] == a && us[1] == b;
    }
  }

  /** The sync exchange on stored updates: one side sends the state vector of `mine`, the
      other answers with the diff of `theirs`, and merging it in gives what merging both
      updates gives. */
  method Sync(mine: seq<Struct>, theirs: seq<Struct>) returns (m: seq<Struct>)
    requires Tiled(mine) && Tiled(theirs) && Agree([mine, theirs]) && !LeadingSkip(mine)
    ensures Tiled(m) && forall c, x: nat, v {:trigger Says(m, c, x, v)} :: Says(m, c, x, v) <==> Says(mine, c, x, v) || Says(theirs, c, x, v)
  {
    var sv := StateVectorOf(mine);
    var d := Diff(theirs, sv);
    assert Backs(mine, sv) by {
      forall c, x: nat | x < Known(sv, c) ensures Covered(mine, c, x) { assert RightAt(mine, sv, c); }
    }
    m := MergeUpdates([mine, d]);
    forall c, x: nat, v ensures Says(m, c, x, v) <==> Says(mine, c, x, v) || Says(theirs, c, x, v) {
      DiffRestores(theirs, sv, d, mine, m, c, x, v);
    }
  }
}

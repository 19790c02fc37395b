/** Delete sets: sorting and merging ranges into a normal form, looking clocks up
    in it, merging whole sets, and the snapshot test built on all of that. */
module DeleteSets {

  datatype Range = Range(clock: nat, length: nat)

  type DeleteSet = map<int, seq<Range>>

  function End(r: Range): nat {
    r.clock + r.length
  }

  predicate Within(r: Range, x: nat) {
    r.clock <= x < End(r)
  }

  /** The clocks a list of ranges stands for. */
  predicate Covers(rs: seq<Range>, x: nat) {
    exists i :: 0 <= i < |rs| && Within(rs[i], x)
  }

  ghost predicate SameClocks(a: seq<Range>, b: seq<Range>) {
    forall x: nat {:trigger Covers(a, x)} {:trigger Covers(b, x)} :: Covers(a, x) <==> Covers(b, x)
  }

  ghost predicate Positive(rs: seq<Range>) {
    forall i :: 0 <= i < |rs| ==> rs[i].length > 0
  }

  ghost predicate SortedByClock(rs: seq<Range>) {
    forall i, j :: 0 <= i < j < |rs| ==> rs[i].clock <= rs[j].clock
  }

  ghost predicate Separated(rs: seq<Range>) {
    forall i, j :: 0 <= i < j < |rs| ==> End(rs[i]) < rs[j].clock
  }

  /** Not empty, in order, and not even touching each other. */
  ghost predicate Normal(rs: seq<Range>) {
    Positive(rs) && Separated(rs)
  }

  // ---------------------------------------------------------------- coverage of pieces

  lemma {:induction false} CoversConcat(a: seq<Range>, b: seq<Range>, x: nat)
    ensures Covers(a + b, x) <==> Covers(a, x) || Covers(b, x)
  {
    if Covers(a, x) {
      var i :| 0 <= i < |a| && Within(a[i], x);
      assert (a + b)[i] == a[i];
    }
    if Covers(b, x) {
      var i :| 0 <= i < |b| && Within(b[i], x);
      assert (a + b)[|a| + i] == b[i];
    }
  }

  lemma {:induction false} CoversInsert(p: seq<Range>, j: nat, r: Range, x: nat)
    requires j <= |p|
    ensures Covers(p[..j] + [r] + p[j..], x) <==> Covers(p, x) || Within(r, x)
  {
    CoversConcat(p[..j] + [r], p[j..], x);
    CoversConcat(p[..j], [r], x);
    CoversConcat(p[..j], p[j..], x);
    assert p[..j] + p[j..] == p;
    assert Covers([r], x) <==> Within(r, x) by { assert [r][0] == r; }
  }

  // ---------------------------------------------------------------- sorting

  /** Shift the larger ranges of the sorted prefix up and put `a[i]` below them. */
  method ShiftIn(a: array<Range>, i: nat) returns (ghost j: nat)
    requires i < a.Length
    modifies a
    ensures j <= i && a[i + 1..] == old(a[i + 1..])
    ensures a[..i + 1] == old(a[..j]) + [old(a[i])] + old(a[j..i])
    ensures j > 0 ==> old(a[j - 1]).clock <= old(a[i]).clock
    ensures forall k :: j <= k < i ==> old(a[k]).clock > old(a[i]).clock
  {
    var item := a[i];
    var n := i;
    while n > 0 && a[n - 1].clock > item.clock
      invariant 0 <= n <= i
      invariant forall k :: 0 <= k < n ==> a[k] == old(a[k])
      invariant forall k :: n < k <= i ==> a[k] == old(a[k - 1])
      invariant forall k :: i < k < a.Length ==> a[k] == old(a[k])
      invariant forall k :: n <= k < i ==> old(a[k]).clock > item.clock
    {
      a[n] := a[n - 1];
      n := n - 1;
    }
    a[n] := item;
    j := n;
  }

  /** The insertion sort of `sortAndMergeDeleteSet`. */
  method SortRanges(a: array<Range>)
    modifies a
    ensures SortedByClock(a[..]) && SameClocks(a[..], old(a[..]))
    ensures Positive(old(a[..])) ==> Positive(a[..])
  {
    ghost var before := a[..];
    for i := 0 to a.Length
      invariant a[i..] == before[i..]
      invariant SortedByClock(a[..i]) && SameClocks(a[..i], before[..i])
      invariant Positive(before) ==> Positive(a[..i])
    {
      ghost var p, item := a[..i], a[i];
      assert item == before[i] && before[i..][1..] == before[i + 1..];
      ghost var j := ShiftIn(a, i);
      assert a[..i + 1] == p[..j] + [item] + p[j..];
      InsertSorted(p, j, item);
      assert before[..i + 1] == before[..i] + [item];
      InsertSameClocks(p, before[..i], j, item);
    }
    assert a[..a.Length] == a[..] && before[..a.Length] == before;
  }

  lemma {:induction false} InsertSameClocks(p: seq<Range>, b: seq<Range>, j: nat, item: Range)
    requires SameClocks(p, b) && j <= |p|
    ensures SameClocks(p[..j] + [item] + p[j..], b + [item])
  {
    var q := p[..j] + [item] + p[j..];
    forall x: nat ensures Covers(q, x) <==> Covers(b + [item], x) {
      CoversInsert(p, j, item, x);
      CoversConcat(b, [item], x);
      assert Covers([item], x) <==> Within(item, x) by { assert [item][0] == item; }
    }
  }

  lemma {:induction false} InsertSorted(p: seq<Range>, j: nat, item: Range)
    requires SortedByClock(p) && j <= |p|
    requires j > 0 ==> p[j - 1].clock <= item.clock
    requires forall k :: j <= k < |p| ==> p[k].clock > item.clock
    ensures SortedByClock(p[..j] + [item] + p[j..])
    ensures Positive(p) && item.length > 0 ==> Positive(p[..j] + [item] + p[j..])
  {
  }

  // ---------------------------------------------------------------- merging

  /** What merging one range into a normalised list gives. */
  function Absorb(rs: seq<Range>, r: Range): seq<Range> {
    if rs != [] && End(rs[|rs| - 1]) >= r.clock then
      var last := rs[|rs| - 1];
      rs[..|rs| - 1] + [Range(last.clock, if End(r) - last.clock > last.length then End(r) - last.clock else last.length)]
    else rs + [r]
  }

  lemma {:induction false} AbsorbKeepsNormal(rs: seq<Range>, r: Range)
    requires Normal(rs) && r.length > 0 && (rs != [] ==> rs[|rs| - 1].clock <= r.clock)
    ensures Normal(Absorb(rs, r)) && Absorb(rs, r) != [] && Absorb(rs, r)[|Absorb(rs, r)| - 1].clock <= r.clock
  {
  }

  lemma {:induction false} AbsorbCovers(rs: seq<Range>, r: Range, x: nat)
    requires rs != [] ==> rs[|rs| - 1].clock <= r.clock
    ensures Covers(Absorb(rs, r), x) <==> Covers(rs, x) || Within(r, x)
  {
    assert Covers([r], x) <==> Within(r, x) by { assert [r][0] == r; }
    if rs != [] && End(rs[|rs| - 1]) >= r.clock {
      var init, last, merged := rs[..|rs| - 1], rs[|rs| - 1], Absorb(rs, r)[|rs| - 1];
      assert rs == init + [last] && Absorb(rs, r) == init + [merged];
      CoversConcat(init, [last], x);
      CoversConcat(init, [merged], x);
      assert Covers([last], x) <==> Within(last, x) by { assert [last][0] == last; }
      assert Covers([merged], x) <==> Within(merged, x) by { assert [merged][0] == merged; }
    } else {
      CoversConcat(rs, [r], x);
    }
  }

  lemma {:induction false} AbsorbSameClocks(rs: seq<Range>, b: seq<Range>, r: Range)
    requires SameClocks(rs, b) && (rs != [] ==> rs[|rs| - 1].clock <= r.clock)
    ensures SameClocks(Absorb(rs, r), b + [r])
  {
    forall x: nat ensures Covers(Absorb(rs, r), x) <==> Covers(b + [r], x) {
      AbsorbCovers(rs, r, x);
      CoversConcat(b, [r], x);
      assert Covers([r], x) <==> Within(r, x) by { assert [r][0] == r; }
    }
  }

  /** Try to merge `a[i]` into `a[j - 1]`, or move it to `a[j]`. */
  method Compact(a: array<Range>, j: nat, i: nat) returns (j': nat)
    requires 0 < j <= i < a.Length
    modifies a
    ensures j <= j' <= i + 1 && a[..j'] == Absorb(old(a[..j]), old(a[i])) && a[i + 1..] == old(a[i + 1..])
  {
    var left, right := a[j - 1], a[i];
    if End(left) >= right.clock {
      a[j - 1] := Range(left.clock, if End(right) - left.clock > left.length then End(right) - left.clock else left.length);
      return j;
    }
    if j < i { a[j] := right; }
    return j + 1;
  }

  /** The two-pointer compaction of `sortAndMergeDeleteSet`; the result is `a[..n]`. */
  method MergeSorted(a: array<Range>) returns (n: nat)
    requires a.Length > 0 && SortedByClock(a[..]) && Positive(a[..])
    modifies a
    ensures 0 < n <= a.Length && Normal(a[..n]) && SameClocks(a[..n], old(a[..]))
  {
    ghost var before := a[..];
    var i, j := 1, 1;
    assert a[..1] == before[..1];
    while i < a.Length
      invariant 1 <= j <= i <= a.Length
      invariant a[i..] == before[i..]
      invariant Normal(a[..j]) && a[j - 1].clock <= before[i - 1].clock
      invariant SameClocks(a[..j], before[..i])
    {
      ghost var rs, r := a[..j], a[i];
      assert r == before[i] && before[i..][1..] == before[i + 1..] && rs[|rs| - 1] == a[j - 1];
      assert before[i - 1].clock <= before[i].clock;
      AbsorbKeepsNormal(rs, r);
      AbsorbSameClocks(rs, before[..i], r);
      j := Compact(a, j, i);
      assert before[..i + 1] == before[..i] + [r];
      i := i + 1;
    }
    assert before[..i] == before;
    return j;
  }

  /** `sortAndMergeDeleteSet` for one client: lists shorter than two stay as they are. */
  method SortAndMerge(rs: seq<Range>) returns (out: seq<Range>)
    requires Positive(rs)
    ensures Normal(out) && SameClocks(out, rs) && (rs != [] ==> out != [])
  {
    if |rs| < 2 { return rs; }
    var a := new Range[|rs|](i requires 0 <= i < |rs| => rs[i]);
    assert a[..] == rs;
    SortRanges(a);
    var n := MergeSorted(a);
    out := a[..n];
  }

  // ---------------------------------------------------------------- the normal form is unique

  lemma {:induction false} NormalFirst(a: seq<Range>, b: seq<Range>)
    requires Normal(a) && Normal(b) && a != [] && SameClocks(a, b)
    ensures b != [] && b[0].clock <= a[0].clock
  {
    assert Within(a[0], a[0].clock);
    assert Covers(a, a[0].clock);
    assert Covers(b, a[0].clock);
    var i :| 0 <= i < |b| && Within(b[i], a[0].clock);
    if i > 0 { assert End(b[0]) < b[i].clock; }
  }

  /** Nothing covers the clock just behind a range of a normal list. */
  lemma {:induction false} NormalGap(a: seq<Range>, i: nat)
    requires Normal(a) && i < |a|
    ensures !Covers(a, End(a[i]))
  {
    forall k | 0 <= k < |a| ensures !Within(a[k], End(a[i])) {
      if k < i { assert End(a[k]) < a[i].clock; } else if k > i { assert End(a[i]) < a[k].clock; }
    }
  }

  lemma {:induction false} FirstCovers(a: seq<Range>, x: nat)
    requires a != []
    ensures Within(a[0], x) ==> Covers(a, x)
  {
  }

  lemma {:induction false} NormalHeads(a: seq<Range>, b: seq<Range>)
    requires Normal(a) && Normal(b) && a != [] && b != [] && SameClocks(a, b)
    ensures a[0] == b[0]
  {
    NormalFirst(a, b);
    NormalFirst(b, a);
    NormalGap(a, 0);
    NormalGap(b, 0);
    FirstCovers(b, End(a[0]));
    FirstCovers(a, End(b[0]));
  }

  lemma {:induction false} TailClocks(a: seq<Range>, x: nat)
    requires Normal(a) && a != []
    ensures Covers(a[1..], x) <==> Covers(a, x) && x > End(a[0])
  {
    if Covers(a[1..], x) {
      var i :| 0 <= i < |a[1..]| && Within(a[1..][i], x);
      assert a[1..][i] == a[i + 1];
      assert End(a[0]) < a[i + 1].clock;
    }
    if Covers(a, x) && x > End(a[0]) {
      var i :| 0 <= i < |a| && Within(a[i], x);
      assert a[1..][i - 1] == a[i];
    }
  }

  /** Two normal lists with the same clocks are the same list. */
  lemma {:induction false} NormalUnique(a: seq<Range>, b: seq<Range>)
    requires Normal(a) && Normal(b) && SameClocks(a, b)
    ensures a == b
  {
    if a == [] {
      if b != [] { NormalFirst(b, a); }
    } else {
      NormalFirst(a, b);
      NormalHeads(a, b);
      forall x: nat ensures Covers(a[1..], x) <==> Covers(b[1..], x) {
        TailClocks(a, x);
        TailClocks(b, x);
      }
      NormalUnique(a[1..], b[1..]);
      assert a == [a[0]] + a[1..] && b == [b[0]] + b[1..];
    }
  }

  // ---------------------------------------------------------------- lookup

  /** `findIndexDS`: the range that holds the clock, by binary search. */
  method FindIndex(rs: seq<Range>, clock: nat) returns (found: bool, index: nat)
    requires Normal(rs)
    ensures found <==> Covers(rs, clock)
    ensures found ==> index < |rs| && Within(rs[index], clock)
  {
    var left, right := 0, |rs| - 1;
    while left <= right
      invariant 0 <= left <= right + 1 <= |rs|
      invariant forall k :: 0 <= k < left ==> End(rs[k]) <= clock
      invariant forall k :: right < k < |rs| ==> clock < rs[k].clock
      decreases right - left
    {
      var mid := (left + right) / 2;
      if rs[mid].clock <= clock {
        if clock < End(rs[mid]) {
          return true, mid;
        }
        forall k | 0 <= k <= mid ensures End(rs[k]) <= clock {
          if k < mid { assert End(rs[k]) < rs[mid].clock; }
        }
        left := mid + 1;
      } else {
        forall k | mid <= k < |rs| ensures clock < rs[k].clock {
          if k > mid { assert End(rs[mid]) < rs[k].clock; }
        }
        right := mid - 1;
      }
    }
    return false, 0;
  }

  // ---------------------------------------------------------------- whole delete sets

  predicate Deletes(ds: DeleteSet, c: int, x: nat) {
    c in ds && Covers(ds[c], x)
  }

  /** What decoding yields: a client is listed with its first range, and ranges are not empty. */
  ghost predicate WellFormed(ds: DeleteSet) {
    forall c :: c in ds ==> ds[c] != [] && Positive(ds[c])
  }

  ghost predicate NormalSet(ds: DeleteSet) {
    forall c :: c in ds ==> ds[c] != [] && Normal(ds[c])
  }

  /** Some of the first `n` sets deletes the clock. */
  ghost predicate SomeDeletes(dss: seq<DeleteSet>, n: nat, c: int, x: nat)
    requires n <= |dss|
  {
    exists i :: 0 <= i < n && Deletes(dss[i], c, x)
  }

  /** `mergeDeleteSets` before sorting: append every client's ranges. */
  function AppendSet(merged: DeleteSet, ds: DeleteSet): DeleteSet {
    map c | c in merged.Keys + ds.Keys ::
      (if c in merged then merged[c] else []) + (if c in ds then ds[c] else [])
  }

  lemma {:induction false} AppendSetDeletes(merged: DeleteSet, ds: DeleteSet, c: int, x: nat)
    ensures Deletes(AppendSet(merged, ds), c, x) <==> Deletes(merged, c, x) || Deletes(ds, c, x)
  {
    if c in merged.Keys + ds.Keys {
      CoversConcat(if c in merged then merged[c] else [], if c in ds then ds[c] else [], x);
      assert !Covers([], x);
    }
  }

  /** `mergeDeleteSets`: the union of the sets, in normal form. */
  method MergeDeleteSets(dss: seq<DeleteSet>) returns (merged: DeleteSet)
    requires forall i :: 0 <= i < |dss| ==> WellFormed(dss[i])
    ensures NormalSet(merged)
    ensures forall c, x: nat :: Deletes(merged, c, x) <==> SomeDeletes(dss, |dss|, c, x)
    ensures forall c :: c in merged <==> exists i :: 0 <= i < |dss| && c in dss[i]
  {
    merged := map[];
    for n := 0 to |dss|
      invariant WellFormed(merged)
      invariant forall c, x: nat :: Deletes(merged, c, x) <==> SomeDeletes(dss, n, c, x)
      invariant forall c :: c in merged <==> exists i :: 0 <= i < n && c in dss[i]
    {
      ghost var before := merged;
      merged := AppendSet(merged, dss[n]);
      forall c, x: nat ensures Deletes(merged, c, x) <==> SomeDeletes(dss, n + 1, c, x) {
        AppendSetDeletes(before, dss[n], c, x);
        assert SomeDeletes(dss, n + 1, c, x) <==> SomeDeletes(dss, n, c, x) || Deletes(dss[n], c, x);
      }
    }
    merged := NormaliseAll(merged);
  }

  /** `sortAndMergeDeleteSet`: every client's list to its normal form. */
  method NormaliseAll(ds: DeleteSet) returns (out: DeleteSet)
    requires WellFormed(ds)
    ensures out.Keys == ds.Keys && NormalSet(out)
    ensures forall c, x: nat :: Deletes(out, c, x) <==> Deletes(ds, c, x)
  {
    out := ds;
    var todo := ds.Keys;
    while true
      invariant todo <= ds.Keys == out.Keys
      invariant forall c :: c in ds.Keys - todo ==> out[c] != [] && Normal(out[c]) && SameClocks(out[c], ds[c])
      invariant forall c :: c in todo ==> out[c] == ds[c]
      decreases todo
    {
      if c :| c in todo {
        var rs := SortAndMerge(out[c]);
        out := out[c := rs];
        todo := todo - {c};
      } else {
        break;
      }
    }
  }

  // ---------------------------------------------------------------- the snapshot test

  /** `equalDeleteSets`: same clients, same ranges in the same order. */
  function EqualSets(a: DeleteSet, b: DeleteSet): bool {
    a.Keys == b.Keys && forall c :: c in a ==> a[c] == b[c]
  }

  /** Normal sets are equal exactly when they delete the same clocks. */
  lemma {:induction false} EqualMeansSameClocks(a: DeleteSet, b: DeleteSet)
    requires NormalSet(a) && NormalSet(b)
    ensures EqualSets(a, b) <==> forall c, x: nat :: Deletes(a, c, x) <==> Deletes(b, c, x)
  {
    if forall c, x: nat :: Deletes(a, c, x) <==> Deletes(b, c, x) {
      KeysFromClocks(a, b);
      KeysFromClocks(b, a);
      forall c | c in a ensures a[c] == b[c] {
        forall x: nat ensures Covers(a[c], x) <==> Covers(b[c], x) {
          assert Deletes(a, c, x) <==> Deletes(b, c, x);
        }
        NormalUnique(a[c], b[c]);
      }
    }
  }

  lemma {:induction false} KeysFromClocks(a: DeleteSet, b: DeleteSet)
    requires NormalSet(a) && forall c, x: nat :: Deletes(a, c, x) ==> Deletes(b, c, x)
    ensures a.Keys <= b.Keys
  {
    forall c | c in a ensures c in b {
      FirstCovers(a[c], a[c][0].clock);
      assert Deletes(a, c, a[c][0].clock);
    }
  }

  /** The delete-set half of `snapshotContainsUpdateWith`: merging the update's delete
      set changes nothing exactly when each clock it deletes is deleted already. */
  method SnapshotHasDeletes(snapshot: DeleteSet, ds: DeleteSet) returns (b: bool)
    requires NormalSet(snapshot) && WellFormed(ds)
    ensures b <==> forall c, x: nat :: Deletes(ds, c, x) ==> Deletes(snapshot, c, x)
  {
    var merged := MergeDeleteSets([snapshot, ds]);
    EqualMeansSameClocks(snapshot, merged);
    forall c, x: nat ensures Deletes(merged, c, x) <==> Deletes(snapshot, c, x) || Deletes(ds, c, x) {
      var dss := [snapshot, ds];
      assert SomeDeletes(dss, 2, c, x) <==> Deletes(dss[0], c, x) || Deletes(dss[1], c, x);
    }
    b := EqualSets(snapshot, merged);
  }
}

/** Runs of equal numbers and how the optional run-length codecs write them. */
module ColumnRuns {
  import opened VarInts

  datatype Run = Run(value: int, count: nat)

  function Repeat(v: int, n: nat): seq<int> {
    if n == 0 then [] else Repeat(v, n - 1) + [v]
  }

  lemma {:induction false} RepeatOne(v: int)
    ensures Repeat(v, 1) == [v]
  {
    assert Repeat(v, 0) == [];
  }

  lemma {:induction false} RepeatIs(v: int, n: nat)
    ensures |Repeat(v, n)| == n && forall i :: 0 <= i < n ==> Repeat(v, n)[i] == v
  {
    if n > 0 { RepeatIs(v, n - 1); }
  }

  function Expand(runs: seq<Run>): seq<int> {
    if runs == [] then [] else Repeat(runs[0].value, runs[0].count) + Expand(runs[1..])
  }

  lemma {:induction false} ExpandAppend(runs: seq<Run>, r: Run)
    ensures Expand(runs + [r]) == Expand(runs) + Repeat(r.value, r.count)
    decreases |runs|
  {
    if runs == [] {
      assert ([] + [r])[1..] == [];
    } else {
      assert (runs + [r])[1..] == runs[1..] + [r];
      ExpandAppend(runs[1..], r);
    }
  }

  /** One more of the same. */
  lemma {:induction false} RepeatMore(v: int, n: nat)
    ensures Repeat(v, n) + [v] == Repeat(v, n + 1) == [v] + Repeat(v, n)
  {
    if n > 0 {
      RepeatMore(v, n - 1);
      assert [v] + (Repeat(v, n - 1) + [v]) == ([v] + Repeat(v, n - 1)) + [v];
    }
  }

  predicate Changes(runs: seq<Run>, i: nat)
    requires i < |runs|
  {
    runs[i].count > 0 && (i > 0 ==> runs[i - 1].value != runs[i].value)
  }

  /** No run is empty, and none could be joined with the next one. */
  ghost predicate Maximal(runs: seq<Run>) {
    forall i {:trigger Changes(runs, i)} :: 0 <= i < |runs| ==> Changes(runs, i)
  }

  lemma {:induction false} MaximalAppend(runs: seq<Run>, r: Run)
    requires Maximal(runs) && r.count > 0 && (runs != [] ==> runs[|runs| - 1].value != r.value)
    ensures Maximal(runs + [r])
  {
    var all := runs + [r];
    forall i | 0 <= i < |all| ensures Changes(all, i) { if i < |runs| { assert Changes(runs, i); } }
  }

  /** The last run grows. */
  lemma {:induction false} MaximalGrows(runs: seq<Run>, v: int, n: nat, m: nat)
    requires Maximal(runs + [Run(v, n)]) && m > 0
    ensures Maximal(runs + [Run(v, m)]) && (runs != [] ==> runs[|runs| - 1].value != v) && Maximal(runs)
  {
    var a, b := runs + [Run(v, n)], runs + [Run(v, m)];
    assert Changes(a, |runs|);
    forall i | 0 <= i < |b| ensures Changes(b, i) && (i < |runs| ==> Changes(runs, i)) { assert Changes(a, i); }
  }

  lemma {:induction false} MaximalTail(runs: seq<Run>)
    requires Maximal(runs) && runs != []
    ensures Maximal(runs[1..]) && runs[0].count > 0 && (|runs| > 1 ==> runs[1].value != runs[0].value && runs[1].count > 0)
  {
    assert Changes(runs, 0);
    assert |runs| > 1 ==> Changes(runs, 1);
    var rest := runs[1..];
    forall i | 0 <= i < |rest| ensures Changes(rest, i) { assert Changes(runs, i + 1); }
  }

  /** What follows the first run begins with another value. */
  lemma {:induction false} FirstRun(runs: seq<Run>)
    requires Maximal(runs) && runs != []
    ensures var vs, n := Expand(runs), runs[0].count;
            0 < n <= |vs| && (forall i :: 0 <= i < n ==> vs[i] == runs[0].value) && (n < |vs| ==> vs[n] != runs[0].value) && vs[n..] == Expand(runs[1..])
    ensures |runs| > 1 ==> Expand(runs[1..]) != []
  {
    MaximalTail(runs);
    RepeatIs(runs[0].value, runs[0].count);
    if |runs| > 1 { RepeatIs(runs[1].value, runs[1].count); }
  }

  /** The first `n` values are all the same, and the next one is another. */
  ghost predicate Stretch(vs: seq<int>, n: nat) {
    0 < n <= |vs| && (forall i :: 0 <= i < n ==> vs[i] == vs[0]) && (n < |vs| ==> vs[n] != vs[0])
  }

  lemma {:induction false} SameStretch(vs: seq<int>, m: nat, n: nat)
    requires Stretch(vs, m) && Stretch(vs, n)
    ensures m == n
  {
  }

  /** The values alone decide the runs. */
  lemma {:induction false} MaximalUnique(a: seq<Run>, b: seq<Run>)
    requires Maximal(a) && Maximal(b) && Expand(a) == Expand(b)
    ensures a == b
    decreases |a|
  {
    if a != [] { FirstRun(a); }
    if b != [] { FirstRun(b); }
    if a != [] {
      var vs := Expand(a);
      assert vs[0] == a[0].value == b[0].value;
      SameStretch(vs, a[0].count, b[0].count);
      MaximalTail(a);
      MaximalTail(b);
      MaximalUnique(a[1..], b[1..]);
      assert a == [a[0]] + a[1..] && b == [b[0]] + b[1..];
    }
  }

  /** One value, however often, is one run. */
  lemma {:induction false} OneRun(runs: seq<Run>, v: int, n: nat)
    requires Maximal(runs) && Expand(runs) == Repeat(v, n) && n > 0
    ensures runs == [Run(v, n)]
  {
    var one := [Run(v, n)];
    assert one[1..] == [] && Expand(one) == Repeat(v, n) + Expand([]);
    forall i | 0 <= i < |one| ensures Changes(one, i) { }
    MaximalUnique(runs, one);
  }

  // ---------------------------------------------------------------- the two framings

  /** A plain number marks a run by its sign; a difference by its lowest bit. */
  datatype Framing = Plain | Difference

  function Encoded(r: Run): int {
    r.value * 2 + if r.count > 1 then 1 else 0
  }

  function Magnitude(f: Framing, r: Run): nat
    requires f.Plain? ==> r.value >= 0
  {
    match f
    case Plain => r.value
    case Difference => if Encoded(r) < 0 then -Encoded(r) else Encoded(r)
  }

  function Sign(f: Framing, r: Run): bool {
    match f
    case Plain => r.count > 1
    case Difference => Encoded(r) < 0
  }

  const MaxDiff: int := 0x2000_0000_0000_0000
  const MaxRun: nat := 0x7fff_ffff

  /** A run that the format can hold. */
  predicate Fits(f: Framing, r: Run) {
    0 < r.count && (match f case Plain => 0 <= r.value < Max64 case Difference => -MaxDiff <= r.value <= MaxDiff)
  }

  ghost predicate AllFit(f: Framing, runs: seq<Run>) {
    forall i {:trigger Fits(f, runs[i])} :: 0 <= i < |runs| ==> Fits(f, runs[i])
  }

  predicate Short(r: Run) { r.count <= MaxRun }

  ghost predicate AllShort(runs: seq<Run>) {
    forall i {:trigger Short(runs[i])} :: 0 <= i < |runs| ==> Short(runs[i])
  }

  function RunBytes(f: Framing, r: Run): seq<Byte>
    requires Fits(f, r)
  {
    VarInt(Magnitude(f, r), Sign(f, r)) + if r.count > 1 then VarUint(r.count - 2) else []
  }

  function AllBytes(f: Framing, runs: seq<Run>): seq<Byte>
    requires AllFit(f, runs)
  {
    if runs == [] then [] else
      assert Fits(f, runs[0]);
      assert AllFit(f, runs[1..]) by { forall i | 0 <= i < |runs[1..]| ensures Fits(f, runs[1..][i]) { assert Fits(f, runs[i + 1]); } }
      RunBytes(f, runs[0]) + AllBytes(f, runs[1..])
  }

  lemma {:induction false} FitsAppend(f: Framing, runs: seq<Run>, r: Run)
    requires AllFit(f, runs) && Fits(f, r)
    ensures AllFit(f, runs + [r])
  {
    forall i | 0 <= i < |runs| + 1 ensures Fits(f, (runs + [r])[i]) { if i < |runs| { assert Fits(f, runs[i]); } }
  }

  lemma {:induction false} FitsRest(f: Framing, runs: seq<Run>)
    requires AllFit(f, runs) && runs != []
    ensures Fits(f, runs[0]) && AllFit(f, runs[1..])
  {
    forall i | 0 <= i < |runs[1..]| ensures Fits(f, runs[1..][i]) { assert Fits(f, runs[i + 1]); }
  }

  lemma {:induction false} BytesAppend(f: Framing, runs: seq<Run>, r: Run)
    requires AllFit(f, runs) && Fits(f, r)
    ensures AllFit(f, runs + [r]) && AllBytes(f, runs + [r]) == AllBytes(f, runs) + RunBytes(f, r)
    decreases |runs|
  {
    FitsAppend(f, runs, r);
    if runs == [] {
      assert ([] + [r])[1..] == [];
    } else {
      FitsRest(f, runs);
      assert (runs + [r])[1..] == runs[1..] + [r];
      BytesAppend(f, runs[1..], r);
    }
  }

  // ---------------------------------------------------------------- runs that are not too long

  /** From `i` on the same value stands more than `MaxRun` times. */
  ghost predicate LongRunAt(vs: seq<int>, i: nat) {
    i + MaxRun < |vs| && forall j :: i <= j <= i + MaxRun ==> vs[j] == vs[i]
  }

  ghost predicate NoLongRun(vs: seq<int>) {
    forall i {:trigger LongRunAt(vs, i)} :: 0 <= i < |vs| ==> !LongRunAt(vs, i)
  }

  lemma {:induction false} NoLongRunBehind(a: seq<int>, b: seq<int>)
    requires NoLongRun(a + b)
    ensures NoLongRun(b)
  {
    forall i | 0 <= i < |b| ensures LongRunAt(b, i) ==> LongRunAt(a + b, |a| + i) {
      assert forall j :: 0 <= j < |b| ==> (a + b)[|a| + j] == b[j];
      if LongRunAt(b, i) {
        forall j | |a| + i <= j <= |a| + i + MaxRun ensures (a + b)[j] == (a + b)[|a| + i] { assert b[j - |a|] == b[i]; }
      }
    }
  }

  lemma {:induction false} NoLongRunMeansShort(runs: seq<Run>)
    requires NoLongRun(Expand(runs))
    ensures AllShort(runs)
    decreases |runs|
  {
    if runs != [] {
      var r := runs[0];
      NoLongRunBehind(Repeat(r.value, r.count), Expand(runs[1..]));
      NoLongRunMeansShort(runs[1..]);
      RepeatIs(r.value, r.count);
      assert r.count > MaxRun ==> LongRunAt(Expand(runs), 0);
      forall i | 0 <= i < |runs| ensures Short(runs[i]) { if i > 0 { assert Short(runs[1..][i - 1]); } }
    }
  }
}

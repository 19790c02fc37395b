/** The clock columns: differences between neighbouring clocks, in runs.  The writer for
    trusted clocks gives the same bytes as the checked one. */
module ClockCodec {
  import opened VarInts
  import opened ColumnRuns
  import opened ColumnCodecs

  const Max63: int := 0x8000_0000_0000_0000

  predicate Encodable(diff: int) { -MaxDiff <= diff <= MaxDiff }

  ghost predicate StepAt(vs: seq<int>, ds: seq<int>, i: nat)
    requires i < |vs| && i < |ds|
  {
    ds[i] == vs[i] - if i == 0 then 0 else vs[i - 1]
  }

  /** `ds` are the differences between neighbours in `vs`, the first one to 0. */
  ghost predicate Differences(vs: seq<int>, ds: seq<int>) {
    |vs| == |ds| && forall i {:trigger StepAt(vs, ds, i)} :: 0 <= i < |ds| ==> StepAt(vs, ds, i)
  }

  function Last(vs: seq<int>): int {
    if vs == [] then 0 else vs[|vs| - 1]
  }

  lemma {:induction false} OneMore(vs: seq<int>, ds: seq<int>, v: int)
    requires Differences(vs, ds)
    ensures Differences(vs + [v], ds + [v - Last(vs)])
  {
    var vs', ds' := vs + [v], ds + [v - Last(vs)];
    forall i | 0 <= i < |ds'| ensures StepAt(vs', ds', i) { if i < |ds| { assert StepAt(vs, ds, i); } }
  }

  /** What an encoder holds: what it has written, the last clock, and the pending run. */
  datatype State = State(buf: seq<Byte>, s: int, count: nat, diff: int)

  function Pending(st: State): Run {
    Run(st.diff, st.count)
  }

  /** The state after one more clock. */
  function Next(st: State, v: int): State
    requires Encodable(st.diff)
  {
    if st.count > 0 && st.diff == v - st.s then st.(s := v, count := st.count + 1)
    else State(if st.count > 0 then st.buf + RunBytes(Difference, Pending(st)) else st.buf, v, 1, v - st.s)
  }

  predicate Continues(st: State, v: int) {
    st.count > 0 && st.diff == v - st.s
  }

  /** The state holds the clocks `vs`, of which the runs `runs` have been written. */
  ghost predicate Holds(st: State, runs: seq<Run>, vs: seq<int>) {
    && AllFit(Difference, runs) && st.buf == AllBytes(Difference, runs) && st.s == Last(vs)
    && Differences(vs, Expand(runs) + Repeat(st.diff, st.count)) && (st.count == 0 ==> runs == [] && st.diff == 0)
    && Maximal(Flushed(st, runs))
  }

  ghost function Flushed(st: State, runs: seq<Run>): seq<Run> {
    if st.count > 0 then runs + [Pending(st)] else runs
  }

  lemma {:induction false} FlushHolds(st: State, runs: seq<Run>, vs: seq<int>)
    requires Holds(st, runs, vs) && Encodable(st.diff)
    ensures AllFit(Difference, Flushed(st, runs)) && Differences(vs, Expand(Flushed(st, runs)))
    ensures AllBytes(Difference, Flushed(st, runs)) == if st.count > 0 then st.buf + RunBytes(Difference, Pending(st)) else st.buf
  {
    if st.count > 0 {
      BytesAppend(Difference, runs, Pending(st));
      ExpandAppend(runs, Pending(st));
    } else {
      assert Repeat(st.diff, 0) == [] && Expand(runs) + [] == Expand(runs);
    }
  }

  lemma {:induction false} ContinueHolds(st: State, runs: seq<Run>, vs: seq<int>, v: int)
    requires Holds(st, runs, vs) && Continues(st, v)
    ensures Holds(st.(s := v, count := st.count + 1), runs, vs + [v])
  {
    MaximalGrows(runs, st.diff, st.count, st.count + 1);
    SameDifference(vs, Expand(runs), st.diff, st.count, v);
  }

  lemma {:induction false} SameDifference(vs: seq<int>, front: seq<int>, d: int, n: nat, v: int)
    requires Differences(vs, front + Repeat(d, n)) && v - Last(vs) == d
    ensures Differences(vs + [v], front + Repeat(d, n + 1)) && Last(vs + [v]) == v
  {
    OneMore(vs, front + Repeat(d, n), v);
    OneMoreOf(front, d, n);
  }

  lemma {:induction false} OneMoreOf(front: seq<int>, d: int, n: nat)
    ensures front + Repeat(d, n) + [d] == front + Repeat(d, n + 1)
  {
    RepeatMore(d, n);
    assert front + Repeat(d, n) + [d] == front + (Repeat(d, n) + [d]);
  }

  lemma {:induction false} NextHolds(st: State, runs: seq<Run>, vs: seq<int>, v: int)
    requires Holds(st, runs, vs) && Encodable(st.diff) && !Continues(st, v)
    ensures Holds(Next(st, v), Flushed(st, runs), vs + [v])
  {
    FlushHolds(st, runs, vs);
    var all := Flushed(st, runs);
    var buf := AllBytes(Difference, all);
    assert Next(st, v) == State(buf, v, 1, v - Last(vs));
    if st.count > 0 { assert all[|all| - 1].value == st.diff; }
    StartHolds(buf, all, vs, v);
  }

  /** A new run begins. */
  lemma {:induction false} StartHolds(buf: seq<Byte>, runs: seq<Run>, vs: seq<int>, v: int)
    requires AllFit(Difference, runs) && buf == AllBytes(Difference, runs) && Differences(vs, Expand(runs))
    requires Maximal(runs) && (runs != [] ==> runs[|runs| - 1].value != v - Last(vs))
    ensures Holds(State(buf, v, 1, v - Last(vs)), runs, vs + [v])
  {
    FlushedPlusOne(vs, Expand(runs), v);
    MaximalAppend(runs, Run(v - Last(vs), 1));
  }

  /** The bytes of a single run of differences. */
  lemma {:induction false} DifferenceRun(runs: seq<Run>, d: int, n: nat)
    requires AllFit(Difference, runs) && Maximal(runs) && Expand(runs) == Repeat(d, n) && n > 0
    ensures var e: int := 2 * d + if n > 1 then 1 else 0;
            AllBytes(Difference, runs) == VarInt(if e < 0 then 0 - e else e, e < 0) + if n > 1 then VarUint(n - 2) else []
  {
    OneRun(runs, d, n);
    assert Fits(Difference, runs[0]) && runs[1..] == [];
  }

  /** The differences of clocks are determined. */
  lemma {:induction false} OneDifference(vs: seq<int>, a: seq<int>, b: seq<int>)
    requires Differences(vs, a) && Differences(vs, b)
    ensures a == b
  {
    forall i | 0 <= i < |a| ensures a[i] == b[i] { assert StepAt(vs, a, i) && StepAt(vs, b, i); }
  }

  class ClockEncoder {
    var buf: seq<Byte>
    var s: int
    var count: nat
    var diff: int
    ghost var runs: seq<Run>
    ghost var written: seq<int>

    function Now(): State
      reads this
    {
      State(buf, s, count, diff)
    }

    ghost predicate Valid()
      reads this
    {
      Holds(Now(), runs, written)
    }

    constructor ()
      ensures Valid() && written == [] && count == 0 && diff == 0
    {
      buf, s, count, diff, runs, written := [], 0, 0, 0, [], [];
    }

    /** `flush`: fails if the pending difference cannot be encoded. */
    method Flush() returns (ok: bool)
      requires Valid()
      modifies `buf
      ensures ok <==> Encodable(diff)
      ensures buf == if ok && count > 0 then old(buf) + RunBytes(Difference, Pending(Now())) else old(buf)
    {
      if count == 0 {
        return true;
      }
      if diff > MaxDiff || diff < -MaxDiff {
        return false;
      }
      buf := WriteRun(Difference, buf, Run(diff, count));
      ok := true;
    }

    /** `writeValue`: the checked writer. */
    method WriteValue(v: int) returns (ok: bool)
      requires Valid()
      modifies this
      ensures Valid() && (ok <==> Encodable(old(diff)) || v - old(s) == old(diff))
      ensures written == if ok then old(written) + [v] else old(written)
      ensures ok ==> diff == v - old(s)
      ensures Encodable(old(diff)) ==> Now() == Next(old(Now()), v)
    {
      if count > 0 && diff == v - s {
        ContinueHolds(Now(), runs, written, v);
        s, count := v, count + 1;
        written, ok := written + [v], true;
        return;
      }
      ghost var st := Now();
      ok := Flush();
      if ok {
        NextHolds(st, runs, written, v);
        count, diff := 1, v - s;
        s, written, runs := v, written + [v], Flushed(st, runs);
        assert Now() == Next(st, v);
      }
    }

    /** `writeTrustedClock`: refuses a new difference that is too large, unless the clocks
        are known to be bounded, and flushes without another check. */
    method WriteTrusted(v: int, bounded: bool) returns (ok: bool)
      requires Valid() && Encodable(diff) && (bounded ==> Encodable(v - s))
      modifies this
      ensures Valid() && (ok <==> Encodable(v - old(s)))
      ensures written == if ok then old(written) + [v] else old(written)
      ensures ok ==> Encodable(diff) && Now() == Next(old(Now()), v)
    {
      var d := v - s;
      if count > 0 && diff == d {
        ContinueHolds(Now(), runs, written, v);
        s, count := v, count + 1;
        written, ok := written + [v], true;
        return;
      }
      if !bounded && (d > MaxDiff || d < -MaxDiff) {
        return false;
      }
      ghost var st := Now();
      NextHolds(st, runs, written, v);
      if count > 0 {
        buf := WriteRun(Difference, buf, Run(diff, count));
      }
      count, diff := 1, d;
      s, written, runs, ok := v, written + [v], Flushed(st, runs), true;
      assert Now() == Next(st, v);
    }

    method Bytes() returns (out: Result<seq<Byte>>, ghost all: seq<Run>)
      requires Valid()
      modifies `buf
      ensures out.Ok? <==> Encodable(diff)
      ensures out.Ok? ==> AllFit(Difference, all) && out.value == AllBytes(Difference, all) && Differences(written, Expand(all)) && Maximal(all)
      ensures forall d: int, n: nat {:trigger Repeat(d, n)} :: out.Ok? && n > 0 && Differences(written, Repeat(d, n)) ==>
                var e: int := 2 * d + if n > 1 then 1 else 0;
                out.value == VarInt(if e < 0 then 0 - e else e, e < 0) + if n > 1 then VarUint(n - 2) else []
    {
      all := Flushed(Now(), runs);
      if Encodable(diff) { FlushHolds(Now(), runs, written); }
      var ok := Flush();
      out := if ok then Ok(buf) else Failed;
      forall d: int, n: nat | ok && n > 0 && Differences(written, Repeat(d, n))
        ensures var e: int := 2 * d + if n > 1 then 1 else 0;
                out.value == VarInt(if e < 0 then 0 - e else e, e < 0) + if n > 1 then VarUint(n - 2) else []
      {
        OneDifference(written, Expand(all), Repeat(d, n));
        DifferenceRun(all, d, n);
      }
    }
  }

  lemma {:induction false} FlushedPlusOne(vs: seq<int>, ds: seq<int>, v: int)
    requires Differences(vs, ds)
    ensures Differences(vs + [v], ds + Repeat(v - Last(vs), 1))
  {
    OneMore(vs, ds, v);
    RepeatOne(v - Last(vs));
  }

  ghost predicate InRange(v: int) { -0x8000_0000_0000_0000 <= v < 0x8000_0000_0000_0000 }

  /** If the bytes are what an encoder wrote: `count` times `diff`, then the differences of
      the runs, lead from `s` through the remaining clocks. */
  ghost predicate ClocksLeft(good: bool, buf: seq<Byte>, s: int, count: nat, diff: int, runs: seq<Run>, remaining: seq<int>) {
    good ==>
      && AllFit(Difference, runs) && AllShort(runs) && buf == AllBytes(Difference, runs)
      && Differences([s] + remaining, [s] + (Repeat(diff, count) + Expand(runs)))
      && forall i :: 0 <= i < |remaining| ==> InRange(remaining[i])
  }

  lemma {:induction false} OneClockLess(good: bool, buf: seq<Byte>, s: int, count: nat, diff: int, runs: seq<Run>, remaining: seq<int>)
    requires ClocksLeft(good, buf, s, count, diff, runs, remaining) && count > 0
    ensures good ==> remaining != [] && remaining[0] == s + diff && InRange(s + diff)
    ensures ClocksLeft(good, buf, s + diff, count - 1, diff, runs, if good then remaining[1..] else remaining)
  {
    if good {
      TakeOne(diff, count, Expand(runs));
      AdvanceOne(s, remaining, Repeat(diff, count) + Expand(runs));
    }
  }

  lemma {:induction false} NextClocks(buf: seq<Byte>, s: int, diff: int, runs: seq<Run>, remaining: seq<int>)
    requires ClocksLeft(true, buf, s, 0, diff, runs, remaining)
    ensures remaining == [] <==> runs == []
    ensures runs == [] ==> buf == []
    ensures runs != [] ==>
              && Fits(Difference, runs[0]) && Short(runs[0]) && buf == RunBytes(Difference, runs[0]) + AllBytes(Difference, runs[1..])
              && ClocksLeft(true, AllBytes(Difference, runs[1..]), s, runs[0].count, runs[0].value, runs[1..], remaining)
  {
    assert Repeat(diff, 0) + Expand(runs) == Expand(runs);
    if runs != [] {
      NextRun(Difference, runs);
      RepeatIs(runs[0].value, runs[0].count);
    }
  }

  class ClockDecoder {
    var buf: seq<Byte>
    var s: int
    var count: nat
    var diff: int
    ghost var good: bool
    ghost var runs: seq<Run>
    ghost var remaining: seq<int>

    ghost predicate Valid()
      reads this
    {
      InRange(s) && ClocksLeft(good, buf, s, count, diff, runs, remaining)
    }

    constructor (data: seq<Byte>, ghost values: seq<int>, ghost all: seq<Run>)
      ensures Valid() && buf == data && count == 0 && s == 0 && (good <==> ClocksLeft(true, data, 0, 0, 0, all, values)) && remaining == values
    {
      buf, s, count, diff, good, runs, remaining := data, 0, 0, 0, ClocksLeft(true, data, 0, 0, 0, all, values), all, values;
    }

    /** The next run is read, if there is one. */
    method Refill() returns (ok: bool)
      requires Valid() && count == 0
      modifies `buf, `count, `diff, `runs
      ensures Valid() && (good ==> ok == (remaining != []))
      ensures if ok then count > 0 && RunSays(Difference, old(buf), Run(diff, count), buf) else NoRun(Difference, old(buf)) && count == 0
    {
      if good { NextClocks(buf, s, diff, runs, remaining); }
      var run, rest := ReadRun(Difference, buf, if runs == [] then Run(0, 1) else runs[0], if !good || runs == [] then [] else AllBytes(Difference, runs[1..]));
      ok := run.Ok?;
      if ok {
        diff, count, buf, runs := run.value.value, run.value.count, rest, if runs == [] then [] else runs[1..];
      }
    }

    /** `readValue`: the next clock; a sum beyond 64 bits is refused. */
    method ReadValue() returns (v: Result<int>)
      requires Valid()
      modifies this
      ensures Valid() && good == old(good)
      ensures good ==> if old(remaining) == [] then v.Failed? && remaining == [] else v == Ok(old(remaining)[0]) && remaining == old(remaining)[1..]
      ensures old(count) > 0 ==> diff == old(diff) && buf == old(buf) && (v.Ok? <==> InRange(old(s) + diff))
      ensures old(count) == 0 && v.Ok? ==> RunSays(Difference, old(buf), Run(diff, count + 1), buf)
      ensures old(count) == 0 && v.Failed? ==> NoRun(Difference, old(buf)) || (RunSays(Difference, old(buf), Run(diff, count), buf) && !InRange(old(s) + diff))
      ensures v.Ok? ==> v.value == s == old(s) + diff && (old(count) > 0 ==> count == old(count) - 1)
    {
      if count == 0 {
        var ok := Refill();
        if !ok { return Failed; }
      }
      v := Step();
    }

    /** One clock of the current run. */
    method Step() returns (v: Result<int>)
      requires Valid() && count > 0
      modifies `s, `count, `remaining
      ensures Valid() && (v.Ok? <==> InRange(old(s) + diff))
      ensures v.Ok? ==> v.value == s == old(s) + diff && count == old(count) - 1
      ensures v.Failed? ==> s == old(s) && count == old(count)
      ensures good ==> old(remaining) != [] && v == Ok(old(remaining)[0]) && remaining == old(remaining)[1..]
    {
      OneClockLess(good, buf, s, count, diff, runs, remaining);
      if (diff > 0 && s > Max63 - 1 - diff) || (diff < 0 && s < -Max63 - diff) {
        return Failed;
      }
      s, count := s + diff, count - 1;
      if good { remaining := remaining[1..]; }
      v := Ok(s);
    }
  }

  method EncodeClocks(values: seq<int>, ghost ds: seq<int>) returns (data: Result<seq<Byte>>, ghost all: seq<Run>)
    requires Differences(values, ds) && forall i :: 0 <= i < |ds| ==> Encodable(ds[i])
    ensures data.Ok? && AllFit(Difference, all) && data.value == AllBytes(Difference, all) && Differences(values, Expand(all))
  {
    var e := new ClockEncoder();
    for i := 0 to |values|
      invariant e.Valid() && fresh(e) && e.written == values[..i] && Encodable(e.diff)
    {
      StepIsEncodable(values, ds, i, e.s);
      var ok := e.WriteValue(values[i]);
    }
    assert values[..|values|] == values;
    data, all := e.Bytes();
  }

  lemma {:induction false} StepIsEncodable(vs: seq<int>, ds: seq<int>, i: nat, s: int)
    requires Differences(vs, ds) && i < |vs| && s == Last(vs[..i]) && forall j :: 0 <= j < |ds| ==> Encodable(ds[j])
    ensures Encodable(vs[i] - s) && vs[..i] + [vs[i]] == vs[..i + 1]
  {
    assert StepAt(vs, ds, i) && Encodable(ds[i]);
  }

  method DecodeClocks(data: seq<Byte>, n: nat, ghost values: seq<int>, ghost all: seq<Run>) returns (out: seq<int>)
    requires AllFit(Difference, all) && AllShort(all) && data == AllBytes(Difference, all) && Differences(values, Expand(all)) && n == |values|
    requires forall i :: 0 <= i < |values| ==> -Max63 <= values[i] < Max63
    ensures out == values
  {
    assert Repeat(0, 0) + Expand(all) == Expand(all);
    FromZero(values, Expand(all));
    var d := new ClockDecoder(data, values, all);
    out := [];
    assert values[0..] == values;
    for i := 0 to n
      invariant d.Valid() && fresh(d) && d.good && out == values[..i] && d.remaining == values[i..]
    {
      OneRead(values, i);
      var v := d.ReadValue();
      out := out + [v.value];
    }
  }

  lemma {:induction false} SameDifferences(vs: seq<int>, a: seq<int>, b: seq<int>)
    requires Differences(vs, a) && Differences(vs, b)
    ensures a == b
  {
    forall i | 0 <= i < |a| ensures a[i] == b[i] { assert StepAt(vs, a, i) && StepAt(vs, b, i); }
  }

  /** Clocks with differences that can be encoded, not too often the same one in a row,
      are read back as they were written. */
  method ClockRoundTrip(values: seq<int>, ghost ds: seq<int>) returns (out: seq<int>)
    requires Differences(values, ds) && NoLongRun(ds) && forall i :: 0 <= i < |ds| ==> Encodable(ds[i])
    requires forall i :: 0 <= i < |values| ==> -Max63 <= values[i] < Max63
    ensures out == values
  {
    var data;
    ghost var all;
    data, all := EncodeClocks(values, ds);
    SameDifferences(values, ds, Expand(all));
    NoLongRunMeansShort(all);
    out := DecodeClocks(data.value, |values|, values, all);
  }

  lemma {:induction false} AdvanceOne(s: int, vs: seq<int>, ds: seq<int>)
    requires Differences([s] + vs, [s] + ds) && ds != []
    ensures vs != [] && vs[0] == s + ds[0] && Differences([vs[0]] + vs[1..], [vs[0]] + ds[1..])
  {
    var a, b := [s] + vs, [s] + ds;
    assert StepAt(a, b, 1);
    var vs', ds' := [vs[0]] + vs[1..], [vs[0]] + ds[1..];
    forall i | 0 <= i < |ds'| ensures StepAt(vs', ds', i) { if i > 0 { assert StepAt(a, b, i + 1); } }
  }

  lemma {:induction false} FromZero(vs: seq<int>, ds: seq<int>)
    requires Differences(vs, ds)
    ensures Differences([0] + vs, [0] + ds)
  {
    var vs', ds' := [0] + vs, [0] + ds;
    forall i | 0 <= i < |ds'| ensures StepAt(vs', ds', i) { if i > 0 { assert StepAt(vs, ds, i - 1); } }
  }
}

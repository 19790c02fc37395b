/** The plain run-length codec: each value is followed by the length of its run, except
    the last one, which is read for ever. */
module ByteCodec {
  import opened VarInts
  import opened ColumnRuns
  import opened ColumnCodecs

  predicate Good(r: Run) { 0 <= r.value < 256 && 0 < r.count }

  ghost predicate AllGood(runs: seq<Run>) {
    forall i {:trigger Good(runs[i])} :: 0 <= i < |runs| ==> Good(runs[i])
  }

  /** Finished runs, with their lengths. */
  function Full(runs: seq<Run>): seq<Byte>
    requires AllGood(runs)
  {
    if runs == [] then [] else
      assert Good(runs[0]);
      assert AllGood(runs[1..]) by { forall i | 0 <= i < |runs[1..]| ensures Good(runs[1..][i]) { assert Good(runs[i + 1]); } }
      [runs[0].value] + VarUint(runs[0].count - 1) + Full(runs[1..])
  }

  lemma {:induction false} GoodAppend(runs: seq<Run>, r: Run)
    requires AllGood(runs) && Good(r)
    ensures AllGood(runs + [r])
  {
    forall i | 0 <= i < |runs| + 1 ensures Good((runs + [r])[i]) { if i < |runs| { assert Good(runs[i]); } }
  }

  lemma {:induction false} FirstGood(runs: seq<Run>)
    requires AllGood(runs) && AllShort(runs) && runs != []
    ensures Good(runs[0]) && Short(runs[0]) && AllGood(runs[1..]) && AllShort(runs[1..])
    ensures Full(runs) == [runs[0].value] + VarUint(runs[0].count - 1) + Full(runs[1..])
    ensures Expand(runs) == Repeat(runs[0].value, runs[0].count) + Expand(runs[1..])
  {
    assert Good(runs[0]) && Short(runs[0]);
    forall i | 0 <= i < |runs[1..]| ensures Good(runs[1..][i]) && Short(runs[1..][i]) { assert Good(runs[i + 1]) && Short(runs[i + 1]); }
  }

  lemma {:induction false} FullAppend(runs: seq<Run>, r: Run)
    requires AllGood(runs) && Good(r)
    ensures AllGood(runs + [r]) && Full(runs + [r]) == Full(runs) + ([r.value] + VarUint(r.count - 1))
    decreases |runs|
  {
    GoodAppend(runs, r);
    if runs == [] {
      assert ([] + [r])[1..] == [];
    } else {
      assert (runs + [r])[1..] == runs[1..] + [r];
      assert AllGood(runs[1..]) by { forall i | 0 <= i < |runs[1..]| ensures Good(runs[1..][i]) { assert Good(runs[i + 1]); } }
      FullAppend(runs[1..], r);
      assert Good(runs[0]);
      Associate([runs[0].value] + VarUint(runs[0].count - 1), Full(runs[1..]), [r.value] + VarUint(r.count - 1));
    }
  }

  predicate EndsOtherwise(vs: seq<int>, v: int) { vs != [] ==> vs[|vs| - 1] != v }

  /** What is written: the finished runs and the value of the current one. */
  ghost predicate Written(buf: seq<Byte>, runs: seq<Run>, state: int, count: nat, values: seq<int>) {
    && AllGood(runs) && 0 <= state < 256 && count > 0 && EndsOtherwise(Expand(runs), state)
    && buf == Full(runs) + [state] && values == Expand(runs) + Repeat(state, count)
  }

  lemma {:induction false} SameAgain(buf: seq<Byte>, runs: seq<Run>, state: int, count: nat, values: seq<int>)
    requires Written(buf, runs, state, count, values)
    ensures Written(buf, runs, state, count + 1, values + [state])
  {
    RepeatMore(state, count);
  }

  lemma {:induction false} AnotherRun(buf: seq<Byte>, runs: seq<Run>, state: int, count: nat, values: seq<int>, v: Byte)
    requires Written(buf, runs, state, count, values) && v != state
    ensures Written(buf + VarUint(count - 1) + [v], runs + [Run(state, count)], v, 1, values + [v])
  {
    FullAppend(runs, Run(state, count));
    ExpandAppend(runs, Run(state, count));
    RepeatOne(v);
    RepeatIs(state, count);
    Associate(Full(runs), [state], VarUint(count - 1));
  }

  class ByteEncoder {
    var buf: seq<Byte>
    var state: Byte
    var count: nat
    ghost var runs: seq<Run>
    ghost var written: seq<int>

    ghost predicate Valid()
      reads this
    {
      if count == 0 then buf == [] && runs == [] && written == [] else Written(buf, runs, state, count, written)
    }

    constructor ()
      ensures Valid() && written == []
    {
      buf, state, count, runs, written := [], 0, 0, [], [];
    }

    method WriteValue(v: Byte)
      requires Valid()
      modifies this
      ensures Valid() && count > 0 && written == old(written) + [v]
      ensures if old(count) > 0 && old(state) == v then buf == old(buf) && count == old(count) + 1
              else count == 1 && state == v && buf == (if old(count) > 0 then old(buf) + VarUint(old(count) - 1) else old(buf)) + [v]
    {
      if count > 0 && state == v {
        SameAgain(buf, runs, state, count, written);
        count := count + 1;
      } else {
        if count > 0 {
          AnotherRun(buf, runs, state, count, written, v);
          buf := AppendVarUint(buf, count - 1);
          runs := runs + [Run(state, count)];
        } else {
          RepeatOne(v);
          assert Full([]) == [] && Expand([]) == [];
        }
        buf := buf + [v];
        count, state := 1, v;
      }
      written := written + [v];
    }
  }

  /** What is still to be read: `more` of the current value, whole runs, and the last value. */
  ghost predicate ToRead(buf: seq<Byte>, state: int, count: int, runs: seq<Run>, last: Run, remaining: seq<int>) {
    if count < 0 then
      remaining == Repeat(state, last.count) && buf == []
    else
      && AllGood(runs) && AllShort(runs) && 0 <= last.value < 256
      && buf == Full(runs) + [last.value] && remaining == Repeat(state, count) + (Expand(runs) + Repeat(last.value, last.count))
  }

  /** What any bytes say: a value, and how often it stands there; without a count it has no end. */
  ghost predicate ByteRunSays(buf: seq<Byte>, state: Byte, count: int, rest: seq<Byte>) {
    && buf != [] && state == buf[0]
    && if |buf| == 1 then count == -1 && rest == [] else 1 <= count <= 0x7fff_ffff && Says(buf[1..], 0, 0, 10, count - 1, rest)
  }

  ghost predicate NoByteRun(buf: seq<Byte>) {
    forall state, count, rest {:trigger ByteRunSays(buf, state, count, rest)} :: !ByteRunSays(buf, state, count, rest)
  }

  lemma {:induction false} OneCount(buf: seq<Byte>, n: nat, rest: seq<Byte>)
    requires |buf| > 1 && Says(buf[1..], 0, 0, 10, n, rest)
    ensures forall state, count, more {:trigger ByteRunSays(buf, state, count, more)} :: ByteRunSays(buf, state, count, more) ==> count == n + 1
  {
    forall state, count, more | ByteRunSays(buf, state, count, more) ensures count == n + 1 {
      SaysOnce(buf[1..], 0, 0, 10, n, rest, count - 1, more);
    }
  }

  /** At the beginning of a run: the value, and what is left behind it. */
  lemma {:induction false} NextByteRun(buf: seq<Byte>, state: int, runs: seq<Run>, last: Run, remaining: seq<int>)
    requires ToRead(buf, state, 0, runs, last, remaining)
    ensures buf != [] && (runs == [] <==> |buf| == 1)
    ensures runs == [] ==> ToRead([], buf[0], -1, runs, last, remaining)
    ensures runs != [] ==>
              && runs[0].count > 0 && Short(runs[0]) && var tail := Full(runs[1..]) + [last.value];
              && buf[1..] == VarUint(runs[0].count - 1) + tail && ToRead(tail, buf[0], runs[0].count, runs[1..], last, remaining)
  {
    var rest := Expand(runs) + Repeat(last.value, last.count);
    assert Repeat(state, 0) + rest == rest;
    if runs != [] {
      FirstGood(runs);
      NextBytes(runs[0].value, VarUint(runs[0].count - 1), Full(runs[1..]), [last.value]);
      Associate2(Repeat(runs[0].value, runs[0].count), Expand(runs[1..]), Repeat(last.value, last.count));
    }
  }

  class ByteDecoder {
    var buf: seq<Byte>
    var state: Byte
    var count: int
    ghost var good: bool
    ghost var runs: seq<Run>
    ghost var last: Run
    ghost var remaining: seq<int>

    ghost predicate Valid()
      reads this
    {
      good ==> ToRead(buf, state, count, runs, last, remaining)
    }

    constructor (data: seq<Byte>, ghost all: seq<Run>, ghost end: Run)
      ensures Valid() && buf == data && count == 0 && remaining == Expand(all) + Repeat(end.value, end.count)
      ensures good <==> AllGood(all) && AllShort(all) && 0 <= end.value < 256 && data == Full(all) + [end.value]
    {
      buf, state, count, runs, last, remaining := data, 0, 0, all, end, Expand(all) + Repeat(end.value, end.count);
      good := AllGood(all) && AllShort(all) && 0 <= end.value < 256 && data == Full(all) + [end.value];
      new;
      assert Repeat(0, 0) + remaining == remaining;
    }

    /** The next run is read; when nothing follows its value, it has no end. */
    method Refill() returns (ok: bool)
      requires Valid() && count == 0
      modifies `buf, `state, `count, `runs
      ensures good ==> Valid() && ok
      ensures if ok then count != 0 && ByteRunSays(old(buf), state, count, buf) else NoByteRun(old(buf))
    {
      if good { NextByteRun(buf, state, runs, last, remaining); }
      if buf == [] {
        return false;
      }
      ghost var tail := if !good || runs == [] then [] else Full(runs[1..]) + [last.value];
      ghost var n0: nat := if !good || runs == [] then 0 else runs[0].count - 1;
      state, buf := buf[0], buf[1..];
      if buf != [] {
        var n;
        n, buf := ReadUvarint(buf, n0, tail);
        ok := n.Ok? && n.value < MaxRun;
        if ok {
          count := n.value + 1;
          runs := if runs == [] then [] else runs[1..];
        } else if n.Ok? {
          OneCount(old(buf), n.value, buf);
        }
      } else {
        count, ok := -1, true;
      }
    }

    /** `readValue`: the next byte, or a failure when there is none. */
    method ReadValue() returns (v: Result<int>)
      requires Valid()
      modifies this
      ensures Valid() && good == old(good)
      ensures good && old(remaining) != [] ==> v == Ok(old(remaining)[0]) && remaining == old(remaining)[1..]
      ensures old(count) != 0 ==> v == Ok(old(state)) && (buf, state, count) == (old(buf), old(state), old(count) - 1)
      ensures old(count) == 0 ==> if v.Ok? then v.value == state && ByteRunSays(old(buf), state, count + 1, buf) else NoByteRun(old(buf))
    {
      if count == 0 {
        var ok := Refill();
        if !ok { return Failed; }
      }
      v := Step();
    }

    /** One byte of the current run. */
    method Step() returns (v: Result<int>)
      requires Valid() && count != 0
      modifies `count, `last, `remaining
      ensures Valid() && v == Ok(state) && count == old(count) - 1
      ensures good && old(remaining) != [] ==> state == old(remaining)[0] && remaining == old(remaining)[1..]
    {
      v := Ok(state);
      if good { ReadOne(buf, state, count, runs, last, remaining); }
      count := count - 1;
      if good && remaining != [] {
        if count < -1 { last := last.(count := last.count - 1); }
        remaining := remaining[1..];
      }
    }
  }

  lemma {:induction false} NextBytes(v: Byte, n: seq<Byte>, more: seq<Byte>, end: seq<Byte>)
    ensures var all := ([v] + n + more) + end; all[0] == v && all[1..] == n + (more + end)
  {
  }

  lemma {:induction false} Associate2(a: seq<int>, b: seq<int>, c: seq<int>)
    ensures (a + b) + c == a + (b + c)
  {
  }

  /** One value less to read. */
  lemma {:induction false} ReadOne(buf: seq<Byte>, state: int, count: int, runs: seq<Run>, last: Run, remaining: seq<int>)
    requires ToRead(buf, state, count, runs, last, remaining) && count != 0
    ensures count > 0 ==> remaining != []
    ensures remaining != [] ==> remaining[0] == state
    ensures remaining != [] ==> (count < 0 ==> last.count > 0) && ToRead(buf, state, count - 1, runs, if count < 0 then last.(count := last.count - 1) else last, remaining[1..])
    ensures remaining == [] ==> ToRead(buf, state, count - 1, runs, last, remaining)
  {
    if count > 0 {
      TakeOne(state, count, Expand(runs) + Repeat(last.value, last.count));
    } else if last.count > 0 {
      TakeOne(state, last.count, []);
      assert Repeat(state, last.count) + [] == Repeat(state, last.count);
      assert Repeat(state, last.count - 1) + [] == Repeat(state, last.count - 1);
    }
  }

  /** A value that stands too often in a row is the last one. */
  ghost predicate LongRunsEnd(vs: seq<int>) {
    forall i {:trigger LongRunAt(vs, i)} :: 0 <= i < |vs| && LongRunAt(vs, i) ==> forall j :: i <= j < |vs| ==> vs[j] == vs[i]
  }

  /** So no finished run is too long. */
  lemma {:induction false} NoLongRunBefore(a: seq<int>, b: seq<int>)
    requires LongRunsEnd(a + b) && b != [] && EndsOtherwise(a, b[0])
    ensures NoLongRun(a)
  {
    var vs := a + b;
    forall i | 0 <= i < |a| ensures !LongRunAt(a, i) {
      assert vs[i] == a[i] && vs[|a|] == b[0] && vs[|a| - 1] == a[|a| - 1];
      if LongRunAt(a, i) {
        assert LongRunAt(vs, i) by { assert forall j :: 0 <= j < |a| ==> vs[j] == a[j]; }
      }
    }
  }

  /** Bytes come back as they were written, as long as none but the last stands too often
      in a row. */
  method ByteRoundTrip(values: seq<int>) returns (out: seq<int>)
    requires LongRunsEnd(values) && forall i :: 0 <= i < |values| ==> 0 <= values[i] < 256
    ensures out == values
  {
    var e := new ByteEncoder();
    for i := 0 to |values|
      invariant e.Valid() && fresh(e) && e.written == values[..i] && (i > 0 ==> e.count > 0)
    {
      OneRead(values, i);
      e.WriteValue(values[i]);
    }
    assert values[..|values|] == values;
    if values == [] { return []; }
    RepeatIs(e.state, e.count);
    NoLongRunBefore(Expand(e.runs), Repeat(e.state, e.count));
    NoLongRunMeansShort(e.runs);
    out := DecodeBytes(e.buf, |values|, values, e.runs, Run(e.state, e.count));
  }

  method DecodeBytes(data: seq<Byte>, n: nat, ghost values: seq<int>, ghost all: seq<Run>, ghost end: Run) returns (out: seq<int>)
    requires AllGood(all) && AllShort(all) && 0 <= end.value < 256 && data == Full(all) + [end.value]
    requires values == Expand(all) + Repeat(end.value, end.count) && n == |values|
    ensures out == values
  {
    var d := new ByteDecoder(data, all, end);
    out := [];
    assert values[0..] == values;
    for i := 0 to n
      invariant d.Valid() && fresh(d) && d.good && out == values[..i] && d.remaining == values[i..]
    {
      OneRead(values, i);
      var v := d.ReadValue();
      out := out + [v.value];
    }
  }
}
